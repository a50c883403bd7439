/** AdminService: every listing is recorded under the signed-in admin, and an admin can read
    back their three most recent criteria. The current user and the clock are parameters. */
module AdminService {
  import opened Wrappers
  import opened Entities
  import opened QueryParameters
  import opened SearchParametersRepository
  import CriteriaCodec

  /** JsonSerializer.Serialize and Deserialize for ClientsQueryParameters: library code the
      service calls, so the service holds them as a pair of functions. */
  datatype Serializer = Serializer(
    serialize: ClientsQueryParameters -> string,
    deserialize: string -> Option<ClientsQueryParameters>)

  /** What the service relies on: deserializing a serialized value gives it back. */
  ghost predicate RoundTrips(ser: Serializer) {
    forall p :: ser.deserialize(ser.serialize(p)) == Some(p)
  }

  /** The concrete text form of the criteria. */
  const Codec: Serializer := Serializer(CriteriaCodec.Encode, CriteriaCodec.Decode)

  lemma CodecRoundTrips()
    ensures RoundTrips(Codec)
  {
    forall p
      ensures Codec.deserialize(Codec.serialize(p)) == Some(p)
    {
      CriteriaCodec.RoundTrip(p);
    }
  }

  /** Every record's criteria text deserializes. */
  predicate AllDecode(ser: Serializer, sps: seq<SearchParameter>) {
    forall k :: 0 <= k < |sps| ==> ser.deserialize(sps[k].searchCriteria).Some?
  }

  class AdminService {
    const repository: SearchParameterTable
    const serializer: Serializer

    constructor (repository: SearchParameterTable, serializer: Serializer)
      ensures this.repository == repository && this.serializer == serializer
    {
      this.repository := repository;
      this.serializer := serializer;
    }

    /** SaveSearchParametersAsync: no current user is an error and nothing is written;
        otherwise one record with the serialized criteria, the time and the admin's id. */
    method SaveSearchParameters(p: ClientsQueryParameters, currentUser: Option<string>, now: int)
      returns (r: Result<(), Error>)
      modifies repository
      ensures currentUser.None? ==> r == Failure(NoCurrentUser) && repository.records == old(repository.records)
      ensures currentUser.Some? ==>
                && r == Success(())
                && repository.records ==
                     old(repository.records) + [SearchParameter(serializer.serialize(p), now, currentUser.value)]
    {
      if currentUser.None? {
        return Failure(NoCurrentUser);
      }
      var sp := SearchParameter(serializer.serialize(p), now, currentUser.value);
      repository.AddSearchParameter(sp);
      r := Success(());
    }

    /** GetLastSearchParametersAsync: the admin's three newest records, deserialized in the
        order the repository returns them; one that does not deserialize fails the call. */
    method GetLastSearchParameters(currentUser: Option<string>)
      returns (r: Result<seq<ClientsQueryParameters>, Error>)
      ensures currentUser.None? ==> r == Failure(NoCurrentUser)
      ensures currentUser.Some? ==>
                var sps := LastSearches(repository.records, currentUser.value, 3);
                && (r.Success? <==> AllDecode(serializer, sps))
                && (r.Failure? ==> r.error == DataCorruption)
                && (r.Success? ==>
                      && |r.value| == |sps| <= 3
                      && forall k :: 0 <= k < |sps| ==> serializer.deserialize(sps[k].searchCriteria) == Some(r.value[k]))
    {
      if currentUser.None? {
        return Failure(NoCurrentUser);
      }
      var sps := repository.GetLastSearchParameters(currentUser.value, 3);
      var out: seq<ClientsQueryParameters> := [];
      var i := 0;
      while i < |sps|
        invariant 0 <= i <= |sps|
        invariant |out| == i
        invariant forall k :: 0 <= k < i ==> serializer.deserialize(sps[k].searchCriteria) == Some(out[k])
      {
        var decoded := serializer.deserialize(sps[i].searchCriteria);
        if decoded.None? {
          return Failure(DataCorruption);
        }
        out := out + [decoded.value];
        i := i + 1;
      }
      r := Success(out);
    }
  }

  /** Records written by SaveSearchParameters always deserialize, so reading back succeeds. */
  lemma SavedRecordsDecode(ser: Serializer, records: seq<SearchParameter>, adminId: string)
    requires RoundTrips(ser)
    requires forall sp :: sp in records ==> exists p :: sp.searchCriteria == ser.serialize(p)
    ensures AllDecode(ser, LastSearches(records, adminId, 3))
  {
    var sps := LastSearches(records, adminId, 3);
    LastSearchesSpec(records, adminId, 3);
    forall k | 0 <= k < |sps|
      ensures ser.deserialize(sps[k].searchCriteria).Some?
    {
      assert sps[k] in sps;
      var p :| sps[k].searchCriteria == ser.serialize(p);
    }
  }

  /** The criteria just saved, at a time later than the admin's earlier searches, are the
      first that the admin reads back. */
  lemma SavedSearchIsRecalledFirst(ser: Serializer, records: seq<SearchParameter>,
                                   p: ClientsQueryParameters, adminId: string, now: int)
    requires RoundTrips(ser)
    requires forall sp :: sp in records && sp.adminId == adminId ==> sp.searchDate < now
    ensures var sps := LastSearches(records + [SearchParameter(ser.serialize(p), now, adminId)], adminId, 3);
            |sps| >= 1 && ser.deserialize(sps[0].searchCriteria) == Some(p)
  {
    NewestSearchComesFirst(records, SearchParameter(ser.serialize(p), now, adminId), 3);
  }
}
