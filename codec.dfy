/** The text form of a ClientsQueryParameters kept in SearchParameter.SearchCriteria.
    Every field is written in declaration order: a string as its decimal length, ':' and
    its characters, an int as an optional '-', decimal digits and ';', null as '~'. */
module CriteriaCodec {
  import opened Wrappers
  import opened Entities
  import opened QueryParameters
  import opened Text

  function DigitChar(d: nat): (c: char)
    requires d < 10
    ensures IsDigit(c)
  {
    ('0' as int + d) as char
  }

  function DigitValue(c: char): nat
    requires IsDigit(c)
  {
    c as int - '0' as int
  }

  /** The decimal digits of n, most significant first, without leading zeros. */
  function NatDigits(n: nat): (r: string)
    ensures |r| >= 1 && AllDigits(r)
  {
    (if n < 10 then [] else NatDigits(n / 10)) + [DigitChar(n % 10)]
  }

  function DigitsValue(ds: string): nat
    requires AllDigits(ds)
  {
    if ds == [] then 0 else DigitsValue(ds[..|ds| - 1]) * 10 + DigitValue(ds[|ds| - 1])
  }

  lemma DigitCharValue(d: nat)
    requires d < 10
    ensures DigitValue(DigitChar(d)) == d
  {
  }

  lemma {:induction false} NatDigitsValue(n: nat)
    ensures DigitsValue(NatDigits(n)) == n
  {
    var ds := NatDigits(n);
    var prefix := if n < 10 then [] else NatDigits(n / 10);
    var last := n % 10;
    assert ds == prefix + [DigitChar(last)];
    assert ds[..|ds| - 1] == prefix;
    assert ds[|ds| - 1] == DigitChar(last);
    DigitCharValue(last);
    assert DigitsValue(ds) == DigitsValue(prefix) * 10 + last;
    if n >= 10 {
      NatDigitsValue(n / 10);
    }
    assert DigitsValue(prefix) == n / 10;
  }

  /** The length of the longest all-digit prefix. */
  function DigitRun(s: string): (k: nat)
    ensures k <= |s| && AllDigits(s[..k])
    ensures k < |s| ==> !IsDigit(s[k])
  {
    if s == [] || !IsDigit(s[0]) then 0
    else
      var k := 1 + DigitRun(s[1..]);
      assert s[..k] == [s[0]] + s[1..][..k - 1];
      k
  }

  datatype Parsed<+T> = Parsed(value: T, rest: string)

  function ReadNat(s: string): Option<Parsed<nat>> {
    var k := DigitRun(s);
    if k == 0 then None else Some(Parsed(DigitsValue(s[..k]), s[k..]))
  }

  function Expect(s: string, c: char): Option<string> {
    if s != [] && s[0] == c then Some(s[1..]) else None
  }

  /** A run of digits followed by a text that does not start with a digit is read whole. */
  lemma {:induction false} DigitRunOfDigits(ds: string, rest: string)
    requires AllDigits(ds)
    requires rest == [] || !IsDigit(rest[0])
    ensures DigitRun(ds + rest) == |ds|
  {
    if ds != [] {
      assert (ds + rest)[0] == ds[0];
      assert (ds + rest)[1..] == ds[1..] + rest;
      DigitRunOfDigits(ds[1..], rest);
    } else {
      assert ds + rest == rest;
    }
  }

  /** n written out, followed by a text that does not start with a digit, reads back as n. */
  lemma ReadNatDigits(n: nat, rest: string)
    requires rest == [] || !IsDigit(rest[0])
    ensures ReadNat(NatDigits(n) + rest) == Some(Parsed(n, rest))
  {
    var ds := NatDigits(n);
    var s := ds + rest;
    var k := DigitRun(s);
    DigitRunOfDigits(ds, rest);
    assert s[..k] == ds && s[k..] == rest;
    NatDigitsValue(n);
  }

  lemma Assoc<T>(a: seq<T>, b: seq<T>, c: seq<T>)
    ensures (a + b) + c == a + (b + c)
  {
  }

  lemma Regroup<T>(a: seq<T>, b: seq<T>, c: seq<T>, d: seq<T>)
    ensures (a + (b + c)) + d == a + (b + (c + d))
  {
  }

  const NullMark: char := '~'

  function EncodeString(o: Option<string>): string {
    match o
    case None => [NullMark]
    case Some(x) => NatDigits(|x|) + ([':'] + x)
  }

  function ReadString(s: string): Option<Parsed<Option<string>>> {
    if s != [] && s[0] == NullMark then Some(Parsed(None, s[1..]))
    else
      var n :- ReadNat(s);
      var t :- Expect(n.rest, ':');
      if |t| < n.value then None else Some(Parsed(Some(t[..n.value]), t[n.value..]))
  }

  lemma ReadEncodedString(o: Option<string>, rest: string)
    ensures ReadString(EncodeString(o) + rest) == Some(Parsed(o, rest))
  {
    if o.Some? {
      var x := o.value;
      var ds := NatDigits(|x|);
      var t := x + rest;
      var u := [':'] + t;
      var s := EncodeString(o) + rest;
      Regroup(ds, [':'], x, rest);
      assert s == ds + u;
      ReadNatDigits(|x|, u);
      assert ReadNat(s) == Some(Parsed(|x|, u));
      assert s[0] != NullMark by { assert s[0] == ds[0]; }
      assert u[1..] == t;
      assert Expect(u, ':') == Some(t);
      assert t[..|x|] == x && t[|x|..] == rest;
    }
  }

  function EncodeStrings(xs: seq<Option<string>>): string {
    if xs == [] then [] else EncodeString(xs[0]) + EncodeStrings(xs[1..])
  }

  function ReadStrings(s: string, n: nat): (r: Option<Parsed<seq<Option<string>>>>)
    ensures r.Some? ==> |r.value.value| == n
  {
    if n == 0 then Some(Parsed([], s))
    else
      var first :- ReadString(s);
      var others :- ReadStrings(first.rest, n - 1);
      Some(Parsed([first.value] + others.value, others.rest))
  }

  lemma {:induction false} ReadEncodedStrings(xs: seq<Option<string>>, rest: string)
    ensures ReadStrings(EncodeStrings(xs) + rest, |xs|) == Some(Parsed(xs, rest))
  {
    if xs != [] {
      var head := EncodeString(xs[0]);
      var tail := EncodeStrings(xs[1..]) + rest;
      var s := EncodeStrings(xs) + rest;
      Assoc(head, EncodeStrings(xs[1..]), rest);
      assert s == head + tail;
      ReadEncodedString(xs[0], tail);
      assert ReadString(s) == Some(Parsed(xs[0], tail));
      ReadEncodedStrings(xs[1..], rest);
      assert ReadStrings(tail, |xs| - 1) == Some(Parsed(xs[1..], rest));
      assert [xs[0]] + xs[1..] == xs;
    } else {
      assert EncodeStrings(xs) + rest == rest;
    }
  }

  function EncodeInt(x: int): string {
    if x < 0 then ['-'] + (NatDigits(-x) + [';']) else NatDigits(x) + [';']
  }

  function ReadInt(s: string): Option<Parsed<int>> {
    if s != [] && s[0] == '-' then
      var n :- ReadNat(s[1..]);
      var t :- Expect(n.rest, ';');
      var v: int := 0 - n.value;
      Some(Parsed(v, t))
    else
      var n :- ReadNat(s);
      var t :- Expect(n.rest, ';');
      var v: int := n.value;
      Some(Parsed(v, t))
  }

  lemma ReadEncodedInt(x: int, rest: string)
    ensures ReadInt(EncodeInt(x) + rest) == Some(Parsed(x, rest))
  {
    if x < 0 {
      ReadEncodedNegative(x, rest);
    } else {
      ReadEncodedNonNegative(x, rest);
    }
  }

  /** A minus sign, the digits of -x and the terminator read back as x. */
  lemma ReadEncodedNegative(x: int, rest: string)
    requires x < 0
    ensures ReadInt(EncodeInt(x) + rest) == Some(Parsed(x, rest))
  {
    var m: int := -x;
    var s := ['-'] + (NatDigits(m) + ([';'] + rest));
    assert EncodeInt(x) == ['-'] + (NatDigits(m) + [';']);
    assert EncodeInt(x) + rest == s by {
      Regroup(['-'], NatDigits(m), [';'], rest);
    }
    ReadMinusDigits(m, rest);
    assert ReadInt(s) == Some(Parsed(x, rest));
  }

  lemma ReadMinusDigits(m: int, rest: string)
    requires m > 0
    ensures ReadInt(['-'] + (NatDigits(m) + ([';'] + rest))) == Some(Parsed(-m, rest))
  {
    var u := [';'] + rest;
    var s := ['-'] + (NatDigits(m) + u);
    assert s[1..] == NatDigits(m) + u;
    ReadNatDigits(m, u);
    assert Expect(u, ';') == Some(rest);
  }

  /** The digits of x and the terminator read back as x: the text starts with a digit. */
  lemma ReadEncodedNonNegative(x: int, rest: string)
    requires x >= 0
    ensures ReadInt(EncodeInt(x) + rest) == Some(Parsed(x, rest))
  {
    var u := [';'] + rest;
    var ds := NatDigits(x);
    var s := EncodeInt(x) + rest;
    assert s == ds + u by {
      Assoc(ds, [';'], rest);
    }
    assert s[0] == ds[0];
    ReadNatDigits(x, u);
    assert Expect(u, ';') == Some(rest);
  }

  function EncodeOptInt(o: Option<int>): string {
    match o
    case None => [NullMark]
    case Some(x) => EncodeInt(x)
  }

  function ReadOptInt(s: string): Option<Parsed<Option<int>>> {
    if s != [] && s[0] == NullMark then Some(Parsed(None, s[1..]))
    else
      var x :- ReadInt(s);
      Some(Parsed(Some(x.value), x.rest))
  }

  lemma ReadEncodedOptInt(o: Option<int>, rest: string)
    ensures ReadOptInt(EncodeOptInt(o) + rest) == Some(Parsed(o, rest))
  {
    if o.Some? {
      ReadEncodedInt(o.value, rest);
      var s := EncodeOptInt(o) + rest;
      if o.value >= 0 {
        assert s[0] == NatDigits(o.value)[0];
      }
    }
  }

  function EncodeBool(b: bool): string { if b then "T" else "F" }

  function ReadBool(s: string): Option<Parsed<bool>> {
    if s != [] && s[0] == 'T' then Some(Parsed(true, s[1..]))
    else if s != [] && s[0] == 'F' then Some(Parsed(false, s[1..]))
    else None
  }

  function EncodeGender(g: ClientGender): string {
    match g
    case Male => "M"
    case Female => "F"
    case Other => "O"
  }

  function ReadGender(s: string): Option<Parsed<ClientGender>> {
    if s == [] then None
    else if s[0] == 'M' then Some(Parsed(Male, s[1..]))
    else if s[0] == 'F' then Some(Parsed(Female, s[1..]))
    else if s[0] == 'O' then Some(Parsed(Other, s[1..]))
    else None
  }

  /** The thirteen string properties, in declaration order. */
  function StringFields(p: ClientsQueryParameters): (r: seq<Option<string>>)
    ensures |r| == 13
  {
    [p.email, p.firstName, p.lastName, p.personalId, p.mobileNumber, p.searchTerm, p.sortBy,
     p.country, p.city, p.street, p.zipCode, p.accountNumber, p.accountType]
  }

  function FromFields(strs: seq<Option<string>>, sex: ClientGender, desc: bool, pageNumber: int,
                      pageSize: int, minBalance: Option<int>, maxBalance: Option<int>): ClientsQueryParameters
    requires |strs| == 13
  {
    ClientsQueryParameters(strs[0], strs[1], strs[2], strs[3], strs[4], sex, strs[5], strs[6], desc,
                           pageNumber, pageSize, strs[7], strs[8], strs[9], strs[10], strs[11],
                           strs[12], minBalance, maxBalance)
  }

  /** JsonSerializer.Serialize(queryParameters) */
  function Encode(p: ClientsQueryParameters): string {
    EncodeStrings(StringFields(p)) + (EncodeGender(p.sex) + (EncodeBool(p.sortDescending) +
      (EncodeInt(p.pageNumber) + (EncodeInt(p.pageSize) + (EncodeOptInt(p.minBalance) +
      EncodeOptInt(p.maxBalance))))))
  }

  /** JsonSerializer.Deserialize<ClientsQueryParameters>(text): None when the text is malformed. */
  function Decode(s: string): Option<ClientsQueryParameters> {
    var strs :- ReadStrings(s, 13);
    var sex :- ReadGender(strs.rest);
    var desc :- ReadBool(sex.rest);
    var pageNumber :- ReadInt(desc.rest);
    var pageSize :- ReadInt(pageNumber.rest);
    var minBalance :- ReadOptInt(pageSize.rest);
    var maxBalance :- ReadOptInt(minBalance.rest);
    if maxBalance.rest != [] then None
    else Some(FromFields(strs.value, sex.value, desc.value, pageNumber.value, pageSize.value,
                         minBalance.value, maxBalance.value))
  }

  /** What is stored reads back as what was saved, every field included. */
  lemma RoundTrip(p: ClientsQueryParameters)
    ensures Decode(Encode(p)) == Some(p)
  {
    var r6 := EncodeOptInt(p.maxBalance);
    var r5 := EncodeOptInt(p.minBalance) + r6;
    var r4 := EncodeInt(p.pageSize) + r5;
    var r3 := EncodeInt(p.pageNumber) + r4;
    var r2 := EncodeBool(p.sortDescending) + r3;
    var r1 := EncodeGender(p.sex) + r2;
    assert Encode(p) == EncodeStrings(StringFields(p)) + r1;
    ReadEncodedStrings(StringFields(p), r1);
    assert ReadStrings(Encode(p), 13) == Some(Parsed(StringFields(p), r1));
    assert ReadGender(r1) == Some(Parsed(p.sex, r2));
    assert ReadBool(r2) == Some(Parsed(p.sortDescending, r3));
    ReadEncodedInt(p.pageNumber, r4);
    ReadEncodedInt(p.pageSize, r5);
    ReadEncodedOptInt(p.minBalance, r6);
    ReadEncodedOptInt(p.maxBalance, []);
    assert r6 + [] == r6;
    assert FromFields(StringFields(p), p.sex, p.sortDescending, p.pageNumber, p.pageSize,
                      p.minBalance, p.maxBalance) == p;
  }

  /** The empty text is not a saved criteria. */
  lemma EmptyIsCorrupt()
    ensures Decode([]).None?
  {
  }
}
