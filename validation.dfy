/** The data-annotation attributes on the request DTOs, read as predicates over field values,
    and each DTO's attributes combined into the check Validator.TryValidateObject makes. */
module Validation {
  import opened Wrappers
  import opened Text
  import opened Dtos

  /** [Required] on a string: not null, and not empty or white space only. */
  predicate Required(s: Option<string>) {
    !IsNullOrWhiteSpace(s)
  }

  /** [MaxLength(n)] on a string: null passes, otherwise at most n UTF-16 code units
      (String.Length). */
  predicate MaxLength(s: Option<string>, n: int) {
    s.None? || Utf16Length(s.value) <= n
  }

  /** [StringLength(max, MinimumLength = min)]: null passes; only bounds on String.Length,
      no exact length. */
  predicate StringLength(s: Option<string>, min: int, max: int) {
    s.None? || min <= Utf16Length(s.value) <= max
  }

  /** [MinLength(n)] on a list: null passes, otherwise at least n elements. */
  predicate MinCount<T>(xs: Option<seq<T>>, n: int) {
    xs.None? || |xs.value| >= n
  }

  /** [Range(0, double.MaxValue)] on the balance; the inclusive lower bound is what matters. */
  predicate NonNegative(x: int) {
    x >= 0
  }

  /** The format checks of [EmailAddress] and [Phone] are library code; they are parameters. */
  datatype LibraryFormats = LibraryFormats(isEmailAddress: string -> bool, isPhone: string -> bool)

  /** Both attributes let null through and apply the library check to anything else. */
  predicate EmailAddress(fmt: LibraryFormats, s: Option<string>) {
    s.None? || fmt.isEmailAddress(s.value)
  }

  predicate Phone(fmt: LibraryFormats, s: Option<string>) {
    s.None? || fmt.isPhone(s.value)
  }

  /** The mobile number pattern ^\+[1-9]\d{1,14}$ as a string property: '+', a non-zero
      digit, then 1 to 14 digits, 3 to 16 characters in all. */
  predicate IsE164(s: string) {
    && 3 <= |s| <= 16
    && s[0] == '+' && '1' <= s[1] <= '9'
    && forall i :: 2 <= i < |s| ==> IsDigit(s[i])
  }

  /** The pattern as a matcher reads it, one character at a time. InDigits(n) has read the
      leading digit and n more. */
  datatype PatternState = Start | AfterPlus | InDigits(n: nat) | Rejected

  function Step(st: PatternState, c: char): PatternState {
    match st
    case Start => if c == '+' then AfterPlus else Rejected
    case AfterPlus => if '1' <= c <= '9' then InDigits(0) else Rejected
    case InDigits(n) => if IsDigit(c) && n < 14 then InDigits(n + 1) else Rejected
    case Rejected => Rejected
  }

  function Run(st: PatternState, s: string): PatternState
    decreases |s|
  {
    if s == [] then st else Run(Step(st, s[0]), s[1..])
  }

  /** The whole string is consumed and the digit count closes: \d{1,14} and then $ . */
  predicate MatchesMobilePattern(s: string) {
    match Run(Start, s)
    case InDigits(n) => n >= 1
    case _ => false
  }

  lemma {:induction false} RunRejected(s: string)
    ensures Run(Rejected, s) == Rejected
    decreases |s|
  {
    if s != [] {
      RunRejected(s[1..]);
    }
  }

  /** From InDigits(n) the matcher stays in the digit run exactly while it reads digits and
      the run stays within 14. */
  lemma {:induction false} RunDigits(n: nat, s: string)
    requires n <= 14
    ensures Run(InDigits(n), s) == if AllDigits(s) && n + |s| <= 14 then InDigits(n + |s|) else Rejected
    decreases |s|
  {
    if s != [] {
      if IsDigit(s[0]) && n < 14 {
        RunDigits(n + 1, s[1..]);
        assert AllDigits(s) <==> AllDigits(s[1..]) by {
          assert forall i :: 1 <= i < |s| ==> s[i] == s[1..][i - 1];
        }
      } else {
        RunRejected(s[1..]);
      }
    }
  }

  /** The matcher accepts exactly the strings of the pattern. */
  lemma MobilePatternIff(s: string)
    ensures MatchesMobilePattern(s) <==> IsE164(s)
  {
    if |s| >= 2 && s[0] == '+' && '1' <= s[1] <= '9' {
      var t := s[2..];
      assert Run(Start, s) == Run(InDigits(0), t) by {
        assert s[1..][0] == s[1] && s[1..][1..] == t;
      }
      RunDigits(0, t);
      assert AllDigits(t) <==> forall i :: 2 <= i < |s| ==> IsDigit(s[i]) by {
        assert forall i :: 2 <= i < |s| ==> s[i] == t[i - 2];
      }
    } else if |s| >= 2 && s[0] == '+' {
      assert Run(Start, s) == Run(Step(AfterPlus, s[1]), s[2..]) by {
        assert s[1..][0] == s[1] && s[1..][1..] == s[2..];
      }
      RunRejected(s[2..]);
    } else if s != [] && s[0] != '+' {
      assert Run(Start, s) == Run(Rejected, s[1..]);
      RunRejected(s[1..]);
    } else if s != [] {
      assert Run(Start, s) == Run(AfterPlus, []);
    }
  }

  /** [RegularExpression]: null and the empty string pass, anything else must match whole. */
  predicate MobilePattern(s: Option<string>) {
    IsNullOrEmpty(s) || MatchesMobilePattern(s.value)
  }

  predicate ValidCreateAccount(d: CreateAccountDto) {
    && Required(d.accountNumber)
    && Required(d.accountType)
    && NonNegative(d.balance)
  }

  /** [Required] on the int Id holds for every value, so Id itself is never checked. */
  predicate ValidUpdateAccount(d: UpdateAccountDto) {
    && Required(d.accountNumber)
    && Required(d.accountType)
    && NonNegative(d.balance)
  }

  predicate ValidUpdateAddress(d: UpdateAddressDto) {
    && Required(d.country)
    && Required(d.city)
    && Required(d.street)
    && Required(d.zipCode)
  }

  /** TryValidateObject on CreateClientDto. Required on the enum Sex always holds; the
      nested address and accounts are not validated, only their presence. */
  predicate ValidCreateClient(fmt: LibraryFormats, d: CreateClientDto) {
    && Required(d.email) && EmailAddress(fmt, d.email)
    && Required(d.firstName) && MaxLength(d.firstName, 60)
    && Required(d.lastName) && MaxLength(d.lastName, 60)
    && Required(d.personalId) && StringLength(d.personalId, 0, 11)
    && Required(d.mobileNumber) && Phone(fmt, d.mobileNumber) && MobilePattern(d.mobileNumber)
    && d.address.Some?
    && d.accounts.Some? && MinCount(d.accounts, 1)
  }

  /** TryValidateObject on UpdateClientDto: shorter name limits, no mobile pattern, and the
      address and accounts may be null. */
  predicate ValidUpdateClient(fmt: LibraryFormats, d: UpdateClientDto) {
    && Required(d.email) && EmailAddress(fmt, d.email)
    && Required(d.firstName) && MaxLength(d.firstName, 50)
    && Required(d.lastName) && MaxLength(d.lastName, 50)
    && Required(d.personalId) && StringLength(d.personalId, 0, 11)
    && Required(d.mobileNumber) && Phone(fmt, d.mobileNumber)
  }

  predicate ValidRegister(fmt: LibraryFormats, d: RegisterDto) {
    && Required(d.userName)
    && Required(d.email) && EmailAddress(fmt, d.email)
    && Required(d.password) && StringLength(d.password, 6, 100)
  }

  /** A string passes [Required] exactly when it has a character that is not white space. */
  lemma RequiredIff(s: Option<string>)
    ensures Required(s) <==> s.Some? && exists i :: 0 <= i < |s.value| && !IsWhiteSpace(s.value[i])
  {
  }

  /** What a valid create request guarantees to the code that maps it to a Client. */
  lemma ValidCreateClientMeans(fmt: LibraryFormats, d: CreateClientDto)
    requires ValidCreateClient(fmt, d)
    ensures d.email.Some? && d.firstName.Some? && d.lastName.Some? && d.personalId.Some?
    ensures d.mobileNumber.Some? && d.address.Some? && d.accounts.Some?
    ensures 1 <= |d.firstName.value| <= Utf16Length(d.firstName.value) <= 60
    ensures 1 <= |d.lastName.value| <= Utf16Length(d.lastName.value) <= 60
    ensures 1 <= |d.personalId.value| <= Utf16Length(d.personalId.value) <= 11
    ensures IsE164(d.mobileNumber.value) && fmt.isPhone(d.mobileNumber.value)
    ensures fmt.isEmailAddress(d.email.value)
    ensures |d.accounts.value| >= 1
  {
    MobilePatternIff(d.mobileNumber.value);
  }

  /** What a valid update request guarantees; the address and account list are unconstrained. */
  lemma ValidUpdateClientMeans(fmt: LibraryFormats, d: UpdateClientDto)
    requires ValidUpdateClient(fmt, d)
    ensures d.email.Some? && d.firstName.Some? && d.lastName.Some? && d.personalId.Some?
    ensures d.mobileNumber.Some?
    ensures 1 <= |d.firstName.value| <= Utf16Length(d.firstName.value) <= 50
    ensures 1 <= |d.lastName.value| <= Utf16Length(d.lastName.value) <= 50
    ensures 1 <= |d.personalId.value| <= Utf16Length(d.personalId.value) <= 11
    ensures ValidUpdateClient(fmt, d.(clientId := 0, address := None, accounts := None))
  {
  }

  /** "Exactly 11 characters" is only an upper bound: five characters pass, twelve do not. */
  lemma PersonalIdIsOnlyBounded()
    ensures Required(Some("12345")) && StringLength(Some("12345"), 0, 11)
    ensures !StringLength(Some("123456789012"), 0, 11)
  {
    assert !IsWhiteSpace("12345"[0]);
  }

  /** Null, empty and white-space strings all fail [Required]. */
  lemma BlankIsMissing()
    ensures !Required(None) && !Required(Some("")) && !Required(Some(" \t"))
    ensures ValidUpdateAddress(UpdateAddressDto(Some("DE"), Some("Berlin"), Some("Main"), Some("1")))
    ensures !ValidUpdateAddress(UpdateAddressDto(Some("DE"), Some("Berlin"), Some("  "), Some("1")))
  {
    assert !IsWhiteSpace("DE"[0]) && !IsWhiteSpace("Berlin"[0]);
    assert !IsWhiteSpace("Main"[0]) && !IsWhiteSpace("1"[0]);
    assert IsWhiteSpace("  "[0]) && IsWhiteSpace("  "[1]);
  }

  /** The balance bound is inclusive. */
  lemma BalanceZeroIsAccepted()
    ensures ValidCreateAccount(CreateAccountDto(Some("A1"), Some("Savings"), 0))
    ensures !ValidCreateAccount(CreateAccountDto(Some("A1"), Some("Savings"), -1))
    ensures ValidUpdateAccount(UpdateAccountDto(0, Some("A1"), Some("Savings"), 0))
  {
    assert !IsWhiteSpace("A1"[0]) && !IsWhiteSpace("Savings"[0]);
  }

  /** A name of 51 to 60 UTF-16 code units is accepted on create and refused on update. */
  lemma NameLimitsDiffer(fmt: LibraryFormats, c: CreateClientDto, name: string)
    requires ValidCreateClient(fmt, c) && 50 < Utf16Length(name) <= 60
    requires exists i :: 0 <= i < |name| && !IsWhiteSpace(name[i])
    ensures ValidCreateClient(fmt, c.(firstName := Some(name)))
    ensures forall u: UpdateClientDto :: !ValidUpdateClient(fmt, u.(firstName := Some(name)))
  {
  }

  /** Examples of the mobile pattern: the shortest and longest numbers, a leading zero, a
      missing plus, too many digits; the empty string passes the attribute since only
      [Required] refuses it. */
  lemma MobilePatternExamples()
    ensures MatchesMobilePattern("+12")
    ensures !MatchesMobilePattern("+02")
    ensures !MatchesMobilePattern("12")
    ensures !MatchesMobilePattern("+1")
    ensures MobilePattern(Some("")) && !Required(Some(""))
  {
    MobilePatternIff("+12");
    MobilePatternIff("+02");
    MobilePatternIff("12");
    MobilePatternIff("+1");
  }

  /** The password length window is 6 to 100 UTF-16 code units, 3 to 100 characters. */
  lemma PasswordWindow(fmt: LibraryFormats, d: RegisterDto)
    requires ValidRegister(fmt, d)
    ensures d.password.Some? && 6 <= Utf16Length(d.password.value) <= 100
    ensures 3 <= |d.password.value| <= 100
    ensures d.userName.Some? && d.email.Some? && fmt.isEmailAddress(d.email.value)
    ensures forall r :: ValidRegister(fmt, d.(role := r))
  {
  }

  /** Lengths are String.Length: three characters beyond U+FFFF are six code units, enough
      for the password minimum, and 31 of them exceed a 60-unit name limit. */
  lemma SupplementaryCountsTwice()
    ensures var pw := "\U{1F600}\U{1F600}\U{1F600}";
            |pw| == 3 && StringLength(Some(pw), 6, 100)
    ensures var name := seq(31, _ => '\U{20BB7}');
            |name| == 31 && !MaxLength(Some(name), 60)
  {
    var name := seq(31, _ => '\U{20BB7}');
    Utf16LengthAstral(name);
  }
}
