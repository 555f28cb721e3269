/** The fields of a contact: a name, and a phone number that is validated when it is made. */
module Fields {
  import opened Wrappers

  /** A contact's name: a plain text value with no constraint. */
  datatype Name = Name(value: string)

  /** A phone number. NewPhone makes one only from valid text; Record.Valid() keeps every stored phone valid. */
  datatype Phone = Phone(value: string)

  /** The single error kind of the address book. */
  datatype PhoneValidationError = PhoneValidationError

  /** A decimal digit, taken as the ASCII characters '0' to '9'. */
  predicate IsDigit(c: char) {
    '0' <= c <= '9'
  }

  /** The phone rule stated directly: exactly ten characters, each of them a digit. */
  predicate IsValidPhone(s: string) {
    |s| == 10 && forall i :: 0 <= i < |s| ==> IsDigit(s[i])
  }

  /** Does the pattern `\d{n}` match the whole of s? The pattern is consumed one digit at a time. */
  predicate FullMatchDigits(s: string, n: nat) {
    if n == 0 then s == []
    else s != [] && IsDigit(s[0]) && FullMatchDigits(s[1..], n - 1)
  }

  /** Matching `\d{n}` against the whole string means: length n, and only digits. */
  lemma {:induction false} FullMatchDigitsIff(s: string, n: nat)
    ensures FullMatchDigits(s, n) <==> |s| == n && forall i :: 0 <= i < |s| ==> IsDigit(s[i])
  {
    if n > 0 && s != [] {
      FullMatchDigitsIff(s[1..], n - 1);
      assert forall i :: 1 <= i < |s| ==> s[i] == s[1..][i - 1];
    }
  }

  /** Phone._validate: passes exactly on valid phone text, otherwise reports PhoneValidationError. */
  function Validate(value: string): (r: Outcome<PhoneValidationError>)
    ensures r.Pass? <==> IsValidPhone(value)
  {
    FullMatchDigitsIff(value, 10);
    if FullMatchDigits(value, 10) then Pass else Fail(PhoneValidationError)
  }

  /** Phone(value): validates first, so either a phone holding exactly value, or the error and no phone. */
  function NewPhone(value: string): (r: Result<Phone, PhoneValidationError>)
    ensures r.Success? <==> IsValidPhone(value)
    ensures r.Success? ==> r.value.value == value
  {
    match Validate(value)
    case Pass => Success(Phone(value))
    case Fail(e) => Failure(e)
  }

  /** The examples of the rule: ten digits pass; short, long, empty and non-digit text fail. */
  lemma ValidationExamples()
    ensures NewPhone("1234567890") == Success(Phone("1234567890"))
    ensures NewPhone("abc").Failure?
    ensures NewPhone("").Failure?
    ensures NewPhone("123456789").Failure?
    ensures NewPhone("12345678901").Failure?
    ensures NewPhone("12345-7890").Failure?
  {
  }
}
