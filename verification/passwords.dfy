/** The password policy `validate_password` of users/models.py: a length
    check first, then a check that some character is a digit. */
module Passwords {
  import opened Wrappers
  import opened Decimal

  const MinLength: nat := 8
  const TooShort := "Password should be at least 8 character"
  const NoDigit := "Password should contain numbers"

  /** True exactly when some character of `s` is a digit. `str.isdigit`
      is taken to accept the ASCII digits only. */
  function HasDigit(s: string): (r: bool)
    ensures r <==> exists i :: 0 <= i < |s| && IsDigitChar(s[i])
  {
    if |s| == 0 then false
    else if IsDigitChar(s[0]) then true
    else
      assert forall i :: 1 <= i < |s| ==> s[i] == s[1..][i - 1];
      HasDigit(s[1..])
  }

  /** The policy: passes, or fails with the first message that applies. */
  function ValidatePassword(value: string): (r: Outcome<string>)
    ensures |value| < MinLength ==> r == Fail(TooShort)
    ensures |value| >= MinLength ==>
              (r == Pass <==> exists i :: 0 <= i < |value| && IsDigitChar(value[i]))
    ensures |value| >= MinLength && r != Pass ==> r == Fail(NoDigit)
  {
    if |value| < MinLength then Fail(TooShort)
    else if HasDigit(value) then Pass
    else Fail(NoDigit)
  }

  /** `validate_password`'s loop, statement by statement: after the length check it
      walks the characters and returns at the first digit. It agrees with
      `ValidatePassword` on every input. */
  method CheckPassword(value: string) returns (r: Outcome<string>)
    ensures r == ValidatePassword(value)
  {
    if |value| < MinLength {
      return Fail(TooShort);
    }
    var k := 0;
    while k < |value|
      invariant 0 <= k <= |value|
      invariant forall i :: 0 <= i < k ==> !IsDigitChar(value[i])
    {
      if IsDigitChar(value[k]) {
        return Pass;
      }
      k := k + 1;
    }
    return Fail(NoDigit);
  }

  /** A password is accepted iff it has at least 8 characters and a digit. */
  lemma AcceptedIff(value: string)
    ensures ValidatePassword(value) == Pass <==>
              |value| >= MinLength && exists i :: 0 <= i < |value| && IsDigitChar(value[i])
  {
  }

  /** The length check comes first: a short password without any digit
      still gets the length message. */
  lemma LengthCheckFirst(value: string)
    requires |value| < MinLength
    requires forall i :: 0 <= i < |value| ==> !IsDigitChar(value[i])
    ensures ValidatePassword(value) == Fail(TooShort)
  {
  }
}
