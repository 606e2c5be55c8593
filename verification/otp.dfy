/** One-time codes: `create_otp` of users/models.py, and how the verify
    handler turns a submitted JSON value into text with `str(...)`. */
module Otp {
  import opened Wrappers
  import opened Decimal

  const Low: nat := 10000
  const High: nat := 99999

  /** `str(random.randint(10000, 99999))`. The random draw is a parameter;
      `randint` guarantees it lies in the closed range. */
  function CreateOtp(draw: int): (code: string)
    requires Low <= draw <= High
    ensures |code| == 5
    ensures AllDigits(code)
    ensures code[0] != '0'
    ensures ToNat(code) == draw
  {
    assert Pow10(4) == 10000 && Pow10(5) == 100000;
    FromNatLength(draw, 5);
    ToNatFromNat(draw);
    FromNat(draw)
  }

  /** Two draws give the same code only when they are the same draw. */
  lemma CreateOtpInjective(m: int, n: int)
    requires Low <= m <= High && Low <= n <= High
    ensures CreateOtp(m) == CreateOtp(n) <==> m == n
  {
  }

  /** A JSON scalar a client can send as the `otp` field. */
  datatype Scalar = Null | Bool(b: bool) | Int(i: int) | Str(s: string)

  /** Python's `str(x)` of `request.data.get("otp")`; an absent key reads
      as `None`, like an explicit `null`. */
  function PyStr(submitted: Option<Scalar>): (r: string)
    ensures submitted.None? || submitted == Some(Null) ==> r == "None"
    ensures submitted.Some? && submitted.value.Str? ==> r == submitted.value.s
    ensures submitted.Some? && submitted.value.Int? && submitted.value.i >= 0 ==>
              |r| > 0 && AllDigits(r) && ToNat(r) == submitted.value.i
    ensures submitted.Some? && submitted.value.Int? && submitted.value.i < 0 ==>
              |r| > 1 && r[0] == '-' && AllDigits(r[1..]) && ToNat(r[1..]) == -submitted.value.i
    ensures submitted.Some? && submitted.value.Bool? ==> r == (if submitted.value.b then "True" else "False")
  {
    match submitted
    case None => "None"
    case Some(Null) => "None"
    case Some(Bool(b)) => if b then "True" else "False"
    case Some(Int(i)) =>
      if i < 0 then
        ToNatFromNat(-i);
        var digits := FromNat(-i);
        assert ("-" + digits)[1..] == digits;
        "-" + digits
      else
        ToNatFromNat(i);
        FromNat(i)
    case Some(Str(s)) => s
  }

  /** A submission matches a freshly generated code exactly when it is the
      code as text or the same number as a JSON integer. */
  lemma {:induction false} MatchesCode(submitted: Option<Scalar>, draw: int)
    requires Low <= draw <= High
    ensures PyStr(submitted) == CreateOtp(draw) <==>
              submitted == Some(Str(CreateOtp(draw))) || submitted == Some(Int(draw))
  {
    var code := CreateOtp(draw);
    match submitted
    case None =>
      assert !IsDigitChar("None"[0]);
    case Some(Null) =>
      assert !IsDigitChar("None"[0]);
    case Some(Bool(b)) =>
      assert !IsDigitChar("True"[0]) && !IsDigitChar("False"[0]);
    case Some(Int(i)) =>
      if i < 0 {
        assert ("-" + FromNat(-i))[0] == '-';
      } else {
        FromNatInjective(i, draw);
      }
    case Some(Str(s)) =>
  }

  /** Only the empty JSON string prints as the empty text; a missing key
      prints as "None". */
  lemma EmptyOnlyFromEmptyString(submitted: Option<Scalar>)
    ensures PyStr(submitted) == "" <==> submitted == Some(Str(""))
  {
  }
}
