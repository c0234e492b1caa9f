/** `is_digit`, `to_integer` and `parse_integer`: decimal decoding of a field. */
module IntegerDecoder {
  import opened CTypes
  import opened CharSpans

  /** `is_digit`. */
  predicate IsDigit(c: char) {
    '0' <= c <= '9'
  }

  /** The digits are exactly the ten characters `0` to `9`. */
  lemma DigitCharacters(c: char)
    ensures IsDigit(c) <==> c in "0123456789"
  {
  }

  /** `to_integer`: `c - '0'`, the value of a decimal digit. */
  function ToInteger(c: char): (d: int)
    ensures IsDigit(c) ==> 0 <= d <= 9
  {
    c as int - '0' as int
  }

  predicate AllDigits(s: seq<char>) {
    forall i :: 0 <= i < |s| ==> IsDigit(s[i])
  }

  function Pow10(k: nat): (p: nat)
    ensures p >= 1
  {
    if k == 0 then 1 else 10 * Pow10(k - 1)
  }

  /** The base-10 value of a string of digits, folded left to right as `parse_integer` does
      (`num = num * 10 + digit`). */
  function DigitsValue(s: seq<char>): (n: int)
    requires AllDigits(s)
    ensures 0 <= n < Pow10(|s|)
  {
    if s == [] then 0 else DigitsValue(s[..|s| - 1]) * 10 + ToInteger(s[|s| - 1])
  }

  /** The number of digits `s` starts with. */
  function LeadingDigits(s: seq<char>): (k: nat)
    ensures k <= |s| && AllDigits(s[..k])
    ensures k < |s| ==> !IsDigit(s[k])
  {
    if s == [] || !IsDigit(s[0]) then 0
    else
      var k := 1 + LeadingDigits(s[1..]);
      assert forall i :: 1 <= i < k ==> s[..k][i] == s[1..][..k - 1][i - 1];
      k
  }

  /** The values `parse_integer` accumulates in `*num` (the leading digits of `s`) fit a C `int`.
      Past this bound the C code has undefined behaviour. */
  predicate Fits(s: seq<char>) {
    DigitsValue(s[..LeadingDigits(s)]) <= INT_MAX
  }

  /** What decoding a field means: a value, or the error `parse_integer` reports. */
  datatype Decoded = Value(n: int) | Fault(code: Error)

  function Decode(s: seq<char>): (r: Decoded)
    ensures r.Value? ==> 0 <= r.n < Pow10(|s|)
  {
    if |s| == 0 then Fault(EmptyBufferError)
    else if AllDigits(s) then Value(DigitsValue(s))
    else Fault(InvalidValueError)
  }

  /** A field decodes exactly when it is a non-empty run of digits. An empty field is
      `empty_buffer_error`; otherwise the first non-digit, at the end of the leading digits,
      makes it `invalid_value_error`. */
  lemma DecodeCases(s: seq<char>)
    ensures Decode(s).Value? <==> |s| > 0 && AllDigits(s)
    ensures Decode(s).Fault? && |s| == 0 ==> Decode(s).code == EmptyBufferError
    ensures Decode(s).Fault? && |s| > 0 ==>
              Decode(s).code == InvalidValueError && LeadingDigits(s) < |s| && !IsDigit(s[LeadingDigits(s)])
  {
    if |s| > 0 && !AllDigits(s) {
      var k := LeadingDigits(s);
      var i :| 0 <= i < |s| && !IsDigit(s[i]);
      forall j | 0 <= j < k
        ensures IsDigit(s[j])
      {
        assert s[..k][j] == s[j];
      }
    }
  }

  /** Folding more digits never makes the value smaller. */
  lemma {:induction false} DigitsValuePrefix(s: seq<char>, i: nat)
    requires AllDigits(s) && i <= |s|
    ensures DigitsValue(s[..i]) <= DigitsValue(s)
    decreases |s|
  {
    if i < |s| {
      var p := s[..|s| - 1];
      assert p[..i] == s[..i];
      DigitsValuePrefix(p, i);
    } else {
      assert s[..i] == s;
    }
  }

  /** `parse_integer`. `num0` and `prior` are what `*num` and `*error` held before the call.
      An empty token leaves `*num` alone and reports `empty_buffer_error`; a token with a
      non-digit reports `invalid_value_error` and leaves in `*num` the value of the digits
      before it; an all-digit token succeeds with its decimal value and `*error` untouched. */
  method ParseInteger(token: CharSpan, num0: Int32, prior: Error) returns (ok: bool, num: Int32, error: Error)
    requires token.InBounds() && Fits(token.Chars())
    ensures ok <==> Decode(token.Chars()).Value?
    ensures ok ==> num == Decode(token.Chars()).n && error == prior
    ensures !ok ==> error == Decode(token.Chars()).code
    ensures token.size == 0 ==> num == num0
    ensures token.size > 0 ==> num == DigitsValue(token.Chars()[..LeadingDigits(token.Chars())])
  {
    ghost var s := token.Chars();
    ghost var k := LeadingDigits(s);
    if token.size == 0 {
      return false, num0, EmptyBufferError;
    }
    num := 0;
    error := prior;
    assert s[..0] == [];
    for i := 0 to token.size
      invariant i <= k
      invariant num == DigitsValue(s[..i])
    {
      if !IsDigit(token.At(i)) {
        assert i == k;
        return false, num, InvalidValueError;
      }
      assert s[..i + 1][..i] == s[..i];
      assert k >= i + 1;
      assert s[..k][..i + 1] == s[..i + 1];
      DigitsValuePrefix(s[..k], i + 1);
      num := num * 10;
      num := num + ToInteger(token.At(i));
    }
    assert s[..token.size] == s;
    ok := true;
  }

  function DigitChar(d: nat): (c: char)
    requires d < 10
    ensures IsDigit(c) && ToInteger(c) == d
  {
    ('0' as int + d) as char
  }

  /** The decimal text of `n`, without leading zeros. */
  function ToDecimal(n: nat): (s: seq<char>)
    ensures |s| >= 1 && AllDigits(s)
  {
    if n < 10 then [DigitChar(n)] else ToDecimal(n / 10) + [DigitChar(n % 10)]
  }

  /** Decoding the decimal text of any natural number gives that number back. */
  lemma {:induction false} DecimalRoundTrip(n: nat)
    ensures Decode(ToDecimal(n)) == Value(n)
  {
    if n >= 10 {
      DecimalRoundTrip(n / 10);
      var s := ToDecimal(n);
      assert s[..|s| - 1] == ToDecimal(n / 10);
    }
  }

  /** Leading zeros do not change the value. */
  lemma {:induction false} LeadingZeroIgnored(s: seq<char>)
    requires AllDigits(s)
    ensures AllDigits(['0'] + s) && DigitsValue(['0'] + s) == DigitsValue(s)
    decreases |s|
  {
    if s != [] {
      var t := ['0'] + s;
      assert t[..|t| - 1] == ['0'] + s[..|s| - 1];
      LeadingZeroIgnored(s[..|s| - 1]);
    }
  }
}
