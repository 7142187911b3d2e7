/**
 This module holds the scalar values a validator sees: the attributes of a
 decoded JSON body or of a stored row, restricted to null, integers and
 strings. It also models the two PHP conversions the validation rules rely on:
 the `(int)` cast of a value and the `is_numeric`-style "number-like" test, and
 the decimal rendering of an integer that PHP applies when a string function
 receives an int.
 */
module Values {

  datatype Option<+T> = None | Some(value: T)

  /** A PHP scalar: `null`, an `int` or a `string`. Equality of two Values is
      PHP's strict `===` on this domain. */
  datatype Value = VNull | VInt(i: int) | VStr(s: string)

  /** An attribute array such as `$data` or the result of `toArray()`. */
  type Record = map<string, Value>

  /** `$data[$key]`: a key that is not in the array reads as null. */
  function Get(rec: Record, key: string): Value
  {
    if key in rec then rec[key] else VNull
  }

  /** The closures' guard `$value !== null && $value !== ''` is the negation of this. */
  predicate Blank(v: Value)
  {
    v == VNull || v == VStr("")
  }

  predicate IsDigit(c: char)
  {
    '0' <= c <= '9'
  }

  predicate AllDigits(s: string)
  {
    forall i :: 0 <= i < |s| ==> IsDigit(s[i])
  }

  /** The digits of an integer string, with its optional leading sign removed. */
  function Unsigned(s: string): string
  {
    if |s| > 0 && (s[0] == '-' || s[0] == '+') then s[1..] else s
  }

  /** An optionally signed, non-empty run of decimal digits, such as "8", "-3" or "+007". */
  predicate IsIntegerString(s: string)
  {
    |Unsigned(s)| > 0 && AllDigits(Unsigned(s))
  }

  /** The value of a run of decimal digits, read from the left. */
  function DigitsValue(s: string): nat
    requires AllDigits(s)
  {
    if |s| == 0 then 0
    else 10 * DigitsValue(s[..|s| - 1]) + (s[|s| - 1] as int - '0' as int)
  }

  function ParseInt(s: string): int
    requires IsIntegerString(s)
  {
    var magnitude: int := DigitsValue(Unsigned(s));
    if s[0] == '-' then -magnitude else magnitude
  }

  /** The decimal text of a natural number, most significant digit first. */
  function NatText(n: nat): (s: string)
    ensures |s| > 0 && AllDigits(s)
    ensures n < 10 <==> |s| == 1
  {
    if n < 10 then [('0' as int + n) as char]
    else NatText(n / 10) + [('0' as int + n % 10) as char]
  }

  /** PHP's rendering of an int as a string: a minus sign for negatives, then the digits. */
  function IntText(i: int): string
  {
    if i < 0 then "-" + NatText(-i) else NatText(i)
  }

  /** Reading back the digits of a natural number gives the number. */
  lemma {:induction false} NatTextRoundTrip(n: nat)
    ensures DigitsValue(NatText(n)) == n
  {
    if n >= 10 {
      var prefix := NatText(n / 10);
      var s := NatText(n);
      assert s[..|s| - 1] == prefix;
      NatTextRoundTrip(n / 10);
    }
  }

  /** Parsing the text PHP prints for an int gives back that int. */
  lemma IntTextRoundTrip(i: int)
    ensures IsIntegerString(IntText(i))
    ensures ParseInt(IntText(i)) == i
  {
    if i < 0 {
      assert Unsigned(IntText(i)) == NatText(-i);
      NatTextRoundTrip(-i);
    } else {
      var s := NatText(i);
      assert IsDigit(s[0]);
      assert Unsigned(s) == s;
      NatTextRoundTrip(i);
    }
  }

  /** What the `numeric` rule accepts: an int, or a string holding an integer.
      PHP's `is_numeric` also accepts decimals, exponents and surrounding
      whitespace; those strings are not part of this model. */
  predicate NumberLike(v: Value)
  {
    match v
    case VNull => false
    case VInt(_) => true
    case VStr(s) => IsIntegerString(s)
  }

  /** PHP's `PHP_INT_MAX` and `PHP_INT_MIN` on a 64-bit build. */
  const IntMax: int := 0x7FFF_FFFF_FFFF_FFFF
  const IntMin: int := -0x8000_0000_0000_0000

  /** An int PHP can hold. */
  predicate InIntRange(n: int)
  {
    IntMin <= n <= IntMax
  }

  /** `(int)$value` as the closures apply it before a lookup by id. An integer
      string beyond the 64-bit range saturates at `PHP_INT_MAX` or
      `PHP_INT_MIN`. Strings that are not integers cast to 0 here; PHP reads a
      leading numeric prefix, but such strings are rejected by `numeric` before
      any closure sees them. */
  function CastInt(v: Value): (r: int)
    ensures v.VInt? ==> r == v.i
    ensures v.VStr? && IsIntegerString(v.s) && InIntRange(ParseInt(v.s)) ==> r == ParseInt(v.s)
    ensures v.VStr? && IsIntegerString(v.s) && ParseInt(v.s) > IntMax ==> r == IntMax
    ensures v.VStr? && IsIntegerString(v.s) && ParseInt(v.s) < IntMin ==> r == IntMin
  {
    match v
    case VNull => 0
    case VInt(i) => i
    case VStr(s) =>
      if !IsIntegerString(s) then 0
      else if ParseInt(s) > IntMax then IntMax
      else if ParseInt(s) < IntMin then IntMin
      else ParseInt(s)
  }

  /** An id PHP can hold, sent as a string or as an int, casts to the same
      key, so both find the same row. */
  lemma CastIntOfIntText(i: int)
    requires InIntRange(i)
    ensures NumberLike(VStr(IntText(i)))
    ensures CastInt(VStr(IntText(i))) == CastInt(VInt(i))
  {
    IntTextRoundTrip(i);
  }

  /** One past `PHP_INT_MAX`, sent as text, casts to `PHP_INT_MAX`: two ids
      that differ as text can name the same row. */
  lemma CastSaturatesAboveIntMax()
    ensures NumberLike(VStr(IntText(IntMax + 1)))
    ensures CastInt(VStr(IntText(IntMax + 1))) == IntMax
    ensures CastInt(VStr(IntText(IntMax + 1))) == CastInt(VStr(IntText(IntMax)))
  {
    IntTextRoundTrip(IntMax + 1);
    IntTextRoundTrip(IntMax);
  }

  /** The text a string-expecting PHP function receives for the value. */
  function Text(v: Value): string
  {
    match v
    case VNull => ""
    case VInt(i) => IntText(i)
    case VStr(s) => s
  }
}
