/**
 * The slice of PHP's value model the bundle relies on: values, array keys,
 * truthiness (`if ($x)`, `?:`, `empty()`), the `(int)` cast of a string and
 * the decimal rendering of an integer (`sprintf('%s', $int)`).
 */
module Php {

  /** An array key: PHP arrays are keyed by integers or strings. */
  datatype Key = IntKey(n: int) | StrKey(name: string)

  /**
   * A PHP value. Arrays are ordered (key, value) lists; an object is
   * represented by its class name and its public properties.
   * Floats and resources are not part of the model.
   */
  datatype Value =
    | Null
    | Bool(b: bool)
    | Int(i: int)
    | Str(s: string)
    | Arr(entries: seq<(Key, Value)>)
    | Object(className: string, props: seq<(string, Value)>)

  /** PHP's conversion of a string to bool: only "" and "0" are false. */
  predicate TruthyString(s: string)
  {
    s != "" && s != "0"
  }

  /** PHP's conversion of a value to bool (`(bool) $v`, `if ($v)`, `!empty($v)`). */
  predicate Truthy(v: Value)
  {
    match v
    case Null => false
    case Bool(b) => b
    case Int(i) => i != 0
    case Str(s) => TruthyString(s)
    case Arr(e) => |e| > 0
    case Object(_, _) => true
  }

  /** `isset($v)` for a value that is present: everything except null. */
  predicate IsSet(v: Value)
  {
    !v.Null?
  }

  predicate IsDigit(c: char)
  {
    '0' <= c <= '9'
  }

  /** The white space PHP skips before a number: space, \t, \n, \r, \v and \f. */
  predicate IsSpace(c: char)
  {
    c == ' ' || c == '\t' || c == '\n' || c == '\r' || c as int == 11 || c as int == 12
  }

  function DigitValue(c: char): nat
    requires IsDigit(c)
  {
    c as int - '0' as int
  }

  function DigitChar(d: nat): (c: char)
    requires d < 10
    ensures IsDigit(c) && DigitValue(c) == d
  {
    ('0' as int + d) as char
  }

  predicate AllDigits(s: string)
  {
    forall i | 0 <= i < |s| :: IsDigit(s[i])
  }

  /** The value of a run of decimal digits, most significant first. */
  function DigitsValue(s: string): nat
    requires AllDigits(s)
  {
    if |s| == 0 then 0 else 10 * DigitsValue(s[..|s| - 1]) + DigitValue(s[|s| - 1])
  }

  /** The longest prefix of `s` made of decimal digits. */
  function DigitPrefix(s: string): (r: string)
    ensures r <= s && AllDigits(r)
    ensures |r| < |s| ==> !IsDigit(s[|r|])
  {
    if |s| == 0 || !IsDigit(s[0]) then "" else [s[0]] + DigitPrefix(s[1..])
  }

  /** `s` without its leading white space. */
  function SkipSpaces(s: string): (r: string)
    ensures |r| <= |s| && r == s[|s| - |r|..]
    ensures |r| > 0 ==> !IsSpace(r[0])
  {
    if |s| > 0 && IsSpace(s[0]) then SkipSpaces(s[1..]) else s
  }

  /**
   * PHP's `(int) $string`: leading white space, an optional sign and the
   * longest run of digits that follows; 0 when there are no digits.
   */
  function IntCast(s: string): int
  {
    var t := SkipSpaces(s);
    if |t| > 0 && t[0] == '-' then 0 - DigitsValue(DigitPrefix(t[1..]))
    else if |t| > 0 && t[0] == '+' then DigitsValue(DigitPrefix(t[1..]))
    else DigitsValue(DigitPrefix(t))
  }

  lemma CastSkipsSpace(s: string)
    requires |s| > 0 && IsSpace(s[0])
    ensures IntCast(s) == IntCast(s[1..])
  {
    assert SkipSpaces(s) == SkipSpaces(s[1..]);
  }

  /** The cast of a string that starts with a run of digits and no sign. */
  lemma CastOfUnsigned(t: string, digits: string)
    requires AllDigits(digits) && |digits| > 0 && digits <= t
    requires DigitPrefix(t) == digits
    ensures IntCast(t) == DigitsValue(digits)
  {
    assert !IsSpace(t[0]);
    assert SkipSpaces(t) == t;
  }

  /** The decimal rendering of a natural number, without leading zeros. */
  function NatToString(n: nat): (r: string)
    ensures |r| > 0 && AllDigits(r)
    ensures |r| > 1 ==> r[0] != '0'
    decreases n
  {
    if n < 10 then [DigitChar(n)] else NatToString(n / 10) + [DigitChar(n % 10)]
  }

  /** PHP's rendering of an integer as a string (`'' . $n`, `sprintf('%s', $n)`). */
  function IntToString(n: int): (r: string)
    ensures |r| > 0
  {
    if n < 0 then "-" + NatToString(-n) else NatToString(n)
  }

  lemma {:induction false} DigitsOfNatToString(n: nat)
    ensures DigitsValue(NatToString(n)) == n
    decreases n
  {
    var r := NatToString(n);
    if n >= 10 {
      DigitsOfNatToString(n / 10);
      assert r[..|r| - 1] == NatToString(n / 10);
    }
  }

  lemma {:induction false} DigitPrefixOfDigits(s: string, rest: string)
    requires AllDigits(s)
    requires |rest| == 0 || !IsDigit(rest[0])
    ensures DigitPrefix(s + rest) == s
    decreases |s|
  {
    if |s| > 0 {
      assert (s + rest)[1..] == s[1..] + rest;
      DigitPrefixOfDigits(s[1..], rest);
    } else {
      assert s + rest == rest;
    }
  }

  /** The `(int)` cast undoes the rendering of an integer. */
  lemma {:induction false} IntCastOfIntToString(n: int)
    ensures IntCast(IntToString(n)) == n
  {
    var m: nat := if n < 0 then -n else n;
    var digits := NatToString(m);
    DigitsOfNatToString(m);
    DigitPrefixOfDigits(digits, "");
    assert digits + "" == digits;
    if n < 0 {
      var s := "-" + digits;
      assert s == IntToString(n);
      assert !IsSpace(s[0]);
      assert SkipSpaces(s) == s;
      assert s[1..] == digits;
    } else {
      assert digits == IntToString(n);
      CastOfUnsigned(digits, digits);
    }
  }

  /** Leading white space and trailing garbage do not change the cast. */
  lemma {:induction false} IntCastIgnoresSurroundings(pad: string, n: nat, tail: string)
    requires forall i | 0 <= i < |pad| :: IsSpace(pad[i])
    requires |tail| == 0 || !IsDigit(tail[0])
    ensures IntCast(pad + NatToString(n) + tail) == n
    decreases |pad|
  {
    var digits := NatToString(n);
    var s := pad + digits + tail;
    if |pad| == 0 {
      assert s == digits + tail;
      DigitPrefixOfDigits(digits, tail);
      DigitsOfNatToString(n);
      CastOfUnsigned(s, digits);
    } else {
      assert s[1..] == pad[1..] + digits + tail;
      CastSkipsSpace(s);
      IntCastIgnoresSurroundings(pad[1..], n, tail);
    }
  }
}
