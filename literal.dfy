/**
 * The conversion `strtoull(text, nullptr, 0)` that the header reader applies to the
 * third token of a `#define` line (section 7.22.1.4 of ISO/IEC 9899:2011), and the
 * `%lX` rendering that the output pass applies to an address.
 */
module CLiteral {
  import opened Base

  const ULLONG_MAX: uint64 := 0xFFFF_FFFF_FFFF_FFFF

  /** isspace() in the "C" locale: space, and tab through carriage return. */
  predicate IsCSpace(c: char) {
    c == ' ' || '\t' <= c <= '\r'
  }

  /** The value of a letter or digit as a digit of any base up to 36; 36 for anything else. */
  function DigitValue(c: char): (d: nat)
    ensures d <= 36
  {
    if '0' <= c <= '9' then (c as int - '0' as int)
    else if 'a' <= c <= 'z' then (c as int - 'a' as int) + 10
    else if 'A' <= c <= 'Z' then (c as int - 'A' as int) + 10
    else 36
  }

  predicate IsDigitIn(c: char, base: nat) {
    DigitValue(c) < base
  }

  /** Leading white space dropped, as strtoull does before looking for a sign. */
  function SkipSpaces(s: string): (r: string)
  {
    if s != [] && IsCSpace(s[0]) then SkipSpaces(s[1..]) else s
  }

  /** What SkipSpaces leaves is a suffix of the text that starts with anything but white space. */
  lemma {:induction false} SkipSpacesSuffix(s: string)
    ensures |SkipSpaces(s)| <= |s| && SkipSpaces(s) == s[|s| - |SkipSpaces(s)|..]
    ensures SkipSpaces(s) == [] || !IsCSpace(SkipSpaces(s)[0])
  {
    if s != [] && IsCSpace(s[0]) {
      SkipSpacesSuffix(s[1..]);
    }
  }

  /** The longest prefix of `s` made only of digits of `base`. */
  function DigitRun(s: string, base: nat): (r: string)
  {
    if s != [] && IsDigitIn(s[0], base) then [s[0]] + DigitRun(s[1..], base) else []
  }

  /** DigitRun is a prefix of digits that the next character, if any, does not continue. */
  lemma {:induction false} DigitRunLongest(s: string, base: nat)
    ensures |DigitRun(s, base)| <= |s| && DigitRun(s, base) == s[..|DigitRun(s, base)|]
    ensures forall i :: 0 <= i < |DigitRun(s, base)| ==> IsDigitIn(DigitRun(s, base)[i], base)
    ensures |DigitRun(s, base)| == |s| || !IsDigitIn(s[|DigitRun(s, base)|], base)
  {
    if s != [] && IsDigitIn(s[0], base) {
      DigitRunLongest(s[1..], base);
    }
  }

  /** The three bases base 0 can pick. */
  type Radix = b: nat | b == 8 || b == 10 || b == 16 witness 10

  /** `x * base`, written per base so that it stays linear in `x`. */
  function Shifted(x: nat, base: Radix): (r: nat)
  {
    if base == 8 then 8 * x else if base == 10 then 10 * x else 16 * x
  }

  /** The number a digit string denotes in `base`, most significant digit first. */
  function DigitsValue(ds: string, base: Radix): (r: nat)
  {
    if ds == [] then 0 else Shifted(DigitsValue(ds[..|ds| - 1], base), base) + DigitValue(ds[|ds| - 1])
  }

  /** What base 0 makes of the text after the sign: the base it picks and the digits it reads. */
  datatype Subject = Subject(base: Radix, digits: string)

  function BaseAndDigits(u: string): (r: Subject)
  {
    if |u| >= 3 && u[0] == '0' && (u[1] == 'x' || u[1] == 'X') && IsDigitIn(u[2], 16) then
      Subject(16, DigitRun(u[2..], 16))
    else if |u| >= 1 && u[0] == '0' then
      Subject(8, DigitRun(u, 8))
    else
      Subject(10, DigitRun(u, 10))
  }

  /** The text that follows white space and an optional sign. */
  function Unsigned(s: string): (r: string)
  {
    var t := SkipSpaces(s);
    if t != [] && (t[0] == '-' || t[0] == '+') then t[1..] else t
  }

  predicate IsNegative(s: string) {
    var t := SkipSpaces(s);
    t != [] && t[0] == '-'
  }

  /**
   * strtoull(s, nullptr, 0): base detection, longest valid digit run, no digits giving 0,
   * a minus sign negating in uint64_t (2^64 - magnitude, and 0 for 0), and an
   * out-of-range magnitude giving ULLONG_MAX.
   */
  function StrToULL(s: string): (v: uint64)
  {
    var subject := BaseAndDigits(Unsigned(s));
    var magnitude := DigitsValue(subject.digits, subject.base);
    if magnitude > ULLONG_MAX then ULLONG_MAX
    else if IsNegative(s) then (if magnitude == 0 then 0 else UINT64_LIMIT - magnitude)
    else magnitude
  }

  const HEX_DIGITS: string := "0123456789ABCDEF"

  /** printf's %lX: upper-case hexadecimal digits with no leading zeros. */
  function Hex(v: nat): (r: string)
    ensures |r| >= 1
    ensures forall i :: 0 <= i < |r| ==> r[i] in HEX_DIGITS
    ensures r[0] == '0' ==> r == "0"
    ensures DigitsValue(r, 16) == v
    decreases v
  {
    if v < 16 then
      HexDigitValue(v);
      [HEX_DIGITS[v]]
    else
      var high := Hex(v / 16);
      var r := high + [HEX_DIGITS[v % 16]];
      HexDigitValue(v % 16);
      assert r[..|r| - 1] == high;
      assert DigitsValue(r, 16) == DigitsValue(high, 16) * 16 + v % 16;
      assert DigitsValue("0", 16) == 0;
      assert high != "0";
      r
  }

  lemma HexDigitValue(k: nat)
    requires k < 16
    ensures HEX_DIGITS[k] in HEX_DIGITS
    ensures DigitValue(HEX_DIGITS[k]) == k
    ensures HEX_DIGITS[k] == '0' <==> k == 0
  {
  }

  /** Reading the printed digits back as a hexadecimal constant gives the value printed. */
  lemma HexRoundTrip(v: uint64)
    ensures StrToULL("0x" + Hex(v)) == v
    ensures StrToULL("0X" + Hex(v)) == v
  {
    var h := Hex(v);
    HexDigitsAreDigits(h);
    AllDigitsRun(h, 16);
    var s := "0x" + h;
    assert SkipSpaces(s) == s;
    assert Unsigned(s) == s;
    assert s[2..] == h;
    var s' := "0X" + h;
    assert SkipSpaces(s') == s';
    assert Unsigned(s') == s';
    assert s'[2..] == h;
  }

  lemma HexDigitsAreDigits(h: string)
    requires forall i :: 0 <= i < |h| ==> h[i] in HEX_DIGITS
    ensures forall i :: 0 <= i < |h| ==> IsDigitIn(h[i], 16)
  {
  }

  lemma {:induction false} AllDigitsRun(s: string, base: nat)
    requires forall i :: 0 <= i < |s| ==> IsDigitIn(s[i], base)
    ensures DigitRun(s, base) == s
  {
    if s != [] {
      AllDigitsRun(s[1..], base);
    }
  }

  /** Conversion stops at the first character that is not a digit of the chosen base. */
  lemma {:induction false} DigitRunStops(d: string, t: string, base: nat)
    requires forall i :: 0 <= i < |d| ==> IsDigitIn(d[i], base)
    requires t == [] || !IsDigitIn(t[0], base)
    ensures DigitRun(d + t, base) == d
  {
    if d != [] {
      assert (d + t)[1..] == d[1..] + t;
      DigitRunStops(d[1..], t, base);
    }
  }

  /**
   * A constant that starts with a non-zero decimal digit is read in base 10, and any
   * text after it that does not continue it is ignored.
   */
  lemma LongestDecimalPrefix(d: string, t: string)
    requires d != [] && d[0] != '0'
    requires forall i :: 0 <= i < |d| ==> IsDigitIn(d[i], 10)
    requires t == [] || !IsDigitIn(t[0], 10)
    ensures StrToULL(d + t) == StrToULL(d)
    ensures DigitsValue(d, 10) <= ULLONG_MAX ==> StrToULL(d + t) == DigitsValue(d, 10)
  {
    var m := DigitsValue(d, 10);
    DecimalSubject(d, t);
    assert StrToULL(d + t) == if m > ULLONG_MAX then ULLONG_MAX else m;
    assert d + [] == d;
    DecimalSubject(d, []);
    assert StrToULL(d) == if m > ULLONG_MAX then ULLONG_MAX else m;
  }

  lemma DecimalSubject(d: string, t: string)
    requires d != [] && d[0] != '0'
    requires forall i :: 0 <= i < |d| ==> IsDigitIn(d[i], 10)
    requires t == [] || !IsDigitIn(t[0], 10)
    ensures Unsigned(d + t) == d + t
    ensures !IsNegative(d + t) && BaseAndDigits(Unsigned(d + t)) == Subject(10, d)
  {
    assert !IsCSpace(d[0]) && (d + t)[0] == d[0];
    assert SkipSpaces(d + t) == d + t;
    assert Unsigned(d + t) == d + t;
    DigitRunStops(d, t, 10);
  }

  /**
   * `0x` or `0X` followed by hexadecimal digits, of either case and with any leading zeros,
   * is read in base 16; text after the digits that does not continue them is ignored.
   */
  lemma LongestHexPrefix(h: string, t: string)
    requires h != []
    requires forall i :: 0 <= i < |h| ==> IsDigitIn(h[i], 16)
    requires t == [] || !IsDigitIn(t[0], 16)
    ensures StrToULL("0x" + h + t) == StrToULL("0x" + h)
    ensures StrToULL("0X" + h + t) == StrToULL("0X" + h)
    ensures DigitsValue(h, 16) <= ULLONG_MAX ==> StrToULL("0x" + h + t) == DigitsValue(h, 16)
    ensures DigitsValue(h, 16) <= ULLONG_MAX ==> StrToULL("0X" + h + t) == DigitsValue(h, 16)
  {
    HexPrefix("0x", h, t);
    HexPrefix("0X", h, t);
  }

  lemma HexPrefix(x: string, h: string, t: string)
    requires x == "0x" || x == "0X"
    requires h != []
    requires forall i :: 0 <= i < |h| ==> IsDigitIn(h[i], 16)
    requires t == [] || !IsDigitIn(t[0], 16)
    ensures StrToULL(x + h + t) == StrToULL(x + h)
    ensures DigitsValue(h, 16) <= ULLONG_MAX ==> StrToULL(x + h + t) == DigitsValue(h, 16)
  {
    HexSubject(x, h, t);
    assert x + h + [] == x + h;
    HexSubject(x, h, []);
    SameSubject(x + h + t, x + h);
  }

  /** strtoull depends only on the sign and on the base and digits it picks. */
  lemma SameSubject(s: string, s': string)
    requires IsNegative(s) == IsNegative(s')
    requires BaseAndDigits(Unsigned(s)) == BaseAndDigits(Unsigned(s'))
    ensures StrToULL(s) == StrToULL(s')
  {
  }

  lemma HexSubject(x: string, h: string, t: string)
    requires x == "0x" || x == "0X"
    requires h != []
    requires forall i :: 0 <= i < |h| ==> IsDigitIn(h[i], 16)
    requires t == [] || !IsDigitIn(t[0], 16)
    ensures !IsNegative(x + h + t) && BaseAndDigits(Unsigned(x + h + t)) == Subject(16, h)
  {
    var s := x + h + t;
    assert s[0] == '0' && (s[1] == 'x' || s[1] == 'X') && s[2] == h[0];
    assert SkipSpaces(s) == s;
    assert Unsigned(s) == s;
    assert s[2..] == h + t;
    DigitRunStops(h, t, 16);
  }

  /**
   * A constant that starts with `0` and is not `0x`/`0X` followed by a hexadecimal digit
   * is read in base 8, up to the first character that is not an octal digit.
   */
  lemma LongestOctalPrefix(d: string, t: string)
    requires d != [] && d[0] == '0'
    requires forall i :: 0 <= i < |d| ==> IsDigitIn(d[i], 8)
    requires t == [] || !IsDigitIn(t[0], 8)
    requires !(|d| == 1 && |t| >= 2 && (t[0] == 'x' || t[0] == 'X') && IsDigitIn(t[1], 16))
    ensures StrToULL(d + t) == StrToULL(d)
    ensures DigitsValue(d, 8) <= ULLONG_MAX ==> StrToULL(d + t) == DigitsValue(d, 8)
  {
    OctalSubject(d, t);
    assert d + [] == d;
    OctalSubject(d, []);
    SameSubject(d + t, d);
  }

  lemma OctalSubject(d: string, t: string)
    requires d != [] && d[0] == '0'
    requires forall i :: 0 <= i < |d| ==> IsDigitIn(d[i], 8)
    requires t == [] || !IsDigitIn(t[0], 8)
    requires !(|d| == 1 && |t| >= 2 && (t[0] == 'x' || t[0] == 'X') && IsDigitIn(t[1], 16))
    ensures !IsNegative(d + t) && BaseAndDigits(Unsigned(d + t)) == Subject(8, d)
  {
    var s := d + t;
    assert s[0] == '0';
    assert SkipSpaces(s) == s;
    assert Unsigned(s) == s;
    if |s| >= 3 && (s[1] == 'x' || s[1] == 'X') {
      assert |d| == 1 && s[1] == t[0] && s[2] == t[1];
    }
    DigitRunStops(d, t, 8);
  }

  /** Text without a decimal digit converts to 0, whatever white space and sign it holds. */
  lemma NoDigitsIsZero(s: string)
    requires forall i :: 0 <= i < |s| ==> !('0' <= s[i] <= '9')
    ensures StrToULL(s) == 0
  {
    SkipSpacesSuffix(s);
    var u := Unsigned(s);
    assert u == [] || u[0] in s;
    assert u == [] || !IsDigitIn(u[0], 10);
    assert BaseAndDigits(u) == Subject(10, []);
  }
}
