/** Character classes and number <-> text conversions used by both the
    Python backend (regular expressions, f-strings, `int`) and the
    TypeScript frontend (`\D`, `\s`, `parseInt`). */
module Text {
  import opened Wrappers
  import opened Seqs

  predicate IsDigit(c: char) {
    '0' <= c <= '9'
  }

  predicate AllDigits(s: string) {
    forall i :: 0 <= i < |s| ==> IsDigit(s[i])
  }

  /** `value.replace(/\D/g, '')`: JavaScript's `\d` is exactly '0'..'9'. */
  function KeepDigits(s: string): string {
    Filter(s, IsDigit)
  }

  /** The characters `\s` matches in a Python 3 `str` pattern (those for
      which `str.isspace()` holds). */
  predicate IsPySpace(c: char) {
    || c in {'\t', '\n', '\U{B}', '\U{C}', '\r', '\U{1C}', '\U{1D}', '\U{1E}', '\U{1F}', ' '}
    || c in {'\U{85}', '\U{A0}', '\U{1680}', '\U{2028}', '\U{2029}', '\U{202F}', '\U{205F}', '\U{3000}'}
    || ('\U{2000}' <= c <= '\U{200A}')
  }

  /** The characters `\s` matches in JavaScript (WhiteSpace and
      LineTerminator), which are also the ones `parseInt` skips. */
  predicate IsJsSpace(c: char) {
    || c in {'\t', '\n', '\U{B}', '\U{C}', '\r', ' '}
    || c in {'\U{A0}', '\U{1680}', '\U{2028}', '\U{2029}', '\U{202F}', '\U{205F}', '\U{3000}', '\U{FEFF}'}
    || ('\U{2000}' <= c <= '\U{200A}')
  }

  function DigitChar(d: nat): (c: char)
    requires d < 10
    ensures IsDigit(c)
  {
    ('0' as int + d) as char
  }

  /** The value of `c` as a digit of base `radix` (2..36), as `parseInt`
      and Python's `int` read digits: '0'..'9', then 'a'/'A' = 10 onwards. */
  function RadixDigit(c: char, radix: nat): Option<nat> {
    if '0' <= c <= '9' && (c as int - '0' as int) < radix then Some(c as int - '0' as int)
    else if 'a' <= c <= 'z' && (c as int - 'a' as int) + 10 < radix then Some(c as int - 'a' as int + 10)
    else if 'A' <= c <= 'Z' && (c as int - 'A' as int) + 10 < radix then Some(c as int - 'A' as int + 10)
    else None
  }

  predicate AllRadixDigits(s: string, radix: nat) {
    forall i :: 0 <= i < |s| ==> RadixDigit(s[i], radix).Some?
  }

  /** The number a string of base-`radix` digits denotes. */
  function DigitsValue(s: string, radix: nat): nat
    requires AllRadixDigits(s, radix)
  {
    if s == [] then 0
    else DigitsValue(s[..|s| - 1], radix) * radix + RadixDigit(s[|s| - 1], radix).value
  }

  function DecimalValue(s: string): nat
    requires AllDigits(s)
  {
    assert AllRadixDigits(s, 10);
    DigitsValue(s, 10)
  }

  /** `str(n)` / `${n}` for a natural number: decimal without leading zeros. */
  function NatToDecimal(n: nat): (s: string)
    ensures |s| >= 1 && AllDigits(s)
    ensures (|s| == 1) == (n < 10)
    ensures |s| > 1 ==> s[0] != '0'
  {
    if n < 10 then [DigitChar(n)] else NatToDecimal(n / 10) + [DigitChar(n % 10)]
  }

  /** Reading back what `NatToDecimal` wrote gives the number itself. */
  lemma {:induction false} DecimalRoundTrip(n: nat)
    ensures DecimalValue(NatToDecimal(n)) == n
  {
    var s := NatToDecimal(n);
    assert RadixDigit(s[|s| - 1], 10) == Some(n % 10);
    if n >= 10 {
      DecimalRoundTrip(n / 10);
      assert s[..|s| - 1] == NatToDecimal(n / 10);
    } else {
      assert s[..|s| - 1] == [];
    }
    assert DigitsValue(s, 10) == DigitsValue(s[..|s| - 1], 10) * 10 + n % 10;
  }

  lemma NatToDecimalInjective(a: nat, b: nat)
    requires NatToDecimal(a) == NatToDecimal(b)
    ensures a == b
  {
    DecimalRoundTrip(a);
    DecimalRoundTrip(b);
  }

  function TrimStartJsSpace(s: string): (r: string)
    ensures |r| <= |s|
    ensures r == [] || !IsJsSpace(r[0])
    ensures forall k :: 0 <= k < |s| - |r| ==> IsJsSpace(s[k])
    ensures r == s[|s| - |r|..]
  {
    if s != [] && IsJsSpace(s[0]) then TrimStartJsSpace(s[1..]) else s
  }

  /** The longest prefix of `s` made of base-`radix` digits. */
  function DigitRun(s: string, radix: nat): (r: string)
    ensures AllRadixDigits(r, radix)
    ensures |r| <= |s| && r == s[..|r|]
    ensures |r| < |s| ==> RadixDigit(s[|r|], radix).None?
  {
    if s != [] && RadixDigit(s[0], radix).Some? then [s[0]] + DigitRun(s[1..], radix) else []
  }

  /** JavaScript's `parseInt(s)` with no radix; `None` stands for `NaN`.
      Leading white space is skipped, one sign is read, a "0x"/"0X" prefix
      selects base 16, and the longest run of digits after that is read. */
  function ParseInt(s: string): Option<int> {
    var t := TrimStartJsSpace(s);
    var negative := t != [] && t[0] == '-';
    var unsigned := if t != [] && (t[0] == '-' || t[0] == '+') then t[1..] else t;
    var hex := |unsigned| >= 2 && unsigned[0] == '0' && (unsigned[1] == 'x' || unsigned[1] == 'X');
    var radix := if hex then 16 else 10;
    var body := if hex then unsigned[2..] else unsigned;
    var digits := DigitRun(body, radix);
    if digits == [] then None
    else
      var magnitude: int := DigitsValue(digits, radix);
      Some(if negative then -magnitude else magnitude)
  }

  /** `parseInt` reads back every number `NatToDecimal` writes. */
  lemma ParseIntOfDecimal(n: nat)
    ensures ParseInt(NatToDecimal(n)) == Some(n)
  {
    var s := NatToDecimal(n);
    assert !IsJsSpace(s[0]);
    assert TrimStartJsSpace(s) == s;
    assert s[0] != '-' && s[0] != '+';
    assert |s| >= 2 ==> s[1] != 'x' && s[1] != 'X';
    assert AllRadixDigits(s, 10);
    DigitRunAll(s, 10);
    DecimalRoundTrip(n);
  }

  lemma {:induction false} DigitRunAll(s: string, radix: nat)
    requires AllRadixDigits(s, radix)
    ensures DigitRun(s, radix) == s
  {
    if s != [] {
      DigitRunAll(s[1..], radix);
    }
  }

  predicate IsLowerHex(c: char) {
    '0' <= c <= '9' || 'a' <= c <= 'f'
  }

  predicate IsUpperHex(c: char) {
    '0' <= c <= '9' || 'A' <= c <= 'F'
  }

  /** Python's `str.upper()` on a string of lower-case hexadecimal digits. */
  function UpperHexChar(c: char): (u: char)
    requires IsLowerHex(c)
    ensures IsUpperHex(u) && RadixDigit(u, 16) == RadixDigit(c, 16)
  {
    if 'a' <= c <= 'f' then (c as int - 'a' as int + 'A' as int) as char else c
  }

  function UpperHex(s: string): (r: string)
    requires forall i :: 0 <= i < |s| ==> IsLowerHex(s[i])
    ensures |r| == |s|
    ensures forall i :: 0 <= i < |s| ==> IsUpperHex(r[i])
    ensures forall i :: 0 <= i < |s| ==> RadixDigit(r[i], 16) == RadixDigit(s[i], 16)
  {
    seq(|s|, i requires 0 <= i < |s| => UpperHexChar(s[i]))
  }
}
