/**
 * Python's `int(s, base)` for the two bases the tools use, 10 and 16:
 * surrounding whitespace, an optional sign, for base 16 an optional `0x`/`0X`
 * prefix (which may be followed by one underscore), then digits of the base
 * with single underscores allowed between them.  `None` stands for the
 * `ValueError` that `int` raises.
 */
module PyInt {

  import opened Wrappers
  import opened Strings

  /**
   * Whitespace that `int` skips around the number: ASCII space, tab, newline,
   * vertical tab, form feed and carriage return, and every non-ASCII character
   * `str.isspace()` accepts (int maps those to a space before parsing).
   */
  predicate IntSpace(c: char) {
    c == ' ' || ('\t' <= c <= '\r') || (c as int > 127 && IsSpace(c))
  }

  function SkipIntSpace(s: string): (r: string)
    ensures |r| <= |s| && r == s[|s| - |r|..]
    decreases |s|
  {
    if s != [] && IntSpace(s[0]) then SkipIntSpace(s[1..]) else s
  }

  /** Value of an ASCII digit in bases up to 16; 99 for any other character. */
  function DigitValue(c: char): nat {
    if '0' <= c <= '9' then c as int - '0' as int
    else if 'a' <= c <= 'f' then c as int - 'a' as int + 10
    else if 'A' <= c <= 'F' then c as int - 'A' as int + 10
    else 99
  }

  predicate IsHexDigit(c: char) {
    DigitValue(c) < 16
  }

  predicate IsDecimalDigit(c: char) {
    DigitValue(c) < 10
  }

  /** A run of digits of `base` with single underscores between digits. */
  predicate ValidDigits(b: string, base: nat) {
    && b != []
    && b[0] != '_'
    && b[|b| - 1] != '_'
    && (forall k :: 0 <= k < |b| ==> b[k] == '_' || DigitValue(b[k]) < base)
    && (forall k :: 0 <= k < |b| - 1 ==> b[k] != '_' || b[k + 1] != '_')
  }

  function RemoveUnderscores(b: string): string {
    if b == [] then []
    else RemoveUnderscores(b[..|b| - 1]) + (if b[|b| - 1] == '_' then [] else [b[|b| - 1]])
  }

  /** The value of a string of digits of `base` (16, or else 10), most significant first. */
  function DigitsValue(ds: string, base: nat): nat {
    if ds == [] then 0
    else
      var high := DigitsValue(ds[..|ds| - 1], base);
      var d := DigitValue(ds[|ds| - 1]);
      (if base == 16 then high * 16 else high * 10) + (if d < base then d else 0)
  }

  /** `s` without the trailing whitespace `int` skips. */
  function DropTrailingIntSpace(s: string): (r: string)
    ensures r <= s
    decreases |s|
  {
    if s != [] && IntSpace(s[|s| - 1]) then DropTrailingIntSpace(s[..|s| - 1]) else s
  }

  /** `s` without the whitespace `int` skips on either side. */
  function TrimIntSpace(s: string): string {
    DropTrailingIntSpace(SkipIntSpace(s))
  }

  /** The digits after the optional `0x`/`0X` prefix (and its optional underscore) of base 16. */
  function DigitPart(u: string, base: nat): string {
    if base == 16 && |u| >= 2 && u[0] == '0' && (u[1] == 'x' || u[1] == 'X') then
      (if |u| >= 3 && u[2] == '_' then u[3..] else u[2..])
    else u
  }

  /** `int` on what follows the sign. */
  function ParseUnsigned(u: string, base: nat): Option<nat> {
    var b := DigitPart(u, base);
    if ValidDigits(b, base) then Some(DigitsValue(RemoveUnderscores(b), base)) else None
  }

  /** `int` on the trimmed text: an optional sign, then the unsigned part. */
  function ParseSigned(t: string, base: nat): Option<int> {
    if t != [] && (t[0] == '+' || t[0] == '-') then
      match ParseUnsigned(t[1..], base)
      case None => None
      case Some(v) => Some(if t[0] == '-' then -(v as int) else v as int)
    else
      match ParseUnsigned(t, base)
      case None => None
      case Some(v) => Some(v)
  }

  /** `int(s, base)`, or `None` where Python raises `ValueError`. */
  function ParseInt(s: string, base: nat): Option<int>
    requires base == 10 || base == 16
  {
    ParseSigned(TrimIntSpace(s), base)
  }

  /** A string that is only digits of `base` starts and ends with no whitespace. */
  lemma {:induction false} NoSpaceAround(s: string)
    requires s != [] && !IntSpace(s[0]) && !IntSpace(s[|s| - 1])
    ensures TrimIntSpace(s) == s
  {
  }

  lemma {:induction false} RemoveUnderscoresNone(ds: string)
    requires forall k :: 0 <= k < |ds| ==> ds[k] != '_'
    ensures RemoveUnderscores(ds) == ds
  {
    if ds != [] {
      RemoveUnderscoresNone(ds[..|ds| - 1]);
    }
  }

  /** Plain digits of `base` (no sign, prefix or underscore) parse to their value. */
  lemma {:induction false} PlainDigitsParse(s: string, base: nat)
    requires (base == 10 || base == 16) && s != []
    requires forall k :: 0 <= k < |s| ==> DigitValue(s[k]) < base
    ensures ValidDigits(s, base)
    ensures ParseUnsigned(s, base) == Some(DigitsValue(s, base))
  {
    PlainDigitsValid(s, base);
    PlainDigitPart(s, base);
    assert forall k :: 0 <= k < |s| ==> s[k] != '_';
    RemoveUnderscoresNone(s);
  }

  lemma {:induction false} PlainDigitsValid(s: string, base: nat)
    requires (base == 10 || base == 16) && s != []
    requires forall k :: 0 <= k < |s| ==> DigitValue(s[k]) < base
    ensures ValidDigits(s, base)
  {
    assert DigitValue('_') == 99;
  }

  lemma {:induction false} PlainDigitPart(s: string, base: nat)
    requires (base == 10 || base == 16) && s != []
    requires forall k :: 0 <= k < |s| ==> DigitValue(s[k]) < base
    ensures DigitPart(s, base) == s
  {
    if base == 16 && |s| >= 2 && s[0] == '0' {
      assert s[1] != 'x' && s[1] != 'X';
    }
  }

  /** A non-empty string of plain decimal digits is accepted by `int(s, 10)`, with its decimal value. */
  lemma {:induction false} DecimalDigitsParse(s: string)
    requires s != []
    requires forall k :: 0 <= k < |s| ==> IsDecimalDigit(s[k])
    ensures ParseInt(s, 10) == Some(DigitsValue(s, 10) as int)
  {
    assert !IntSpace(s[0]) && !IntSpace(s[|s| - 1]);
    NoSpaceAround(s);
    PlainDigitsParse(s, 10);
    assert s[0] != '+' && s[0] != '-';
  }

  /** A non-empty string of plain hex digits is accepted by `int(s, 16)`. */
  lemma {:induction false} HexDigitsParse(s: string)
    requires s != []
    requires forall k :: 0 <= k < |s| ==> IsHexDigit(s[k])
    ensures ParseInt(s, 16) == Some(DigitsValue(s, 16) as int)
  {
    assert !IntSpace(s[0]) && !IntSpace(s[|s| - 1]);
    NoSpaceAround(s);
    PlainDigitsParse(s, 16);
    assert s[0] != '+' && s[0] != '-';
  }

  /** `int(s, 16)` also accepts the `0x` prefix in front of hex digits. */
  lemma {:induction false} PrefixedHexParses(h: string)
    requires h != []
    requires forall k :: 0 <= k < |h| ==> IsHexDigit(h[k])
    ensures ParseInt("0x" + h, 16) == Some(DigitsValue(h, 16) as int)
  {
    var s := "0x" + h;
    assert s[|s| - 1] == h[|h| - 1];
    assert !IntSpace(s[|s| - 1]);
    NoSpaceAround(s);
    assert ParseInt(s, 16) == ParseUnsigned(s, 16);
    PrefixedDigitPart(h);
    PlainDigitsParse(h, 16);
  }

  lemma PrefixedDigitPart(h: string)
    requires h != [] && IsHexDigit(h[0])
    ensures DigitPart("0x" + h, 16) == h
  {
    var s := "0x" + h;
    assert s[2] == h[0];
    assert DigitValue('_') == 99;
    assert s[2..] == h;
  }

  /** The empty string (and so a blank one) is never a number. */
  lemma EmptyNotInt(base: nat)
    requires base == 10 || base == 16
    ensures ParseInt("", base) == None
  {
  }

  /** Formatting a natural number in decimal and parsing it back with `int` gives the number. */
  lemma {:induction false} DecimalRoundTrip(n: nat)
    ensures ParseInt(DecimalString(n), 10) == Some(n)
  {
    var s := DecimalString(n);
    DecimalValue(n);
    DecimalDigitsParse(s);
  }

  lemma {:induction false} DecimalValue(n: nat)
    ensures DigitsValue(DecimalString(n), 10) == n
    decreases n
  {
    var s := DecimalString(n);
    if n >= 10 {
      DecimalValue(n / 10);
      assert s[..|s| - 1] == DecimalString(n / 10);
    }
  }
}
