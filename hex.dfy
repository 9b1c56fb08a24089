/** The hex colour decoder `UIColor.init?(hex:)` of WishMakerViewController.swift.

    The decoder trims surrounding whitespace, upper-cases the text, drops one
    leading '#', insists on exactly six characters, reads them as an unsigned
    base-16 number and splits that into three bytes, each scaled by 1/255.
    Channels are exact reals here, so the scaling is exact.
 */
module Hex {

  datatype Option<+T> = None | Some(value: T)

  type Byte = x: int | 0 <= x < 0x100

  /** The three bytes a six-digit hex code denotes. */
  datatype Rgb = Rgb(r: Byte, g: Byte, b: Byte)

  /** A colour as UIKit's `UIColor(red:green:blue:alpha:)` takes it. */
  datatype Color = Color(red: real, green: real, blue: real, alpha: real)

  predicate InUnit(x: real) { 0.0 <= x <= 1.0 }

  // ---------------------------------------------------------------------------
  // Text preparation: trim, upper-case, strip one '#'
  // ---------------------------------------------------------------------------

  /** Membership in Foundation's `CharacterSet.whitespacesAndNewlines`, as
      documented: the Unicode space separators, line and paragraph
      separators, the control characters U+0009 to U+000D and U+0085. */
  predicate IsWhitespace(c: char) {
    ('\t' <= c <= '\r') || c == ' ' || c == '\U{0085}' || c == '\U{00A0}' || c == '\U{1680}'
    || ('\U{2000}' <= c <= '\U{200A}') || c == '\U{2028}' || c == '\U{2029}'
    || c == '\U{202F}' || c == '\U{205F}' || c == '\U{3000}'
  }

  /** Drops the leading whitespace: what is left is a suffix of `s` that is
      empty or starts with a non-whitespace character. */
  function TrimStart(s: string): (r: string)
    ensures |r| <= |s| && r == s[|s| - |r|..]
    ensures forall i :: 0 <= i < |s| - |r| ==> IsWhitespace(s[i])
    ensures r == [] || !IsWhitespace(r[0])
  {
    if |s| > 0 && IsWhitespace(s[0]) then TrimStart(s[1..]) else s
  }

  /** Drops the trailing whitespace: what is left is a prefix of `s` that is
      empty or ends with a non-whitespace character. */
  function TrimEnd(s: string): (r: string)
    ensures |r| <= |s| && r == s[..|r|]
    ensures forall i :: |r| <= i < |s| ==> IsWhitespace(s[i])
    ensures r == [] || !IsWhitespace(r[|r| - 1])
  {
    if |s| > 0 && IsWhitespace(s[|s| - 1]) then TrimEnd(s[..|s| - 1]) else s
  }

  /** Drops whitespace and newlines at both ends: what is left is the
      middle slice of `s`, everything cut off on either side is whitespace,
      and the slice neither starts nor ends with whitespace. */
  function Trim(s: string): (r: string)
    ensures SliceAt(s, |s| - |TrimStart(s)|, r)
    ensures AllWhitespace(s, 0, |s| - |TrimStart(s)|)
    ensures AllWhitespace(s, |s| - |TrimStart(s)| + |r|, |s|)
    ensures r == [] || (!IsWhitespace(r[0]) && !IsWhitespace(r[|r| - 1]))
  {
    TrimIsSlice(s);
    TrimEnd(TrimStart(s))
  }

  /** `r` occurs in `s` starting at index `k`. */
  predicate SliceAt(s: string, k: int, r: string) {
    0 <= k && k + |r| <= |s| && r == s[k..k + |r|]
  }

  /** `s[lo..hi]` is all whitespace. */
  predicate AllWhitespace(s: string, lo: int, hi: int) {
    forall i :: lo <= i < hi && 0 <= i < |s| ==> IsWhitespace(s[i])
  }

  lemma SliceOfSuffix(s: string, k: nat, n: nat)
    requires k + n <= |s|
    ensures s[k..][..n] == s[k..k + n]
  {
  }

  /** A prefix `r` of a suffix `t` of `s` is a middle slice of `s`; what
      follows `r` in `t` follows it in `s` too. */
  lemma MiddleSlice(s: string, t: string, r: string)
    requires |t| <= |s| && t == s[|s| - |t|..]
    requires |r| <= |t| && r == t[..|r|]
    requires forall i :: |r| <= i < |t| ==> IsWhitespace(t[i])
    ensures SliceAt(s, |s| - |t|, r) && AllWhitespace(s, |s| - |t| + |r|, |s|)
  {
    var k := |s| - |t|;
    SliceOfSuffix(s, k, |r|);
    forall i | k + |r| <= i < |s| ensures IsWhitespace(s[i]) {
      assert IsWhitespace(t[i - k]);
    }
  }

  lemma TrimIsSlice(s: string)
    ensures SliceAt(s, |s| - |TrimStart(s)|, TrimEnd(TrimStart(s)))
    ensures AllWhitespace(s, |s| - |TrimStart(s)| + |TrimEnd(TrimStart(s))|, |s|)
  {
    var t := TrimStart(s);
    var r := TrimEnd(t);
    assert |t| <= |s| && t == s[|s| - |t|..];
    assert |r| <= |t| && r == t[..|r|];
    assert forall i :: |r| <= i < |t| ==> IsWhitespace(t[i]);
    MiddleSlice(s, t, r);
  }

  /** Applies `f` to every character of `s`. */
  function MapChars(f: char -> char, s: string): (r: string)
    ensures |r| == |s| && forall i :: 0 <= i < |s| ==> r[i] == f(s[i])
  {
    seq(|s|, i requires 0 <= i < |s| => f(s[i]))
  }

  function ToUpper(c: char): char {
    if 'a' <= c <= 'z' then (c as int - 32) as char else c
  }

  function ToLower(c: char): char {
    if 'A' <= c <= 'Z' then (c as int + 32) as char else c
  }

  /** `uppercased()`, on the ASCII letters: no lower-case letter is left,
      and every other character stays as it was. */
  function Upper(s: string): (r: string)
    ensures |r| == |s|
    ensures forall i :: 0 <= i < |s| && 'a' <= s[i] <= 'z' ==>
      'A' <= r[i] <= 'Z' && r[i] as int - 'A' as int == s[i] as int - 'a' as int
    ensures forall i :: 0 <= i < |r| ==> !('a' <= r[i] <= 'z')
    ensures forall i :: 0 <= i < |s| && !('a' <= s[i] <= 'z') ==> r[i] == s[i]
  {
    MapChars(ToUpper, s)
  }

  function Lower(s: string): string { MapChars(ToLower, s) }

  /** Drops one leading '#', if there is one: the text is either the result
      behind one '#', or the result itself with no '#' in front. */
  function StripHash(s: string): (r: string)
    ensures (|s| > 0 && s[0] == '#' && s == "#" + r) || (r == s && (|s| == 0 || s[0] != '#'))
  {
    if |s| > 0 && s[0] == '#' then s[1..] else s
  }

  /** The text the decoder's guard inspects: the trimmed, upper-cased input,
      less one '#' in front. */
  function Prepared(hex: string): (r: string)
    ensures forall i :: 0 <= i < |r| ==> !('a' <= r[i] <= 'z')
    ensures Upper(Trim(hex)) == "#" + r || (r == Upper(Trim(hex)) && (|r| == 0 || r[0] != '#'))
  {
    StripHash(Upper(Trim(hex)))
  }

  // ---------------------------------------------------------------------------
  // Base-16 numbers: `UInt64(_:radix: 16)`
  // ---------------------------------------------------------------------------

  predicate IsHexDigit(c: char) {
    '0' <= c <= '9' || 'A' <= c <= 'F' || 'a' <= c <= 'f'
  }

  predicate IsUpperHexDigit(c: char) {
    '0' <= c <= '9' || 'A' <= c <= 'F'
  }

  predicate AllHexDigits(s: string) {
    forall i :: 0 <= i < |s| ==> IsHexDigit(s[i])
  }

  function DigitValue(c: char): (d: nat)
    requires IsHexDigit(c)
    ensures d < 16
  {
    if '0' <= c <= '9' then c as int - '0' as int
    else if 'A' <= c <= 'F' then c as int - 'A' as int + 10
    else c as int - 'a' as int + 10
  }

  function Pow16(n: nat): (p: nat)
    ensures p > 0
  {
    if n == 0 then 1 else 16 * Pow16(n - 1)
  }

  const U64Limit: nat := 0x1_0000_0000_0000_0000

  lemma {:induction false} Pow16Mono(m: nat, n: nat)
    requires m <= n
    ensures Pow16(m) <= Pow16(n)
    decreases n
  {
    if m < n { Pow16Mono(m, n - 1); }
  }

  lemma {:induction false} Pow16Add(m: nat, n: nat)
    ensures Pow16(m + n) == Pow16(m) * Pow16(n)
    decreases n
  {
    if n > 0 {
      Pow16Add(m, n - 1);
      assert Pow16(m + n) == 16 * Pow16(m + n - 1);
    }
  }

  lemma SixteenDigitsFit(s: string)
    requires AllHexDigits(s)
    ensures |s| <= 16 ==> HexValue(s) < U64Limit
  {
    if |s| <= 16 {
      Pow16Mono(|s|, 16);
      Pow16Add(4, 4);
      Pow16Add(8, 8);
      assert Pow16(4) == 0x1_0000;
    }
  }

  /** The value of a string of hex digits, most significant digit first. */
  function HexValue(s: string): (v: nat)
    requires AllHexDigits(s)
    ensures v < Pow16(|s|)
    decreases |s|
  {
    if s == [] then 0
    else
      var init := s[..|s| - 1];
      assert AllHexDigits(init) by {
        forall i | 0 <= i < |init| ensures IsHexDigit(init[i]) { assert init[i] == s[i]; }
      }
      var v := HexValue(init) * 16 + DigitValue(s[|s| - 1]);
      assert v < Pow16(|s|) by {
        assert HexValue(init) + 1 <= Pow16(|init|);
        assert (HexValue(init) + 1) * 16 <= Pow16(|init|) * 16;
      }
      v
  }

  /** The unsigned parse: nothing for an empty string, a non-digit or a
      value that does not fit in 64 bits. Up to 16 digits always fit. */
  function ParseHex(s: string): (r: Option<nat>)
    ensures r.Some? ==> 0 < |s| && AllHexDigits(s) && r.value == HexValue(s)
    ensures r.Some? ==> r.value < Pow16(|s|) && r.value < U64Limit
    ensures 0 < |s| && AllHexDigits(s) && HexValue(s) < U64Limit ==> r.Some?
    ensures 0 < |s| <= 16 && AllHexDigits(s) ==> r.Some?
    ensures (exists i :: 0 <= i < |s| && !IsHexDigit(s[i])) ==> r.None?
  {
    if |s| == 0 || !AllHexDigits(s) then None
    else
      SixteenDigitsFit(s);
      if HexValue(s) < U64Limit then Some(HexValue(s)) else None
  }

  // ---------------------------------------------------------------------------
  // The decoder
  // ---------------------------------------------------------------------------

  /** Bits 16-23, 8-15 and 0-7 of `v` as red, green and blue; the source
      masks and shifts, which on a natural number is division and remainder.
      A 24-bit number is exactly the concatenation of its three bytes. */
  function Split(v: nat): (c: Rgb)
    ensures v < 0x100_0000 ==> Join(c) == v
  {
    Rgb((v / 0x10000) % 0x100, (v / 0x100) % 0x100, v % 0x100)
  }

  /** The 24-bit number whose three bytes are those of `c`. */
  function Join(c: Rgb): nat {
    c.r * 0x10000 + c.g * 0x100 + c.b
  }

  /** The bytes of `UIColor.init?(hex:)`, before scaling: on success the
      prepared text is six hex digits whose value has the bytes as its
      bits 16-23, 8-15 and 0-7. */
  function Decode(hex: string): (r: Option<Rgb>)
    ensures r.Some? ==> var s := Prepared(hex);
      |s| == 6 && AllHexDigits(s) && HexValue(s) == Join(r.value)
  {
    var s := Prepared(hex);
    if |s| != 6 then None
    else match ParseHex(s)
      case None => None
      case Some(v) => Some(Split(v))
  }

  /** Each byte divided by 255, with alpha 1. */
  function Normalised(c: Rgb): (color: Color)
    ensures InUnit(color.red) && InUnit(color.green) && InUnit(color.blue)
    ensures color.alpha == 1.0
    ensures color.red * 255.0 == c.r as real && color.green * 255.0 == c.g as real
    ensures color.blue * 255.0 == c.b as real
  {
    Color(c.r as real / 255.0, c.g as real / 255.0, c.b as real / 255.0, 1.0)
  }

  /** `UIColor.init?(hex:)`: `None` stands for the failed initialiser. */
  function ColorFromHex(hex: string): (r: Option<Color>)
    ensures r.Some? ==> InUnit(r.value.red) && InUnit(r.value.green) && InUnit(r.value.blue)
    ensures r.Some? ==> r.value.alpha == 1.0
  {
    match Decode(hex)
    case None => None
    case Some(c) => Some(Normalised(c))
  }

  // ---------------------------------------------------------------------------
  // The encoder: six upper-case hex digits, the form of the "#FF00FF" hint
  // ---------------------------------------------------------------------------

  function HexDigitChar(d: nat): (c: char)
    requires d < 16
    ensures IsUpperHexDigit(c) && DigitValue(c) == d
  {
    if d < 10 then ('0' as int + d) as char else ('A' as int + d - 10) as char
  }

  function FormatByte(b: Byte): string {
    [HexDigitChar(b / 16), HexDigitChar(b % 16)]
  }

  function Format(c: Rgb): string {
    FormatByte(c.r) + FormatByte(c.g) + FormatByte(c.b)
  }
}
