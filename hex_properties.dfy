/** What the hex colour decoder promises: when it succeeds, what the bytes
    are, that letter case and one leading '#' do not matter, and that it
    inverts the six-digit formatting of a byte triple. */
module HexProperties {
  import opened Hex

  // ---------------------------------------------------------------------------
  // Trimming commutes with a case mapping
  // ---------------------------------------------------------------------------

  /** `f` maps whitespace to whitespace and nothing else to whitespace. */
  ghost predicate KeepsWhitespace(f: char -> char) {
    forall c :: IsWhitespace(f(c)) == IsWhitespace(c)
  }

  lemma CaseMapsKeepWhitespace()
    ensures KeepsWhitespace(ToUpper) && KeepsWhitespace(ToLower)
  {
  }

  lemma {:induction false} TrimStartMap(f: char -> char, s: string)
    requires KeepsWhitespace(f)
    ensures TrimStart(MapChars(f, s)) == MapChars(f, TrimStart(s))
    decreases |s|
  {
    var m := MapChars(f, s);
    if |s| > 0 && IsWhitespace(s[0]) {
      assert IsWhitespace(m[0]);
      assert m[1..] == MapChars(f, s[1..]);
      TrimStartMap(f, s[1..]);
    } else if |s| > 0 {
      assert !IsWhitespace(m[0]);
    }
  }

  lemma {:induction false} TrimEndMap(f: char -> char, s: string)
    requires KeepsWhitespace(f)
    ensures TrimEnd(MapChars(f, s)) == MapChars(f, TrimEnd(s))
    decreases |s|
  {
    var m := MapChars(f, s);
    if |s| > 0 && IsWhitespace(s[|s| - 1]) {
      assert IsWhitespace(m[|m| - 1]);
      assert m[..|m| - 1] == MapChars(f, s[..|s| - 1]);
      TrimEndMap(f, s[..|s| - 1]);
    } else if |s| > 0 {
      assert !IsWhitespace(m[|m| - 1]);
    }
  }

  lemma TrimMap(f: char -> char, s: string)
    requires KeepsWhitespace(f)
    ensures Trim(MapChars(f, s)) == MapChars(f, Trim(s))
  {
    TrimStartMap(f, s);
    TrimEndMap(f, TrimStart(s));
  }

  // ---------------------------------------------------------------------------
  // Case-insensitivity
  // ---------------------------------------------------------------------------

  lemma UpperAbsorbsCase(s: string)
    ensures Upper(Upper(s)) == Upper(s)
    ensures Upper(Lower(s)) == Upper(s)
  {
    assert forall i :: 0 <= i < |s| ==> Upper(Upper(s))[i] == Upper(s)[i];
    assert forall i :: 0 <= i < |s| ==> Upper(Lower(s))[i] == Upper(s)[i];
  }

  /** The decoder sees the input only through `Prepared`. */
  lemma DecodeDependsOnPrepared(h1: string, h2: string)
    requires Prepared(h1) == Prepared(h2)
    ensures Decode(h1) == Decode(h2) && ColorFromHex(h1) == ColorFromHex(h2)
  {
  }

  lemma PreparedCaseInsensitive(hex: string)
    ensures Prepared(Upper(hex)) == Prepared(hex)
    ensures Prepared(Lower(hex)) == Prepared(hex)
  {
    CaseMapsKeepWhitespace();
    TrimMap(ToUpper, hex);
    TrimMap(ToLower, hex);
    UpperAbsorbsCase(Trim(hex));
  }

  /** Upper- or lower-casing the input first changes nothing. */
  lemma CaseInsensitive(hex: string)
    ensures Decode(Upper(hex)) == Decode(hex) && Decode(Lower(hex)) == Decode(hex)
    ensures ColorFromHex(Upper(hex)) == ColorFromHex(hex)
    ensures ColorFromHex(Lower(hex)) == ColorFromHex(hex)
  {
    PreparedCaseInsensitive(hex);
    DecodeDependsOnPrepared(Upper(hex), hex);
    DecodeDependsOnPrepared(Lower(hex), hex);
  }

  // ---------------------------------------------------------------------------
  // When the decoder succeeds
  // ---------------------------------------------------------------------------

  /** Six upper-case hex digits: the form the guard lets through. */
  predicate Canonical(s: string) {
    |s| == 6 && forall i :: 0 <= i < |s| ==> IsUpperHexDigit(s[i])
  }

  lemma PreparedHasNoLowerCase(hex: string)
    ensures forall i :: 0 <= i < |Prepared(hex)| ==> !('a' <= Prepared(hex)[i] <= 'z')
  {
    var u := Upper(Trim(hex));
    assert forall i :: 0 <= i < |u| ==> !('a' <= u[i] <= 'z');
  }

  lemma SixDigitsFit()
    ensures Pow16(6) == 0x100_0000 && Pow16(6) < U64Limit
  {
  }

  /** Success exactly when six hex digits remain after trimming,
      upper-casing and dropping one '#'; any other text fails. */
  lemma DecodeSucceedsIff(hex: string)
    ensures Decode(hex).Some? <==> |Prepared(hex)| == 6 && AllHexDigits(Prepared(hex))
    ensures Decode(hex).Some? <==> Canonical(Prepared(hex))
  {
    var s := Prepared(hex);
    if |s| == 6 && AllHexDigits(s) {
      SixDigitsFit();
      assert HexValue(s) < U64Limit;
    }
    PreparedHasNoLowerCase(hex);
  }

  /** Text that is not six characters long once prepared is refused. */
  lemma WrongLengthFails(hex: string)
    requires |Prepared(hex)| != 6
    ensures Decode(hex) == None && ColorFromHex(hex) == None
  {
  }

  /** Six characters one of which is not a hex digit are refused. */
  lemma NonDigitFails(hex: string, i: nat)
    requires |Prepared(hex)| == 6 && i < 6 && !IsHexDigit(Prepared(hex)[i])
    ensures Decode(hex) == None && ColorFromHex(hex) == None
  {
  }

  lemma SplitJoin(c: Rgb)
    ensures Split(Join(c)) == c
  {
  }

  lemma JoinSplit(v: nat)
    requires v < 0x100_0000
    ensures Join(Split(v)) == v
  {
  }

  /** The parsed 24-bit number is the concatenation of the three bytes:
      red in bits 16-23, green in 8-15, blue in 0-7. */
  lemma DecodeBytes(hex: string, c: Rgb)
    requires Decode(hex) == Some(c)
    ensures ParseHex(Prepared(hex)) == Some(Join(c))
  {
    var s := Prepared(hex);
    DecodeSucceedsIff(hex);
    SixDigitsFit();
    JoinSplit(HexValue(s));
  }

  /** Each channel of a decoded colour is its byte over 255, in [0, 1],
      and alpha is 1. */
  lemma ColorFromHexChannels(hex: string)
    requires Decode(hex).Some?
    ensures ColorFromHex(hex).Some?
    ensures var c, k := Decode(hex).value, ColorFromHex(hex).value;
      k.red == c.r as real / 255.0 && k.green == c.g as real / 255.0
      && k.blue == c.b as real / 255.0 && k.alpha == 1.0
      && InUnit(k.red) && InUnit(k.green) && InUnit(k.blue)
  {
  }

  // ---------------------------------------------------------------------------
  // Base-16 arithmetic
  // ---------------------------------------------------------------------------

  lemma AllHexDigitsConcat(s: string, t: string)
    requires AllHexDigits(s) && AllHexDigits(t)
    ensures AllHexDigits(s + t)
  {
    var st := s + t;
    forall i | 0 <= i < |st| ensures IsHexDigit(st[i]) {
      if i < |s| { assert st[i] == s[i]; } else { assert st[i] == t[i - |s|]; }
    }
  }

  lemma ShiftDigit(a: int, p: int, b: int, d: int)
    ensures (a * p + b) * 16 + d == a * (p * 16) + (b * 16 + d)
  {
  }

  lemma {:induction false} HexValueAppend(s: string, t: string)
    requires AllHexDigits(s) && AllHexDigits(t)
    ensures AllHexDigits(s + t)
    ensures HexValue(s + t) == HexValue(s) * Pow16(|t|) + HexValue(t)
    decreases |t|
  {
    AllHexDigitsConcat(s, t);
    var st := s + t;
    if t == [] {
      assert st == s;
    } else {
      var init := t[..|t| - 1];
      assert st[..|st| - 1] == s + init;
      assert st[|st| - 1] == t[|t| - 1];
      HexValueAppend(s, init);
      var d := DigitValue(t[|t| - 1]);
      assert HexValue(st) == HexValue(s + init) * 16 + d;
      assert HexValue(t) == HexValue(init) * 16 + d;
      assert Pow16(|t|) == Pow16(|init|) * 16;
      ShiftDigit(HexValue(s), Pow16(|init|), HexValue(init), d);
    }
  }

  lemma DigitCharRoundTrip(c: char)
    requires IsUpperHexDigit(c)
    ensures HexDigitChar(DigitValue(c)) == c
  {
  }

  lemma FormatByteValue(b: Byte)
    ensures AllHexDigits(FormatByte(b)) && HexValue(FormatByte(b)) == b
  {
    var f := FormatByte(b);
    assert f[..1] == [f[0]];
    assert HexValue(f[..1]) == b / 16;
  }

  /** Two upper-case digits are the formatting of the byte they denote. */
  lemma FormatByteOfDigits(a: string)
    requires |a| == 2 && IsUpperHexDigit(a[0]) && IsUpperHexDigit(a[1])
    ensures AllHexDigits(a) && HexValue(a) < 0x100 && FormatByte(HexValue(a)) == a
  {
    var hi, lo := DigitValue(a[0]), DigitValue(a[1]);
    assert a[..1] == [a[0]];
    assert HexValue(a[..1]) == hi;
    assert HexValue(a) == hi * 16 + lo;
    assert HexValue(a) / 16 == hi && HexValue(a) % 16 == lo;
    DigitCharRoundTrip(a[0]);
    DigitCharRoundTrip(a[1]);
    assert FormatByte(HexValue(a)) == [HexDigitChar(hi), HexDigitChar(lo)];
  }

  lemma FormatIsUpper(c: Rgb)
    ensures Canonical(Format(c))
  {
    var f := Format(c);
    forall i | 0 <= i < |f| ensures IsUpperHexDigit(f[i]) {
      if i < 2 { assert f[i] == FormatByte(c.r)[i]; }
      else if i < 4 { assert f[i] == FormatByte(c.g)[i - 2]; }
      else { assert f[i] == FormatByte(c.b)[i - 4]; }
    }
  }

  lemma FormatIsCanonical(c: Rgb)
    ensures Canonical(Format(c))
    ensures AllHexDigits(Format(c)) && HexValue(Format(c)) == Join(c)
  {
    FormatIsUpper(c);
    var fr, fg, fb := FormatByte(c.r), FormatByte(c.g), FormatByte(c.b);
    FormatByteValue(c.r);
    FormatByteValue(c.g);
    FormatByteValue(c.b);
    assert Pow16(|fg|) == 0x100 && Pow16(|fb|) == 0x100;
    var a := fr + fg;
    HexValueAppend(fr, fg);
    assert HexValue(a) == c.r * 0x100 + c.g;
    HexValueAppend(a, fb);
    assert HexValue(a + fb) == HexValue(a) * 0x100 + c.b;
    ByteArithmetic(c.r, c.g, c.b);
    assert Format(c) == a + fb;
  }

  lemma ByteArithmetic(r: int, g: int, b: int)
    ensures (r * 0x100 + g) * 0x100 + b == r * 0x10000 + g * 0x100 + b
  {
  }

  // ---------------------------------------------------------------------------
  // Round trips between byte triples and six-digit codes
  // ---------------------------------------------------------------------------

  lemma TrimUnchanged(s: string)
    requires |s| > 0 && !IsWhitespace(s[0]) && !IsWhitespace(s[|s| - 1])
    ensures Trim(s) == s
  {
    assert TrimStart(s) == s;
  }

  lemma UpperUnchanged(s: string)
    requires forall i :: 0 <= i < |s| ==> !('a' <= s[i] <= 'z')
    ensures Upper(s) == s
  {
  }

  /** Canonical text, bare or behind one '#', is prepared to itself. */
  lemma PreparedCanonical(s: string)
    requires Canonical(s)
    ensures Prepared(s) == s && Prepared("#" + s) == s
  {
    TrimUnchanged(s);
    UpperUnchanged(s);
    var h := "#" + s;
    assert h[|h| - 1] == s[5];
    TrimUnchanged(h);
    assert forall i :: 0 <= i < |h| ==> !('a' <= h[i] <= 'z');
    UpperUnchanged(h);
    assert h[1..] == s;
  }

  lemma DecodeCanonical(s: string)
    requires Canonical(s)
    ensures AllHexDigits(s) && HexValue(s) < 0x100_0000
    ensures Decode(s) == Some(Split(HexValue(s)))
    ensures Decode("#" + s) == Some(Split(HexValue(s)))
  {
    PreparedCanonical(s);
    SixDigitsFit();
    assert AllHexDigits(s);
    assert ParseHex(s) == Some(HexValue(s));
    assert Decode(s) == Some(Split(HexValue(s)));
    DecodeDependsOnPrepared("#" + s, s);
  }

  /** Formatting bytes as six hex digits, with or without '#', and decoding
      gives the bytes back. */
  lemma FormatThenDecode(c: Rgb)
    ensures Decode(Format(c)) == Some(c) && Decode("#" + Format(c)) == Some(c)
  {
    FormatIsCanonical(c);
    DecodeCanonical(Format(c));
    SplitJoin(c);
  }

  /** The same as colour: each byte over 255, alpha 1, whatever the case
      of the digits. */
  lemma FormatThenColor(c: Rgb)
    ensures ColorFromHex(Format(c)) == Some(Normalised(c))
    ensures ColorFromHex("#" + Format(c)) == Some(Normalised(c))
    ensures ColorFromHex(Lower(Format(c))) == Some(Normalised(c))
    ensures ColorFromHex(Lower("#" + Format(c))) == Some(Normalised(c))
  {
    FormatThenDecode(c);
    CaseInsensitive(Format(c));
    CaseInsensitive("#" + Format(c));
  }

  lemma DigitPairs(s: string)
    requires Canonical(s)
    ensures AllHexDigits(s)
    ensures HexValue(s) == Join(Rgb(HexValue(s[..2]), HexValue(s[2..4]), HexValue(s[4..])))
    ensures FormatByte(HexValue(s[..2])) == s[..2]
    ensures FormatByte(HexValue(s[2..4])) == s[2..4]
    ensures FormatByte(HexValue(s[4..])) == s[4..]
  {
    var a, b, d := s[..2], s[2..4], s[4..];
    FormatByteOfDigits(a);
    FormatByteOfDigits(b);
    FormatByteOfDigits(d);
    assert Pow16(|b|) == 0x100 && Pow16(|d|) == 0x100;
    var ab := a + b;
    HexValueAppend(a, b);
    assert HexValue(ab) == HexValue(a) * 0x100 + HexValue(b);
    HexValueAppend(ab, d);
    assert HexValue(ab + d) == HexValue(ab) * 0x100 + HexValue(d);
    ByteArithmetic(HexValue(a), HexValue(b), HexValue(d));
    assert s == ab + d;
  }

  /** Six upper-case digits are the formatting of the bytes they denote. */
  lemma CanonicalIsFormat(s: string)
    requires Canonical(s)
    ensures AllHexDigits(s)
    ensures Format(Split(HexValue(s))) == s
  {
    DigitPairs(s);
    var e := Rgb(HexValue(s[..2]), HexValue(s[2..4]), HexValue(s[4..]));
    SplitJoin(e);
    assert s == s[..2] + s[2..4] + s[4..];
  }

  /** Whatever the decoder accepts is, once prepared, the six-digit
      formatting of the bytes it returns: the decoder and `Format` are
      inverse to one another. */
  lemma DecodeThenFormat(hex: string, c: Rgb)
    requires Decode(hex) == Some(c)
    ensures Format(c) == Prepared(hex)
  {
    DecodeSucceedsIff(hex);
    CanonicalIsFormat(Prepared(hex));
    SixDigitsFit();
  }

  /** Two codes that decode to the same bytes agree once prepared. */
  lemma DecodeInjective(h1: string, h2: string)
    requires Decode(h1).Some? && Decode(h1) == Decode(h2)
    ensures Prepared(h1) == Prepared(h2)
  {
    DecodeThenFormat(h1, Decode(h1).value);
    DecodeThenFormat(h2, Decode(h2).value);
  }

  // ---------------------------------------------------------------------------
  // The '#' prefix
  // ---------------------------------------------------------------------------

  lemma {:induction false} TrimEndAfter(c: char, t: string)
    requires |t| > 0 && !IsWhitespace(t[0])
    ensures TrimEnd([c] + t) == [c] + TrimEnd(t)
    decreases |t|
  {
    var s := [c] + t;
    if IsWhitespace(t[|t| - 1]) {
      assert |t| > 1;
      assert s[..|s| - 1] == [c] + t[..|t| - 1];
      TrimEndAfter(c, t[..|t| - 1]);
    }
  }

  /** Trimming a text that opens and continues with non-whitespace keeps
      its first character in front. */
  lemma TrimCons(c: char, t: string)
    requires !IsWhitespace(c) && |t| > 0 && !IsWhitespace(t[0])
    ensures Trim([c] + t) == [c] + Trim(t)
    ensures |Trim(t)| > 0 && Trim(t)[0] == t[0]
  {
    assert TrimStart([c] + t) == [c] + t;
    assert TrimStart(t) == t;
    TrimEndAfter(c, t);
  }

  lemma UpperCons(c: char, t: string)
    ensures Upper([c] + t) == [ToUpper(c)] + Upper(t)
  {
  }

  /** With a '#' straight before the code, preparing gives what the bare
      code gives. */
  lemma PreparedAfterHash(t: string)
    requires |t| > 0 && !IsWhitespace(t[0]) && t[0] != '#'
    ensures Prepared("#" + t) == Prepared(t)
  {
    TrimCons('#', t);
    var r := Trim(t);
    UpperCons('#', r);
    assert Upper(r)[0] == ToUpper(t[0]) != '#';
  }

  /** One '#' straight before the code makes no difference. */
  lemma HashOptional(t: string)
    requires |t| > 0 && !IsWhitespace(t[0]) && t[0] != '#'
    ensures Decode("#" + t) == Decode(t) && ColorFromHex("#" + t) == ColorFromHex(t)
  {
    PreparedAfterHash(t);
    DecodeDependsOnPrepared("#" + t, t);
  }

  /** A '#' left over after preparing is refused. */
  lemma LeftoverHashFails(hex: string)
    requires |Prepared(hex)| > 0 && Prepared(hex)[0] == '#'
    ensures Decode(hex) == None && ColorFromHex(hex) == None
  {
    DecodeSucceedsIff(hex);
  }

  lemma PreparedAfterTwoHashes(t: string)
    ensures |Prepared("##" + t)| > 0 && Prepared("##" + t)[0] == '#'
  {
    var h := "##" + t;
    assert TrimStart(h) == h;
    var r := TrimEnd(h);
    assert !IsWhitespace(h[1]);
    assert |r| >= 2;
    assert r[1] == '#';
    assert Trim(h) == r;
    assert Upper(r)[0] == '#' && Upper(r)[1] == '#';
  }

  /** Only one '#' is dropped: a second one is left in and is refused. */
  lemma OnlyOneHashStripped(t: string)
    ensures Decode("##" + t) == None && ColorFromHex("##" + t) == None
  {
    PreparedAfterTwoHashes(t);
    LeftoverHashFails("##" + t);
  }

  // ---------------------------------------------------------------------------
  // The input hint and a few other examples
  // ---------------------------------------------------------------------------

  // The examples are stated for a text `s` equal to the literal: on a bare
  // literal the solver unfolds the trimming functions far too eagerly.

  lemma MagentaDigits(c: Rgb)
    requires c == Rgb(255, 0, 255)
    ensures Format(c) == "FF00FF" && "#FF00FF" == "#" + Format(c)
  {
  }

  lemma GreenDigits(s: string, c: Rgb)
    requires s == "00ff00" && c == Rgb(0, 255, 0)
    ensures s == Lower(Format(c))
  {
    assert Format(c) == "00FF00";
  }

  /** The input hint "#FF00FF" is magenta: red and blue full, no green. */
  lemma ExampleMagenta(s: string, c: Rgb)
    requires s == "#FF00FF" && c == Rgb(255, 0, 255)
    ensures Decode(s) == Some(c) && ColorFromHex(s) == Some(Color(1.0, 0.0, 1.0, 1.0))
  {
    MagentaDigits(c);
    FormatThenDecode(c);
    FormatThenColor(c);
  }

  lemma GreenBytes(s: string, c: Rgb)
    requires s == "00ff00" && c == Rgb(0, 255, 0)
    ensures Decode(s) == Some(c)
  {
    GreenDigits(s, c);
    FormatThenDecode(c);
    CaseInsensitive(Format(c));
  }

  /** Lower-case digits without '#' decode too. */
  lemma ExampleGreen(s: string, c: Rgb)
    requires s == "00ff00" && c == Rgb(0, 255, 0)
    ensures Decode(s) == Some(c) && ColorFromHex(s) == Some(Color(0.0, 1.0, 0.0, 1.0))
  {
    GreenBytes(s, c);
    assert Normalised(c) == Color(0.0, 1.0, 0.0, 1.0);
  }

  lemma ExampleDoubleHash(s: string)
    requires s == "##ABCDE"
    ensures ColorFromHex(s) == None
  {
    OnlyOneHashStripped(s[2..]);
    assert s == "##" + s[2..];
  }

  lemma ExampleTooShort(s: string)
    requires s == "12345"
    ensures ColorFromHex(s) == None
  {
    TrimUnchanged(s);
    UpperUnchanged(s);
    WrongLengthFails(s);
  }

  lemma ExampleNotHex(s: string)
    requires s == "ZZZZZZ"
    ensures ColorFromHex(s) == None
  {
    TrimUnchanged(s);
    UpperUnchanged(s);
    NonDigitFails(s, 0);
  }
}
