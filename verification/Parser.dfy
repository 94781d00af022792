/**
 The normaliser: percent-decoding with optional `+`-as-space and ASCII case folding,
 one left-to-right pass over the bytes.
 */
module Parser {
  import opened Text

  /** The value of one hex digit, in either case. */
  function Hex(c: char): (r: Option<nat>)
    ensures r.Some? ==> r.value < 16
  {
    if '0' <= c <= '9' then Some((c - '0') as nat)
    else if 'a' <= c <= 'f' then Some((c - 'a') as nat + 10)
    else if 'A' <= c <= 'F' then Some((c - 'A') as nat + 10)
    else None
  }

  /** What one decoded byte contributes to the output: a byte outside ASCII shows as `?`. */
  function Push(b: char, lowercase: bool): char {
    if !IsAscii(b) then '?' else if lowercase then LowerChar(b) else b
  }

  predicate EscapeAt(s: string, i: nat) {
    i + 2 < |s| && s[i] == '%' && Hex(s[i + 1]).Some? && Hex(s[i + 2]).Some?
  }

  function EscapedByte(hi: char, lo: char): char
    requires Hex(hi).Some? && Hex(lo).Some?
  {
    (16 * Hex(hi).value + Hex(lo).value) as char
  }

  function Plain(b: char, plusIsSpace: bool): char {
    if b == '+' && plusIsSpace then ' ' else b
  }

  /** The decoding of `s` from its first byte on. */
  function Decode(s: string, plusIsSpace: bool, lowercase: bool): string
    decreases |s|
  {
    if s == "" then ""
    else if EscapeAt(s, 0) then
      [Push(EscapedByte(s[1], s[2]), lowercase)] + Decode(s[3..], plusIsSpace, lowercase)
    else
      [Push(Plain(s[0], plusIsSpace), lowercase)] + Decode(s[1..], plusIsSpace, lowercase)
  }

  /** One round of the loop: the byte at `i` and what is left after it. */
  lemma DecodeAt(input: string, i: nat, plusIsSpace: bool, lowercase: bool)
    requires i < |input|
    ensures Decode(input[i..], plusIsSpace, lowercase)
         == (if EscapeAt(input, i)
             then [Push(EscapedByte(input[i + 1], input[i + 2]), lowercase)] + Decode(input[i + 3..], plusIsSpace, lowercase)
             else [Push(Plain(input[i], plusIsSpace), lowercase)] + Decode(input[i + 1..], plusIsSpace, lowercase))
  {
    var rest := input[i..];
    assert EscapeAt(rest, 0) <==> EscapeAt(input, i);
    assert rest[1..] == input[i + 1..];
    if |rest| > 2 { assert rest[3..] == input[i + 3..]; }
  }

  /** `decode_fold_into`: the index-driven loop, appending to `out`. */
  method DecodeFoldInto(input: string, plusIsSpace: bool, lowercase: bool, out: string) returns (res: string)
    ensures res == out + Decode(input, plusIsSpace, lowercase)
  {
    res := out;
    var i := 0;
    while i < |input|
      invariant 0 <= i <= |input|
      invariant res + Decode(input[i..], plusIsSpace, lowercase) == out + Decode(input, plusIsSpace, lowercase)
    {
      DecodeAt(input, i, plusIsSpace, lowercase);
      var b := input[i];
      if b == '%' && i + 2 < |input| && Hex(input[i + 1]).Some? && Hex(input[i + 2]).Some? {
        var c := Push((16 * Hex(input[i + 1]).value + Hex(input[i + 2]).value) as char, lowercase);
        i := i + 3;
        Append1(res, c, Decode(input[i..], plusIsSpace, lowercase));
        res := res + [c];
      } else {
        var c := Push(if b == '+' && plusIsSpace then ' ' else b, lowercase);
        i := i + 1;
        Append1(res, c, Decode(input[i..], plusIsSpace, lowercase));
        res := res + [c];
      }
    }
  }

  function Normalize(s: string, plusIsSpace: bool): string { Decode(s, plusIsSpace, true) }

  // ── Ways of writing a character ────────────────────────────────────────────

  /** One way of writing one byte in a URL component (section 2.1 of RFC 3986, plus form `+`). */
  datatype Glyph = Raw(c: char) | Escaped(hi: char, lo: char) | PlusSign

  predicate ValidGlyph(g: Glyph, plusIsSpace: bool) {
    match g
    case Raw(c) => c != '%' && !(plusIsSpace && c == '+')
    case Escaped(hi, lo) => Hex(hi).Some? && Hex(lo).Some?
    case PlusSign => plusIsSpace
  }

  predicate ValidGlyphs(gs: seq<Glyph>, plusIsSpace: bool) {
    forall i :: 0 <= i < |gs| ==> ValidGlyph(gs[i], plusIsSpace)
  }

  function RenderGlyph(g: Glyph): string {
    match g
    case Raw(c) => [c]
    case Escaped(hi, lo) => ['%', hi, lo]
    case PlusSign => "+"
  }

  function Render(gs: seq<Glyph>): string {
    if gs == [] then "" else RenderGlyph(gs[0]) + Render(gs[1..])
  }

  function GlyphByte(g: Glyph): char
    requires g.Escaped? ==> Hex(g.hi).Some? && Hex(g.lo).Some?
  {
    match g
    case Raw(c) => c
    case Escaped(hi, lo) => EscapedByte(hi, lo)
    case PlusSign => ' '
  }

  /** The bytes that a list of glyphs stands for. */
  function Meaning(gs: seq<Glyph>, plusIsSpace: bool): (r: string)
    requires ValidGlyphs(gs, plusIsSpace)
    ensures |r| == |gs|
    ensures forall i :: 0 <= i < |gs| ==> r[i] == GlyphByte(gs[i])
  {
    seq(|gs|, i requires 0 <= i < |gs| => assert ValidGlyph(gs[i], plusIsSpace); GlyphByte(gs[i]))
  }

  /** The decoder's view of plain bytes: folded if asked, `?` for each byte outside ASCII. */
  function Shown(s: string, lowercase: bool): (r: string)
    ensures |r| == |s|
    ensures forall i :: 0 <= i < |s| ==> r[i] == Push(s[i], lowercase)
  {
    seq(|s|, i requires 0 <= i < |s| => Push(s[i], lowercase))
  }

  predicate AsciiText(s: string) { forall i :: 0 <= i < |s| ==> IsAscii(s[i]) }

  /** One glyph decodes to its byte, whatever follows. */
  lemma DecodeGlyph(g: Glyph, tail: string, plusIsSpace: bool, lowercase: bool)
    requires ValidGlyph(g, plusIsSpace)
    ensures Decode(RenderGlyph(g) + tail, plusIsSpace, lowercase)
         == [Push(GlyphByte(g), lowercase)] + Decode(tail, plusIsSpace, lowercase)
  {
    var w := RenderGlyph(g);
    assert (w + tail)[|w|..] == tail;
  }

  const LowerDigits: string := "0123456789abcdef"
  const UpperDigits: string := "0123456789ABCDEF"

  /** One decoded byte as it is shown: outside ASCII a `?`, a capital letter small when folding. */
  function ShownByte(b: nat, lowercase: bool): char
    requires b < 256
  {
    if b >= 128 then '?' else if lowercase && 65 <= b <= 90 then (b + 32) as char else b as char
  }

  /** Either case of a hex digit is worth its place among the digits. */
  lemma DigitWorth(k: nat)
    requires k < 16
    ensures Hex(LowerDigits[k]) == Hex(UpperDigits[k]) == Some(k)
  {
  }

  lemma ShownPushes(b: nat, lowercase: bool)
    requires b < 256
    ensures Push(b as char, lowercase) == ShownByte(b, lowercase)
  {
  }

  /** Every byte can be escaped with the high digit first and each digit in either case. */
  lemma ByteEscaped(b: nat, high: char, low: char, tail: string, plusIsSpace: bool, lowercase: bool)
    requires b < 256
    requires high == LowerDigits[b / 16] || high == UpperDigits[b / 16]
    requires low == LowerDigits[b % 16] || low == UpperDigits[b % 16]
    ensures Decode(['%', high, low] + tail, plusIsSpace, lowercase) == [ShownByte(b, lowercase)] + Decode(tail, plusIsSpace, lowercase)
  {
    var h, l := b / 16, b % 16;
    DigitWorth(h);
    DigitWorth(l);
    assert EscapedByte(high, low) == b as char by { assert 16 * h + l == b; }
    ShownPushes(b, lowercase);
    DecodeGlyph(Escaped(high, low), tail, plusIsSpace, lowercase);
  }

  predicate Digit16(c: char) { c in LowerDigits || c in UpperDigits }

  lemma DigitsKnown(c: char)
    ensures Hex(c).Some? <==> Digit16(c)
  {
    if Hex(c).Some? {
      assert c == LowerDigits[Hex(c).value] || c == UpperDigits[Hex(c).value];
    } else if Digit16(c) {
      var k :| 0 <= k < 16 && (LowerDigits[k] == c || UpperDigits[k] == c);
      DigitWorth(k);
      assert false;
    }
  }

  /**
   Any other byte stands for itself, `+` for a space where that is asked: a percent sign too,
   when two hex digits do not follow it.
   */
  lemma ByteKept(c: char, tail: string, plusIsSpace: bool, lowercase: bool)
    requires (c as nat) < 256
    requires c == '%' ==> |tail| < 2 || !Digit16(tail[0]) || !Digit16(tail[1])
    ensures Decode([c] + tail, plusIsSpace, lowercase)
         == [ShownByte(if c == '+' && plusIsSpace then 32 else c as nat, lowercase)] + Decode(tail, plusIsSpace, lowercase)
  {
    var s := [c] + tail;
    assert s[1..] == tail;
    if |tail| >= 2 {
      DigitsKnown(tail[0]);
      DigitsKnown(tail[1]);
    }
    assert !EscapeAt(s, 0);
    ShownPushes(if c == '+' && plusIsSpace then 32 else c as nat, lowercase);
  }

  lemma MeaningCons(gs: seq<Glyph>, plusIsSpace: bool)
    requires gs != [] && ValidGlyphs(gs, plusIsSpace)
    ensures Meaning(gs, plusIsSpace) == [GlyphByte(gs[0])] + Meaning(gs[1..], plusIsSpace)
  {
  }

  lemma ShownCons(b: char, rest: string, lowercase: bool)
    ensures Shown([b] + rest, lowercase) == [Push(b, lowercase)] + Shown(rest, lowercase)
  {
  }

  /** Decoding undoes every way of writing a text, in either hex case and any mix of forms. */
  lemma {:induction false} DecodeRender(gs: seq<Glyph>, plusIsSpace: bool, lowercase: bool)
    requires ValidGlyphs(gs, plusIsSpace)
    ensures Decode(Render(gs), plusIsSpace, lowercase) == Shown(Meaning(gs, plusIsSpace), lowercase)
  {
    if gs == [] {
      assert Shown(Meaning(gs, plusIsSpace), lowercase) == "";
    } else {
      assert ValidGlyph(gs[0], plusIsSpace);
      DecodeGlyph(gs[0], Render(gs[1..]), plusIsSpace, lowercase);
      DecodeRender(gs[1..], plusIsSpace, lowercase);
      MeaningCons(gs, plusIsSpace);
      ShownCons(GlyphByte(gs[0]), Meaning(gs[1..], plusIsSpace), lowercase);
    }
  }

  /** Case folding makes the written letter case irrelevant. */
  lemma ShownFolds(s: string, t: string)
    requires AsciiText(s) && Lower(s) == Lower(t)
    ensures Shown(s, true) == Lower(t)
  {
    forall i | 0 <= i < |s| ensures Shown(s, true)[i] == Lower(t)[i] {
      assert Lower(s)[i] == LowerChar(s[i]);
    }
  }

  /** Any two ways of writing texts that agree up to letter case normalise alike. */
  lemma EncodingInvariance(gs: seq<Glyph>, text: string, plusIsSpace: bool)
    requires ValidGlyphs(gs, plusIsSpace) && AsciiText(text)
    requires Lower(Meaning(gs, plusIsSpace)) == Lower(text)
    ensures Normalize(Render(gs), plusIsSpace) == Lower(text)
  {
    var m := Meaning(gs, plusIsSpace);
    assert AsciiText(m) by {
      forall i | 0 <= i < |m| ensures IsAscii(m[i]) {
        assert LowerChar(m[i]) == Lower(m)[i] == Lower(text)[i] == LowerChar(text[i]);
      }
    }
    DecodeRender(gs, plusIsSpace, true);
    ShownFolds(m, text);
  }
}
