/** Query strings and form bodies as request parameters. */
module Forms {
  import opened Text
  import opened Parser

  /** One `key=value` piece, both sides percent-decoded; no `=` means an empty value. */
  function PairOf(piece: string): (string, string) {
    match SplitOnce(piece, '=')
    case Some((k, v)) => (Decode(k, true, false), Decode(v, true, false))
    case None => (Decode(piece, true, false), Decode("", true, false))
  }

  /** Empty pieces are passed over. */
  function PieceOf(piece: string): Option<(string, string)> { if piece == "" then None else Some(PairOf(piece)) }

  /** The parameters a query string spells. */
  function ParsedPairs(s: string): Pairs { FilterMap(PieceOf, Split(s, '&')) }

  /** One round of `parse_pairs`. */
  method ReadPair(piece: string) returns (pair: (string, string))
    ensures pair == PairOf(piece)
  {
    var (k, v) := match SplitOnce(piece, '=') case Some(kv) => kv case None => (piece, "");
    var key := DecodeFoldInto(k, true, false, "");
    var val := DecodeFoldInto(v, true, false, "");
    assert key == Decode(k, true, false) && val == Decode(v, true, false);
    pair := (key, val);
  }

  /** `parse_pairs`, appending to `out`. */
  method ParsePairs(s: string, out: Pairs) returns (res: Pairs)
    ensures res == out + ParsedPairs(s)
  {
    res := out;
    var pieces := Split(s, '&');
    for i := 0 to |pieces|
      invariant res == out + FilterMap(PieceOf, pieces[..i])
    {
      FilterMapAppend(PieceOf, pieces[..i], pieces[i]);
      assert pieces[..i] + [pieces[i]] == pieces[..i + 1];
      if pieces[i] == "" { continue; }
      var pair := ReadPair(pieces[i]);
      res := res + [pair];
    }
    assert pieces[..|pieces|] == pieces;
  }

  // ── Round trip ─────────────────────────────────────────────────────────────

  /** One parameter written out, glyph by glyph. */
  datatype Coded = Coded(key: seq<Glyph>, value: seq<Glyph>)

  predicate Avoids(gs: seq<Glyph>, c: char) {
    forall i :: 0 <= i < |gs| ==> gs[i] != Raw(c)
  }

  /** `&` is always escaped; `=` only has to be in a key. */
  predicate ValidCoded(p: Coded) {
    && ValidGlyphs(p.key, true) && ValidGlyphs(p.value, true)
    && Avoids(p.key, '&') && Avoids(p.key, '=') && Avoids(p.value, '&')
  }

  function Piece(p: Coded): string { Render(p.key) + "=" + Render(p.value) }

  function Pieces(ps: seq<Coded>): (r: seq<string>)
    ensures |r| == |ps|
    ensures forall i :: 0 <= i < |ps| ==> r[i] == Piece(ps[i])
  {
    seq(|ps|, i requires 0 <= i < |ps| => Piece(ps[i]))
  }

  function FormText(ps: seq<Coded>): string { Join(Pieces(ps), "&") }

  function MeaningOf(p: Coded): (string, string)
    requires ValidCoded(p)
  {
    (Shown(Meaning(p.key, true), false), Shown(Meaning(p.value, true), false))
  }

  lemma {:induction false} RenderAvoids(gs: seq<Glyph>, c: char)
    requires ValidGlyphs(gs, true) && Avoids(gs, c)
    requires c == '&' || c == '='
    ensures Free(Render(gs), c)
  {
    if gs != [] {
      RenderAvoids(gs[1..], c);
      assert ValidGlyph(gs[0], true);
    }
  }

  lemma PieceRead(p: Coded)
    requires ValidCoded(p)
    ensures Free(Piece(p), '&') && Piece(p) != "" && PairOf(Piece(p)) == MeaningOf(p)
  {
    RenderAvoids(p.key, '&');
    RenderAvoids(p.key, '=');
    RenderAvoids(p.value, '&');
    SplitOnceAt(Render(p.key), '=', Render(p.value));
    DecodeRender(p.key, true, false);
    DecodeRender(p.value, true, false);
  }

  predicate AllValid(ps: seq<Coded>) { forall i :: 0 <= i < |ps| ==> ValidCoded(ps[i]) }

  function Meanings(ps: seq<Coded>): (r: Pairs)
    requires AllValid(ps)
    ensures |r| == |ps|
    ensures forall i :: 0 <= i < |ps| ==> r[i] == MeaningOf(ps[i])
  {
    seq(|ps|, i requires 0 <= i < |ps| => assert ValidCoded(ps[i]); MeaningOf(ps[i]))
  }

  lemma PiecesRead(ps: seq<Coded>)
    requires AllValid(ps)
    ensures FilterMap(PieceOf, Pieces(ps)) == Meanings(ps)
  {
    var pieces, meanings := Pieces(ps), Meanings(ps);
    forall i | 0 <= i < |ps| ensures PieceOf(pieces[i]) == Some(meanings[i]) { PieceRead(ps[i]); }
    FilterMapAll(PieceOf, pieces, meanings);
  }

  /** However the parameters are written, parsing returns what they mean, in order; the empty list included. */
  lemma FormRead(ps: seq<Coded>)
    requires AllValid(ps)
    ensures ParsedPairs(FormText(ps)) == Meanings(ps)
  {
    if ps == [] {
      assert Split("", '&') == [""];
      assert FilterMap(PieceOf, [""]) == [] + FilterMap(PieceOf, [""][1..]);
    } else {
      forall p | p in Pieces(ps) ensures Free(p, '&') {
        var i :| 0 <= i < |ps| && Pieces(ps)[i] == p;
        PieceRead(ps[i]);
      }
      SplitJoin(Pieces(ps), '&');
      PiecesRead(ps);
    }
  }

  /** Two query strings joined by `&` spell the parameters of the one, then those of the other; an empty one spells none. */
  lemma PairsAppend(a: string, b: string)
    ensures ParsedPairs(a + ['&'] + b) == ParsedPairs(a) + ParsedPairs(b)
    ensures ParsedPairs("") == []
  {
    SplitBoth(a, '&', b);
    FilterMapBoth(PieceOf, Split(a, '&'), Split(b, '&'));
    FormRead([]);
  }

  /** A key without `=` is a parameter with an empty value. */
  lemma BareKeyRead(key: seq<Glyph>)
    requires key != [] && ValidGlyphs(key, true) && Avoids(key, '&') && Avoids(key, '=')
    ensures ParsedPairs(Render(key)) == [(Shown(Meaning(key, true), false), "")]
  {
    var piece := Render(key);
    RenderAvoids(key, '&');
    RenderAvoids(key, '=');
    SplitFree(piece, '&');
    SplitOnceNone(piece, '=');
    DecodeRender(key, true, false);
    assert piece != "" by { assert ValidGlyph(key[0], true); }
    FilterMapAll(PieceOf, [piece], [PairOf(piece)]);
  }

  // ── The standard encoder ───────────────────────────────────────────────────

  type Byte = c: char | c < 256 as char witness 'a'

  predicate Unreserved(c: char) {
    IsDigit(c) || 'a' <= c <= 'z' || 'A' <= c <= 'Z' || c == '*' || c == '-' || c == '.' || c == '_'
  }

  function HexDigit(d: nat): char
    requires d < 16
  {
    if d < 10 then '0' + d as char else 'A' + (d - 10) as char
  }

  /** How `application/x-www-form-urlencoded` writes a byte. */
  function FormGlyph(c: Byte): Glyph {
    if Unreserved(c) then Raw(c)
    else if c == ' ' then PlusSign
    else Escaped(HexDigit(c as nat / 16), HexDigit(c as nat % 16))
  }

  function FormGlyphs(s: seq<Byte>): (r: seq<Glyph>)
    ensures |r| == |s|
    ensures forall i :: 0 <= i < |s| ==> r[i] == FormGlyph(s[i])
  {
    seq(|s|, i requires 0 <= i < |s| => FormGlyph(s[i]))
  }

  lemma FormGlyphRead(c: Byte)
    ensures ValidGlyph(FormGlyph(c), true) && GlyphByte(FormGlyph(c)) == c
    ensures FormGlyph(c) != Raw('&') && FormGlyph(c) != Raw('=')
  {
    var h, l := c as nat / 16, c as nat % 16;
    assert Hex(HexDigit(h)) == Some(h) && Hex(HexDigit(l)) == Some(l);
    assert 16 * h + l == c as nat;
  }

  function Encoded(ps: seq<(seq<Byte>, seq<Byte>)>): (r: seq<Coded>)
    ensures |r| == |ps|
    ensures forall i :: 0 <= i < |ps| ==> r[i] == Coded(FormGlyphs(ps[i].0), FormGlyphs(ps[i].1))
  {
    seq(|ps|, i requires 0 <= i < |ps| => Coded(FormGlyphs(ps[i].0), FormGlyphs(ps[i].1)))
  }

  lemma GlyphsRead(s: seq<Byte>)
    ensures ValidGlyphs(FormGlyphs(s), true) && Avoids(FormGlyphs(s), '&') && Avoids(FormGlyphs(s), '=')
    ensures Meaning(FormGlyphs(s), true) == s
  {
    forall i | 0 <= i < |s|
      ensures ValidGlyph(FormGlyphs(s)[i], true) && GlyphByte(FormGlyphs(s)[i]) == s[i]
      ensures FormGlyphs(s)[i] != Raw('&') && FormGlyphs(s)[i] != Raw('=')
    {
      FormGlyphRead(s[i]);
    }
  }

  /** Each byte outside ASCII reads back as `?`; everything else survives the round trip. */
  lemma FormRoundTrip(ps: seq<(seq<Byte>, seq<Byte>)>)
    ensures var back := ParsedPairs(FormText(Encoded(ps)));
            && |back| == |ps|
            && (forall i :: 0 <= i < |ps| ==> back[i] == (Shown(ps[i].0, false), Shown(ps[i].1, false)))
  {
    var cs := Encoded(ps);
    forall i | 0 <= i < |ps|
      ensures ValidCoded(cs[i]) && MeaningOf(cs[i]) == (Shown(ps[i].0, false), Shown(ps[i].1, false))
    {
      GlyphsRead(ps[i].0);
      GlyphsRead(ps[i].1);
    }
    FormRead(cs);
  }

  lemma ShownExact(s: string)
    ensures Shown(s, false) == s <==> AsciiText(s)
  {
    if Shown(s, false) == s {
      forall i | 0 <= i < |s| ensures IsAscii(s[i]) { assert Shown(s, false)[i] == s[i]; }
    }
  }

  /** The round trip is exact if and only if every byte is ASCII. */
  lemma FormRoundTripExact(ps: seq<(seq<Byte>, seq<Byte>)>)
    ensures ParsedPairs(FormText(Encoded(ps))) == ps
       <==> forall i :: 0 <= i < |ps| ==> AsciiText(ps[i].0) && AsciiText(ps[i].1)
  {
    FormRoundTrip(ps);
    forall i | 0 <= i < |ps|
      ensures Shown(ps[i].0, false) == ps[i].0 <==> AsciiText(ps[i].0)
      ensures Shown(ps[i].1, false) == ps[i].1 <==> AsciiText(ps[i].1)
    {
      ShownExact(ps[i].0);
      ShownExact(ps[i].1);
    }
    var back := ParsedPairs(FormText(Encoded(ps)));
    if forall i :: 0 <= i < |ps| ==> AsciiText(ps[i].0) && AsciiText(ps[i].1) {
      forall i | 0 <= i < |ps| ensures back[i] == ps[i] {}
    }
    if back == ps {
      forall i | 0 <= i < |ps| ensures AsciiText(ps[i].0) && AsciiText(ps[i].1) {
        assert back[i] == ps[i];
      }
    }
  }
}
