/** `multipart/form-data` bodies as request parameters, worked out on raw bytes. */
module Multipart {
  import opened Text

  const CRLF: string := "\r\n"
  const CLOSING: string := "--\r\n"
  const BLANK: string := "\r\n\r\n"

  // ── Searching and splitting ────────────────────────────────────────────────

  /** First position of `needle` at or after `i`. */
  function FindFrom(hay: string, needle: string, i: nat): Option<nat>
    decreases |hay| - i
  {
    if i + |needle| > |hay| then None
    else if OccursAt(needle, hay, i) then Some(i)
    else if i == |hay| then None
    else FindFrom(hay, needle, i + 1)
  }

  /** The position found is an occurrence and there is none before it; nothing found means there is none. */
  lemma {:induction false} FindFromFirst(hay: string, needle: string, i: nat)
    ensures var r := FindFrom(hay, needle, i);
            && (r.Some? ==> i <= r.value && OccursAt(needle, hay, r.value)
                            && forall j: nat :: i <= j < r.value ==> !OccursAt(needle, hay, j))
            && (r.None? ==> forall j: nat :: i <= j ==> !OccursAt(needle, hay, j))
    decreases |hay| - i
  {
    if i + |needle| <= |hay| && !OccursAt(needle, hay, i) && i < |hay| {
      FindFromFirst(hay, needle, i + 1);
    }
  }

  lemma FindFromIs(hay: string, needle: string, k: nat)
    requires OccursAt(needle, hay, k) && forall j: nat :: j < k ==> !OccursAt(needle, hay, j)
    ensures FindFrom(hay, needle, 0) == Some(k)
  {
    FindFromFirst(hay, needle, 0);
  }

  lemma FindFromNone(hay: string, needle: string)
    requires forall j: nat :: j + |needle| <= |hay| ==> !OccursAt(needle, hay, j)
    ensures FindFrom(hay, needle, 0) == None
  {
    FindFromFirst(hay, needle, 0);
  }

  /** One differing character rules an occurrence out. */
  lemma NotAt(needle: string, hay: string, i: nat, k: nat)
    requires k < |needle| && i + k < |hay| && hay[i + k] != needle[k]
    ensures !OccursAt(needle, hay, i)
  {
    if i + |needle| <= |hay| { assert hay[i..i + |needle|][k] == hay[i + k]; }
  }

  /** `find_sub`. */
  function FindSub(hay: string, needle: string): Option<nat> {
    if needle == "" then None else FindFrom(hay, needle, 0)
  }

  /** The text between successive occurrences of the separator, taken leftmost first. */
  function Segments(hay: string, needle: string): (r: seq<string>)
    requires needle != ""
    ensures r != []
    decreases |hay|
  {
    match FindFrom(hay, needle, 0)
    case None => [hay]
    case Some(j) =>
      FindFromFirst(hay, needle, 0);
      [hay[..j]] + Segments(hay[j + |needle|..], needle)
  }

  ghost predicate NoneBefore(needle: string, hay: string, n: nat) {
    forall j: nat :: j < n ==> !OccursAt(needle, hay, j)
  }

  /** Cut up to `start`, and no separator between `start` and `i`. */
  ghost predicate Cutting(hay: string, needle: string, start: nat, i: nat, segs: seq<string>) {
    && needle != "" && start <= i <= |hay|
    && segs + Segments(hay[start..], needle) == Segments(hay, needle)
    && NoneBefore(needle, hay[start..], i - start)
  }

  /** The first occurrence of the separator ends the first segment. */
  lemma SegmentAt(hay: string, needle: string, k: nat)
    requires needle != "" && OccursAt(needle, hay, k) && NoneBefore(needle, hay, k)
    ensures Segments(hay, needle) == [hay[..k]] + Segments(hay[k + |needle|..], needle)
  {
    FindFromIs(hay, needle, k);
  }

  lemma SameWindow(hay: string, start: nat, i: nat, n: nat)
    requires start <= i && i + n <= |hay|
    ensures hay[start..][i - start..i - start + n] == hay[i..i + n]
    ensures hay[start..][..i - start] == hay[start..i]
    ensures hay[start..][i - start + n..] == hay[i + n..]
  {
  }

  lemma CutTail(tail: string, needle: string, k: nat, first: string, rest: string, segs: seq<string>)
    requires needle != "" && OccursAt(needle, tail, k) && NoneBefore(needle, tail, k)
    requires first == tail[..k] && rest == tail[k + |needle|..]
    ensures segs + [first] + Segments(rest, needle) == segs + Segments(tail, needle)
  {
    SegmentAt(tail, needle, k);
    Append1(segs, first, Segments(rest, needle));
  }

  lemma CutHere(hay: string, needle: string, start: nat, i: nat, segs: seq<string>)
    requires Cutting(hay, needle, start, i, segs) && i + |needle| <= |hay| && hay[i..i + |needle|] == needle
    ensures Cutting(hay, needle, i + |needle|, i + |needle|, segs + [hay[start..i]])
  {
    SameWindow(hay, start, i, |needle|);
    CutTail(hay[start..], needle, i - start, hay[start..i], hay[i + |needle|..], segs);
  }

  lemma CutLater(hay: string, needle: string, start: nat, i: nat, segs: seq<string>)
    requires Cutting(hay, needle, start, i, segs) && i + |needle| <= |hay| && hay[i..i + |needle|] != needle
    ensures Cutting(hay, needle, start, i + 1, segs)
  {
    SameWindow(hay, start, i, |needle|);
  }

  lemma CutEnds(hay: string, needle: string, start: nat, i: nat, segs: seq<string>)
    requires Cutting(hay, needle, start, i, segs) && i + |needle| > |hay|
    ensures segs + [hay[start..]] == Segments(hay, needle)
  {
    FindFromNone(hay[start..], needle);
  }

  /** `split_on`: one cursor over the bytes. */
  method SplitOn(hay: string, needle: string) returns (segs: seq<string>)
    ensures needle == "" ==> segs == [hay]
    ensures needle != "" ==> segs == Segments(hay, needle)
  {
    if needle == "" { return [hay]; }
    segs := [];
    var start: nat, i: nat := 0, 0;
    assert hay[0..] == hay && [] + Segments(hay, needle) == Segments(hay, needle);
    while i + |needle| <= |hay|
      invariant Cutting(hay, needle, start, i, segs)
    {
      if hay[i..i + |needle|] == needle {
        CutHere(hay, needle, start, i, segs);
        segs := segs + [hay[start..i]];
        i := i + |needle|;
        start := i;
      } else {
        CutLater(hay, needle, start, i, segs);
        i := i + 1;
      }
    }
    CutEnds(hay, needle, start, i, segs);
    segs := segs + [hay[start..]];
  }

  /** No segment contains the separator, and the segments rejoin to the input. */
  lemma {:induction false} SegmentsRejoin(hay: string, needle: string)
    requires needle != ""
    ensures Join(Segments(hay, needle), needle) == hay
    ensures forall s :: s in Segments(hay, needle) ==> !Occurs(needle, s)
    decreases |hay|
  {
    FindFromFirst(hay, needle, 0);
    match FindFrom(hay, needle, 0)
    case None =>
    case Some(j) =>
      var rest := hay[j + |needle|..];
      SegmentsRejoin(rest, needle);
      assert Segments(hay, needle)[1..] == Segments(rest, needle);
      assert hay[..j] + needle + rest == hay;
      forall i: nat ensures !OccursAt(needle, hay[..j], i) {
        if i + |needle| <= j {
          assert hay[..j][i..i + |needle|] == hay[i..i + |needle|];
          assert !OccursAt(needle, hay, i);
        }
      }
  }

  /** A separator that first occurs right after `a` splits there. */
  lemma SegmentFirst(a: string, needle: string, rest: string)
    requires needle != ""
    requires forall i: nat :: i < |a| ==> !OccursAt(needle, a + needle + rest, i)
    ensures Segments(a + needle + rest, needle) == [a] + Segments(rest, needle)
  {
    var hay := a + needle + rest;
    assert hay[|a|..|a| + |needle|] == needle;
    SegmentAt(hay, needle, |a|);
    assert hay[..|a|] == a && hay[|a| + |needle|..] == rest;
  }

  predicate OneLine(s: string) { Free(s, '\r') && Free(s, '\n') }

  lemma {:induction false} LinesReadBack(lines: seq<string>)
    requires lines != [] && forall i :: 0 <= i < |lines| ==> OneLine(lines[i])
    ensures Segments(Join(lines, CRLF), CRLF) == lines
  {
    var first, hay := lines[0], Join(lines, CRLF);
    forall i: nat | i < |first| ensures !OccursAt(CRLF, hay, i) {
      assert hay[i] == first[i] && first[i] in first;
      NotAt(CRLF, hay, i, 0);
    }
    if |lines| == 1 {
      FindFromNone(hay, CRLF);
    } else {
      LinesReadBack(lines[1..]);
      SegmentFirst(first, CRLF, Join(lines[1..], CRLF));
    }
  }

  // ── Parsing ────────────────────────────────────────────────────────────────

  function StripPrefix(s: string, prefix: string): string {
    if Prefixed(s, prefix) then s[|prefix|..] else s
  }

  function StripSuffix(s: string, suffix: string): string {
    if Suffixed(s, suffix) then s[..|s| - |suffix|] else s
  }

  /** The `boundary` parameter among the parameters of a content type; a parameter without `=` ends the search. */
  function BoundaryIn(params: seq<string>): Option<string> {
    if params == [] then None
    else match SplitOnce(Trim(params[0]), '=')
      case None => None
      case Some((k, v)) =>
        if Lower(Trim(k)) == "boundary" then Some(StripBoth(Trim(v), '"')) else BoundaryIn(params[1..])
  }

  /** `extract_boundary`. */
  function ExtractBoundary(contentType: string): Option<string> {
    BoundaryIn(Split(contentType, ';')[1..])
  }

  /** The `name` and `filename` parameters of a disposition, the last of each winning. */
  function Params(params: seq<string>, name: Option<string>, filename: Option<string>): Option<(string, Option<string>)> {
    if params == [] then (if name.None? then None else Some((name.value, filename)))
    else
      var p := Trim(params[0]);
      if Prefixed(p, "name=") then Params(params[1..], Some(StripBoth(p[5..], '"')), filename)
      else if Prefixed(p, "filename=") then Params(params[1..], name, Some(StripBoth(p[9..], '"')))
      else Params(params[1..], name, filename)
  }

  /** The first `Content-Disposition` among header lines; a line without `:` before it ends the search. */
  function DispositionIn(lines: seq<string>): Option<(string, Option<string>)> {
    if lines == [] then None
    else match SplitOnce(lines[0], ':')
      case None => None
      case Some((k, v)) =>
        if Lower(Trim(k)) == "content-disposition" then Params(Split(v, ';')[1..], None, None)
        else DispositionIn(lines[1..])
  }

  /** `disposition_fields`. */
  function Disposition(head: string): Option<(string, Option<string>)> {
    DispositionIn(Segments(head, CRLF))
  }

  /** The parameter one segment yields, if any: a file part yields its file name. */
  function SegmentPair(segment: string): Option<(string, string)> {
    var seg := StripPrefix(segment, CRLF);
    if seg == "" || Prefixed(seg, "--") then None
    else match FindSub(seg, BLANK)
      case None => None
      case Some(pos) =>
        FindFromFirst(seg, BLANK, 0);
        match Disposition(seg[..pos])
        case None => None
        case Some((name, filename)) =>
          Some((name, match filename case Some(f) => f case None => StripSuffix(seg[pos + 4..], CRLF)))
  }

  /** The parameters a multipart body spells. */
  function ParsedMultipart(body: string, contentType: string): Pairs {
    match ExtractBoundary(contentType)
    case None => []
    case Some(b) => FilterMap(SegmentPair, Segments(body, "--" + b))
  }

  /** `parse_multipart_args`, appending to `out`. */
  method ParseMultipartArgs(body: string, contentType: string, out: Pairs) returns (res: Pairs)
    ensures res == out + ParsedMultipart(body, contentType)
  {
    res := out;
    var boundary := ExtractBoundary(contentType);
    if boundary.Some? {
      var segs := SplitOn(body, "--" + boundary.value);
      res := FilterMapInto(SegmentPair, segs, res);
    }
  }

  // ── Printing ───────────────────────────────────────────────────────────────

  /** One part: a field, or a file if it has a file name; `extra` are further header lines. */
  datatype Part = Part(name: string, filename: Option<string>, extra: seq<string>, content: string)

  predicate Quotable(s: string) { Free(s, '"') && Free(s, ';') && OneLine(s) }

  predicate ValidPart(p: Part) {
    && Quotable(p.name) && (p.filename.Some? ==> Quotable(p.filename.value))
    && (forall i :: 0 <= i < |p.extra| ==> p.extra[i] != "" && OneLine(p.extra[i]))
  }

  function NameParam(p: Part): string { "name=" + (['"'] + p.name + ['"']) }

  function FileParam(f: string): string { "filename=" + (['"'] + f + ['"']) }

  function ParamsText(p: Part): string {
    match p.filename
    case None => " " + NameParam(p)
    case Some(f) => " " + NameParam(p) + [';'] + (" " + FileParam(f))
  }

  function DispositionLine(p: Part): string {
    "Content-Disposition" + [':'] + (" form-data" + [';'] + ParamsText(p))
  }

  function Head(p: Part): string { Join([DispositionLine(p)] + p.extra, CRLF) }

  function PartText(p: Part): string { CRLF + (Head(p) + BLANK + (p.content + CRLF)) }

  function PartTexts(parts: seq<Part>): (r: seq<string>)
    ensures |r| == |parts|
    ensures forall i :: 0 <= i < |parts| ==> r[i] == PartText(parts[i])
  {
    seq(|parts|, i requires 0 <= i < |parts| => PartText(parts[i]))
  }

  /** Section 5.1.1 of RFC 2046: part, delimiter, part, ..., closing delimiter. */
  function AfterDelimiter(texts: seq<string>, sep: string): string {
    if texts == [] then CLOSING else texts[0] + sep + AfterDelimiter(texts[1..], sep)
  }

  function Body(parts: seq<Part>, boundary: string): string {
    var sep := "--" + boundary;
    sep + AfterDelimiter(PartTexts(parts), sep)
  }

  function ContentType(boundary: string): string { "multipart/form-data" + [';'] + (" " + ("boundary" + ['='] + boundary)) }

  function Expected(parts: seq<Part>): (r: Pairs)
    ensures |r| == |parts|
    ensures forall i :: 0 <= i < |parts| ==>
              r[i] == (parts[i].name, match parts[i].filename case Some(f) => f case None => parts[i].content)
  {
    seq(|parts|, i requires 0 <= i < |parts| =>
      (parts[i].name, match parts[i].filename case Some(f) => f case None => parts[i].content))
  }

  /** A boundary that survives being read from the content type. */
  predicate ValidBoundary(b: string) {
    b != "" && OneLine(b) && Free(b, ';') && Trimmed(b) && Unquoted(b, '"')
  }

  // ── Round trip ─────────────────────────────────────────────────────────────

  lemma BoundaryParam(b: string)
    requires ValidBoundary(b)
    ensures Split(ContentType(b), ';')[1..] == [" " + ("boundary" + ['='] + b)]
  {
    var param := "boundary" + ['='] + b;
    SplitAt("multipart/form-data", ';', " " + param);
    SplitFree(" " + param, ';');
  }

  lemma BoundaryRead(b: string)
    requires ValidBoundary(b)
    ensures BoundaryIn([" " + ("boundary" + ['='] + b)]) == Some(b)
  {
    var param := "boundary" + ['='] + b;
    TrimOneSpace(param);
    SplitOnceAt("boundary", '=', b);
    TrimTrimmed("boundary");
    TrimTrimmed(b);
    StripUnquoted(b, '"');
    assert Lower("boundary") == "boundary";
  }

  lemma BoundaryReadBack(b: string)
    requires ValidBoundary(b)
    ensures ExtractBoundary(ContentType(b)) == Some(b)
  {
    BoundaryParam(b);
    BoundaryRead(b);
  }

  lemma NameParamRead(p: Part, more: seq<string>, f: Option<string>)
    requires Quotable(p.name)
    ensures Params([" " + NameParam(p)] + more, None, f) == Params(more, Some(p.name), f)
  {
    var s := NameParam(p);
    TrimOneSpace(s);
    StripQuoted(p.name, '"');
    assert s[..5] == "name=" && s[5..] == ['"'] + p.name + ['"'];
    assert ([" " + s] + more)[1..] == more;
  }

  lemma FileParamRead(f: string, name: Option<string>, was: Option<string>)
    requires Quotable(f)
    ensures Params([" " + FileParam(f)], name, was) == Params([], name, Some(f))
  {
    var s := FileParam(f);
    TrimOneSpace(s);
    StripQuoted(f, '"');
    assert s[..9] == "filename=" && s[9..] == ['"'] + f + ['"'];
    assert s[0] == 'f' && !Prefixed(s, "name=");
    assert [" " + s][1..] == [];
  }

  lemma ParamsRead(p: Part)
    requires ValidPart(p)
    ensures Params(Split(ParamsText(p), ';'), None, None) == Some((p.name, p.filename))
  {
    match p.filename
    case None =>
      SplitFree(" " + NameParam(p), ';');
      NameParamRead(p, [], None);
      assert [" " + NameParam(p)] + [] == [" " + NameParam(p)];
    case Some(f) =>
      SplitAt(" " + NameParam(p), ';', " " + FileParam(f));
      SplitFree(" " + FileParam(f), ';');
      NameParamRead(p, [" " + FileParam(f)], None);
      FileParamRead(f, Some(p.name), None);
  }

  lemma DispositionOneLine(p: Part)
    requires ValidPart(p)
    ensures OneLine(DispositionLine(p)) && DispositionLine(p) != ""
  {
    assert OneLine(NameParam(p));
    assert p.filename.Some? ==> OneLine(FileParam(p.filename.value));
    assert OneLine(ParamsText(p));
  }

  lemma DispositionName()
    ensures Free("Content-Disposition", ':') && Lower(Trim("Content-Disposition")) == "content-disposition"
  {
    TrimTrimmed("Content-Disposition");
    assert Lower("Content-Disposition") == "content-disposition";
  }

  /** A `Content-Disposition` line is read by its parameters. */
  lemma DispositionOf(v: string, more: seq<string>)
    ensures DispositionIn(["Content-Disposition" + [':'] + v] + more) == Params(Split(v, ';')[1..], None, None)
  {
    SplitOnceAt("Content-Disposition", ':', v);
    DispositionName();
  }

  lemma AfterFormData(params: string)
    ensures Split(" form-data" + [';'] + params, ';')[1..] == Split(params, ';')
  {
    SplitAt(" form-data", ';', params);
  }

  lemma DispositionFirst(p: Part, more: seq<string>)
    requires ValidPart(p)
    ensures DispositionIn([DispositionLine(p)] + more) == Some((p.name, p.filename))
  {
    DispositionOf(" form-data" + [';'] + ParamsText(p), more);
    AfterFormData(ParamsText(p));
    ParamsRead(p);
  }

  lemma DispositionRead(p: Part)
    requires ValidPart(p)
    ensures Disposition(Head(p)) == Some((p.name, p.filename))
  {
    DispositionOneLine(p);
    LinesReadBack([DispositionLine(p)] + p.extra);
    DispositionFirst(p, p.extra);
  }

  lemma JoinStart(lines: seq<string>)
    requires lines != [] && lines[0] != "" && OneLine(lines[0])
    ensures Join(lines, CRLF) != "" && Join(lines, CRLF)[0] != '\r'
  {
  }

  /** In a header block each CR starts a line break that a non-empty line follows. */
  lemma {:induction false} BreaksInside(lines: seq<string>, i: nat)
    requires lines != [] && forall k :: 0 <= k < |lines| ==> lines[k] != "" && OneLine(lines[k])
    requires i < |Join(lines, CRLF)| && Join(lines, CRLF)[i] == '\r'
    ensures i + 2 < |Join(lines, CRLF)| && Join(lines, CRLF)[i + 2] != '\r'
  {
    var first, hay := lines[0], Join(lines, CRLF);
    if |lines| > 1 {
      var rest := Join(lines[1..], CRLF);
      assert hay == first + CRLF + rest;
      JoinStart(lines[1..]);
      if i > |first| + 1 { BreaksInside(lines[1..], i - |first| - 2); }
    }
  }

  /** The first blank line of a printed part is the one after its header block. */
  lemma HeadEnds(p: Part, rest: string)
    requires ValidPart(p)
    ensures FindSub(Head(p) + BLANK + rest, BLANK) == Some(|Head(p)|)
  {
    DispositionOneLine(p);
    var lines, hay := [DispositionLine(p)] + p.extra, Head(p) + BLANK + rest;
    forall i: nat | i < |Head(p)| ensures !OccursAt(BLANK, hay, i) {
      if Head(p)[i] == '\r' {
        BreaksInside(lines, i);
        NotAt(BLANK, hay, i, 2);
      } else {
        NotAt(BLANK, hay, i, 0);
      }
    }
    assert hay[|Head(p)|..|Head(p)| + 4] == BLANK;
    FindFromIs(hay, BLANK, |Head(p)|);
  }

  lemma HeadShape(p: Part)
    ensures Head(p) != "" && Head(p)[0] == 'C'
  {
    assert ([DispositionLine(p)] + p.extra)[0] == DispositionLine(p);
  }

  /** Reading one segment, given where its header block ends and what it says. */
  lemma SegmentRead(head: string, content: string, name: string, filename: Option<string>)
    requires head != "" && head[0] == 'C'
    requires FindSub(head + BLANK + (content + CRLF), BLANK) == Some(|head|)
    requires Disposition(head) == Some((name, filename))
    ensures SegmentPair(CRLF + (head + BLANK + (content + CRLF)))
         == Some((name, match filename case Some(f) => f case None => content))
  {
    var val := content + CRLF;
    var seg := head + BLANK + val;
    assert (CRLF + seg)[..2] == CRLF && (CRLF + seg)[2..] == seg;
    assert StripPrefix(CRLF + seg, CRLF) == seg;
    assert seg[0] == 'C' && !Prefixed(seg, "--");
    assert seg[..|head|] == head && seg[|head| + 4..] == val;
    assert val[|val| - 2..] == CRLF && val[..|val| - 2] == content;
  }

  lemma PartRead(p: Part)
    requires ValidPart(p)
    ensures SegmentPair(PartText(p)) == Some((p.name, match p.filename case Some(f) => f case None => p.content))
  {
    HeadShape(p);
    HeadEnds(p, p.content + CRLF);
    DispositionRead(p);
    SegmentRead(Head(p), p.content, p.name, p.filename);
  }

  predicate EndsInLineFeed(s: string) { s != "" && s[|s| - 1] == '\n' }

  lemma ClosingHasNone(sep: string)
    requires |sep| > 2 && OneLine(sep)
    ensures Segments(CLOSING, sep) == [CLOSING]
  {
    forall i: nat | i + |sep| <= |CLOSING| ensures !OccursAt(sep, CLOSING, i) {
      assert sep[2 - i] in sep;
      NotAt(sep, CLOSING, i, 2 - i);
    }
    FindFromNone(CLOSING, sep);
  }

  /** A one-line separator absent from a text that ends in a line feed cannot start inside that text. */
  lemma SeparatorOutside(a: string, sep: string, rest: string, i: nat)
    requires EndsInLineFeed(a) && OneLine(sep) && !Occurs(sep, a)
    requires i < |a|
    ensures !OccursAt(sep, a + sep + rest, i)
  {
    var hay := a + sep + rest;
    if i + |sep| <= |a| {
      assert a[i..i + |sep|] == hay[i..i + |sep|];
      assert !OccursAt(sep, a, i);
    } else {
      var k := |a| - 1 - i;
      assert hay[i + k] == '\n' && sep[k] in sep;
      NotAt(sep, hay, i, k);
    }
  }

  lemma {:induction false} SegmentsOfBody(texts: seq<string>, sep: string)
    requires |sep| > 2 && OneLine(sep)
    requires forall i :: 0 <= i < |texts| ==> EndsInLineFeed(texts[i]) && !Occurs(sep, texts[i])
    ensures Segments(AfterDelimiter(texts, sep), sep) == texts + [CLOSING]
  {
    if texts == [] {
      ClosingHasNone(sep);
    } else {
      var a, rest := texts[0], AfterDelimiter(texts[1..], sep);
      forall i: nat | i < |a| ensures !OccursAt(sep, a + sep + rest, i) {
        SeparatorOutside(a, sep, rest, i);
      }
      SegmentsOfBody(texts[1..], sep);
      SegmentFirst(a, sep, rest);
      assert [a] + (texts[1..] + [CLOSING]) == texts + [CLOSING];
    }
  }

  lemma PartEnds(p: Part)
    ensures EndsInLineFeed(PartText(p))
  {
  }

  lemma ClosingIgnored()
    ensures SegmentPair(CLOSING) == None && SegmentPair("") == None
  {
    assert CLOSING[..2] == "--";
  }

  lemma PartsRead(parts: seq<Part>)
    requires forall i :: 0 <= i < |parts| ==> ValidPart(parts[i])
    ensures FilterMap(SegmentPair, PartTexts(parts) + [CLOSING]) == Expected(parts)
  {
    forall i | 0 <= i < |parts| ensures SegmentPair(PartTexts(parts)[i]) == Some(Expected(parts)[i]) {
      PartRead(parts[i]);
    }
    FilterMapAll(SegmentPair, PartTexts(parts), Expected(parts));
    FilterMapAppend(SegmentPair, PartTexts(parts), CLOSING);
    ClosingIgnored();
  }

  lemma FilterMapSkip(first: string, rest: seq<string>)
    requires SegmentPair(first) == None
    ensures FilterMap(SegmentPair, [first] + rest) == FilterMap(SegmentPair, rest)
  {
    assert ([first] + rest)[1..] == rest;
  }

  lemma SegmentsAtStart(sep: string, rest: string)
    requires sep != ""
    ensures Segments(sep + rest, sep) == [""] + Segments(rest, sep)
  {
    assert "" + sep + rest == sep + rest;
    SegmentFirst("", sep, rest);
  }

  lemma BodySegments(texts: seq<string>, sep: string)
    requires |sep| > 2 && OneLine(sep)
    requires forall i :: 0 <= i < |texts| ==> EndsInLineFeed(texts[i]) && !Occurs(sep, texts[i])
    ensures Segments(sep + AfterDelimiter(texts, sep), sep) == [""] + (texts + [CLOSING])
  {
    SegmentsOfBody(texts, sep);
    SegmentsAtStart(sep, AfterDelimiter(texts, sep));
  }

  /** Printing any list of fields and files and parsing it back returns names with values or file names, in order. */
  lemma MultipartRoundTrip(parts: seq<Part>, boundary: string)
    requires ValidBoundary(boundary)
    requires forall i :: 0 <= i < |parts| ==> ValidPart(parts[i]) && !Occurs("--" + boundary, PartText(parts[i]))
    ensures ParsedMultipart(Body(parts, boundary), ContentType(boundary)) == Expected(parts)
  {
    var sep, texts := "--" + boundary, PartTexts(parts);
    BoundaryReadBack(boundary);
    forall i | 0 <= i < |parts| ensures EndsInLineFeed(texts[i]) { PartEnds(parts[i]); }
    assert OneLine(sep);
    BodySegments(texts, sep);
    ClosingIgnored();
    FilterMapSkip("", texts + [CLOSING]);
    PartsRead(parts);
  }
}
