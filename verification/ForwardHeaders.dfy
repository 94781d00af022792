/** What crosses the proxy towards the upstream: hop-by-hop headers go, framing is pinned. */
module ForwardHeaders {
  import opened Text
  import opened Common

  type Header = (string, string)

  /** Section 6.1 of RFC 7230. */
  const HOP_BY_HOP: seq<string> :=
    ["connection", "keep-alive", "proxy-authenticate", "proxy-authorization", "te", "trailer", "transfer-encoding", "upgrade"]

  function Unless(names: seq<string>): Header -> Option<Header> {
    (h: Header) => if h.0 in names then None else Some(h)
  }

  /** `HeaderMap::remove`, for several names: every value under any of them goes. */
  function Removed(hs: Headers, names: seq<string>): Headers { FilterMap(Unless(names), hs) }

  function ConnectionName(part: string): Option<string> {
    var name := Lower(Trim(part));
    if name == "" then None else Some(name)
  }

  /** The names the (first) `Connection` value gives. */
  function ListedNames(hs: Headers): seq<string> {
    match HeaderStr(hs, "connection")
    case None => []
    case Some(v) => FilterMap(ConnectionName, Split(v, ','))
  }

  function Dropped(hs: Headers, buffered: Option<nat>): seq<string> {
    ListedNames(hs) + HOP_BY_HOP + (if buffered.Some? then ["content-length"] else [])
  }

  function Framing(buffered: Option<nat>): Headers {
    match buffered case Some(len) => [("content-length", Show(len))] case None => []
  }

  /** The headers that go on: what is not dropped, in order, and the exact length of a buffered body. */
  function Sanitized(hs: Headers, buffered: Option<nat>): Headers {
    Removed(hs, Dropped(hs, buffered)) + Framing(buffered)
  }

  lemma RemovedTwice(hs: Headers, names: seq<string>, more: seq<string>)
    ensures Removed(Removed(hs, names), more) == Removed(hs, names + more)
  {
    FilterThen(Unless(names), Unless(more), Unless(names + more), hs);
  }

  method RemoveEach(hs: Headers, names: seq<string>) returns (out: Headers)
    ensures out == Removed(hs, names)
  {
    out := hs;
    FilterMapAll(Unless([]), hs, hs);
    for i := 0 to |names|
      invariant out == Removed(hs, names[..i])
    {
      RemovedTwice(hs, names[..i], [names[i]]);
      assert names[..i] + [names[i]] == names[..i + 1];
      out := Removed(out, [names[i]]);
    }
    assert names[..|names|] == names;
  }

  /** `sanitize_forward_headers`: one pass that drops those names, then the exact length if buffered. */
  method SanitizeForwardHeaders(hs: Headers, buffered: Option<nat>) returns (out: Headers)
    ensures out == Sanitized(hs, buffered)
  {
    var listed := ListedNames(hs);
    out := RemoveEach(hs, listed);
    out := RemoveEach(out, HOP_BY_HOP);
    RemovedTwice(hs, listed, HOP_BY_HOP);
    if buffered.Some? {
      out := RemoveEach(out, ["content-length"]);
      RemovedTwice(hs, listed + HOP_BY_HOP, ["content-length"]);
      out := out + [("content-length", Show(buffered.value))];
    } else {
      assert listed + HOP_BY_HOP + [] == listed + HOP_BY_HOP;
    }
  }

  lemma {:induction false} RemovedMember(hs: Headers, names: seq<string>, h: Header)
    ensures h in Removed(hs, names) <==> h in hs && h.0 !in names
  {
    if hs != [] { RemovedMember(hs[1..], names, h); }
  }

  /** A header that is there and is neither named in the first `Connection` value, nor hop-by-hop, nor a superseded length. */
  predicate Survives(hs: Headers, buffered: Option<nat>, h: Header) {
    h in hs && h.0 !in ListedNames(hs) && h.0 !in HOP_BY_HOP && (buffered.Some? ==> h.0 != "content-length")
  }

  /** A header crosses exactly if it was there and not dropped, or is the pinned length; nothing is invented. */
  lemma CrossesExactly(hs: Headers, buffered: Option<nat>, h: Header)
    ensures h in Sanitized(hs, buffered) <==> Survives(hs, buffered, h) || h in Framing(buffered)
  {
    RemovedMember(hs, Dropped(hs, buffered), h);
  }

  lemma HopByHopNames(name: string)
    ensures name in HOP_BY_HOP
       <==> name in {"connection", "keep-alive", "proxy-authenticate", "proxy-authorization", "te", "trailer", "transfer-encoding", "upgrade"}
  {
  }

  /** The eight names of section 6.1 of RFC 7230, none of which crosses; a buffered body's length is only ever the exact one. */
  lemma NeverCrosses(hs: Headers, buffered: Option<nat>, h: Header)
    requires h in Sanitized(hs, buffered)
    ensures h.0 !in {"connection", "keep-alive", "proxy-authenticate", "proxy-authorization", "te", "trailer", "transfer-encoding", "upgrade"}
    ensures buffered.Some? && h.0 == "content-length" ==> h.1 == Show(buffered.value)
  {
    CrossesExactly(hs, buffered, h);
    HopByHopNames(h.0);
  }

  /** A token list as it is written: some space around each name. */
  predicate Written(texts: seq<string>, names: seq<string>) {
    && |texts| == |names| > 0
    && forall k :: 0 <= k < |names| ==> names[k] != "" && Trim(texts[k]) == names[k] && Free(texts[k], ',')
  }

  lemma {:induction false} FirstHeader(before: Headers, name: string, value: string, after: Headers)
    requires forall h :: h in before ==> h.0 != name
    ensures GetHeader(before + [(name, value)] + after, name) == Some(value)
  {
    var hs := before + [(name, value)] + after;
    if before != [] {
      assert hs[0] == before[0] && hs[1..] == before[1..] + [(name, value)] + after;
      FirstHeader(before[1..], name, value, after);
    }
  }

  /** The first `Connection` value gives the names that are written in it, in small letters. */
  lemma ConnectionRead(before: Headers, texts: seq<string>, names: seq<string>, after: Headers)
    requires Written(texts, names) && HeaderText(Join(texts, ",")).Some?
    requires forall h :: h in before ==> h.0 != "connection"
    ensures ListedNames(before + [("connection", Join(texts, ","))] + after) == seq(|names|, k requires 0 <= k < |names| => Lower(names[k]))
  {
    var value := Join(texts, ",");
    FirstHeader(before, "connection", value, after);
    SplitJoin(texts, ',');
    FilterMapAll(ConnectionName, texts, seq(|names|, k requires 0 <= k < |names| => Lower(names[k])));
  }

  /** The names one `Connection` value gives. */
  function NamesIn(v: string): seq<string> {
    match HeaderText(v) case Some(t) => FilterMap(ConnectionName, Split(t, ',')) case None => []
  }

  /** Some `Connection` value, the first or a later one, names `name`. */
  predicate NamedInConnection(hs: Headers, name: string) {
    exists i :: 0 <= i < |hs| && hs[i].0 == "connection" && name in NamesIn(hs[i].1)
  }

  /** The promise: nothing crosses under a name that a `Connection` value gives, but for the pinned length. */
  ghost predicate AllNamedDropped(hs: Headers, buffered: Option<nat>) {
    forall h: Header :: h in Sanitized(hs, buffered) && NamedInConnection(hs, h.0) ==> h in Framing(buffered)
  }

  /**
   The promise is kept exactly when every header present that some `Connection` value names is
   also named in the first value, or is hop-by-hop, or is a length that gets superseded.
   */
  lemma NamedDroppedExactly(hs: Headers, buffered: Option<nat>)
    ensures AllNamedDropped(hs, buffered)
       <==> forall h: Header :: h in hs && NamedInConnection(hs, h.0) ==> !Survives(hs, buffered, h)
  {
    forall h: Header ensures Survives(hs, buffered, h) <==> h in Sanitized(hs, buffered) && h !in Framing(buffered) {
      CrossesExactly(hs, buffered, h);
    }
  }

  predicate OneConnection(hs: Headers) {
    forall i, j :: 0 <= i < j < |hs| ==> hs[i].0 != "connection" || hs[j].0 != "connection"
  }

  lemma {:induction false} FirstConnection(hs: Headers, name: string)
    requires OneConnection(hs) && NamedInConnection(hs, name)
    ensures name in ListedNames(hs)
  {
    var i :| 0 <= i < |hs| && hs[i].0 == "connection" && name in NamesIn(hs[i].1);
    if i > 0 {
      assert hs[1..][i - 1] == hs[i] && hs[0].0 != "connection";
      FirstConnection(hs[1..], name);
    }
  }

  /** With at most one `Connection` value the promise is kept: nothing crosses under a name it gives. */
  lemma OneConnectionSuffices(hs: Headers, buffered: Option<nat>)
    requires OneConnection(hs)
    ensures AllNamedDropped(hs, buffered)
  {
    forall h: Header | h in hs && NamedInConnection(hs, h.0) ensures !Survives(hs, buffered, h) {
      FirstConnection(hs, h.0);
    }
    NamedDroppedExactly(hs, buffered);
  }

  /** A second `Connection` line is not read: whatever plain name it gives, that header goes through. */
  lemma SecondConnection(first: string, name: string, value: string)
    requires NamesIn(first) == [first] && NamesIn(name) == [name]
    requires name != first && name != "connection" && name !in HOP_BY_HOP
    ensures var hs := [("connection", first), ("connection", name), (name, value)];
            NamedInConnection(hs, name) && (name, value) in Sanitized(hs, None)
  {
    var hs := [("connection", first), ("connection", name), (name, value)];
    assert hs[0] == ("connection", first) && hs[1] == ("connection", name) && hs[2] == (name, value);
    assert GetHeader(hs, "connection") == Some(first);
    assert ListedNames(hs) == NamesIn(first);
    CrossesExactly(hs, None, (name, value));
  }

  lemma OneName(name: string, parts: seq<string>)
    requires parts == [name] && ConnectionName(name) == Some(name)
    ensures FilterMap(ConnectionName, parts) == [name]
  {
    FilterMapAll(ConnectionName, parts, [name]);
  }

  lemma PlainName(name: string)
    requires name != "" && Free(name, ',') && Trimmed(name) && Lower(name) == name && HeaderText(name).Some?
    ensures NamesIn(name) == [name]
  {
    SplitFree(name, ',');
    TrimTrimmed(name);
    OneName(name, Split(name, ','));
  }

  lemma PlainNames()
    ensures NamesIn("close") == ["close"] && NamesIn("x-a") == ["x-a"]
  {
    assert Lower("close") == "close" && Lower("x-a") == "x-a";
    PlainName("close");
    PlainName("x-a");
  }

  lemma NotHopByHop()
    ensures "x-a" !in HOP_BY_HOP && "x-a" != "connection" && "x-a" != "close"
  {
  }

  /** For one: `Connection: close` and then `Connection: x-a` let `x-a` through. */
  lemma SecondConnectionIgnored()
    ensures var hs := [("connection", "close"), ("connection", "x-a"), ("x-a", "1")];
            NamedInConnection(hs, "x-a") && ("x-a", "1") in Sanitized(hs, None)
  {
    PlainNames();
    NotHopByHop();
    SecondConnection("close", "x-a", "1");
  }

  lemma {:induction false} NoSuchHeader(hs: Headers, name: string)
    requires forall h :: h in hs ==> h.0 != name
    ensures GetHeader(hs, name) == None
  {
    if hs != [] { NoSuchHeader(hs[1..], name); }
  }

  /** What has been sanitised once is left alone by a second proxy of the same kind. */
  lemma SanitizedIsStable(hs: Headers, buffered: Option<nat>)
    ensures Sanitized(Sanitized(hs, buffered), buffered) == Sanitized(hs, buffered)
  {
    var once := Sanitized(hs, buffered);
    var kept := Removed(hs, Dropped(hs, buffered));
    forall h | h in once ensures h.0 !in HOP_BY_HOP { CrossesExactly(hs, buffered, h); }
    assert HOP_BY_HOP[0] == "connection";
    NoSuchHeader(once, "connection");
    assert ListedNames(once) == [];
    forall h | h in kept ensures h.0 !in Dropped(once, buffered) { RemovedMember(hs, Dropped(hs, buffered), h); }
    FilterMapAll(Unless(Dropped(once, buffered)), kept, kept);
    if buffered.Some? {
      FilterMapAppend(Unless(Dropped(once, buffered)), kept, Framing(buffered)[0]);
    } else {
      assert once == kept && once + [] == once;
    }
  }
}
