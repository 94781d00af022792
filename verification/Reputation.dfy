/** Timed block and allow lists: entries expire at parse, at match and at prune. */
module Reputation {
  import opened Text
  import opened Common

  /** A network (named by its canonical text) with an optional expiry in epoch seconds. */
  datatype BlockEntry = BlockEntry(net: string, until: Option<nat>)

  /** The ipnet crate. */
  datatype Nets = Nets(parse: string -> Option<string>, covers: (string, Ip) -> bool)

  predicate Active(e: BlockEntry, now: nat) { e.until.None? || e.until.value > now }

  predicate Matches(nets: Nets, e: BlockEntry, ip: Ip, now: nat) { Active(e, now) && nets.covers(e.net, ip) }

  /** Whether an address falls inside any entry still in force. */
  predicate Listed(nets: Nets, list: seq<BlockEntry>, ip: Ip, now: nat) {
    exists i :: 0 <= i < |list| && Matches(nets, list[i], ip, now)
  }

  function ActiveOf(now: nat): BlockEntry -> Option<BlockEntry> {
    (e: BlockEntry) => if Active(e, now) then Some(e) else None
  }

  function Unexpired(list: seq<BlockEntry>, now: nat): seq<BlockEntry> { FilterMap(ActiveOf(now), list) }

  /** Exactly the entries are kept that have no expiry or one that lies ahead. */
  ghost predicate DropsExpired(kept: seq<BlockEntry>, list: seq<BlockEntry>, now: nat) {
    forall e :: e in kept <==> e in list && (e.until == None || now < e.until.value)
  }

  lemma UnexpiredIs(list: seq<BlockEntry>, now: nat)
    ensures DropsExpired(Unexpired(list, now), list, now)
  {
    forall e ensures e in Unexpired(list, now) <==> e in list && (e.until == None || now < e.until.value) {
      FilterMapMember(ActiveOf(now), list, e);
    }
  }

  /** The swappable handle to a list. */
  class SharedBlocks {
    var list: seq<BlockEntry>

    constructor (list: seq<BlockEntry>)
      ensures this.list == list
    {
      this.list := list;
    }

    method Contains(nets: Nets, ip: Ip, now: nat) returns (hit: bool)
      ensures hit <==> Listed(nets, list, ip, now)
    {
      hit := false;
      for i := 0 to |list|
        invariant hit <==> exists k :: 0 <= k < i && Matches(nets, list[k], ip, now)
      {
        if Matches(nets, list[i], ip, now) { hit := true; }
      }
    }

    /** `prune_expired`: swap in the kept entries, only if something expired. */
    method PruneExpired(now: nat)
      modifies this
      ensures list == Unexpired(old(list), now)
      ensures DropsExpired(list, old(list), now)
    {
      UnexpiredIs(list, now);
      if exists i :: 0 <= i < |list| && !Active(list[i], now) {
        list := FilterMapInto(ActiveOf(now), list, []);
        assert [] + Unexpired(old(list), now) == Unexpired(old(list), now);
      } else {
        FilterMapAll(ActiveOf(now), list, list);
      }
    }
  }

  // ── Reading a list file ────────────────────────────────────────────────────

  /** A line without its comment. */
  function LineBody(line: string): string { Trim(Split(line, '#')[0]) }

  function LineWords(line: string): seq<string> { Words(LineBody(line), "") }

  /** The `until=` among the tokens, the last winning; nothing if one is malformed. */
  function UntilOf(tokens: seq<string>, cur: Option<nat>): Option<Option<nat>> {
    if tokens == [] then Some(cur)
    else if |tokens[0]| >= 6 && tokens[0][..6] == "until=" then
      (match ParseUnsigned(tokens[0][6..], U64_MAX)
       case Some(ts) => UntilOf(tokens[1..], Some(ts))
       case None => None)
    else UntilOf(tokens[1..], cur)
  }

  /** What a line says, expired or not. */
  function LineEntry(nets: Nets, line: string): Option<BlockEntry> {
    var words := LineWords(line);
    if words == [] then None
    else match nets.parse(words[0])
      case None => None
      case Some(net) =>
        match UntilOf(words[1..], None)
        case None => None
        case Some(until) => Some(BlockEntry(net, until))
  }

  predicate PlainWords(words: seq<string>) {
    forall k :: 0 <= k < |words| ==> words[k] != "" && Solid(words[k]) && Free(words[k], '#')
  }

  lemma {:induction false} JoinedFree(words: seq<string>)
    requires PlainWords(words)
    ensures Free(Join(words, " "), '#')
  {
    if |words| > 1 { JoinedFree(words[1..]); }
  }

  /** A line as an operator writes it: words, and perhaps a comment. */
  function WrittenLine(words: seq<string>, comment: Option<string>): string {
    match comment case None => Join(words, " ") case Some(c) => Join(words, " ") + ['#'] + c
  }

  /** The words of a line are what is written before the comment. */
  lemma LineWordsRead(words: seq<string>, comment: Option<string>)
    requires PlainWords(words)
    ensures LineWords(WrittenLine(words, comment)) == words
  {
    var text := Join(words, " ");
    assert SolidWords(words);
    JoinedWords(words);
    JoinedFree(words);
    match comment
    case None => SplitFree(text, '#');
      TrimTrimmed(text);
    case Some(c) => SplitAt(text, '#', c);
      TrimTrimmed(text);
  }

  predicate IsUntil(word: string) { Prefixed(word, "until=") }

  function UntilTime(word: string): Option<nat>
    requires IsUntil(word)
  {
    ParseUnsigned(word[6..], U64_MAX)
  }

  /** The time a word states; `until=` with no time after it states none. */
  function UntilSaid(word: string): Option<Option<nat>> { if IsUntil(word) then Some(UntilTime(word)) else None }

  ghost predicate TimesRead(words: seq<string>) {
    forall k :: 0 <= k < |words| && IsUntil(words[k]) ==> UntilTime(words[k]).Some?
  }

  lemma {:induction false} UntilIsLast(words: seq<string>, first: Option<nat>)
    ensures UntilOf(words, first).Some? <==> TimesRead(words)
    ensures UntilOf(words, first).Some? ==> LastSays(words, UntilSaid, first, UntilOf(words, first).value)
  {
    if words != [] {
      var rest := words[1..];
      assert forall k :: 0 <= k < |rest| ==> rest[k] == words[k + 1];
      assert forall k :: 0 < k < |words| ==> words[k] == rest[k - 1];
      var next := if IsUntil(words[0]) then UntilTime(words[0]) else first;
      UntilIsLast(rest, next);
      if IsUntil(words[0]) && UntilTime(words[0]).None? {
        assert !TimesRead(words);
      } else {
        assert UntilOf(words, first) == UntilOf(rest, next);
        assert TimesRead(words) <==> TimesRead(rest);
        if TimesRead(words) { LastSaysCons(words, UntilSaid, first, UntilOf(rest, next).value); }
      }
    }
  }

  /**
   A list line says one network, the first word; each `until=` has to be a time and the last one
   counts; other words and the comment say nothing.
   */
  lemma LineRead(nets: Nets, words: seq<string>, comment: Option<string>)
    requires PlainWords(words)
    ensures var e := LineEntry(nets, WrittenLine(words, comment));
            && (e.Some? <==> words != [] && nets.parse(words[0]).Some? && TimesRead(words[1..]))
            && (e.Some? ==> Some(e.value.net) == nets.parse(words[0]) && LastSays(words[1..], UntilSaid, None, e.value.until))
  {
    LineWordsRead(words, comment);
    if words != [] { UntilIsLast(words[1..], None); }
  }

  /** `line_until`: as `UntilOf`, but an expiry that has passed drops the line. */
  function LineUntil(tokens: seq<string>, now: nat): Option<Option<nat>> {
    match UntilOf(tokens, None)
    case None => None
    case Some(until) => if until.Some? && until.value <= now then None else Some(until)
  }

  /** One line as `parse_blocklist` reads it at time `now`. */
  function ParseLine(nets: Nets, now: nat): string -> Option<BlockEntry> {
    (line: string) =>
      var words := LineWords(line);
      if words == [] then None
      else match nets.parse(words[0])
        case None => None
        case Some(net) =>
          match LineUntil(words[1..], now)
          case None => None
          case Some(until) => Some(BlockEntry(net, until))
  }

  function Reads(nets: Nets): string -> Option<BlockEntry> { (line: string) => LineEntry(nets, line) }

  /** Every entry the lines state, expired or not, for a way to read a line. */
  function Entries(read: string -> Option<BlockEntry>, lines: seq<string>): seq<BlockEntry> {
    FilterMap(read, lines)
  }

  lemma LineDropsExpired(nets: Nets, line: string, now: nat)
    ensures var e := LineEntry(nets, line);
            ParseLine(nets, now)(line) == (if e.Some? && Active(e.value, now) then e else None)
  {
  }

  /** Parsing at a time keeps exactly the stated entries that are in force then. */
  lemma ParseDropsExpired(nets: Nets, lines: seq<string>, now: nat)
    ensures FilterMap(ParseLine(nets, now), lines) == Unexpired(Entries(Reads(nets), lines), now)
  {
    forall line: string
      ensures ParseLine(nets, now)(line)
           == (match Reads(nets)(line) case Some(e) => ActiveOf(now)(e) case None => None)
    {
      LineDropsExpired(nets, line, now);
    }
    FilterThen(Reads(nets), ActiveOf(now), ParseLine(nets, now), lines);
  }

  method ParseBlocklist(nets: Nets, lines: seq<string>, now: nat) returns (out: seq<BlockEntry>)
    ensures out == Unexpired(Entries(Reads(nets), lines), now)
  {
    out := FilterMapInto(ParseLine(nets, now), lines, []);
    assert [] + FilterMap(ParseLine(nets, now), lines) == FilterMap(ParseLine(nets, now), lines);
    ParseDropsExpired(nets, lines, now);
  }

  function Permanent(nets: seq<string>): (r: seq<BlockEntry>)
    ensures |r| == |nets| && forall i :: 0 <= i < |nets| ==> r[i] == BlockEntry(nets[i], None)
  {
    seq(|nets|, i requires 0 <= i < |nets| => BlockEntry(nets[i], None))
  }

  /** `build_blocks`: inline networks, then the file's entries in force at `now`. */
  function BuildBlocks(read: string -> Option<BlockEntry>, inline: seq<string>, lines: seq<string>, now: nat): seq<BlockEntry> {
    Permanent(inline) + Unexpired(Entries(read, lines), now)
  }

  // ── Dropping expired entries is never observable ───────────────────────────

  lemma ListedCons(nets: Nets, e: BlockEntry, list: seq<BlockEntry>, ip: Ip, t: nat)
    ensures Listed(nets, [e] + list, ip, t) <==> Matches(nets, e, ip, t) || Listed(nets, list, ip, t)
  {
    var all := [e] + list;
    if Matches(nets, e, ip, t) { assert all[0] == e; }
    if Listed(nets, list, ip, t) {
      var i :| 0 <= i < |list| && Matches(nets, list[i], ip, t);
      assert all[i + 1] == list[i];
    }
    if Listed(nets, all, ip, t) {
      var i :| 0 <= i < |all| && Matches(nets, all[i], ip, t);
      assert i > 0 ==> all[i] == list[i - 1];
    }
  }

  lemma {:induction false} UnexpiredListed(nets: Nets, list: seq<BlockEntry>, dropped: nat, ip: Ip, t: nat)
    requires dropped <= t
    ensures Listed(nets, Unexpired(list, dropped), ip, t) <==> Listed(nets, list, ip, t)
  {
    if list != [] {
      UnexpiredListed(nets, list[1..], dropped, ip, t);
      ListedCons(nets, list[0], list[1..], ip, t);
      assert [list[0]] + list[1..] == list;
      ListedCons(nets, list[0], Unexpired(list[1..], dropped), ip, t);
      assert [] + Unexpired(list[1..], dropped) == Unexpired(list[1..], dropped);
    }
  }

  lemma ListedAppend(nets: Nets, a: seq<BlockEntry>, b: seq<BlockEntry>, ip: Ip, t: nat)
    ensures Listed(nets, a + b, ip, t) <==> Listed(nets, a, ip, t) || Listed(nets, b, ip, t)
  {
    var all := a + b;
    if Listed(nets, a, ip, t) {
      var i :| 0 <= i < |a| && Matches(nets, a[i], ip, t);
      assert all[i] == a[i];
    }
    if Listed(nets, b, ip, t) {
      var i :| 0 <= i < |b| && Matches(nets, b[i], ip, t);
      assert all[|a| + i] == b[i];
    }
    if Listed(nets, all, ip, t) {
      var i :| 0 <= i < |all| && Matches(nets, all[i], ip, t);
      assert if i < |a| then all[i] == a[i] else all[i] == b[i - |a|];
    }
  }

  /** A list built at one time answers, at any later time, as the full statement of its sources does. */
  lemma BuiltListed(nets: Nets, read: string -> Option<BlockEntry>, inline: seq<string>, lines: seq<string>,
                    built: nat, ip: Ip, t: nat)
    requires built <= t
    ensures Listed(nets, BuildBlocks(read, inline, lines, built), ip, t)
       <==> Listed(nets, Permanent(inline) + Entries(read, lines), ip, t)
  {
    ListedAppend(nets, Permanent(inline), Unexpired(Entries(read, lines), built), ip, t);
    ListedAppend(nets, Permanent(inline), Entries(read, lines), ip, t);
    UnexpiredListed(nets, Entries(read, lines), built, ip, t);
  }
}
