/** `ban` and `unban`: edits of the block list file, and what they do to the running proxy. */
module Bans {
  import opened Text
  import opened Common
  import opened Reputation

  // ── Edits of the line list ─────────────────────────────────────────────────

  /** The network a line names, even if the rest of the line is malformed. */
  function LineNet(nets: Nets, line: string): Option<string> {
    var words := LineWords(line);
    if words == [] then None else nets.parse(words[0])
  }

  /** `unban` goes by the first word, even on a line that states nothing. */
  lemma LineNetRead(nets: Nets, words: seq<string>, comment: Option<string>)
    requires PlainWords(words)
    ensures LineNet(nets, WrittenLine(words, comment)) == (if words == [] then None else nets.parse(words[0]))
  {
    LineWordsRead(words, comment);
  }

  /** How targets, the network of a line and the whole of a line are read. */
  datatype Reader = Reader(target: string -> Option<string>, net: string -> Option<string>,
                           entry: string -> Option<BlockEntry>)

  function Reading(nets: Nets): Reader {
    Reader(nets.parse, (line: string) => LineNet(nets, line), Reads(nets))
  }

  function Keeps(r: Reader, target: string): string -> Option<string> {
    (line: string) => if r.net(line) == Some(target) then None else Some(line)
  }

  /** Drop every line that names `target`; comments and blank lines stay. */
  function Without(r: Reader, lines: seq<string>, target: string): seq<string> {
    FilterMap(Keeps(r, target), lines)
  }

  function BanLine(net: string, until: Option<nat>): string {
    match until case Some(u) => net + " " + ("until=" + Show(u)) case None => net
  }

  function Banned(r: Reader, lines: seq<string>, net: string, until: Option<nat>): seq<string> {
    Without(r, lines, net) + [BanLine(net, until)]
  }

  /** Networks whose text is one plain word and parses to itself. */
  predicate CanonicalNet(nets: Nets, net: string) {
    net != "" && Solid(net) && Free(net, '#') && nets.parse(net) == Some(net)
  }

  /** A line of one or two solid words is those words. */
  lemma {:induction false} OneWord(net: string)
    requires net != "" && Solid(net) && Free(net, '#')
    ensures LineWords(net) == [net]
  {
    SplitFree(net, '#');
    TrimTrimmed(net);
    WordsSolid(net, "");
    assert "" + net == net;
  }

  lemma {:induction false} TwoWords(net: string, tok: string)
    requires net != "" && Solid(net) && Free(net, '#')
    requires tok != "" && Solid(tok) && Free(tok, '#')
    ensures LineWords(net + " " + tok) == [net, tok]
  {
    var line := net + " " + tok;
    SplitFree(line, '#');
    assert line[0] == net[0] && line[|line| - 1] == tok[|tok| - 1];
    TrimTrimmed(line);
    WordsSpace(net, "", tok);
    WordsSolid(tok, "");
    assert "" + net == net && "" + tok == tok;
  }

  lemma {:induction false} UntilToken(u: nat)
    requires u <= U64_MAX
    ensures var tok := "until=" + Show(u);
            Solid(tok) && Free(tok, '#') && UntilOf([tok], None) == Some(Some(u))
  {
    var tok := "until=" + Show(u);
    ShowDigits(u);
    assert tok[..6] == "until=" && tok[6..] == Show(u);
    ParseShow(u, U64_MAX);
    assert UntilOf([tok], None) == UntilOf([tok][1..], Some(u));
  }

  lemma {:induction false} EntryOf(nets: Nets, line: string, net: string, words: seq<string>, until: Option<nat>)
    requires LineWords(line) == [net] + words && nets.parse(net) == Some(net) && UntilOf(words, None) == Some(until)
    ensures LineEntry(nets, line) == Some(BlockEntry(net, until))
  {
    assert ([net] + words)[1..] == words;
  }

  /** A ban line reads back as the ban it was written for. */
  lemma {:induction false} BanLineRead(nets: Nets, net: string, until: Option<nat>)
    requires CanonicalNet(nets, net) && (until.Some? ==> until.value <= U64_MAX)
    ensures LineEntry(nets, BanLine(net, until)) == Some(BlockEntry(net, until))
  {
    match until
    case None =>
      OneWord(net);
      assert [net] == [net] + [];
      EntryOf(nets, net, net, [], None);
    case Some(u) =>
      var tok := "until=" + Show(u);
      UntilToken(u);
      TwoWords(net, tok);
      assert [net, tok] == [net] + [tok];
      EntryOf(nets, BanLine(net, until), net, [tok], until);
  }

  function Others(target: string): BlockEntry -> Option<BlockEntry> {
    (e: BlockEntry) => if e.net == target then None else Some(e)
  }

  /** The network of an entry is the network of its line. */
  ghost predicate Coherent(r: Reader) {
    forall line :: r.entry(line).Some? ==> r.net(line) == Some(r.entry(line).value.net)
  }

  /** Ban lines read back as the bans they were written for, and lines agree with their networks. */
  ghost predicate ReadsBans(nets: Nets, r: Reader) {
    && Coherent(r)
    && forall net: string, until: Option<nat> :: CanonicalNet(nets, net) && (until.Some? ==> until.value <= U64_MAX) ==>
         r.entry(BanLine(net, until)) == Some(BlockEntry(net, until))
  }

  /** The file is really read that way. */
  lemma ReadingReadsBans(nets: Nets)
    ensures ReadsBans(nets, Reading(nets))
  {
    forall net: string, until: Option<nat> | CanonicalNet(nets, net) && (until.Some? ==> until.value <= U64_MAX)
      ensures Reading(nets).entry(BanLine(net, until)) == Some(BlockEntry(net, until))
    {
      BanLineRead(nets, net, until);
    }
  }

  /** Removing lines removes exactly the entries of that network, in place. */
  lemma WithoutReads(r: Reader, lines: seq<string>, target: string)
    requires Coherent(r)
    ensures Entries(r.entry, Without(r, lines, target)) == FilterMap(Others(target), Entries(r.entry, lines))
  {
    var both := (line: string) => if r.net(line) == Some(target) then None else r.entry(line);
    FilterThen(Keeps(r, target), r.entry, both, lines);
    FilterThen(r.entry, Others(target), both, lines);
  }

  /** After a ban the file states exactly that ban for its network, and everything else as before. */
  lemma BanReads(r: Reader, lines: seq<string>, net: string, until: Option<nat>)
    requires Coherent(r) && r.entry(BanLine(net, until)) == Some(BlockEntry(net, until))
    ensures Entries(r.entry, Banned(r, lines, net, until))
         == FilterMap(Others(net), Entries(r.entry, lines)) + [BlockEntry(net, until)]
  {
    WithoutReads(r, lines, net);
    FilterMapAppend(r.entry, Without(r, lines, net), BanLine(net, until));
  }

  // ── Durations ──────────────────────────────────────────────────────────────

  function SatMul(a: nat, b: nat): nat { Min(a * b, U64_MAX) }

  function UnitSeconds(c: char): Option<nat> {
    if c == 's' then Some(1) else if c == 'm' then Some(60)
    else if c == 'h' then Some(3600) else if c == 'd' then Some(86400) else None
  }

  /** `parse_duration`: bare seconds, or a count with a unit letter. */
  function ParseDuration(text: string): Option<nat> {
    var s := Trim(text);
    match ParseUnsigned(s, U64_MAX)
    case Some(n) => Some(n)
    case None =>
      if s == "" then None
      else match UnitSeconds(s[|s| - 1])
        case None => None
        case Some(mult) =>
          match ParseUnsigned(Trim(s[..|s| - 1]), U64_MAX)
          case Some(n) => Some(SatMul(n, mult))
          case None => None
  }

  lemma {:induction false} BareRead(n: nat)
    requires n <= U64_MAX
    ensures ParseDuration(Show(n)) == Some(n)
  {
    ShowTrimmed(n);
    ParseShow(n, U64_MAX);
  }

  lemma {:induction false} UnitSplit(n: nat, unit: char)
    requires !IsDigit(unit) && !IsSpace(unit)
    ensures var s := Show(n) + [unit];
            Trim(s) == s && s[..|s| - 1] == Show(n) && s[|s| - 1] == unit && ParseUnsigned(s, U64_MAX) == None
  {
    ShowDigits(n);
    var s := Show(n) + [unit];
    assert s[..|s| - 1] == Show(n) && s[|s| - 1] == unit;
    assert s[0] == Show(n)[0];
    TrimTrimmed(s);
    assert !AllDigits(s);
  }

  lemma {:induction false} UnitRead(n: nat, unit: char)
    requires n <= U64_MAX && UnitSeconds(unit).Some? && !IsDigit(unit) && !IsSpace(unit)
    ensures ParseDuration(Show(n) + [unit]) == Some(SatMul(n, UnitSeconds(unit).value))
  {
    ShowTrimmed(n);
    ParseShow(n, U64_MAX);
    UnitSplit(n, unit);
  }

  /** A count with a unit letter, or alone, reads as that many seconds, at most the largest 64-bit number; no other letter is a unit. */
  lemma {:induction false} DurationReads(n: nat, unit: char, seconds: nat)
    requires n <= U64_MAX && (unit, seconds) in {('s', 1), ('m', 60), ('h', 3600), ('d', 86400)}
    ensures ParseDuration(Show(n)) == Some(n)
    ensures ParseDuration(Show(n) + [unit]) == Some(Min(n * seconds, U64_MAX))
  {
    BareRead(n);
    UnitRead(n, unit);
    assert UnitSeconds(unit) == Some(seconds);
  }

  lemma {:induction false} UnknownUnit(n: nat, unit: char)
    requires !IsDigit(unit) && !IsSpace(unit) && unit !in "smhd"
    ensures ParseDuration(Show(n) + [unit]) == None
  {
    UnitSplit(n, unit);
  }

  function Seconds(duration: Option<string>): Option<nat> {
    match duration case Some(d) => ParseDuration(d) case None => None
  }

  function Until(now: nat, seconds: Option<nat>): Option<nat> {
    match seconds case Some(d) => Some(SatAdd(now, d, U64_MAX)) case None => None
  }

  /** The block list file, as the commands edit it. */
  class ListFile {
    var lines: seq<string>

    constructor (lines: seq<string>)
      ensures this.lines == lines
    {
      this.lines := lines;
    }

    /** `ban`: replace the network's lines by one; a bad target or duration leaves the file alone. */
    method Ban(r: Reader, target: string, duration: Option<string>, now: nat) returns (done: bool)
      modifies this
      ensures done <==> r.target(target).Some? && (duration.Some? ==> ParseDuration(duration.value).Some?)
      ensures !done ==> lines == old(lines)
      ensures done ==> lines == Banned(r, old(lines), r.target(target).value, Until(now, Seconds(duration)))
    {
      if r.target(target).None? { return false; }
      var net := r.target(target).value;
      var kept := FilterMapInto(Keeps(r, net), lines, []);
      assert [] + Without(r, lines, net) == Without(r, lines, net);
      var entry := net;
      if duration.Some? {
        var secs := ParseDuration(duration.value);
        if secs.None? { return false; }
        entry := net + " " + ("until=" + Show(SatAdd(now, secs.value, U64_MAX)));
      }
      lines := kept + [entry];
      done := true;
    }

    /** `unban`: the number of lines removed; an unknown network leaves the file as it is. */
    method Unban(r: Reader, target: string) returns (removed: Option<nat>)
      modifies this
      ensures removed.None? <==> r.target(target).None?
      ensures removed.None? ==> lines == old(lines)
      ensures removed.Some? ==> lines == Without(r, old(lines), r.target(target).value)
                                && removed.value == |old(lines)| - |lines|
    {
      if r.target(target).None? { return None; }
      var net := r.target(target).value;
      var after := FilterMapInto(Keeps(r, net), lines, []);
      assert [] + Without(r, lines, net) == Without(r, lines, net);
      FilterShrinks(Keeps(r, net), lines);
      removed := Some(|lines| - |after|);
      if removed.value > 0 { lines := after; }
    }
  }

  // ── The life of a ban ──────────────────────────────────────────────────────

  /** The file, the running list, the inline networks, the clock, and the file as it was last loaded. */
  datatype State = State(file: seq<string>, live: seq<BlockEntry>, inline: seq<string>, loaded: seq<string>, now: nat)

  datatype Step =
    | Ban(net: string, seconds: Option<nat>)
    | Unban(net: string)
    | Edit(file: seq<string>)
    | Refresh
    | FailedRefresh
    | Prune
    | Tick(elapsed: nat)

  function Start(r: Reader, inline: seq<string>, file: seq<string>, now: nat): State {
    State(file, BuildBlocks(r.entry, inline, file, now), inline, file, now)
  }

  function Next(r: Reader, s: State, step: Step): State {
    match step
    case Ban(net, seconds) => s.(file := Banned(r, s.file, net, Until(s.now, seconds)))
    case Unban(net) => s.(file := Without(r, s.file, net))
    case Edit(file) => s.(file := file)
    case Refresh => s.(live := BuildBlocks(r.entry, s.inline, s.file, s.now), loaded := s.file)
    case FailedRefresh => s
    case Prune => s.(live := Unexpired(s.live, s.now))
    case Tick(d) => s.(now := s.now + d)
  }

  function Run(r: Reader, s: State, steps: seq<Step>): State
    decreases |steps|
  {
    if steps == [] then s else Run(r, Next(r, s, steps[0]), steps[1..])
  }

  /** The list the operator states: inline networks and every entry of the file as last loaded. */
  function Stated(r: Reader, s: State): seq<BlockEntry> { Permanent(s.inline) + Entries(r.entry, s.loaded) }

  /** From now on the running list answers as the stated one. */
  ghost predicate Faithful(nets: Nets, r: Reader, s: State) {
    forall ip: Ip, t: nat :: s.now <= t ==> (Listed(nets, s.live, ip, t) <==> Listed(nets, Stated(r, s), ip, t))
  }

  lemma StepFaithful(nets: Nets, r: Reader, s: State, step: Step)
    requires Faithful(nets, r, s)
    ensures Faithful(nets, r, Next(r, s, step))
  {
    var s' := Next(r, s, step);
    forall ip: Ip, t: nat | s'.now <= t
      ensures Listed(nets, s'.live, ip, t) <==> Listed(nets, Stated(r, s'), ip, t)
    {
      match step
      case Refresh => BuiltListed(nets, r.entry, s.inline, s.file, s.now, ip, t);
      case Prune => UnexpiredListed(nets, s.live, s.now, ip, t);
      case _ =>
    }
  }

  lemma {:induction false} RunFaithful(nets: Nets, r: Reader, s: State, steps: seq<Step>)
    requires Faithful(nets, r, s)
    ensures Faithful(nets, r, Run(r, s, steps))
    decreases |steps|
  {
    if steps != [] {
      StepFaithful(nets, r, s, steps[0]);
      RunFaithful(nets, r, Next(r, s, steps[0]), steps[1..]);
    }
  }

  /**
   The life of a ban: in every run of bans, unbans, edits, refreshes, prunes and ticks,
   the running list answers for each address, now and at every later time, as the inline
   networks and all entries of the last loaded file would, with no entry ever dropped.
   */
  lemma BanLifecycle(nets: Nets, r: Reader, inline: seq<string>, file: seq<string>, now: nat, steps: seq<Step>, ip: Ip, t: nat)
    requires Run(r, Start(r, inline, file, now), steps).now <= t
    ensures var s := Run(r, Start(r, inline, file, now), steps);
            Listed(nets, s.live, ip, t) <==> Listed(nets, Permanent(s.inline) + Entries(r.entry, s.loaded), ip, t)
  {
    var s := Start(r, inline, file, now);
    forall a: Ip, u: nat | now <= u
      ensures Listed(nets, s.live, a, u) <==> Listed(nets, Stated(r, s), a, u)
    {
      BuiltListed(nets, r.entry, inline, file, now, a, u);
    }
    RunFaithful(nets, r, s, steps);
  }

  // ── What a loaded edit does, ever after ────────────────────────────────────

  /** The file keeps its lines: no ban, unban or other edit. */
  predicate FileUntouched(steps: seq<Step>) {
    forall i :: 0 <= i < |steps| ==> !steps[i].Ban? && !steps[i].Unban? && !steps[i].Edit?
  }

  /** No refresh succeeds, so nothing new is loaded; bans, unbans and edits may well happen. */
  predicate NothingLoaded(steps: seq<Step>) { forall i :: 0 <= i < |steps| ==> !steps[i].Refresh? }

  lemma {:induction false} RunAppend(r: Reader, s: State, a: seq<Step>, b: seq<Step>)
    ensures Run(r, s, a + b) == Run(r, Run(r, s, a), b)
    decreases |a|
  {
    if a == [] {
      assert a + b == b;
    } else {
      assert (a + b)[1..] == a[1..] + b;
      RunAppend(r, Next(r, s, a[0]), a[1..], b);
    }
  }

  lemma {:induction false} FileKept(r: Reader, s: State, steps: seq<Step>)
    requires FileUntouched(steps)
    ensures Run(r, s, steps).file == s.file && Run(r, s, steps).inline == s.inline && Run(r, s, steps).now >= s.now
    decreases |steps|
  {
    if steps != [] { FileKept(r, Next(r, s, steps[0]), steps[1..]); }
  }

  lemma {:induction false} LoadedKept(r: Reader, s: State, steps: seq<Step>)
    requires NothingLoaded(steps)
    ensures Run(r, s, steps).loaded == s.loaded && Run(r, s, steps).inline == s.inline
    decreases |steps|
  {
    if steps != [] { LoadedKept(r, Next(r, s, steps[0]), steps[1..]); }
  }

  lemma RefreshFaithful(nets: Nets, r: Reader, s: State)
    ensures Faithful(nets, r, Next(r, s, Refresh))
  {
    forall ip: Ip, t: nat | s.now <= t
      ensures Listed(nets, BuildBlocks(r.entry, s.inline, s.file, s.now), ip, t)
         <==> Listed(nets, Permanent(s.inline) + Entries(r.entry, s.file), ip, t)
    {
      BuiltListed(nets, r.entry, s.inline, s.file, s.now, ip, t);
    }
  }

  /** An edit, some steps that leave the file alone, a refresh, and some steps that load nothing. */
  function EditAndLoad(edit: Step, between: seq<Step>, later: seq<Step>): seq<Step> {
    [edit] + (between + ([Refresh] + later))
  }

  lemma OneStep(r: Reader, s: State, step: Step)
    ensures Run(r, s, [step]) == Next(r, s, step)
  {
    assert [step][1..] == [];
  }

  /** From the refresh on, the running list answers as the edited file says. */
  lemma EditListed(nets: Nets, r: Reader, s: State, edit: Step, between: seq<Step>, later: seq<Step>, ip: Ip, t: nat)
    requires FileUntouched(between) && NothingLoaded(later)
    requires Run(r, s, EditAndLoad(edit, between, later)).now <= t
    ensures Listed(nets, Run(r, s, EditAndLoad(edit, between, later)).live, ip, t)
       <==> Listed(nets, Permanent(s.inline) + Entries(r.entry, Next(r, s, edit).file), ip, t)
  {
    var s1 := Next(r, s, edit);
    var s2 := Run(r, s1, between);
    var s3 := Next(r, s2, Refresh);
    RunAppend(r, s, [edit], between + ([Refresh] + later));
    RunAppend(r, s1, between, [Refresh] + later);
    RunAppend(r, s2, [Refresh], later);
    OneStep(r, s, edit);
    OneStep(r, s2, Refresh);
    FileKept(r, s1, between);
    LoadedKept(r, s3, later);
    RefreshFaithful(nets, r, s2);
    RunFaithful(nets, r, s3, later);
  }

  lemma BanListed(nets: Nets, r: Reader, s: State, net: string, until: Option<nat>, ip: Ip, t: nat)
    requires Coherent(r) && r.entry(BanLine(net, until)) == Some(BlockEntry(net, until))
    ensures Listed(nets, Permanent(s.inline) + Entries(r.entry, Banned(r, s.file, net, until)), ip, t) <==>
              || Listed(nets, Permanent(s.inline) + FilterMap(Others(net), Entries(r.entry, s.file)), ip, t)
              || (nets.covers(net, ip) && (until.Some? ==> t < until.value))
  {
    BanReads(r, s.file, net, until);
    var others, ban := FilterMap(Others(net), Entries(r.entry, s.file)), BlockEntry(net, until);
    ListedAppend(nets, Permanent(s.inline) + others, [ban], ip, t);
    assert Permanent(s.inline) + (others + [ban]) == Permanent(s.inline) + others + [ban];
    ListedCons(nets, ban, [], ip, t);
    assert [ban] + [] == [ban];
  }

  /**
   A ban that has been loaded: through every later run of prunes, ticks, edits and failed
   refreshes an address is listed exactly while some other entry lists it, or while the banned
   network covers it and the ban's time is not up. No step is needed to lift it.
   */
  lemma BanTakesEffect(nets: Nets, r: Reader, s: State, net: string, seconds: Option<nat>,
                       between: seq<Step>, later: seq<Step>, ip: Ip, t: nat)
    requires ReadsBans(nets, r) && CanonicalNet(nets, net) && FileUntouched(between) && NothingLoaded(later)
    requires Run(r, s, EditAndLoad(Ban(net, seconds), between, later)).now <= t
    ensures Listed(nets, Run(r, s, EditAndLoad(Ban(net, seconds), between, later)).live, ip, t) <==>
              || Listed(nets, Permanent(s.inline) + FilterMap(Others(net), Entries(r.entry, s.file)), ip, t)
              || (nets.covers(net, ip) && (seconds.Some? ==> t < Until(s.now, seconds).value))
  {
    EditListed(nets, r, s, Ban(net, seconds), between, later, ip, t);
    BanListed(nets, r, s, net, Until(s.now, seconds), ip, t);
  }

  /** An unban that has been loaded: from then on only inline networks and other entries list an address. */
  lemma UnbanTakesEffect(nets: Nets, r: Reader, s: State, net: string, between: seq<Step>, later: seq<Step>, ip: Ip, t: nat)
    requires ReadsBans(nets, r) && FileUntouched(between) && NothingLoaded(later)
    requires Run(r, s, EditAndLoad(Unban(net), between, later)).now <= t
    ensures Listed(nets, Run(r, s, EditAndLoad(Unban(net), between, later)).live, ip, t)
       <==> Listed(nets, Permanent(s.inline) + FilterMap(Others(net), Entries(r.entry, s.file)), ip, t)
  {
    EditListed(nets, r, s, Unban(net), between, later, ip, t);
    WithoutReads(r, s.file, net);
  }
}
