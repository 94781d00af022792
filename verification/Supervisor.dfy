/**
 Hot reload: signals, refresh ticks and maintenance swap the compiled state under running
 traffic, and a broken configuration must leave the last good one in force.
 */
module Supervisor {
  import opened Text
  import opened Common
  import opened Counters
  import opened Reputation
  import Clock

  datatype Config = Config(
    signatures: string,
    rules: string,
    scoring: string,
    timezone: string,
    allowInline: seq<string>,
    allowFile: string,
    blockInline: seq<string>,
    blockFile: string
  )

  /** What the files hold at some moment: how signatures, rules and list files load. */
  datatype Disk<!S, !R> = Disk(
    signatures: string -> Option<S>,
    rules: (Config, int) -> Option<R>,
    list: string -> Option<seq<string>>
  )

  /** A client's bucket in the global rate limiter: the times it was asked, and when it has been idle for too long. */
  datatype Bucket = Bucket(checks: seq<nat>, idleAt: nat)

  type Buckets = map<Ip, Bucket>

  /** The checks a client's bucket still remembers; an idle bucket is forgotten. */
  function Remembered(buckets: Buckets, ip: Ip, now: nat): seq<nat> {
    if ip in buckets && now < buckets[ip].idleAt then buckets[ip].checks else []
  }

  function Asked(buckets: Buckets, ip: Ip, ttl: nat, now: nat): Buckets {
    buckets[ip := Bucket(Remembered(buckets, ip, now) + [now], now + Max(ttl, 1))]
  }

  /** The swappable state the pipeline shares with its supervisor. */
  datatype Live<S, R> = Live(
    signatures: S,
    rules: R,
    allow: seq<BlockEntry>,
    blocks: seq<BlockEntry>,
    counters: Cache,
    buckets: Buckets,
    config: Config,
    now: nat
  )

  /** How a list line is read. */
  type Read = string -> Option<BlockEntry>

  function ListLines<S, R>(disk: Disk<S, R>, file: string): Option<seq<string>> {
    if Trim(file) == "" then Some([]) else disk.list(file)
  }

  /** Signatures, rules and allowlist sources of one configuration. */
  datatype Parts<S, R> = Parts(signatures: S, rules: R, inline: seq<string>, lines: seq<string>)

  /** The three parts, if all of them compile. */
  function Compiled<S, R>(disk: Disk<S, R>, cfg: Config): Option<Parts<S, R>> {
    match disk.signatures(cfg.signatures)
    case None => None
    case Some(signatures) =>
      match Clock.ParseTzOffset(cfg.timezone)
      case None => None
      case Some(tz) =>
        match disk.rules(cfg, tz)
        case None => None
        case Some(rules) =>
          match ListLines(disk, cfg.allowFile)
          case None => None
          case Some(lines) => Some(Parts(signatures, rules, cfg.allowInline, lines))
  }

  function Installed<S, R>(read: Read, s: Live<S, R>, p: Parts<S, R>): Live<S, R> {
    s.(signatures := p.signatures, rules := p.rules, allow := BuildBlocks(read, p.inline, p.lines, s.now))
  }

  /** `Reloadable::apply`: all three parts, or none. */
  function Applied<S, R>(read: Read, s: Live<S, R>, disk: Disk<S, R>, cfg: Config): Live<S, R> {
    match Compiled(disk, cfg) case Some(p) => Installed(read, s, p) case None => s
  }

  /** `Reloadable::refresh_blocklist`. */
  function Refreshed<S, R>(read: Read, s: Live<S, R>, disk: Disk<S, R>, cfg: Config): Live<S, R> {
    match ListLines(disk, cfg.blockFile)
    case Some(lines) => s.(blocks := BuildBlocks(read, cfg.blockInline, lines, s.now))
    case None => s
  }

  /** Entries that have not expired. */
  function Swept(cache: Cache, now: nat): Cache { map k | k in cache && now < cache[k].expires :: cache[k] }

  function SweptBuckets(buckets: Buckets, now: nat): Buckets {
    map ip | ip in buckets && now < buckets[ip].idleAt :: buckets[ip]
  }

  /** `Reloadable::run_maintenance`. */
  function Maintained<S, R>(s: Live<S, R>): Live<S, R> {
    s.(buckets := SweptBuckets(s.buckets, s.now), counters := Swept(s.counters, s.now), blocks := Unexpired(s.blocks, s.now), allow := Unexpired(s.allow, s.now))
  }

  /** What happens to the running proxy, in the order it happens. */
  datatype Event<!S, !R> =
    | Sighup(cfg: Option<Config>, disk: Disk<S, R>)   // a configuration that cannot be read is None
    | RefreshTick(ticked: Disk<S, R>)
    | Maintenance
    | Elapse(seconds: nat)
    | Traffic(key: string, amount: nat, window: nat)  // a request bumps a counter
    | Check(ip: Ip, ttl: nat)                         // a request asks the rate limiter

  function Next<S, R>(read: Read, s: Live<S, R>, e: Event<S, R>): Live<S, R> {
    match e
    case Sighup(None, _) => s
    case Sighup(Some(cfg), disk) => Refreshed(read, Applied(read, s, disk, cfg), disk, cfg).(config := cfg)
    case RefreshTick(disk) => Refreshed(read, s, disk, s.config)
    case Maintenance => Maintained(s)
    case Elapse(d) => s.(now := s.now + d)
    case Traffic(key, amount, window) => s.(counters := Bumped(s.counters, key, amount, window, s.now))
    case Check(ip, ttl) => s.(buckets := Asked(s.buckets, ip, ttl, s.now))
  }

  function Run<S, R>(read: Read, s: Live<S, R>, es: seq<Event<S, R>>): Live<S, R> {
    if es == [] then s else Next(read, Run(read, s, es[..|es| - 1]), es[|es| - 1])
  }

  // ── The running code ───────────────────────────────────────────────────────

  /** A list file that is not named holds nothing; one that is named has to load. */
  ghost predicate Holds<S, R>(disk: Disk<S, R>, file: string, lines: seq<string>) {
    if Trim(file) == "" then lines == [] else disk.list(file) == Some(lines)
  }

  ghost predicate ListLoads<S, R>(disk: Disk<S, R>, file: string) { exists lines: seq<string> :: Holds(disk, file, lines) }

  /** A configuration is good if its signatures, its time zone, its rules in that zone and its allow file load. */
  ghost predicate Loads<S(!new), R(!new)>(disk: Disk<S, R>, cfg: Config) {
    && disk.signatures(cfg.signatures).Some?
    && Clock.ParseTzOffset(cfg.timezone).Some?
    && disk.rules(cfg, Clock.ParseTzOffset(cfg.timezone).value).Some?
    && ListLoads(disk, cfg.allowFile)
  }

  predicate LineCovers(nets: Nets, entry: Option<BlockEntry>, ip: Ip, t: nat) {
    entry.Some? && nets.covers(entry.value.net, ip) && (entry.value.until == None || t < entry.value.until.value)
  }

  /** An address is covered by an inline network for good, and by an entry of a line until the entry runs out. */
  ghost predicate Covers(nets: Nets, read: Read, inline: seq<string>, lines: seq<string>, ip: Ip, t: nat) {
    || (exists net :: net in inline && nets.covers(net, ip))
    || (exists line :: line in lines && LineCovers(nets, read(line), ip, t))
  }

  /** From `now` on a list answers as the inline networks and the file do. */
  ghost predicate Answers<S(!new), R(!new)>(nets: Nets, read: Read, list: seq<BlockEntry>, disk: Disk<S, R>,
                                            inline: seq<string>, file: string, now: nat) {
    forall lines: seq<string>, ip: Ip, t: nat :: Holds(disk, file, lines) && now <= t ==>
      (Listed(nets, list, ip, t) <==> Covers(nets, read, inline, lines, ip, t))
  }

  /** Signatures, rules and allowlist are what the disk holds for this configuration. */
  ghost predicate InForce<S(!new), R(!new)>(nets: Nets, read: Read, s: Live<S, R>, disk: Disk<S, R>, cfg: Config) {
    && Loads(disk, cfg)
    && s.signatures == disk.signatures(cfg.signatures).value
    && s.rules == disk.rules(cfg, Clock.ParseTzOffset(cfg.timezone).value).value
    && Answers(nets, read, s.allow, disk, cfg.allowInline, cfg.allowFile, s.now)
  }

  ghost predicate BlocksInForce<S(!new), R(!new)>(nets: Nets, read: Read, s: Live<S, R>, disk: Disk<S, R>, cfg: Config) {
    Answers(nets, read, s.blocks, disk, cfg.blockInline, cfg.blockFile, s.now)
  }

  lemma LinesListed(nets: Nets, read: Read, lines: seq<string>, ip: Ip, t: nat)
    ensures Listed(nets, Entries(read, lines), ip, t) <==> exists line :: line in lines && LineCovers(nets, read(line), ip, t)
  {
    var entries := Entries(read, lines);
    if Listed(nets, entries, ip, t) {
      var i :| 0 <= i < |entries| && Reputation.Matches(nets, entries[i], ip, t);
      FilterMapMember(read, lines, entries[i]);
      var k :| 0 <= k < |lines| && read(lines[k]) == Some(entries[i]);
      assert lines[k] in lines && LineCovers(nets, read(lines[k]), ip, t);
    }
    forall line | line in lines && LineCovers(nets, read(line), ip, t) ensures Listed(nets, entries, ip, t) {
      var k :| 0 <= k < |lines| && lines[k] == line;
      FilterMapMember(read, lines, read(line).value);
      var i :| 0 <= i < |entries| && entries[i] == read(line).value;
      assert Reputation.Matches(nets, entries[i], ip, t);
    }
  }

  lemma InlineListed(nets: Nets, inline: seq<string>, ip: Ip, t: nat)
    ensures Listed(nets, Permanent(inline), ip, t) <==> exists net :: net in inline && nets.covers(net, ip)
  {
    var list := Permanent(inline);
    if Listed(nets, list, ip, t) {
      var i :| 0 <= i < |list| && Reputation.Matches(nets, list[i], ip, t);
      assert inline[i] in inline && nets.covers(inline[i], ip);
    }
    if net :| net in inline && nets.covers(net, ip) {
      var i :| 0 <= i < |inline| && inline[i] == net;
      assert Reputation.Matches(nets, list[i], ip, t);
    }
  }

  lemma BuiltCovers(nets: Nets, read: Read, inline: seq<string>, lines: seq<string>, now: nat, ip: Ip, t: nat)
    requires now <= t
    ensures Listed(nets, BuildBlocks(read, inline, lines, now), ip, t) <==> Covers(nets, read, inline, lines, ip, t)
  {
    BuiltListed(nets, read, inline, lines, now, ip, t);
    ListedAppend(nets, Permanent(inline), Entries(read, lines), ip, t);
    InlineListed(nets, inline, ip, t);
    LinesListed(nets, read, lines, ip, t);
  }

  lemma BuiltAnswers<S(!new), R(!new)>(nets: Nets, read: Read, disk: Disk<S, R>, inline: seq<string>, file: string, now: nat)
    requires ListLines(disk, file).Some?
    ensures Answers(nets, read, BuildBlocks(read, inline, ListLines(disk, file).value, now), disk, inline, file, now)
  {
    var list := BuildBlocks(read, inline, ListLines(disk, file).value, now);
    forall lines: seq<string>, ip: Ip, t: nat | Holds(disk, file, lines) && now <= t
      ensures Listed(nets, list, ip, t) <==> Covers(nets, read, inline, lines, ip, t)
    {
      BuiltCovers(nets, read, inline, lines, now, ip, t);
    }
  }

  lemma LinesHeld<S, R>(disk: Disk<S, R>, file: string)
    ensures ListLines(disk, file).Some? <==> ListLoads(disk, file)
  {
    if ListLines(disk, file).Some? { assert Holds(disk, file, ListLines(disk, file).value); }
  }

  lemma CompiledLoads<S(!new), R(!new)>(disk: Disk<S, R>, cfg: Config)
    ensures Compiled(disk, cfg).Some? <==> Loads(disk, cfg)
  {
    LinesHeld(disk, cfg.allowFile);
  }

  /** A good configuration is taken over whole; any other changes nothing. */
  lemma AppliedMeans<S(!new), R(!new)>(nets: Nets, read: Read, s: Live<S, R>, disk: Disk<S, R>, cfg: Config)
    ensures Loads(disk, cfg) ==> InForce(nets, read, Applied(read, s, disk, cfg), disk, cfg)
    ensures !Loads(disk, cfg) ==> Applied(read, s, disk, cfg) == s
  {
    LinesHeld(disk, cfg.allowFile);
    CompiledLoads(disk, cfg);
    if Loads(disk, cfg) { BuiltAnswers(nets, read, disk, cfg.allowInline, cfg.allowFile, s.now); }
  }

  lemma RefreshedMeans<S(!new), R(!new)>(nets: Nets, read: Read, s: Live<S, R>, disk: Disk<S, R>, cfg: Config)
    ensures ListLoads(disk, cfg.blockFile) ==> BlocksInForce(nets, read, Refreshed(read, s, disk, cfg), disk, cfg)
    ensures !ListLoads(disk, cfg.blockFile) ==> Refreshed(read, s, disk, cfg) == s
  {
    LinesHeld(disk, cfg.blockFile);
    if ListLoads(disk, cfg.blockFile) { BuiltAnswers(nets, read, disk, cfg.blockInline, cfg.blockFile, s.now); }
  }

  class Reloadable<S(!new), R(!new)> {
    var signatures: S
    var rules: R
    var allow: seq<BlockEntry>
    var blocks: seq<BlockEntry>
    var counters: Cache
    var buckets: Buckets
    var config: Config
    var now: nat

    function View(): Live<S, R>
      reads this
    {
      Live(signatures, rules, allow, blocks, counters, buckets, config, now)
    }

    constructor (s: Live<S, R>)
      ensures View() == s
    {
      signatures, rules, allow, blocks := s.signatures, s.rules, s.allow, s.blocks;
      counters, buckets, config, now := s.counters, s.buckets, s.config, s.now;
    }

    /** Compile every part before swapping any. */
    method Apply(read: Read, disk: Disk<S, R>, cfg: Config) returns (ok: bool)
      modifies this
      ensures View() == Applied(read, old(View()), disk, cfg)
      ensures ok <==> Loads(disk, cfg)
      ensures ok ==> forall nets: Nets :: InForce(nets, read, View(), disk, cfg)
      ensures !ok ==> View() == old(View())
    {
      ghost var was := View();
      CompiledLoads(disk, cfg);
      forall nets: Nets
        ensures Loads(disk, cfg) ==> InForce(nets, read, Applied(read, was, disk, cfg), disk, cfg)
      {
        AppliedMeans(nets, read, was, disk, cfg);
      }
      var newSignatures := disk.signatures(cfg.signatures);
      if newSignatures.None? { return false; }
      var tz := Clock.ParseTzOffset(cfg.timezone);
      if tz.None? { return false; }
      var newRules := disk.rules(cfg, tz.value);
      if newRules.None? { return false; }
      var lines := ListLines(disk, cfg.allowFile);
      if lines.None? { return false; }
      signatures := newSignatures.value;
      rules := newRules.value;
      allow := BuildBlocks(read, cfg.allowInline, lines.value, now);
      ok := true;
    }

    method RefreshBlocklist(read: Read, disk: Disk<S, R>, cfg: Config) returns (ok: bool)
      modifies this
      ensures View() == Refreshed(read, old(View()), disk, cfg)
      ensures ok <==> ListLoads(disk, cfg.blockFile)
      ensures ok ==> forall nets: Nets :: BlocksInForce(nets, read, View(), disk, cfg)
      ensures !ok ==> View() == old(View())
    {
      ghost var was := View();
      LinesHeld(disk, cfg.blockFile);
      forall nets: Nets
        ensures ListLoads(disk, cfg.blockFile) ==> BlocksInForce(nets, read, Refreshed(read, was, disk, cfg), disk, cfg)
      {
        RefreshedMeans(nets, read, was, disk, cfg);
      }
      var lines := ListLines(disk, cfg.blockFile);
      if lines.None? { return false; }
      blocks := BuildBlocks(read, cfg.blockInline, lines.value, now);
      ok := true;
    }

    method RunMaintenance()
      modifies this
      ensures View() == Maintained(old(View()))
      ensures DropsExpired(blocks, old(blocks), now) && DropsExpired(allow, old(allow), now)
      ensures forall key: string :: key in counters <==> key in old(counters) && now < old(counters)[key].expires
      ensures forall ip: Ip :: ip in buckets <==> ip in old(buckets) && now < old(buckets)[ip].idleAt
      ensures forall key :: key in counters ==> counters[key] == old(counters)[key]
      ensures forall ip :: ip in buckets ==> buckets[ip] == old(buckets)[ip]
    {
      UnexpiredIs(blocks, now);
      UnexpiredIs(allow, now);
      buckets := SweptBuckets(buckets, now);
      counters := Swept(counters, now);
      blocks := Unexpired(blocks, now);
      allow := Unexpired(allow, now);
    }

    /** `supervise`: the event loop. */
    method Supervise(read: Read, es: seq<Event<S, R>>)
      modifies this
      ensures View() == Run(read, old(View()), es)
    {
      for i := 0 to |es|
        invariant View() == Run(read, old(View()), es[..i])
      {
        assert es[..i + 1][..i] == es[..i];
        match es[i]
        case Sighup(None, _) =>
        case Sighup(Some(cfg), disk) =>
          var applied := Apply(read, disk, cfg);
          var refreshed := RefreshBlocklist(read, disk, cfg);
          config := cfg;
        case RefreshTick(disk) =>
          var refreshed := RefreshBlocklist(read, disk, config);
        case Maintenance => RunMaintenance();
        case Elapse(d) => now := now + d;
        case Traffic(key, amount, window) => counters := Bumped(counters, key, amount, window, now);
        case Check(ip, ttl) => buckets := Asked(buckets, ip, ttl, now);
      }
      assert es[..|es|] == es;
    }
  }

  // ── What must be in force, told from the configurations and the files alone ──

  /** Two lists that no request can tell apart from `now` on. */
  ghost predicate SameList(nets: Nets, a: seq<BlockEntry>, b: seq<BlockEntry>, now: nat) {
    forall ip: Ip, t: nat :: now <= t ==> (Listed(nets, a, ip, t) <==> Listed(nets, b, ip, t))
  }

  lemma PrunedSame(nets: Nets, list: seq<BlockEntry>, now: nat)
    ensures SameList(nets, Unexpired(list, now), list, now)
  {
    forall ip: Ip, t: nat | now <= t ensures Listed(nets, Unexpired(list, now), ip, t) <==> Listed(nets, list, ip, t) {
      UnexpiredListed(nets, list, now, ip, t);
    }
  }

  lemma SameAnswers<S(!new), R(!new)>(nets: Nets, read: Read, a: seq<BlockEntry>, b: seq<BlockEntry>, disk: Disk<S, R>,
                                      inline: seq<string>, file: string, now: nat, later: nat)
    requires now <= later && SameList(nets, b, a, later) && Answers(nets, read, a, disk, inline, file, now)
    ensures Answers(nets, read, b, disk, inline, file, later)
  {
  }

  // ── The history ────────────────────────────────────────────────────────────

  predicate ReadAt<S, R>(es: seq<Event<S, R>>, k: nat) { k < |es| && es[k].Sighup? && es[k].cfg.Some? }

  ghost predicate GoodAt<S(!new), R(!new)>(es: seq<Event<S, R>>, k: nat) { ReadAt(es, k) && Loads(es[k].disk, es[k].cfg.value) }

  /** The stored configuration: the last one that could be read at all. */
  ghost predicate Stored<S(!new), R(!new)>(first: Config, es: seq<Event<S, R>>, cfg: Config) {
    || (cfg == first && forall k: nat :: !ReadAt(es, k))
    || (exists k: nat :: ReadAt(es, k) && es[k].cfg == Some(cfg) && forall j :: k < j < |es| ==> !ReadAt(es, j))
  }

  /** A refresh of the block list, by signal or by timer, that loads. */
  ghost predicate RefreshAt<S(!new), R(!new)>(first: Config, es: seq<Event<S, R>>, k: nat, disk: Disk<S, R>, cfg: Config) {
    && k < |es|
    && (es[k] == Sighup(Some(cfg), disk) || (es[k] == RefreshTick(disk) && Stored(first, es[..k], cfg)))
    && ListLoads(disk, cfg.blockFile)
  }

  ghost predicate LastGood<S(!new), R(!new)>(es: seq<Event<S, R>>, k: nat) {
    GoodAt(es, k) && forall j :: k < j < |es| ==> !GoodAt(es, j)
  }

  ghost predicate NeverGood<S(!new), R(!new)>(es: seq<Event<S, R>>) { forall k: nat :: !GoodAt(es, k) }

  ghost predicate NoRefreshAt<S(!new), R(!new)>(first: Config, es: seq<Event<S, R>>, k: nat) {
    forall disk: Disk<S, R>, cfg: Config :: !RefreshAt(first, es, k, disk, cfg)
  }

  ghost predicate NeverRefreshed<S(!new), R(!new)>(first: Config, es: seq<Event<S, R>>) {
    forall k: nat :: NoRefreshAt(first, es, k)
  }

  ghost predicate LastRefresh<S(!new), R(!new)>(first: Config, es: seq<Event<S, R>>, k: nat, disk: Disk<S, R>, cfg: Config) {
    && RefreshAt(first, es, k, disk, cfg)
    && forall j :: k < j < |es| ==> NoRefreshAt(first, es, j)
  }

  lemma {:induction false} StoredIs<S(!new), R(!new)>(read: Read, s: Live<S, R>, es: seq<Event<S, R>>, cfg: Config)
    ensures Stored(s.config, es, cfg) <==> cfg == Run(read, s, es).config
  {
    if es != [] {
      var n := |es| - 1;
      StoredIs(read, s, es[..n], cfg);
      assert forall k: nat :: k < n ==> (ReadAt(es, k) <==> ReadAt(es[..n], k));
      if ReadAt(es, n) {
        assert Run(read, s, es).config == es[n].cfg.value;
      } else {
        assert Run(read, s, es).config == Run(read, s, es[..n]).config;
        if k: nat :| ReadAt(es[..n], k) && es[..n][k].cfg == Some(cfg) && forall j :: k < j < n ==> !ReadAt(es[..n], j) {
          assert ReadAt(es, k) && es[k].cfg == Some(cfg);
        }
      }
    }
  }

  /** One event: what it takes over, and what it leaves as it was. */
  lemma EventSafe<S(!new), R(!new)>(nets: Nets, read: Read, s: Live<S, R>, e: Event<S, R>)
    ensures s.now <= Next(read, s, e).now
    ensures if e.Sighup? && e.cfg.Some? && Loads(e.disk, e.cfg.value)
            then InForce(nets, read, Next(read, s, e), e.disk, e.cfg.value)
            else && Next(read, s, e).signatures == s.signatures && Next(read, s, e).rules == s.rules
                 && SameList(nets, Next(read, s, e).allow, s.allow, Next(read, s, e).now)
  {
    if e.Sighup? && e.cfg.Some? { AppliedMeans(nets, read, s, e.disk, e.cfg.value); }
    if e.Maintenance? { PrunedSame(nets, s.allow, s.now); }
  }

  /** The refresh an event makes. */
  predicate Refreshes<S, R>(e: Event<S, R>) { (e.Sighup? && e.cfg.Some?) || e.RefreshTick? }

  function RefreshDisk<S, R>(e: Event<S, R>): Disk<S, R>
    requires Refreshes(e)
  {
    if e.Sighup? then e.disk else e.ticked
  }

  function RefreshConfig<S, R>(e: Event<S, R>, stored: Config): Config
    requires Refreshes(e)
  {
    if e.Sighup? then e.cfg.value else stored
  }

  lemma EventRefreshes<S(!new), R(!new)>(nets: Nets, read: Read, s: Live<S, R>, e: Event<S, R>)
    ensures s.now <= Next(read, s, e).now
    ensures if Refreshes(e) && ListLoads(RefreshDisk(e), RefreshConfig(e, s.config).blockFile)
            then BlocksInForce(nets, read, Next(read, s, e), RefreshDisk(e), RefreshConfig(e, s.config))
            else SameList(nets, Next(read, s, e).blocks, s.blocks, Next(read, s, e).now)
  {
    match e
    case Sighup(Some(cfg), disk) => RefreshedMeans(nets, read, Applied(read, s, disk, cfg), disk, cfg);
    case RefreshTick(disk) => RefreshedMeans(nets, read, s, disk, s.config);
    case Maintenance => PrunedSame(nets, s.blocks, s.now);
    case _ =>
  }

  lemma LastGoodBefore<S(!new), R(!new)>(es: seq<Event<S, R>>, k: nat)
    requires k < |es| - 1 && LastGood(es, k)
    ensures LastGood(es[..|es| - 1], k) && es[..|es| - 1][k] == es[k] && !GoodAt(es, |es| - 1)
  {
    var before := es[..|es| - 1];
    assert GoodAt(before, k);
    forall j | k < j < |before| ensures !GoodAt(before, j) {
      assert !GoodAt(es, j);
    }
  }

  lemma NeverGoodBefore<S(!new), R(!new)>(es: seq<Event<S, R>>)
    requires es != [] && NeverGood(es)
    ensures NeverGood(es[..|es| - 1]) && !GoodAt(es, |es| - 1)
  {
    var before := es[..|es| - 1];
    forall k: nat ensures !GoodAt(before, k) {
      assert !GoodAt(es, k);
    }
  }

  /** What one event does to whatever is in force. */
  lemma ForceAfter<S(!new), R(!new)>(nets: Nets, read: Read, s: Live<S, R>, e: Event<S, R>, disk: Disk<S, R>, cfg: Config)
    requires InForce(nets, read, s, disk, cfg)
    requires !(e.Sighup? && e.cfg.Some? && Loads(e.disk, e.cfg.value))
    ensures InForce(nets, read, Next(read, s, e), disk, cfg)
  {
    EventSafe(nets, read, s, e);
    SameAnswers(nets, read, s.allow, Next(read, s, e).allow, disk, cfg.allowInline, cfg.allowFile, s.now, Next(read, s, e).now);
  }

  /**
   Reload safety: after every run of good and broken signals, refreshes, maintenance, time and
   traffic, the signatures, rules and allowlist are those of the last configuration that
   loaded whole, read off that configuration and its files.
   */
  lemma {:induction false} ReloadSafety<S(!new), R(!new)>(nets: Nets, read: Read, s: Live<S, R>, es: seq<Event<S, R>>, k: nat)
    requires LastGood(es, k)
    ensures InForce(nets, read, Run(read, s, es), es[k].disk, es[k].cfg.value)
  {
    var n := |es| - 1;
    if k < n {
      LastGoodBefore(es, k);
      ReloadSafety(nets, read, s, es[..n], k);
      ForceAfter(nets, read, Run(read, s, es[..n]), es[n], es[k].disk, es[k].cfg.value);
    } else {
      EventSafe(nets, read, Run(read, s, es[..n]), es[n]);
    }
  }

  /** Signals that bring no good configuration change nothing that a request can see. */
  lemma {:induction false} ReloadKept<S(!new), R(!new)>(nets: Nets, read: Read, s: Live<S, R>, es: seq<Event<S, R>>)
    requires NeverGood(es)
    ensures s.now <= Run(read, s, es).now
    ensures Run(read, s, es).signatures == s.signatures && Run(read, s, es).rules == s.rules
    ensures SameList(nets, Run(read, s, es).allow, s.allow, Run(read, s, es).now)
  {
    if es != [] {
      var n := |es| - 1;
      NeverGoodBefore(es);
      ReloadKept(nets, read, s, es[..n]);
      EventSafe(nets, read, Run(read, s, es[..n]), es[n]);
    }
  }

  lemma RefreshAtEnd<S(!new), R(!new)>(read: Read, s: Live<S, R>, es: seq<Event<S, R>>, disk: Disk<S, R>, cfg: Config)
    requires es != []
    ensures var e, stored := es[|es| - 1], Run(read, s, es[..|es| - 1]).config;
            RefreshAt(s.config, es, |es| - 1, disk, cfg) <==> (Refreshes(e) && disk == RefreshDisk(e) && cfg == RefreshConfig(e, stored) && ListLoads(disk, cfg.blockFile))
  {
    StoredIs(read, s, es[..|es| - 1], cfg);
  }

  lemma RefreshBefore<S(!new), R(!new)>(first: Config, es: seq<Event<S, R>>, n: nat, k: nat, disk: Disk<S, R>, cfg: Config)
    requires k < n <= |es|
    ensures RefreshAt(first, es, k, disk, cfg) <==> RefreshAt(first, es[..n], k, disk, cfg)
  {
    assert es[..n][..k] == es[..k];
  }

  lemma NoRefreshBefore<S(!new), R(!new)>(first: Config, es: seq<Event<S, R>>, n: nat, k: nat)
    requires k < n <= |es| && NoRefreshAt(first, es, k)
    ensures NoRefreshAt(first, es[..n], k)
  {
    forall disk: Disk<S, R>, cfg: Config ensures !RefreshAt(first, es[..n], k, disk, cfg) {
      RefreshBefore(first, es, n, k, disk, cfg);
    }
  }

  lemma LastRefreshBefore<S(!new), R(!new)>(first: Config, es: seq<Event<S, R>>, k: nat, disk: Disk<S, R>, cfg: Config)
    requires k < |es| - 1 && LastRefresh(first, es, k, disk, cfg)
    ensures LastRefresh(first, es[..|es| - 1], k, disk, cfg)
  {
    var n := |es| - 1;
    RefreshBefore(first, es, n, k, disk, cfg);
    forall j | k < j < n ensures NoRefreshAt(first, es[..n], j) {
      NoRefreshBefore(first, es, n, j);
    }
  }

  lemma NeverRefreshedBefore<S(!new), R(!new)>(first: Config, es: seq<Event<S, R>>)
    requires es != [] && NeverRefreshed(first, es)
    ensures NeverRefreshed(first, es[..|es| - 1])
  {
    var n := |es| - 1;
    forall k: nat ensures NoRefreshAt(first, es[..n], k) {
      if k < n { NoRefreshBefore(first, es, n, k); }
    }
  }

  /** The last event refreshes nothing, so the list answers as before it. */
  lemma QuietEnd<S(!new), R(!new)>(nets: Nets, read: Read, s: Live<S, R>, es: seq<Event<S, R>>)
    requires es != [] && NoRefreshAt(s.config, es, |es| - 1)
    ensures Run(read, s, es[..|es| - 1]).now <= Run(read, s, es).now
    ensures SameList(nets, Run(read, s, es).blocks, Run(read, s, es[..|es| - 1]).blocks, Run(read, s, es).now)
  {
    var s', e := Run(read, s, es[..|es| - 1]), es[|es| - 1];
    EventRefreshes(nets, read, s', e);
    if Refreshes(e) { RefreshAtEnd(read, s, es, RefreshDisk(e), RefreshConfig(e, s'.config)); }
  }

  /** The last event refreshes the list. */
  lemma RefreshEnd<S(!new), R(!new)>(nets: Nets, read: Read, s: Live<S, R>, es: seq<Event<S, R>>, disk: Disk<S, R>, cfg: Config)
    requires es != [] && RefreshAt(s.config, es, |es| - 1, disk, cfg)
    ensures BlocksInForce(nets, read, Run(read, s, es), disk, cfg)
  {
    RefreshAtEnd(read, s, es, disk, cfg);
    EventRefreshes(nets, read, Run(read, s, es[..|es| - 1]), es[|es| - 1]);
  }

  /**
   The block list is that of the last refresh that loaded: inline networks and file of the
   configuration a signal brought, or of the stored one when the timer made the refresh.
   */
  lemma {:induction false} BlocksSafety<S(!new), R(!new)>(nets: Nets, read: Read, s: Live<S, R>, es: seq<Event<S, R>>,
                                                          k: nat, disk: Disk<S, R>, cfg: Config)
    requires LastRefresh(s.config, es, k, disk, cfg)
    ensures BlocksInForce(nets, read, Run(read, s, es), disk, cfg)
  {
    var n := |es| - 1;
    if k < n {
      LastRefreshBefore(s.config, es, k, disk, cfg);
      BlocksSafety(nets, read, s, es[..n], k, disk, cfg);
      QuietEnd(nets, read, s, es);
      SameAnswers(nets, read, Run(read, s, es[..n]).blocks, Run(read, s, es).blocks, disk, cfg.blockInline, cfg.blockFile,
                  Run(read, s, es[..n]).now, Run(read, s, es).now);
    } else {
      RefreshEnd(nets, read, s, es, disk, cfg);
    }
  }

  /** Refreshes that do not load leave the block list as it answered. */
  lemma {:induction false} BlocksKept<S(!new), R(!new)>(nets: Nets, read: Read, s: Live<S, R>, es: seq<Event<S, R>>)
    requires NeverRefreshed(s.config, es)
    ensures s.now <= Run(read, s, es).now
    ensures SameList(nets, Run(read, s, es).blocks, s.blocks, Run(read, s, es).now)
  {
    if es != [] {
      NeverRefreshedBefore(s.config, es);
      BlocksKept(nets, read, s, es[..|es| - 1]);
      QuietEnd(nets, read, s, es);
    }
  }

  // ── Counters and buckets survive ───────────────────────────────────────────

  /** What requests and time do, as against what the supervisor does. */
  predicate FromTraffic<S, R>(e: Event<S, R>) { e.Elapse? || e.Traffic? || e.Check? }

  function WithoutSupervisor<S, R>(es: seq<Event<S, R>>): seq<Event<S, R>> {
    if es == [] then []
    else
      var last := es[|es| - 1];
      WithoutSupervisor(es[..|es| - 1]) + (if FromTraffic(last) then [last] else [])
  }

  /** Two stores of counters that no request can tell apart from `now` on. */
  ghost predicate SameCounters(a: Cache, b: Cache, now: nat) {
    forall key: string, t: nat :: now <= t ==> Lookup(a, key, t) == Lookup(b, key, t)
  }

  ghost predicate SameBuckets(a: Buckets, b: Buckets, now: nat) {
    forall ip: Ip, t: nat :: now <= t ==> Remembered(a, ip, t) == Remembered(b, ip, t)
  }

  /** The same clock, counters and buckets, as far as any request can see. */
  ghost predicate SameTraffic<S(!new), R(!new)>(a: Live<S, R>, b: Live<S, R>) {
    a.now == b.now && SameCounters(a.counters, b.counters, a.now) && SameBuckets(a.buckets, b.buckets, a.now)
  }

  lemma BumpedSame(a: Cache, b: Cache, key: string, amount: nat, window: nat, now: nat)
    requires SameCounters(a, b, now)
    ensures SameCounters(Bumped(a, key, amount, window, now), Bumped(b, key, amount, window, now), now)
  {
    var a', b' := Bumped(a, key, amount, window, now), Bumped(b, key, amount, window, now);
    assert Lookup(a, key, now) == Lookup(b, key, now);
    forall k: string, t: nat | now <= t ensures Lookup(a', k, t) == Lookup(b', k, t) {
      if k != key { assert Lookup(a, k, t) == Lookup(b, k, t); }
    }
  }

  lemma AskedSame(a: Buckets, b: Buckets, ip: Ip, ttl: nat, now: nat)
    requires SameBuckets(a, b, now)
    ensures SameBuckets(Asked(a, ip, ttl, now), Asked(b, ip, ttl, now), now)
  {
    var a', b' := Asked(a, ip, ttl, now), Asked(b, ip, ttl, now);
    assert Remembered(a, ip, now) == Remembered(b, ip, now);
    forall i: Ip, t: nat | now <= t ensures Remembered(a', i, t) == Remembered(b', i, t) {
      if i != ip { assert Remembered(a, i, t) == Remembered(b, i, t); }
    }
  }

  lemma SweptSame(a: Cache, b: Buckets, now: nat)
    ensures SameCounters(Swept(a, now), a, now) && SameBuckets(SweptBuckets(b, now), b, now)
  {
  }

  /** What the supervisor does on its own is not visible in a counter or a global bucket. */
  lemma SupervisorInvisible<S(!new), R(!new)>(read: Read, s: Live<S, R>, e: Event<S, R>)
    requires !FromTraffic(e)
    ensures SameTraffic(Next(read, s, e), s)
  {
    SweptSame(s.counters, s.buckets, s.now);
  }

  /** Traffic and time treat two states alike that look alike. */
  lemma TrafficSame<S(!new), R(!new)>(read: Read, a: Live<S, R>, b: Live<S, R>, e: Event<S, R>)
    requires FromTraffic(e) && SameTraffic(a, b)
    ensures SameTraffic(Next(read, a, e), Next(read, b, e))
  {
    match e
    case Elapse(_) =>
    case Traffic(key, amount, window) => BumpedSame(a.counters, b.counters, key, amount, window, a.now);
    case Check(ip, ttl) => AskedSame(a.buckets, b.buckets, ip, ttl, a.now);
  }

  lemma SameTransitive<S(!new), R(!new)>(a: Live<S, R>, b: Live<S, R>, c: Live<S, R>)
    requires SameTraffic(a, b) && SameTraffic(b, c)
    ensures SameTraffic(a, c)
  {
    forall key: string, t: nat | a.now <= t ensures Lookup(a.counters, key, t) == Lookup(c.counters, key, t) {
      assert Lookup(a.counters, key, t) == Lookup(b.counters, key, t);
    }
    forall ip: Ip, t: nat | a.now <= t ensures Remembered(a.buckets, ip, t) == Remembered(c.buckets, ip, t) {
      assert Remembered(a.buckets, ip, t) == Remembered(b.buckets, ip, t);
    }
  }

  lemma RunStep<S, R>(read: Read, s: Live<S, R>, es: seq<Event<S, R>>, e: Event<S, R>)
    ensures Run(read, s, es + [e]) == Next(read, Run(read, s, es), e)
  {
    assert (es + [e])[..|es|] == es;
  }

  /**
   No reload, refresh or maintenance is ever visible in a counter or in a bucket of the global
   rate limiter. The limiters of `rate_limit` rules belong to the rules and are reloaded with them.
   */
  lemma {:induction false} CountersSurvive<S(!new), R(!new)>(read: Read, s: Live<S, R>, es: seq<Event<S, R>>)
    ensures SameTraffic(Run(read, s, es), Run(read, s, WithoutSupervisor(es)))
  {
    if es != [] {
      var before, last := es[..|es| - 1], es[|es| - 1];
      var kept := WithoutSupervisor(before);
      CountersSurvive(read, s, before);
      if FromTraffic(last) {
        TrafficSame(read, Run(read, s, before), Run(read, s, kept), last);
        RunStep(read, s, kept, last);
      } else {
        SupervisorInvisible(read, Run(read, s, before), last);
        SameTransitive(Run(read, s, es), Run(read, s, before), Run(read, s, kept));
        assert kept + [] == kept;
      }
    }
  }
}
