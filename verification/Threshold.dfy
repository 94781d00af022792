/** Counting rules over whole runs: an `incr` rule feeding a `counter > N` block rule. */
module Threshold {
  import opened Text
  import opened Common
  import opened Counters
  import opened Rules
  import opened Engine
  import opened Isolation

  /** Counting matching requests in `c` by `amount`, with a window, and blocking on `c > limit`. */
  datatype Setup = Setup(c: string, amount: nat, window: nat, limit: int)

  /** Rule `i` of the file counts and a later rule `j` compares. */
  predicate Installed(x: Setup, rs: RuleSet, i: nat, j: nat) {
    && i < j < |rs.rules|
    && rs.rules[i].action == Incr(x.c, x.amount, x.window)
    && rs.rules[j].action.Block?
    && rs.rules[j].conds == [Cond(Counter(x.c), Gt(x.limit), false, [])]
  }

  /** A rule that neither decides nor touches `c`. */
  predicate Bystander(r: Rule, c: string) {
    r.action.Log? || r.action.Score? || (r.action.Incr? && r.action.counter != c)
  }

  /** Whatever the counters are, the rule does not match. */
  ghost predicate NeverHolds(o: Oracle, r: Rule, s: Subject) { forall cache :: !RuleHolds(o, r, s, cache) }

  ghost predicate AlwaysHolds(o: Oracle, r: Rule, s: Subject) { forall cache :: RuleHolds(o, r, s, cache) }

  ghost predicate Harmless(o: Oracle, x: Setup, r: Rule, s: Subject) { Bystander(r, x.c) || NeverHolds(o, r, s) }

  /** Scoring is off, or the request never collects enough points. */
  ghost predicate BelowScore(o: Oracle, rs: RuleSet, s: Subject) {
    forall st :: rs.threshold == 0 || TrueScore(o, rs.rules, |rs.rules|, s, st) < rs.threshold
  }

  /** Rule `i` counts the request, rule `j` compares, and no other rule has a say. */
  ghost predicate CountedBy(o: Oracle, x: Setup, rs: RuleSet, i: nat, j: nat, s: Subject) {
    && s.Req? && Installed(x, rs, i, j) && AlwaysHolds(o, rs.rules[i], s) && BelowScore(o, rs, s)
    && (forall k :: 0 <= k < |rs.rules| && k != i && k != j ==> Harmless(o, x, rs.rules[k], s))
  }

  /** A request that the file counts. */
  ghost predicate Counted(o: Oracle, x: Setup, rs: RuleSet, s: Subject) {
    exists i: nat, j: nat :: CountedBy(o, x, rs, i, j, s)
  }

  function PhaseOf(rs: RuleSet, s: Subject): seq<Rule> { if s.Req? then rs.rules else rs.responseRules }

  predicate Touches(r: Rule, c: string) { r.action.Incr? && r.action.counter == c }

  /** A request or reply that no rule on `c` matches, whatever else the rules decide on it. */
  ghost predicate LeavesAlone(o: Oracle, x: Setup, rs: RuleSet, s: Subject) {
    var rules := PhaseOf(rs, s);
    forall k :: 0 <= k < |rules| && Touches(rules[k], x.c) ==> NeverHolds(o, rules[k], s)
  }

  /** The counting and the comparing of one evaluation happen on this entry. */
  function Slot(x: Setup, s: Subject): string { Key(x.c, Client(s)) }

  function NewCount(x: Setup, s: Subject, st: Store): nat {
    SatAdd(Lookup(st.cache, Slot(x, s), s.at.mono), x.amount, U64_MAX)
  }

  /** The comparison parses the counter as a signed 64-bit number, so a larger count does not compare at all. */
  predicate Over(x: Setup, count: nat) { x.limit < count <= I64_MAX }

  // ── One evaluation ─────────────────────────────────────────────────────────

  /** A rule on other counters, or one that does not match, keeps the client's entry. */
  lemma HarmlessStep(o: Oracle, x: Setup, r: Rule, s: Subject, prev: Store)
    requires !Touches(r, x.c) || NeverHolds(o, r, s)
    ensures SameEntry(StepOf(o, r, s, prev).cache, prev.cache, Slot(x, s))
  {
    if r.action.Incr? { KeyInjective(r.action.counter, Client(s), x.c, Client(s)); }
    if Touches(r, x.c) { assert !RuleHolds(o, r, s, prev.cache); }
  }

  lemma CountingStep(o: Oracle, x: Setup, r: Rule, s: Subject, prev: Store, st: Store)
    requires r.action == Incr(x.c, x.amount, x.window) && AlwaysHolds(o, r, s) && SameEntry(prev.cache, st.cache, Slot(x, s))
    ensures var cache := StepOf(o, r, s, prev).cache;
            Slot(x, s) in cache && cache[Slot(x, s)] == Entry(NewCount(x, s, st), s.at.mono + Ttl(x.window))
  {
    assert RuleHolds(o, r, s, prev.cache);
  }

  lemma {:induction false} EntryDuring(o: Oracle, x: Setup, rs: RuleSet, i: nat, j: nat, k: nat, s: Subject, st: Store)
    requires CountedBy(o, x, rs, i, j, s) && k <= |rs.rules|
    ensures var cache := After(o, rs.rules, k, s, st).cache;
            if k <= i then SameEntry(cache, st.cache, Slot(x, s))
            else Slot(x, s) in cache && cache[Slot(x, s)] == Entry(NewCount(x, s, st), s.at.mono + Ttl(x.window))
  {
    if k > 0 {
      EntryDuring(o, x, rs, i, j, k - 1, s, st);
      var r, prev := rs.rules[k - 1], After(o, rs.rules, k - 1, s, st);
      if k - 1 == i {
        CountingStep(o, x, r, s, prev, st);
      } else {
        assert k - 1 != j ==> Harmless(o, x, r, s);
        HarmlessStep(o, x, r, s, prev);
      }
    }
  }

  lemma ComparesCount(o: Oracle, x: Setup, r: Rule, s: Subject, cache: Cache, count: nat)
    requires r.conds == [Cond(Counter(x.c), Gt(x.limit), false, [])]
    requires s.Req? && Lookup(cache, Slot(x, s), s.at.mono) == count
    ensures RuleHolds(o, r, s, cache) <==> Over(x, count)
  {
    var c := r.conds[0];
    var cands := Candidates(o, c.field, s, cache);
    assert cands == [Show(count)];
    assert ApplyTransforms([], cands[0]) == Show(count);
    ParseShowI64(count);
    assert EvalOp(o, c.op, ApplyTransforms(c.transforms, cands[0])) <==> Over(x, count);
    assert CondHolds(o, c, s, cache) <==> Over(x, count);
  }

  lemma OthersDoNotFire(o: Oracle, x: Setup, rs: RuleSet, i: nat, j: nat, k: nat, s: Subject, st: Store)
    requires CountedBy(o, x, rs, i, j, s) && k < |rs.rules| && k != j
    ensures Fires(o, rs.rules, k, s, st).None?
  {
    if k != i {
      var prev := After(o, rs.rules, k, s, st);
      assert Harmless(o, x, rs.rules[k], s);
      if !Bystander(rs.rules[k], x.c) { assert !RuleHolds(o, rs.rules[k], s, prev.cache); }
    }
  }

  lemma ComparingFires(o: Oracle, x: Setup, rs: RuleSet, i: nat, j: nat, s: Subject, st: Store)
    requires CountedBy(o, x, rs, i, j, s)
    ensures Fires(o, rs.rules, j, s, st).Some? <==> Over(x, NewCount(x, s, st))
  {
    EntryDuring(o, x, rs, i, j, j, s, st);
    ComparesCount(o, x, rs.rules[j], s, After(o, rs.rules, j, s, st).cache, NewCount(x, s, st));
  }

  lemma OneRequestBy(o: Oracle, x: Setup, rs: RuleSet, i: nat, j: nat, s: Subject, st: Store)
    requires CountedBy(o, x, rs, i, j, s)
    ensures var (outcome, final) := Evaluate(o, rs, s, st);
            && (outcome.Some? <==> Over(x, NewCount(x, s, st)))
            && Slot(x, s) in final.cache
            && final.cache[Slot(x, s)] == Entry(NewCount(x, s, st), s.at.mono + Ttl(x.window))
  {
    var rules := rs.rules;
    forall k | 0 <= k < |rules| && k != j ensures Fires(o, rules, k, s, st).None? {
      OthersDoNotFire(o, x, rs, i, j, k, s, st);
    }
    ComparingFires(o, x, rs, i, j, s, st);
    FirstFiringIs(o, rules, 0, s, st);
    var f := FirstFiring(o, rules, 0, s, st);
    EntryDuring(o, x, rs, i, j, if f < |rules| then f + 1 else f, s, st);
  }

  /** One counted request: it is blocked exactly when the count it makes is over the limit, and the count is stored. */
  lemma OneRequest(o: Oracle, x: Setup, rs: RuleSet, s: Subject, st: Store)
    requires Counted(o, x, rs, s)
    ensures var (outcome, final) := Judge(o, World(rs, st), s);
            && s.Req?
            && (outcome.Some? <==> Over(x, NewCount(x, s, st)))
            && Slot(x, s) in final.cache
            && final.cache[Slot(x, s)] == Entry(NewCount(x, s, st), s.at.mono + Ttl(x.window))
  {
    var i: nat, j: nat :| CountedBy(o, x, rs, i, j, s);
    OneRequestBy(o, x, rs, i, j, s, st);
  }

  lemma {:induction false} AloneDuring(o: Oracle, x: Setup, rules: seq<Rule>, k: nat, s: Subject, st: Store)
    requires k <= |rules| && forall m :: 0 <= m < |rules| && Touches(rules[m], x.c) ==> NeverHolds(o, rules[m], s)
    ensures SameEntry(After(o, rules, k, s, st).cache, st.cache, Slot(x, s))
  {
    if k > 0 {
      AloneDuring(o, x, rules, k - 1, s, st);
      HarmlessStep(o, x, rules[k - 1], s, After(o, rules, k - 1, s, st));
    }
  }

  /** An evaluation that leaves `c` alone leaves the client's entry as it is. */
  lemma LeftAlone(o: Oracle, x: Setup, rs: RuleSet, s: Subject, st: Store)
    requires LeavesAlone(o, x, rs, s)
    ensures SameEntry(Judge(o, World(rs, st), s).1.cache, st.cache, Slot(x, s))
  {
    var rules := PhaseOf(rs, s);
    var f := FirstFiring(o, rules, 0, s, st);
    AloneDuring(o, x, rules, if f < |rules| then f + 1 else f, s, st);
  }

  // ── Runs of one client ─────────────────────────────────────────────────────

  /** The rules in force when event `k` comes. */
  function InForce(rs: RuleSet, events: seq<Event>, k: nat): RuleSet
    requires k <= |events|
  {
    if k == 0 then rs
    else if events[k - 1].Reload? then events[k - 1].rs
    else InForce(rs, events, k - 1)
  }

  ghost predicate CountedAt(o: Oracle, x: Setup, rs: RuleSet, events: seq<Event>, k: nat) {
    k < |events| && events[k].Eval? && Counted(o, x, InForce(rs, events, k), events[k].s)
  }

  /**
   A run of one client: requests that the rules in force count, any other requests and any
   replies that leave `c` alone, decided or not, and reloads of any rules.
   */
  ghost predicate FairRun(o: Oracle, x: Setup, rs: RuleSet, events: seq<Event>, ip: Common.Ip) {
    forall k :: 0 <= k < |events| && events[k].Eval? ==>
      && Client(events[k].s) == ip
      && (CountedAt(o, x, rs, events, k) || LeavesAlone(o, x, InForce(rs, events, k), events[k].s))
  }

  /** The last counted request before event `k`. */
  ghost function LastCounted(o: Oracle, x: Setup, rs: RuleSet, events: seq<Event>, k: nat): (r: Option<nat>)
    requires k <= |events|
    ensures r.Some? ==> r.value < k && CountedAt(o, x, rs, events, r.value)
  {
    if k == 0 then None
    else if CountedAt(o, x, rs, events, k - 1) then Some(k - 1)
    else LastCounted(o, x, rs, events, k - 1)
  }

  /** How many counted requests in a row, up to request `k`, came within the window of the one before. */
  ghost function Streak(o: Oracle, x: Setup, rs: RuleSet, events: seq<Event>, k: nat): nat
    requires CountedAt(o, x, rs, events, k)
  {
    match LastCounted(o, x, rs, events, k)
    case None => 1
    case Some(p) =>
      if events[k].s.at.mono < events[p].s.at.mono + Ttl(x.window) then Streak(o, x, rs, events, p) + 1 else 1
  }

  function WorldAt(o: Oracle, w: World, events: seq<Event>, k: nat): World
    requires k <= |events|
  {
    if k == 0 then w else Next(o, WorldAt(o, w, events, k - 1), events[k - 1])
  }

  lemma {:induction false} RulesAt(o: Oracle, w: World, events: seq<Event>, k: nat)
    requires k <= |events|
    ensures WorldAt(o, w, events, k).rs == InForce(w.rs, events, k)
  {
    if k > 0 { RulesAt(o, w, events, k - 1); }
  }

  function Capped(streak: nat, amount: nat): nat { Min(streak * amount, U64_MAX) }

  lemma OneMore(n: nat, amount: nat)
    ensures SatAdd(Capped(n, amount), amount, U64_MAX) == Capped(n + 1, amount)
    ensures SatAdd(0, amount, U64_MAX) == Capped(1, amount)
  {
    assert (n + 1) * amount == n * amount + amount;
  }

  /** What the client's entry holds before event `k`: nothing yet, or the last counted request's streak. */
  ghost predicate EntryTells(o: Oracle, x: Setup, rs: RuleSet, events: seq<Event>, k: nat, cache: Cache, key: string)
    requires k <= |events|
  {
    match LastCounted(o, x, rs, events, k)
    case None => key !in cache
    case Some(p) =>
      && key in cache
      && cache[key] == Entry(Capped(Streak(o, x, rs, events, p), x.amount), events[p].s.at.mono + Ttl(x.window))
  }

  /** From such an entry, a counted request counts on, or starts again after the window. */
  lemma CountsOn(o: Oracle, x: Setup, rs: RuleSet, events: seq<Event>, k: nat, st: Store)
    requires CountedAt(o, x, rs, events, k)
    requires EntryTells(o, x, rs, events, k, st.cache, Slot(x, events[k].s))
    ensures NewCount(x, events[k].s, st) == Capped(Streak(o, x, rs, events, k), x.amount)
  {
    match LastCounted(o, x, rs, events, k)
    case None => OneMore(0, x.amount);
    case Some(p) => OneMore(Streak(o, x, rs, events, p), x.amount);
  }

  lemma SameEntryTells(o: Oracle, x: Setup, rs: RuleSet, events: seq<Event>, k: nat, a: Cache, b: Cache, key: string)
    requires k < |events| && !CountedAt(o, x, rs, events, k)
    requires EntryTells(o, x, rs, events, k, a, key) && SameEntry(b, a, key)
    ensures EntryTells(o, x, rs, events, k + 1, b, key)
  {
  }

  lemma CountedTells(o: Oracle, x: Setup, rs: RuleSet, events: seq<Event>, k: nat, st: Store)
    requires CountedAt(o, x, rs, events, k)
    requires EntryTells(o, x, rs, events, k, st.cache, Slot(x, events[k].s))
    ensures EntryTells(o, x, rs, events, k + 1, Judge(o, World(InForce(rs, events, k), st), events[k].s).1.cache, Slot(x, events[k].s))
  {
    CountsOn(o, x, rs, events, k, st);
    OneRequest(o, x, InForce(rs, events, k), events[k].s, st);
  }

  /** One event further. */
  lemma EntryStep(o: Oracle, x: Setup, rs: RuleSet, events: seq<Event>, ip: Common.Ip, k: nat, before: World)
    requires FairRun(o, x, rs, events, ip) && k < |events| && before.rs == InForce(rs, events, k)
    requires EntryTells(o, x, rs, events, k, before.st.cache, Key(x.c, ip))
    ensures EntryTells(o, x, rs, events, k + 1, Next(o, before, events[k]).st.cache, Key(x.c, ip))
  {
    match events[k]
    case Reload(_) =>
      SameEntryTells(o, x, rs, events, k, before.st.cache, before.st.cache, Key(x.c, ip));
    case Eval(s) =>
      if CountedAt(o, x, rs, events, k) {
        CountedTells(o, x, rs, events, k, before.st);
      } else {
        LeftAlone(o, x, before.rs, s, before.st);
        SameEntryTells(o, x, rs, events, k, before.st.cache, Judge(o, before, s).1.cache, Key(x.c, ip));
      }
  }

  lemma {:induction false} EntryAt(o: Oracle, x: Setup, w: World, events: seq<Event>, ip: Common.Ip, k: nat)
    requires FairRun(o, x, w.rs, events, ip) && k <= |events| && Key(x.c, ip) !in w.st.cache
    ensures EntryTells(o, x, w.rs, events, k, WorldAt(o, w, events, k).st.cache, Key(x.c, ip))
  {
    if k > 0 {
      EntryAt(o, x, w, events, ip, k - 1);
      RulesAt(o, w, events, k - 1);
      EntryStep(o, x, w.rs, events, ip, k - 1, WorldAt(o, w, events, k - 1));
    }
  }

  // ── What the client sees ───────────────────────────────────────────────────

  /** How many of the first `k` events get a verdict. */
  function Verdicts(events: seq<Event>, k: nat): nat
    requires k <= |events|
  {
    if k == 0 then 0 else Verdicts(events, k - 1) + (if events[k - 1].Eval? then 1 else 0)
  }

  lemma {:induction false} WorldAtTail(o: Oracle, w: World, events: seq<Event>, k: nat)
    requires 0 < k <= |events|
    ensures WorldAt(o, w, events, k) == WorldAt(o, Next(o, w, events[0]), events[1..], k - 1)
    ensures Verdicts(events, k) == (if events[0].Eval? then 1 else 0) + Verdicts(events[1..], k - 1)
  {
    if k > 1 { WorldAtTail(o, w, events, k - 1); }
  }

  predicate AllOf(events: seq<Event>, ip: Common.Ip) {
    forall i :: 0 <= i < |events| && events[i].Eval? ==> Client(events[i].s) == ip
  }

  lemma SeenCons(o: Oracle, w: World, events: seq<Event>, ip: Common.Ip)
    requires events != [] && (events[0].Eval? ==> Client(events[0].s) == ip)
    ensures Seen(o, w, events, ip)
         == (if events[0].Eval? then [Judge(o, w, events[0].s).0] else []) + Seen(o, Next(o, w, events[0]), events[1..], ip)
  {
  }

  lemma {:induction false} SeenAt(o: Oracle, w: World, events: seq<Event>, ip: Common.Ip, k: nat)
    requires k < |events| && AllOf(events, ip) && events[k].Eval?
    ensures Verdicts(events, k) < |Seen(o, w, events, ip)|
    ensures Seen(o, w, events, ip)[Verdicts(events, k)] == Judge(o, WorldAt(o, w, events, k), events[k].s).0
    decreases |events|
  {
    SeenCons(o, w, events, ip);
    if k > 0 {
      SeenAt(o, Next(o, w, events[0]), events[1..], ip, k - 1);
      WorldAtTail(o, w, events, k);
    }
  }

  /**
   Exact threshold, in any interleaving with other clients, with the client's own replies and
   other requests and with reloads: from a state where the counter is unset, a counted request
   is blocked if and only if the streak it belongs to, times the amount, exceeds the limit and
   still fits a signed 64-bit number. A gap of at least the window starts a new streak.
   */
  lemma ExactThreshold(o: Oracle, x: Setup, w: World, events: seq<Event>, ip: Common.Ip, k: nat)
    requires Key(x.c, ip) !in w.st.cache && FairRun(o, x, w.rs, Only(events, ip), ip)
    requires CountedAt(o, x, w.rs, Only(events, ip), k)
    ensures var own, seen := Only(events, ip), Seen(o, w, events, ip);
            && Verdicts(own, k) < |seen|
            && (seen[Verdicts(own, k)].Some? <==> Over(x, Capped(Streak(o, x, w.rs, own, k), x.amount)))
  {
    var own := Only(events, ip);
    ClientIsolation(o, w, events, ip);
    SeenAt(o, w, own, ip, k);
    EntryAt(o, x, w, own, ip, k);
    RulesAt(o, w, own, k);
    CountsOn(o, x, w.rs, own, k, WorldAt(o, w, own, k).st);
    OneRequest(o, x, InForce(w.rs, own, k), own[k].s, WorldAt(o, w, own, k).st);
  }

  /** How many of the first `k` events are counted requests. */
  ghost function CountedBefore(o: Oracle, x: Setup, rs: RuleSet, events: seq<Event>, k: nat): nat
    requires k <= |events|
  {
    if k == 0 then 0
    else CountedBefore(o, x, rs, events, k - 1) + (if CountedAt(o, x, rs, events, k - 1) then 1 else 0)
  }

  /** Each counted request comes within the window of the counted one before it. */
  ghost predicate Steady(o: Oracle, x: Setup, rs: RuleSet, events: seq<Event>) {
    forall k :: 0 <= k < |events| && CountedAt(o, x, rs, events, k) && LastCounted(o, x, rs, events, k).Some? ==>
      events[k].s.at.mono < events[LastCounted(o, x, rs, events, k).value].s.at.mono + Ttl(x.window)
  }

  lemma {:induction false} LastHasAll(o: Oracle, x: Setup, rs: RuleSet, events: seq<Event>, k: nat)
    requires k <= |events|
    ensures var p := LastCounted(o, x, rs, events, k);
            CountedBefore(o, x, rs, events, k) == (if p.Some? then CountedBefore(o, x, rs, events, p.value) + 1 else 0)
  {
    if k > 0 { LastHasAll(o, x, rs, events, k - 1); }
  }

  lemma {:induction false} SteadyStreak(o: Oracle, x: Setup, rs: RuleSet, events: seq<Event>, k: nat)
    requires CountedAt(o, x, rs, events, k) && Steady(o, x, rs, events)
    ensures Streak(o, x, rs, events, k) == CountedBefore(o, x, rs, events, k) + 1
  {
    LastHasAll(o, x, rs, events, k);
    var p := LastCounted(o, x, rs, events, k);
    if p.Some? { SteadyStreak(o, x, rs, events, p.value); }
  }

  /** Counting by one with no gap as long as the window, the n-th counted request is blocked exactly when n exceeds the limit. */
  lemma SteadyThreshold(o: Oracle, x: Setup, w: World, events: seq<Event>, ip: Common.Ip, k: nat)
    requires Key(x.c, ip) !in w.st.cache && FairRun(o, x, w.rs, Only(events, ip), ip) && x.amount == 1
    requires CountedAt(o, x, w.rs, Only(events, ip), k) && Steady(o, x, w.rs, Only(events, ip))
    requires CountedBefore(o, x, w.rs, Only(events, ip), k) + 1 <= I64_MAX
    ensures var own, seen := Only(events, ip), Seen(o, w, events, ip);
            && Verdicts(own, k) < |seen|
            && (seen[Verdicts(own, k)].Some? <==> CountedBefore(o, x, w.rs, own, k) + 1 > x.limit)
  {
    ExactThreshold(o, x, w, events, ip, k);
    SteadyStreak(o, x, w.rs, Only(events, ip), k);
  }

  // ── The escape at the top ──────────────────────────────────────────────────

  function CountAll(amount: nat): Setup { Setup("c", amount, 60, 0) }

  /** Every request counts for `amount`, and any count above 0 is to be blocked. */
  function CountAllRules(amount: nat): RuleSet {
    var always := Cond(Path, StartsWith(""), false, []);
    var over := Cond(Counter("c"), Gt(0), false, []);
    var rules := [Rule("count", Incr("c", amount, 60), [always]), Rule("stop", Action.Block(403, "over"), [over])];
    RuleSet(rules, [], 0, 403, "")
  }

  lemma AlwaysCounted(o: Oracle, amount: nat, r: Request, at: Moment)
    ensures Counted(o, CountAll(amount), CountAllRules(amount), Req(r, at))
  {
    var rs, s := CountAllRules(amount), Req(r, at);
    forall cache ensures RuleHolds(o, rs.rules[0], s, cache) {
      var c := rs.rules[0].conds[0];
      var cands := Candidates(o, c.field, s, cache);
      assert cands == [r.path] && ApplyTransforms([], cands[0]) == r.path;
      assert EvalOp(o, c.op, ApplyTransforms(c.transforms, cands[0]));
      assert CondHolds(o, c, s, cache);
    }
    assert CountedBy(o, CountAll(amount), rs, 0, 1, s);
  }

  /** A first request that counts 1 is blocked; one that counts 2^63 is not, although that is far over the limit. */
  lemma TopCountEscapes(o: Oracle, r: Request, at: Moment)
    ensures Evaluate(o, CountAllRules(1), Req(r, at), Store(map[], map[], 0)).0.Some?
    ensures Evaluate(o, CountAllRules(I64_MAX + 1), Req(r, at), Store(map[], map[], 0)).0.None?
  {
    AlwaysCounted(o, 1, r, at);
    AlwaysCounted(o, I64_MAX + 1, r, at);
    OneRequest(o, CountAll(1), CountAllRules(1), Req(r, at), Store(map[], map[], 0));
    OneRequest(o, CountAll(I64_MAX + 1), CountAllRules(I64_MAX + 1), Req(r, at), Store(map[], map[], 0));
  }
}
