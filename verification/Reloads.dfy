/**
 What a reload does to the limiters that `rate_limit` rules own: they are rebuilt with the
 rules, so a client's checks are forgotten. Counters and the log tally live on.
 */
module Reloads {
  import opened Text
  import Common
  import opened Rules
  import opened Engine
  import opened Isolation

  predicate Unlimited(r: Rule) { !r.action.RateLimit? }

  /** No request rule owns a limiter. */
  predicate NoLimiters(rs: RuleSet) { forall k :: 0 <= k < |rs.rules| ==> Unlimited(rs.rules[k]) }

  predicate SameButBuckets(a: Store, b: Store) { a.cache == b.cache && a.logHits == b.logHits }

  // ── Rules without limiters do not see buckets ──────────────────────────────

  lemma StepBlind(o: Oracle, r: Rule, s: Subject, a: Store, b: Store)
    requires SameButBuckets(a, b) && (s.Resp? || Unlimited(r))
    ensures SameButBuckets(StepOf(o, r, s, a), StepOf(o, r, s, b))
    ensures Decide(o, r, s, a) == Decide(o, r, s, b)
  {
  }

  /** The rules of one phase, if the subject is of the other or none has a limiter. */
  predicate Blind(rules: seq<Rule>, s: Subject) { s.Resp? || forall k :: 0 <= k < |rules| ==> Unlimited(rules[k]) }

  lemma {:induction false} AfterBlind(o: Oracle, rules: seq<Rule>, k: nat, s: Subject, a: Store, b: Store)
    requires k <= |rules| && Blind(rules, s) && SameButBuckets(a, b)
    ensures SameButBuckets(After(o, rules, k, s, a), After(o, rules, k, s, b))
    ensures TrueScore(o, rules, k, s, a) == TrueScore(o, rules, k, s, b)
  {
    if k > 0 {
      AfterBlind(o, rules, k - 1, s, a, b);
      StepBlind(o, rules[k - 1], s, After(o, rules, k - 1, s, a), After(o, rules, k - 1, s, b));
    }
  }

  lemma FiresBlind(o: Oracle, rules: seq<Rule>, k: nat, s: Subject, a: Store, b: Store)
    requires k < |rules| && Blind(rules, s) && SameButBuckets(a, b)
    ensures Fires(o, rules, k, s, a) == Fires(o, rules, k, s, b)
  {
    AfterBlind(o, rules, k, s, a, b);
    StepBlind(o, rules[k], s, After(o, rules, k, s, a), After(o, rules, k, s, b));
  }

  lemma FiringBlind(o: Oracle, rules: seq<Rule>, s: Subject, a: Store, b: Store)
    requires Blind(rules, s) && SameButBuckets(a, b)
    ensures FirstFiring(o, rules, 0, s, a) == FirstFiring(o, rules, 0, s, b)
  {
    forall i | 0 <= i < |rules| ensures Fires(o, rules, i, s, a) == Fires(o, rules, i, s, b) {
      FiresBlind(o, rules, i, s, a, b);
    }
    SameFiring(o, rules, 0, s, a, s, b);
  }

  lemma ResultBlind(o: Oracle, rules: seq<Rule>, f: nat, s: Subject, a: Store, b: Store)
    requires f <= |rules| && Blind(rules, s) && SameButBuckets(a, b)
    ensures ResultAt(o, rules, f, s, a).0 == ResultAt(o, rules, f, s, b).0
    ensures SameButBuckets(ResultAt(o, rules, f, s, a).1, ResultAt(o, rules, f, s, b).1)
  {
    if f < |rules| { FiresBlind(o, rules, f, s, a, b); }
    AfterBlind(o, rules, if f < |rules| then f + 1 else f, s, a, b);
  }

  lemma RequestBlind(o: Oracle, rs: RuleSet, s: Subject, a: Store, b: Store)
    requires s.Req? && NoLimiters(rs) && SameButBuckets(a, b)
    ensures Evaluate(o, rs, s, a).0 == Evaluate(o, rs, s, b).0
    ensures SameButBuckets(Evaluate(o, rs, s, a).1, Evaluate(o, rs, s, b).1)
  {
    FiringBlind(o, rs.rules, s, a, b);
    ResultBlind(o, rs.rules, FirstFiring(o, rs.rules, 0, s, a), s, a, b);
    AfterBlind(o, rs.rules, |rs.rules|, s, a, b);
  }

  lemma ResponseBlind(o: Oracle, rs: RuleSet, s: Subject, a: Store, b: Store)
    requires s.Resp? && SameButBuckets(a, b)
    ensures EvaluateResponse(o, rs, s, a).0 == EvaluateResponse(o, rs, s, b).0
    ensures SameButBuckets(EvaluateResponse(o, rs, s, a).1, EvaluateResponse(o, rs, s, b).1)
  {
    FiringBlind(o, rs.responseRules, s, a, b);
    ResultBlind(o, rs.responseRules, FirstFiring(o, rs.responseRules, 0, s, a), s, a, b);
  }

  lemma JudgeBlind(o: Oracle, rs: RuleSet, s: Subject, a: Store, b: Store)
    requires NoLimiters(rs) && SameButBuckets(a, b)
    ensures Judge(o, World(rs, a), s).0 == Judge(o, World(rs, b), s).0
    ensures SameButBuckets(Judge(o, World(rs, a), s).1, Judge(o, World(rs, b), s).1)
  {
    if s.Req? { RequestBlind(o, rs, s, a, b); } else { ResponseBlind(o, rs, s, a, b); }
  }

  lemma {:induction false} SeenBlind(o: Oracle, rs: RuleSet, a: Store, b: Store, events: seq<Event>, ip: Common.Ip)
    requires NoLimiters(rs) && SameButBuckets(a, b)
    ensures Seen(o, World(rs, a), events, ip) == Seen(o, World(rs, b), events, ip)
    decreases |events|
  {
    if events != [] {
      match events[0]
      case Reload(_) => assert a.(buckets := map[]) == b.(buckets := map[]);
      case Eval(s) =>
        JudgeBlind(o, rs, s, a, b);
        SeenBlind(o, rs, Judge(o, World(rs, a), s).1, Judge(o, World(rs, b), s).1, events[1..], ip);
    }
  }

  // ── When a reload is not seen ──────────────────────────────────────────────

  /** The state a run leads to. */
  function EndOf(o: Oracle, w: World, events: seq<Event>): World
    decreases |events|
  {
    if events == [] then w else EndOf(o, Next(o, w, events[0]), events[1..])
  }

  lemma SeenFirst(o: Oracle, w: World, e: Event, rest: seq<Event>, ip: Common.Ip)
    ensures Seen(o, w, [e] + rest, ip) == SeenOf(o, w, e, ip) + Seen(o, Next(o, w, e), rest, ip)
  {
    assert ([e] + rest)[1..] == rest;
  }

  lemma {:induction false} SeenAppend(o: Oracle, w: World, a: seq<Event>, b: seq<Event>, ip: Common.Ip)
    ensures Seen(o, w, a + b, ip) == Seen(o, w, a, ip) + Seen(o, EndOf(o, w, a), b, ip)
    decreases |a|
  {
    if a == [] {
      assert a + b == b;
    } else {
      var e, rest, w' := a[0], a[1..], Next(o, w, a[0]);
      assert a + b == [e] + (rest + b) && a == [e] + rest;
      SeenFirst(o, w, e, rest + b, ip);
      SeenFirst(o, w, e, rest, ip);
      SeenAppend(o, w', rest, b, ip);
      Associate(SeenOf(o, w, e, ip), Seen(o, w', rest, ip), Seen(o, EndOf(o, w', rest), b, ip));
    }
  }

  lemma ReloadHere(o: Oracle, w: World, after: seq<Event>, ip: Common.Ip)
    requires NoLimiters(w.rs)
    ensures Seen(o, w, [Reload(w.rs)] + after, ip) == Seen(o, w, after, ip)
  {
    var st := w.st.(buckets := map[]);
    SeenFirst(o, w, Reload(w.rs), after, ip);
    SeenBlind(o, w.rs, st, w.st, after, ip);
    assert [] + Seen(o, World(w.rs, st), after, ip) == Seen(o, World(w.rs, st), after, ip);
  }

  /**
   Reloading the rules in force, at any point of any run, changes no verdict of any client if
   none of those rules is a `rate_limit`.
   */
  lemma ReloadInvisible(o: Oracle, w: World, before: seq<Event>, after: seq<Event>, ip: Common.Ip)
    requires NoLimiters(EndOf(o, w, before).rs)
    ensures Seen(o, w, before + ([Reload(EndOf(o, w, before).rs)] + after), ip) == Seen(o, w, before + after, ip)
  {
    var mid := EndOf(o, w, before);
    SeenAppend(o, w, before, [Reload(mid.rs)] + after, ip);
    SeenAppend(o, w, before, after, ip);
    ReloadHere(o, mid, after, ip);
  }

  // ── When it is ─────────────────────────────────────────────────────────────

  /** A file with one limiter rule. */
  function OneLimiter(r: Rule): RuleSet { RuleSet([r], [], 0, 403, "") }

  /** The limiter lets one check at this time pass, and not a second. */
  predicate OnceOnly(o: Oracle, r: Rule, t: nat) {
    r.action.RateLimit? && o.throttle(r.action.quota, [t]).None? && o.throttle(r.action.quota, [t, t]).Some?
  }

  function Throttled(o: Oracle, r: Rule, times: seq<nat>): Option<Outcome>
    requires r.action.RateLimit?
  {
    match o.throttle(r.action.quota, times) case Some(retry) => Some(Limited(r.id, retry)) case None => None
  }

  lemma LimiterJudges(o: Oracle, r: Rule, s: Subject, st: Store)
    requires s.Req? && r.action.RateLimit? && RuleHolds(o, r, s, st.cache)
    ensures var times := Checks(st, r.action.slot, Client(s)) + [s.at.mono];
            Judge(o, World(OneLimiter(r), st), s)
              == (Throttled(o, r, times), st.(buckets := st.buckets[(r.action.slot, Client(s)) := times]))
  {
    var rules := [r];
    assert rules[0] == r;
    StepAt(o, rules, 0, s, st);
    FirstFiringIs(o, rules, 0, s, st);
    assert After(o, rules, 1, s, st) == StepOf(o, r, s, After(o, rules, 0, s, st));
    assert TrueScore(o, rules, 0, s, st) == 0;
  }

  lemma TwoSeen(o: Oracle, w: World, s: Subject)
    ensures Seen(o, w, [Eval(s), Eval(s)], Client(s)) == [Judge(o, w, s).0, Judge(o, Next(o, w, Eval(s)), s).0]
  {
    var events := [Eval(s), Eval(s)];
    assert events[1..] == [Eval(s)] && [Eval(s)][1..] == [];
    assert Seen(o, Next(o, w, Eval(s)), [Eval(s)], Client(s)) == [Judge(o, Next(o, w, Eval(s)), s).0];
  }

  lemma TwoSeenAcross(o: Oracle, w: World, rs: RuleSet, s: Subject)
    ensures var w' := Next(o, Next(o, w, Eval(s)), Reload(rs));
            Seen(o, w, [Eval(s), Reload(rs), Eval(s)], Client(s)) == [Judge(o, w, s).0, Judge(o, w', s).0]
  {
    var events, w1 := [Eval(s), Reload(rs), Eval(s)], Next(o, w, Eval(s));
    assert events[1..] == [Reload(rs), Eval(s)] && events[1..][1..] == [Eval(s)] && [Eval(s)][1..] == [];
    assert Seen(o, Next(o, w1, Reload(rs)), [Eval(s)], Client(s)) == [Judge(o, Next(o, w1, Reload(rs)), s).0];
  }

  /** Without a reload the second request of a client is throttled; with one between them it is not. */
  lemma ReloadForgetsChecks(o: Oracle, r: Rule, s: Subject, st: Store)
    requires s.Req? && OnceOnly(o, r, s.at.mono) && Checks(st, r.action.slot, Client(s)) == []
    requires forall cache :: RuleHolds(o, r, s, cache)
    ensures var w, ip, t := World(OneLimiter(r), st), Client(s), s.at.mono;
            && Seen(o, w, [Eval(s), Eval(s)], ip) == [None, Throttled(o, r, [t, t])]
            && Throttled(o, r, [t, t]).Some?
            && Seen(o, w, [Eval(s), Reload(OneLimiter(r)), Eval(s)], ip) == [None, None]
  {
    var w, t := World(OneLimiter(r), st), s.at.mono;
    var st1 := Judge(o, w, s).1;
    assert [] + [t] == [t] && [t] + [t] == [t, t];
    LimiterJudges(o, r, s, st);
    LimiterJudges(o, r, s, st1);
    LimiterJudges(o, r, s, st1.(buckets := map[]));
    TwoSeen(o, w, s);
    TwoSeenAcross(o, w, OneLimiter(r), s);
  }
}
