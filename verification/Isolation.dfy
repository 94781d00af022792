/** Client isolation: what one client sees does not depend on the traffic of others. */
module Isolation {
  import opened Text
  import Common
  import opened Counters
  import opened Rules
  import opened Engine

  /** A run: evaluations of requests and responses from any clients, and rule reloads, in any order. */
  datatype Event = Eval(s: Subject) | Reload(rs: RuleSet)

  datatype World = World(rs: RuleSet, st: Store)

  function Judge(o: Oracle, w: World, s: Subject): (Option<Outcome>, Store) {
    if s.Req? then Evaluate(o, w.rs, s, w.st) else EvaluateResponse(o, w.rs, s, w.st)
  }

  /** A reload brings fresh limiters; counters and the log tally live on. */
  function Next(o: Oracle, w: World, e: Event): World {
    match e
    case Eval(s) => World(w.rs, Judge(o, w, s).1)
    case Reload(rs) => World(rs, w.st.(buckets := map[]))
  }

  /** The verdict on one event, if client `ip` gets it. */
  function SeenOf(o: Oracle, w: World, e: Event, ip: Common.Ip): seq<Option<Outcome>> {
    if e.Eval? && Client(e.s) == ip then [Judge(o, w, e.s).0] else []
  }

  /** The verdicts on the events of client `ip`, in order. */
  function Seen(o: Oracle, w: World, events: seq<Event>, ip: Common.Ip): seq<Option<Outcome>>
    decreases |events|
  {
    if events == [] then [] else SeenOf(o, w, events[0], ip) + Seen(o, Next(o, w, events[0]), events[1..], ip)
  }

  /** The same run with the traffic of all other clients removed. */
  function Only(events: seq<Event>, ip: Common.Ip): seq<Event> {
    if events == [] then []
    else (if events[0].Eval? && Client(events[0].s) != ip then [] else [events[0]]) + Only(events[1..], ip)
  }

  // ── Agreement on one client's share of the state ───────────────────────────

  predicate SameEntry(a: Cache, b: Cache, key: string) {
    (key in a <==> key in b) && (key in a ==> a[key] == b[key])
  }

  ghost predicate Agree(a: Store, b: Store, ip: Common.Ip) {
    && (forall name :: SameEntry(a.cache, b.cache, Key(name, ip)))
    && (forall slot :: Checks(a, slot, ip) == Checks(b, slot, ip))
  }

  lemma SameCandidates(o: Oracle, f: Field, s: Subject, a: Store, b: Store)
    requires Agree(a, b, Client(s))
    ensures Candidates(o, f, s, a.cache) == Candidates(o, f, s, b.cache)
  {
    if f.Counter? { assert SameEntry(a.cache, b.cache, Key(f.name, Client(s))); }
  }

  lemma SameVerdicts(o: Oracle, r: Rule, s: Subject, a: Store, b: Store)
    requires Agree(a, b, Client(s))
    ensures RuleHolds(o, r, s, a.cache) == RuleHolds(o, r, s, b.cache)
    ensures Decide(o, r, s, a) == Decide(o, r, s, b)
  {
    forall j | 0 <= j < |r.conds| ensures CondHolds(o, r.conds[j], s, a.cache) == CondHolds(o, r.conds[j], s, b.cache) {
      SameCandidates(o, r.conds[j].field, s, a, b);
    }
  }

  /** A client's own rules read and write only its own share. */
  lemma OwnEffect(r: Rule, s: Subject, a: Store, b: Store)
    requires Agree(a, b, Client(s))
    ensures Agree(Effect(r, s, a), Effect(r, s, b), Client(s))
  {
    var ip, a', b' := Client(s), Effect(r, s, a), Effect(r, s, b);
    if r.action.Incr? {
      forall name ensures SameEntry(a'.cache, b'.cache, Key(name, ip)) {
        assert SameEntry(a.cache, b.cache, Key(name, ip));
        assert SameEntry(a.cache, b.cache, Key(r.action.counter, ip));
      }
    }
    forall slot ensures Checks(a', slot, ip) == Checks(b', slot, ip) {
      assert Checks(a, slot, ip) == Checks(b, slot, ip);
    }
  }

  /** Another client's rules leave it untouched; this rests on the injectivity of counter keys. */
  lemma ForeignEffect(r: Rule, s: Subject, a: Store, ip: Common.Ip)
    requires Client(s) != ip
    ensures Agree(a, Effect(r, s, a), ip)
  {
    var a' := Effect(r, s, a);
    forall name ensures SameEntry(a.cache, a'.cache, Key(name, ip)) {
      if r.action.Incr? { KeyInjective(r.action.counter, Client(s), name, ip); }
    }
    forall slot ensures Checks(a, slot, ip) == Checks(a', slot, ip) {}
  }

  lemma AgreeTransitive(a: Store, b: Store, c: Store, ip: Common.Ip)
    requires Agree(a, b, ip) && Agree(b, c, ip)
    ensures Agree(a, c, ip)
  {
    forall name ensures SameEntry(a.cache, c.cache, Key(name, ip)) {
      assert SameEntry(a.cache, b.cache, Key(name, ip)) && SameEntry(b.cache, c.cache, Key(name, ip));
    }
    forall slot ensures Checks(a, slot, ip) == Checks(c, slot, ip) {
      assert Checks(a, slot, ip) == Checks(b, slot, ip) == Checks(c, slot, ip);
    }
  }

  // ── One evaluation ─────────────────────────────────────────────────────────

  lemma {:induction false} OwnAfter(o: Oracle, rules: seq<Rule>, k: nat, s: Subject, a: Store, b: Store)
    requires k <= |rules| && Agree(a, b, Client(s))
    ensures Agree(After(o, rules, k, s, a), After(o, rules, k, s, b), Client(s))
    ensures TrueScore(o, rules, k, s, a) == TrueScore(o, rules, k, s, b)
  {
    if k > 0 {
      OwnAfter(o, rules, k - 1, s, a, b);
      var pa, pb := After(o, rules, k - 1, s, a), After(o, rules, k - 1, s, b);
      SameVerdicts(o, rules[k - 1], s, pa, pb);
      OwnEffect(rules[k - 1], s, pa, pb);
    }
  }

  lemma OwnFires(o: Oracle, rules: seq<Rule>, k: nat, s: Subject, a: Store, b: Store)
    requires k < |rules| && Agree(a, b, Client(s))
    ensures Fires(o, rules, k, s, a) == Fires(o, rules, k, s, b)
  {
    OwnAfter(o, rules, k, s, a, b);
    SameVerdicts(o, rules[k], s, After(o, rules, k, s, a), After(o, rules, k, s, b));
  }

  lemma OwnFiring(o: Oracle, rules: seq<Rule>, s: Subject, a: Store, b: Store)
    requires Agree(a, b, Client(s))
    ensures FirstFiring(o, rules, 0, s, a) == FirstFiring(o, rules, 0, s, b)
  {
    forall i | 0 <= i < |rules| ensures Fires(o, rules, i, s, a) == Fires(o, rules, i, s, b) {
      OwnFires(o, rules, i, s, a, b);
    }
    SameFiring(o, rules, 0, s, a, s, b);
  }

  lemma OwnResult(o: Oracle, rules: seq<Rule>, f: nat, s: Subject, a: Store, b: Store)
    requires f <= |rules| && Agree(a, b, Client(s))
    ensures ResultAt(o, rules, f, s, a).0 == ResultAt(o, rules, f, s, b).0
    ensures Agree(ResultAt(o, rules, f, s, a).1, ResultAt(o, rules, f, s, b).1, Client(s))
  {
    if f < |rules| { OwnFires(o, rules, f, s, a, b); }
    OwnAfter(o, rules, if f < |rules| then f + 1 else f, s, a, b);
  }

  lemma OwnRequest(o: Oracle, rs: RuleSet, s: Subject, a: Store, b: Store)
    requires s.Req? && Agree(a, b, Client(s))
    ensures Evaluate(o, rs, s, a).0 == Evaluate(o, rs, s, b).0
    ensures Agree(Evaluate(o, rs, s, a).1, Evaluate(o, rs, s, b).1, Client(s))
  {
    OwnFiring(o, rs.rules, s, a, b);
    OwnResult(o, rs.rules, FirstFiring(o, rs.rules, 0, s, a), s, a, b);
    OwnAfter(o, rs.rules, |rs.rules|, s, a, b);
  }

  lemma OwnResponse(o: Oracle, rs: RuleSet, s: Subject, a: Store, b: Store)
    requires s.Resp? && Agree(a, b, Client(s))
    ensures EvaluateResponse(o, rs, s, a).0 == EvaluateResponse(o, rs, s, b).0
    ensures Agree(EvaluateResponse(o, rs, s, a).1, EvaluateResponse(o, rs, s, b).1, Client(s))
  {
    OwnFiring(o, rs.responseRules, s, a, b);
    OwnResult(o, rs.responseRules, FirstFiring(o, rs.responseRules, 0, s, a), s, a, b);
  }

  lemma OwnJudgement(o: Oracle, rs: RuleSet, s: Subject, a: Store, b: Store)
    requires Agree(a, b, Client(s))
    ensures Judge(o, World(rs, a), s).0 == Judge(o, World(rs, b), s).0
    ensures Agree(Judge(o, World(rs, a), s).1, Judge(o, World(rs, b), s).1, Client(s))
  {
    if s.Req? { OwnRequest(o, rs, s, a, b); } else { OwnResponse(o, rs, s, a, b); }
  }

  lemma {:induction false} ForeignAfter(o: Oracle, rules: seq<Rule>, k: nat, s: Subject, a: Store, ip: Common.Ip)
    requires k <= |rules| && Client(s) != ip
    ensures Agree(a, After(o, rules, k, s, a), ip)
  {
    if k > 0 {
      ForeignAfter(o, rules, k - 1, s, a, ip);
      var prev := After(o, rules, k - 1, s, a);
      ForeignEffect(rules[k - 1], s, prev, ip);
      AgreeTransitive(a, prev, After(o, rules, k, s, a), ip);
    }
  }

  lemma ForeignResult(o: Oracle, rules: seq<Rule>, f: nat, s: Subject, st: Store, ip: Common.Ip)
    requires f <= |rules| && Client(s) != ip
    ensures Agree(st, ResultAt(o, rules, f, s, st).1, ip)
  {
    ForeignAfter(o, rules, if f < |rules| then f + 1 else f, s, st, ip);
  }

  lemma ForeignJudgement(o: Oracle, w: World, s: Subject, ip: Common.Ip)
    requires Client(s) != ip
    ensures Agree(w.st, Judge(o, w, s).1, ip)
  {
    var rules := if s.Req? then w.rs.rules else w.rs.responseRules;
    ForeignResult(o, rules, FirstFiring(o, rules, 0, s, w.st), s, w.st, ip);
  }

  // ── Whole runs ─────────────────────────────────────────────────────────────

  lemma AgreeSymmetric(a: Store, b: Store, ip: Common.Ip)
    requires Agree(a, b, ip)
    ensures Agree(b, a, ip)
  {
    forall name ensures SameEntry(b.cache, a.cache, Key(name, ip)) {
      assert SameEntry(a.cache, b.cache, Key(name, ip));
    }
  }

  lemma {:induction false} IsolatedFrom(o: Oracle, rs: RuleSet, a: Store, b: Store, events: seq<Event>, ip: Common.Ip)
    requires Agree(a, b, ip)
    ensures Seen(o, World(rs, a), events, ip) == Seen(o, World(rs, b), Only(events, ip), ip)
    decreases |events|
  {
    if events != [] {
      var e, rest := events[0], events[1..];
      var wa, wb := World(rs, a), World(rs, b);
      match e
      case Reload(rs') =>
        assert Only(events, ip)[1..] == Only(rest, ip);
        IsolatedFrom(o, rs', a.(buckets := map[]), b.(buckets := map[]), rest, ip);
      case Eval(s) =>
        if Client(s) == ip {
          assert Only(events, ip)[0] == e && Only(events, ip)[1..] == Only(rest, ip);
          OwnJudgement(o, rs, s, a, b);
          IsolatedFrom(o, rs, Judge(o, wa, s).1, Judge(o, wb, s).1, rest, ip);
        } else {
          ForeignJudgement(o, wa, s, ip);
          AgreeSymmetric(a, Judge(o, wa, s).1, ip);
          AgreeTransitive(Judge(o, wa, s).1, a, b, ip);
          assert Only(events, ip) == Only(rest, ip);
          IsolatedFrom(o, rs, Judge(o, wa, s).1, b, rest, ip);
        }
    }
  }

  /** In any interleaved run from any state, each client gets exactly the verdicts it would get alone. */
  lemma ClientIsolation(o: Oracle, w: World, events: seq<Event>, ip: Common.Ip)
    ensures Seen(o, w, events, ip) == Seen(o, w, Only(events, ip), ip)
  {
    IsolatedFrom(o, w.rs, w.st, w.st, events, ip);
  }
}
