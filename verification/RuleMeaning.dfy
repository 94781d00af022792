/**
 What a rule decides, said by what its fields offer, what its operators ask and what its action
 does: a reading of rules that stands beside the compiler and the evaluator.
 */
module RuleMeaning {
  import opened Text
  import opened Common
  import opened Counters
  import opened Rules
  import opened Engine
  import Clock
  import Parser

  // ── Values offered ─────────────────────────────────────────────────────────

  /** `v` is a value of some parameter, cookie or the like. */
  predicate ValueIn(ps: Pairs, v: string) { exists i :: 0 <= i < |ps| && ps[i].1 == v }

  predicate NameIn(ps: Pairs, v: string) { exists i :: 0 <= i < |ps| && ps[i].0 == v }

  predicate BodyIs(b: BodyState, v: string) { b == Buffered(v) }

  /** A request offers the value under the field. */
  predicate RequestOffers(o: Oracle, f: Field, r: Request, at: Moment, cache: Cache, v: string) {
    match f
    case Counter(name) => v == Show(Lookup(cache, Key(name, r.ip), at.mono))
    case Method => v == r.verb
    case Path => v == r.path
    case Query => v == (if r.query.Some? then r.query.value else "")
    case Uri => v == (if r.query.Some? then r.path + "?" + r.query.value else r.path)
    case Header(name) => HeaderStr(r.headers, name) == Some(v)
    case Body => BodyIs(r.body, v)
    case Ip => v == r.ip
    case Country => r.geo == Some(v)
    case Arg(name) => (name, v) in CollectArgs(o, r)
    case ArgNames => NameIn(CollectArgs(o, r), v)
    case ArgsCount => v == Show(|CollectArgs(o, r)|)
    case Cookie(name) => (name, v) in CollectCookies(r)
    case CookieNames => NameIn(CollectCookies(r), v)
    case Args => ValueIn(CollectArgs(o, r), v)
    case Headers => exists i :: 0 <= i < |r.headers| && HeaderText(r.headers[i].1) == Some(v)
    case HeaderNames => NameIn(r.headers, v)
    case Cookies => ValueIn(CollectCookies(r), v)
    case Time => v == Show((at.wall % 86400) / 60)
    case Day => v == Show(at.wall / 60)
    case _ => false
  }

  /** A response offers the value under the field. */
  predicate ResponseOffers(f: Field, r: Response, at: Moment, cache: Cache, v: string) {
    match f
    case Status => v == Show(r.status)
    case RespHeader(name) => HeaderStr(r.headers, name) == Some(v)
    case RespBody => BodyIs(r.body, v)
    case Ip => v == r.ip
    case Path => v == r.path
    case Counter(name) => v == Show(Lookup(cache, Key(name, r.ip), at.mono))
    case _ => false
  }

  predicate Offers(o: Oracle, f: Field, s: Subject, cache: Cache, v: string) {
    match s
    case Req(r, at) => RequestOffers(o, f, r, at, cache, v)
    case Resp(r, at) => ResponseOffers(f, r, at, cache, v)
  }

  lemma {:induction false} ValuesOfMember(ps: Pairs, name: string, v: string)
    ensures v in ValuesOf(ps, name) <==> (name, v) in ps
  {
    if ps != [] {
      ValuesOfMember(ps[1..], name, v);
      assert ps == [ps[0]] + ps[1..];
    }
  }

  lemma {:induction false} TextsMember(hs: Headers, v: string)
    ensures v in FilterMap((h: (string, string)) => HeaderText(h.1), hs)
       <==> exists i :: 0 <= i < |hs| && HeaderText(hs[i].1) == Some(v)
  {
    if hs != [] {
      var tail := hs[1..];
      TextsMember(tail, v);
      assert forall i :: 0 <= i < |tail| ==> tail[i] == hs[i + 1];
      assert forall i :: 0 < i < |hs| ==> hs[i] == tail[i - 1];
    }
  }

  lemma PairMembers(ps: Pairs, v: string)
    ensures v in Values(ps) <==> ValueIn(ps, v)
    ensures v in Names(ps) <==> NameIn(ps, v)
  {
    assert forall i :: 0 <= i < |ps| ==> Values(ps)[i] == ps[i].1 && Names(ps)[i] == ps[i].0;
    if ValueIn(ps, v) {
      var i :| 0 <= i < |ps| && ps[i].1 == v;
      assert Values(ps)[i] == v;
    }
    if NameIn(ps, v) {
      var i :| 0 <= i < |ps| && ps[i].0 == v;
      assert Names(ps)[i] == v;
    }
  }

  lemma RequestCandidate(o: Oracle, f: Field, r: Request, at: Moment, cache: Cache, v: string)
    ensures v in RequestCandidates(o, f, r, at, cache) <==> RequestOffers(o, f, r, at, cache, v)
  {
    var args, cookies := CollectArgs(o, r), CollectCookies(r);
    match f
    case Arg(name) => ValuesOfMember(args, name, v);
    case Cookie(name) => ValuesOfMember(cookies, name, v);
    case ArgNames => PairMembers(args, v);
    case Args => PairMembers(args, v);
    case CookieNames => PairMembers(cookies, v);
    case Cookies => PairMembers(cookies, v);
    case HeaderNames => PairMembers(r.headers, v);
    case Headers => TextsMember(r.headers, v);
    case _ =>
  }

  /** The candidates of a field are exactly the values it offers. */
  lemma CandidateOffered(o: Oracle, f: Field, s: Subject, cache: Cache, v: string)
    ensures v in Candidates(o, f, s, cache) <==> Offers(o, f, s, cache, v)
  {
    match s
    case Req(r, at) => RequestCandidate(o, f, r, at, cache, v);
    case Resp(_, _) =>
  }

  // ── Transforms ─────────────────────────────────────────────────────────────

  function WithoutNulls(s: string): string {
    if s == "" then "" else (if s[0] == 0 as char then "" else [s[0]]) + WithoutNulls(s[1..])
  }

  function Transformed(t: TransformName, v: string): string {
    match t
    case TLowercase => Lower(v)
    case TUppercase => Upper(v)
    case TUrlDecode => Parser.Decode(v, true, false)
    case TCompressWs => Join(Words(v, ""), " ")
    case TRemoveNulls => WithoutNulls(v)
    case TTrim => Trim(v)
    case TUnknown(_) => v
  }

  /** All transforms in order: the last is applied to what the earlier ones give. */
  function Applied(ts: seq<TransformName>, v: string): string {
    if ts == [] then v else Transformed(ts[|ts| - 1], Applied(ts[..|ts| - 1], v))
  }

  lemma {:induction false} NullsGone(v: string)
    ensures RemoveNulls(v) == WithoutNulls(v)
  {
    if v != "" { NullsGone(v[1..]); }
  }

  lemma OneTransform(t: TransformName, v: string)
    ensures ApplyTransform(t, v) == Transformed(t, v)
  {
    if t.TRemoveNulls? { NullsGone(v); }
  }

  lemma {:induction false} LastTransform(ts: seq<TransformName>, t: TransformName, v: string)
    ensures ApplyTransforms(ts + [t], v) == ApplyTransform(t, ApplyTransforms(ts, v))
    decreases |ts|
  {
    if ts == [] {
      assert [] + [t] == [t] && [t][1..] == [];
    } else {
      assert (ts + [t])[0] == ts[0] && (ts + [t])[1..] == ts[1..] + [t];
      LastTransform(ts[1..], t, ApplyTransform(ts[0], v));
    }
  }

  lemma AppliedLast(front: seq<TransformName>, t: TransformName, v: string)
    requires ApplyTransforms(front, v) == Applied(front, v)
    ensures ApplyTransforms(front + [t], v) == Transformed(t, Applied(front, v))
  {
    LastTransform(front, t, v);
    OneTransform(t, Applied(front, v));
  }

  lemma {:induction false} AppliedInOrder(ts: seq<TransformName>, v: string)
    ensures ApplyTransforms(ts, v) == Applied(ts, v)
  {
    if ts != [] {
      var front, t := ts[..|ts| - 1], ts[|ts| - 1];
      AppliedInOrder(front, v);
      AppliedLast(front, t, v);
      assert front + [t] == ts;
    }
  }

  // ── Operators ──────────────────────────────────────────────────────────────

  /** The value reads as a signed 64-bit number that stands in the given order to `n`. */
  ghost predicate NumberIs(v: string, less: bool, equal: bool, greater: bool, n: int) {
    exists k: int :: ParseI64(Trim(v)) == Some(k) && ((less && k < n) || (equal && k == n) || (greater && k > n))
  }

  ghost predicate Asks(o: Oracle, op: Op, v: string) {
    match op
    case Eq(s) => v == s
    case Ne(s) => v != s
    case Has(s) => Occurs(s, v)
    case StartsWith(s) => exists rest: string :: v == s + rest
    case EndsWith(s) => exists front: string :: v == front + s
    case Regex(p) => o.regexMatch(p, v)
    case In(list) => exists i :: 0 <= i < |list| && list[i] == v
    case Gt(n) => NumberIs(v, false, false, true, n)
    case Lt(n) => NumberIs(v, true, false, false, n)
    case Ge(n) => NumberIs(v, false, true, true, n)
    case Le(n) => NumberIs(v, true, true, false, n)
    case DetectSqli => o.sqli(v)
    case DetectXss => o.xss(v)
    case Cidr(_) => false
    case TimeBetween(start, end, offset) =>
      exists k: nat :: ParseUnsigned(Trim(v), 0xFFFF) == Some(k) && Clock.InWindow(k, start, end, offset)
    case DayOfWeek(mask, offset) => exists k: int :: ParseI64(Trim(v)) == Some(k) && Clock.Weekday(k, offset) in mask
  }

  lemma StartAsked(v: string, s: string)
    ensures Prefixed(v, s) <==> exists rest: string :: v == s + rest
  {
    if Prefixed(v, s) { assert v == s + v[|s|..]; }
  }

  lemma EndAsked(v: string, s: string)
    ensures Suffixed(v, s) <==> exists front: string :: v == front + s
  {
    if Suffixed(v, s) { assert v == v[..|v| - |s|] + s; }
  }

  /** The evaluator's operators ask what they are named for. */
  lemma OperatorAsks(o: Oracle, op: Op, v: string)
    ensures EvalOp(o, op, v) <==> Asks(o, op, v)
  {
    match op
    case Has(s) => ContainsIsOccurs(s, v);
    case StartsWith(s) => StartAsked(v, s);
    case EndsWith(s) => EndAsked(v, s);
    case _ =>
  }

  // ── Conditions ─────────────────────────────────────────────────────────────

  /** Some value the field offers satisfies the operator after the transforms; an address operator asks about the client. */
  ghost predicate Satisfied(o: Oracle, c: Cond, s: Subject, cache: Cache) {
    if c.op.Cidr? then o.netContains(c.op.net, Client(s))
    else exists v: string :: Offers(o, c.field, s, cache, v) && Asks(o, c.op, Applied(c.transforms, v))
  }

  ghost predicate Means(o: Oracle, c: Cond, s: Subject, cache: Cache) { Satisfied(o, c, s, cache) != c.negate }

  ghost predicate AllMean(o: Oracle, conds: seq<Cond>, s: Subject, cache: Cache) {
    forall i :: 0 <= i < |conds| ==> Means(o, conds[i], s, cache)
  }

  lemma AnyCandidate(o: Oracle, c: Cond, s: Subject, cache: Cache)
    requires !c.op.Cidr?
    ensures var cands := Candidates(o, c.field, s, cache);
            (exists i :: 0 <= i < |cands| && EvalOp(o, c.op, ApplyTransforms(c.transforms, cands[i]))) <==> Satisfied(o, c, s, cache)
  {
    var cands := Candidates(o, c.field, s, cache);
    if i :| 0 <= i < |cands| && EvalOp(o, c.op, ApplyTransforms(c.transforms, cands[i])) {
      assert cands[i] in cands;
      CandidateOffered(o, c.field, s, cache, cands[i]);
      AppliedInOrder(c.transforms, cands[i]);
      OperatorAsks(o, c.op, Applied(c.transforms, cands[i]));
    }
    if v: string :| Offers(o, c.field, s, cache, v) && Asks(o, c.op, Applied(c.transforms, v)) {
      CandidateOffered(o, c.field, s, cache, v);
      var i :| 0 <= i < |cands| && cands[i] == v;
      AppliedInOrder(c.transforms, v);
      OperatorAsks(o, c.op, Applied(c.transforms, v));
      assert EvalOp(o, c.op, ApplyTransforms(c.transforms, cands[i]));
    }
  }

  lemma ConditionMeans(o: Oracle, c: Cond, s: Subject, cache: Cache)
    ensures CondHolds(o, c, s, cache) <==> Means(o, c, s, cache)
  {
    if !c.op.Cidr? { AnyCandidate(o, c, s, cache); }
  }

  /** A rule matches exactly when all its conditions mean it to. */
  lemma RuleMeans(o: Oracle, r: Rule, s: Subject, cache: Cache)
    ensures RuleHolds(o, r, s, cache) <==> AllMean(o, r.conds, s, cache)
  {
    forall i | 0 <= i < |r.conds| ensures CondHolds(o, r.conds[i], s, cache) <==> Means(o, r.conds[i], s, cache) {
      ConditionMeans(o, r.conds[i], s, cache);
    }
  }

  // ── What a file of one rule decides ────────────────────────────────────────

  function ChecksOf(st: Store, slot: nat, ip: Common.Ip): seq<nat> {
    if (slot, ip) in st.buckets then st.buckets[(slot, ip)] else []
  }

  /** The outcome of a matching request rule, and what it leaves behind. */
  function Acts(o: Oracle, rs: RuleSet, id: string, action: Action, s: Subject, st: Store): (Option<Outcome>, Store) {
    match action
    case Block(status, msg) => (Some(Blocked(id, status, msg)), st)
    case Allow => (Some(Allowed(id)), st)
    case Log => (None, st.(logHits := (st.logHits + 1) % 0x1_0000_0000_0000_0000))
    case RateLimit(slot, quota) =>
      var times := ChecksOf(st, slot, Client(s)) + [s.at.mono];
      (match o.throttle(quota, times) case Some(retry) => Some(Limited(id, retry)) case None => None,
       st.(buckets := st.buckets[(slot, Client(s)) := times]))
    case Score(points) =>
      (if 0 < rs.threshold <= points
       then Some(Blocked("anomaly.score", rs.anomalyStatus,
                         rs.anomalyMsg + " (score " + Show(points) + " >= " + Show(rs.threshold) + ")"))
       else None, st)
    case Incr(counter, amount, window) =>
      var count := Lookup(st.cache, Key(counter, Client(s)), s.at.mono);
      (None, st.(cache := st.cache[Key(counter, Client(s)) := Entry(Min(count + amount, U64_MAX), s.at.mono + Max(window, 1))]))
  }

  lemma ActsAsStep(o: Oracle, rs: RuleSet, rule: Rule, s: Subject, st: Store)
    requires s.Req?
    ensures Acts(o, rs, rule.id, rule.action, s, st).1 == Effect(rule, s, st)
    ensures !rule.action.Score? ==> Acts(o, rs, rule.id, rule.action, s, st).0 == Decide(o, rule, s, st)
    ensures rule.action.Score? ==>
              Decide(o, rule, s, st).None? && Acts(o, rs, rule.id, rule.action, s, st).0 == ByScore(rs, rule.action.points)
  {
  }

  lemma OneRuleRuns(o: Oracle, rs: RuleSet, rule: Rule, s: Subject, st: Store)
    requires s.Req? && rs.rules == [rule]
    ensures var holds := RuleHolds(o, rule, s, st.cache);
            var decision := if holds then Decide(o, rule, s, st) else None;
            Evaluate(o, rs, s, st)
              == (if decision.Some? then decision else ByScore(rs, if holds && rule.action.Score? then rule.action.points else 0),
                  if holds then Effect(rule, s, st) else st)
  {
    StepAt(o, rs.rules, 0, s, st);
    FirstFiringIs(o, rs.rules, 0, s, st);
    assert After(o, rs.rules, 0, s, st) == st && TrueScore(o, rs.rules, 0, s, st) == 0;
  }

  /**
   A file of one rule, on every request: if all its conditions mean it to match, the outcome
   and the state are those of its action; if not, nothing is decided and nothing changes.
   */
  lemma OneRuleDecides(o: Oracle, rs: RuleSet, rule: Rule, s: Subject, st: Store)
    requires s.Req? && rs.rules == [rule]
    ensures Evaluate(o, rs, s, st)
         == (if AllMean(o, rule.conds, s, st.cache) then Acts(o, rs, rule.id, rule.action, s, st) else (None, st))
  {
    RuleMeans(o, rule, s, st.cache);
    OneRuleRuns(o, rs, rule, s, st);
    ActsAsStep(o, rs, rule, s, st);
  }

  /** A file of one response rule: only a block decides, and only blocks, logs and counts have an effect. */
  lemma OneResponseRuleDecides(o: Oracle, rs: RuleSet, rule: Rule, s: Subject, st: Store)
    requires s.Resp? && rs.responseRules == [rule]
    ensures EvaluateResponse(o, rs, s, st)
         == (if !AllMean(o, rule.conds, s, st.cache) || rule.action.Allow? || rule.action.RateLimit? || rule.action.Score?
             then (None, st)
             else Acts(o, rs, rule.id, rule.action, s, st))
  {
    RuleMeans(o, rule, s, st.cache);
    StepAt(o, rs.responseRules, 0, s, st);
    FirstFiringIs(o, rs.responseRules, 0, s, st);
    assert After(o, rs.responseRules, 0, s, st) == st;
  }

  // ── What a whole file decides ──────────────────────────────────────────────

  /** What a rule decides in a state, by what its conditions mean and its action does; scores decide nothing by themselves. */
  ghost function Settles(o: Oracle, rs: RuleSet, r: Rule, s: Subject, st: Store): Option<Outcome> {
    if !AllMean(o, r.conds, s, st.cache) || r.action.Score? || (s.Resp? && !r.action.Block?) then None
    else Acts(o, rs, r.id, r.action, s, st).0
  }

  ghost function Leaves(o: Oracle, rs: RuleSet, r: Rule, s: Subject, st: Store): Store {
    if !AllMean(o, r.conds, s, st.cache) || (s.Resp? && r.action.RateLimit?) then st
    else Acts(o, rs, r.id, r.action, s, st).1
  }

  /** The states between the rules: each rule sees what the ones before it left. */
  ghost predicate Trace(o: Oracle, rs: RuleSet, rules: seq<Rule>, s: Subject, st: Store, states: seq<Store>) {
    && |states| == |rules| + 1 && states[0] == st
    && forall i :: 0 <= i < |rules| ==> states[i + 1] == Leaves(o, rs, rules[i], s, states[i])
  }

  /** The points of the score rules among the first `k` that match. */
  ghost function Points(o: Oracle, rules: seq<Rule>, s: Subject, states: seq<Store>, k: nat): nat
    requires k <= |rules| < |states|
  {
    if k == 0 then 0
    else
      var r := rules[k - 1];
      Points(o, rules, s, states, k - 1)
        + (if r.action.Score? && AllMean(o, r.conds, s, states[k - 1].cache) then r.action.points else 0)
  }

  ghost predicate SettledAt(o: Oracle, rs: RuleSet, rules: seq<Rule>, s: Subject, states: seq<Store>, k: nat)
    requires |states| > |rules|
  {
    && k < |rules| && Settles(o, rs, rules[k], s, states[k]).Some?
    && forall i: nat :: i < k ==> Settles(o, rs, rules[i], s, states[i]).None?
  }

  ghost predicate NeverSettled(o: Oracle, rs: RuleSet, rules: seq<Rule>, s: Subject, states: seq<Store>)
    requires |states| > |rules|
  {
    forall i: nat :: i < |rules| ==> Settles(o, rs, rules[i], s, states[i]).None?
  }

  lemma RuleAsStep(o: Oracle, rs: RuleSet, r: Rule, s: Subject, st: Store)
    ensures Leaves(o, rs, r, s, st) == StepOf(o, r, s, st)
    ensures Settles(o, rs, r, s, st) == (if RuleHolds(o, r, s, st.cache) then Decide(o, r, s, st) else None)
  {
    RuleMeans(o, r, s, st.cache);
  }

  lemma {:induction false} TraceIsAfter(o: Oracle, rs: RuleSet, rules: seq<Rule>, s: Subject, st: Store, states: seq<Store>, k: nat)
    requires Trace(o, rs, rules, s, st, states) && k <= |rules|
    ensures states[k] == After(o, rules, k, s, st)
    ensures Points(o, rules, s, states, k) == TrueScore(o, rules, k, s, st)
  {
    if k > 0 {
      TraceIsAfter(o, rs, rules, s, st, states, k - 1);
      RuleAsStep(o, rs, rules[k - 1], s, states[k - 1]);
      RuleMeans(o, rules[k - 1], s, states[k - 1].cache);
    }
  }

  lemma SettlesAsFires(o: Oracle, rs: RuleSet, rules: seq<Rule>, s: Subject, st: Store, states: seq<Store>, k: nat)
    requires Trace(o, rs, rules, s, st, states) && k < |rules|
    ensures Settles(o, rs, rules[k], s, states[k]) == Fires(o, rules, k, s, st)
  {
    TraceIsAfter(o, rs, rules, s, st, states, k);
    RuleAsStep(o, rs, rules[k], s, states[k]);
  }

  /** The evaluation by position is the trace's: the first rule that settles, with the state after it. */
  lemma ResultIs(o: Oracle, rs: RuleSet, rules: seq<Rule>, s: Subject, st: Store, states: seq<Store>)
    requires Trace(o, rs, rules, s, st, states)
    ensures forall k: nat | SettledAt(o, rs, rules, s, states, k) ::
              FirstFiring(o, rules, 0, s, st) == k < |rules|
              && ResultAt(o, rules, k, s, st) == (Settles(o, rs, rules[k], s, states[k]), states[k + 1])
    ensures NeverSettled(o, rs, rules, s, states) ==>
              FirstFiring(o, rules, 0, s, st) == |rules| && ResultAt(o, rules, |rules|, s, st) == (None, states[|rules|])
  {
    FirstFiringIs(o, rules, 0, s, st);
    forall i: nat | i < |rules| ensures Settles(o, rs, rules[i], s, states[i]) == Fires(o, rules, i, s, st) {
      SettlesAsFires(o, rs, rules, s, st, states, i);
    }
    forall i: nat | i <= |rules| ensures states[i] == After(o, rules, i, s, st) {
      TraceIsAfter(o, rs, rules, s, st, states, i);
    }
  }

  /**
   A whole file, on every request: the first rule that matches and decides gives the verdict,
   each rule seeing what the matching rules before it left; if none does, the request is
   blocked exactly when scoring is on and the points of the matching score rules reach the threshold.
   */
  lemma FileDecides(o: Oracle, rs: RuleSet, s: Subject, st: Store, states: seq<Store>)
    requires s.Req? && Trace(o, rs, rs.rules, s, st, states)
    ensures forall k: nat | SettledAt(o, rs, rs.rules, s, states, k) ::
              Evaluate(o, rs, s, st) == (Settles(o, rs, rs.rules[k], s, states[k]), states[k + 1])
    ensures NeverSettled(o, rs, rs.rules, s, states) ==>
              var n := |rs.rules|;
              var points := Points(o, rs.rules, s, states, n);
              Evaluate(o, rs, s, st)
                == (if 0 < rs.threshold <= points
                    then Some(Blocked("anomaly.score", rs.anomalyStatus,
                                      rs.anomalyMsg + " (score " + Show(Min(points, U32_MAX)) + " >= " + Show(rs.threshold) + ")"))
                    else None, states[n])
  {
    ResultIs(o, rs, rs.rules, s, st, states);
    TraceIsAfter(o, rs, rs.rules, s, st, states, |rs.rules|);
  }

  /** A whole file, on every response: likewise, with no score. */
  lemma ResponseFileDecides(o: Oracle, rs: RuleSet, s: Subject, st: Store, states: seq<Store>)
    requires s.Resp? && Trace(o, rs, rs.responseRules, s, st, states)
    ensures forall k: nat | SettledAt(o, rs, rs.responseRules, s, states, k) ::
              EvaluateResponse(o, rs, s, st) == (Settles(o, rs, rs.responseRules[k], s, states[k]), states[k + 1])
    ensures NeverSettled(o, rs, rs.responseRules, s, states) ==>
              EvaluateResponse(o, rs, s, st) == (None, states[|rs.responseRules|])
  {
    ResultIs(o, rs, rs.responseRules, s, st, states);
  }

  // ── Every value is looked at ───────────────────────────────────────────────

  function BlockOn(rs: RuleSet, id: string, status: nat, msg: string, c: Cond): RuleSet {
    rs.(rules := [Rule(id, Action.Block(status, msg), [c])])
  }

  lemma BlockDecides(o: Oracle, rs: RuleSet, id: string, status: nat, msg: string, c: Cond, s: Subject, st: Store)
    requires s.Req?
    ensures Evaluate(o, BlockOn(rs, id, status, msg, c), s, st).0
         == if Means(o, c, s, st.cache) then Some(Blocked(id, status, msg)) else None
  {
    var rule := Rule(id, Action.Block(status, msg), [c]);
    assert rule.conds[0] == c;
    OneRuleDecides(o, BlockOn(rs, id, status, msg, c), rule, s, st);
  }

  lemma SomeOffered(o: Oracle, c: Cond, s: Subject, cache: Cache, v: string)
    requires !c.op.Cidr? && Offers(o, c.field, s, cache, v) && Asks(o, c.op, Applied(c.transforms, v))
    ensures Satisfied(o, c, s, cache)
  {
  }

  lemma ArgsMean(o: Oracle, t: string, negate: bool, ts: seq<TransformName>, s: Subject, cache: Cache)
    requires s.Req?
    ensures var args := CollectArgs(o, s.req);
            var hit := exists i :: 0 <= i < |args| && Occurs(t, Applied(ts, args[i].1));
            Means(o, Cond(Args, Has(t), negate, ts), s, cache) == (hit != negate)
  {
    var c, args := Cond(Args, Has(t), negate, ts), CollectArgs(o, s.req);
    if i :| 0 <= i < |args| && Occurs(t, Applied(ts, args[i].1)) {
      assert ValueIn(args, args[i].1);
      SomeOffered(o, c, s, cache, args[i].1);
    }
  }

  lemma HeadersMean(o: Oracle, t: string, negate: bool, ts: seq<TransformName>, s: Subject, cache: Cache)
    requires s.Req?
    ensures var hs := s.req.headers;
            var hit := exists i :: 0 <= i < |hs| && HeaderText(hs[i].1).Some? && Occurs(t, Applied(ts, hs[i].1));
            Means(o, Cond(Headers, Has(t), negate, ts), s, cache) == (hit != negate)
  {
    var c, hs := Cond(Headers, Has(t), negate, ts), s.req.headers;
    if i :| 0 <= i < |hs| && HeaderText(hs[i].1).Some? && Occurs(t, Applied(ts, hs[i].1)) {
      assert HeaderText(hs[i].1) == Some(hs[i].1);
      SomeOffered(o, c, s, cache, hs[i].1);
    }
  }

  lemma CookiesMean(o: Oracle, t: string, negate: bool, ts: seq<TransformName>, s: Subject, cache: Cache)
    requires s.Req?
    ensures var cookies := CollectCookies(s.req);
            var hit := exists i :: 0 <= i < |cookies| && Occurs(t, Applied(ts, cookies[i].1));
            Means(o, Cond(Cookies, Has(t), negate, ts), s, cache) == (hit != negate)
  {
    var c, cookies := Cond(Cookies, Has(t), negate, ts), CollectCookies(s.req);
    if i :| 0 <= i < |cookies| && Occurs(t, Applied(ts, cookies[i].1)) {
      assert ValueIn(cookies, cookies[i].1);
      SomeOffered(o, c, s, cache, cookies[i].1);
    }
  }

  /** `args contains t` blocks exactly when some parameter value, after the transforms, holds `t`; negated, exactly when none does. */
  lemma ArgsBlock(o: Oracle, rs: RuleSet, id: string, status: nat, msg: string, t: string, negate: bool,
                  ts: seq<TransformName>, r: Request, at: Moment, st: Store)
    ensures var args := CollectArgs(o, r);
            Evaluate(o, BlockOn(rs, id, status, msg, Cond(Args, Has(t), negate, ts)), Req(r, at), st).0
              == if negate != exists i :: 0 <= i < |args| && Occurs(t, Applied(ts, args[i].1))
                 then Some(Blocked(id, status, msg)) else None
  {
    BlockDecides(o, rs, id, status, msg, Cond(Args, Has(t), negate, ts), Req(r, at), st);
    ArgsMean(o, t, negate, ts, Req(r, at), st.cache);
  }

  /** The same for the values of all headers. */
  lemma HeadersBlock(o: Oracle, rs: RuleSet, id: string, status: nat, msg: string, t: string, negate: bool,
                     ts: seq<TransformName>, r: Request, at: Moment, st: Store)
    ensures Evaluate(o, BlockOn(rs, id, status, msg, Cond(Headers, Has(t), negate, ts)), Req(r, at), st).0
         == if negate != exists i :: 0 <= i < |r.headers| && HeaderText(r.headers[i].1).Some? && Occurs(t, Applied(ts, r.headers[i].1))
            then Some(Blocked(id, status, msg)) else None
  {
    BlockDecides(o, rs, id, status, msg, Cond(Headers, Has(t), negate, ts), Req(r, at), st);
    HeadersMean(o, t, negate, ts, Req(r, at), st.cache);
  }

  /** The same for the values of all cookies. */
  lemma CookiesBlock(o: Oracle, rs: RuleSet, id: string, status: nat, msg: string, t: string, negate: bool,
                     ts: seq<TransformName>, r: Request, at: Moment, st: Store)
    ensures var cookies := CollectCookies(r);
            Evaluate(o, BlockOn(rs, id, status, msg, Cond(Cookies, Has(t), negate, ts)), Req(r, at), st).0
              == if negate != exists i :: 0 <= i < |cookies| && Occurs(t, Applied(ts, cookies[i].1))
                 then Some(Blocked(id, status, msg)) else None
  {
    BlockDecides(o, rs, id, status, msg, Cond(Cookies, Has(t), negate, ts), Req(r, at), st);
    CookiesMean(o, t, negate, ts, Req(r, at), st.cache);
  }
}
