/**
 The rule evaluator. Conditions are read against one request or response and the
 per-client counters; a fold over the rules then decides, and changes the shared state.
 */
module Engine {
  import opened Text
  import opened Common
  import opened Counters
  import opened Rules
  import Clock
  import Forms
  import Json
  import Multipart
  import Parser

  /** Seconds on the monotonic clock that counters and limiters use, and on the wall clock. */
  datatype Moment = Moment(mono: nat, wall: nat)

  /** What a rule is evaluated against. */
  datatype Subject =
    | Req(req: Request, at: Moment)
    | Resp(resp: Response, at: Moment)

  function Client(s: Subject): Common.Ip {
    match s case Req(r, _) => r.ip case Resp(r, _) => r.ip
  }

  // ── Candidate values ───────────────────────────────────────────────────────

  function Opt(v: Option<string>): seq<string> {
    match v case Some(s) => [s] case None => []
  }

  /** Parameters a buffered body contributes, by content type. */
  function BodyArgs(o: Oracle, body: string, contentType: string): Pairs {
    var ct := Lower(contentType);
    if Prefixed(ct, "application/x-www-form-urlencoded") then Forms.ParsedPairs(body)
    else if Prefixed(ct, "application/json") || Prefixed(ct, "text/json") || Suffixed(ct, "+json") then
      (match o.parseJson(body) case Some(v) => Json.Flatten("", v) case None => [])
    else if Prefixed(ct, "multipart/form-data") then Multipart.ParsedMultipart(body, contentType)
    else []
  }

  /** `collect_args`: query parameters, then body parameters. */
  function CollectArgs(o: Oracle, r: Request): Pairs {
    (match r.query case Some(q) => Forms.ParsedPairs(q) case None => [])
      + (match (r.body, HeaderStr(r.headers, "content-type"))
         case (Buffered(b), Some(ct)) => BodyArgs(o, b, ct)
         case _ => [])
  }

  function CookiePair(part: string): Option<(string, string)> {
    var p := Trim(part);
    if p == "" then None
    else match SplitOnce(p, '=')
      case Some((k, v)) => Some((Trim(k), Trim(v)))
      case None => Some((p, ""))
  }

  function CollectCookies(r: Request): Pairs {
    match HeaderStr(r.headers, "cookie")
    case Some(c) => FilterMap(CookiePair, Split(c, ';'))
    case None => []
  }

  function Names(ps: Pairs): seq<string> { seq(|ps|, i requires 0 <= i < |ps| => ps[i].0) }

  function Values(ps: Pairs): seq<string> { seq(|ps|, i requires 0 <= i < |ps| => ps[i].1) }

  function ValuesOf(ps: Pairs, name: string): seq<string> {
    FilterMap((p: (string, string)) => if p.0 == name then Some(p.1) else None, ps)
  }

  function RequestCandidates(o: Oracle, f: Field, r: Request, at: Moment, cache: Cache): seq<string> {
    match f
    case Counter(name) => [Show(Lookup(cache, Key(name, r.ip), at.mono))]
    case Method => [r.verb]
    case Path => [r.path]
    case Query => [match r.query case Some(q) => q case None => ""]
    case Uri => [match r.query case Some(q) => r.path + "?" + q case None => r.path]
    case Header(name) => Opt(HeaderStr(r.headers, name))
    case Body => (match r.body case Buffered(b) => [b] case _ => [])
    case Ip => [r.ip]
    case Country => Opt(r.geo)
    case Arg(name) => ValuesOf(CollectArgs(o, r), name)
    case ArgNames => Names(CollectArgs(o, r))
    case ArgsCount => [Show(|CollectArgs(o, r)|)]
    case Cookie(name) => ValuesOf(CollectCookies(r), name)
    case CookieNames => Names(CollectCookies(r))
    case Args => Values(CollectArgs(o, r))
    case Headers => FilterMap((h: (string, string)) => HeaderText(h.1), r.headers)
    case HeaderNames => Names(r.headers)
    case Cookies => Values(CollectCookies(r))
    case Time => [Show(Clock.UtcMinutes(at.wall))]
    case Day => [Show(Clock.EpochMinutes(at.wall))]
    case Status => []
    case RespHeader(_) => []
    case RespBody => []
  }

  function ResponseCandidates(f: Field, r: Response, at: Moment, cache: Cache): seq<string> {
    match f
    case Status => [Show(r.status)]
    case RespHeader(name) => Opt(HeaderStr(r.headers, name))
    case RespBody => (match r.body case Buffered(b) => [b] case _ => [])
    case Ip => [r.ip]
    case Path => [r.path]
    case Counter(name) => [Show(Lookup(cache, Key(name, r.ip), at.mono))]
    case _ => []
  }

  function Candidates(o: Oracle, f: Field, s: Subject, cache: Cache): seq<string> {
    match s
    case Req(r, at) => RequestCandidates(o, f, r, at, cache)
    case Resp(r, at) => ResponseCandidates(f, r, at, cache)
  }

  // ── Operators ──────────────────────────────────────────────────────────────

  function RemoveNulls(s: string): string {
    FilterMap(c => if c == 0 as char then None else Some(c), s)
  }

  function ApplyTransform(t: TransformName, s: string): string {
    match t
    case TLowercase => Lower(s)
    case TUppercase => Upper(s)
    case TUrlDecode => Parser.Decode(s, true, false)
    case TCompressWs => Join(Words(s, ""), " ")
    case TRemoveNulls => RemoveNulls(s)
    case TTrim => Trim(s)
    case TUnknown(_) => s
  }

  function ApplyTransforms(ts: seq<TransformName>, s: string): string
    decreases |ts|
  {
    if ts == [] then s else ApplyTransforms(ts[1..], ApplyTransform(ts[0], s))
  }

  predicate Compare(value: string, holds: int -> bool) {
    match ParseI64(Trim(value)) case Some(v) => holds(v) case None => false
  }

  /** `eval_op` on one candidate. */
  predicate EvalOp(o: Oracle, op: Op, value: string) {
    match op
    case Eq(s) => value == s
    case Ne(s) => value != s
    case Has(s) => Contains(s, value)
    case StartsWith(s) => Prefixed(value, s)
    case EndsWith(s) => Suffixed(value, s)
    case Regex(p) => o.regexMatch(p, value)
    case In(list) => value in list
    case Gt(n) => Compare(value, v => v > n)
    case Lt(n) => Compare(value, v => v < n)
    case Ge(n) => Compare(value, v => v >= n)
    case Le(n) => Compare(value, v => v <= n)
    case DetectSqli => o.sqli(value)
    case DetectXss => o.xss(value)
    case Cidr(_) => false
    case TimeBetween(start, end, offset) =>
      (match ParseUnsigned(Trim(value), 0xFFFF) case Some(t) => Clock.InWindow(t, start, end, offset) case None => false)
    case DayOfWeek(mask, offset) =>
      Compare(value, v => Clock.Weekday(v, offset) in mask)
  }

  /** The `contains` operator asks whether its text occurs anywhere in the value. */
  lemma ContainsOperator(o: Oracle, text: string, value: string)
    ensures EvalOp(o, Has(text), value) <==> Occurs(text, value)
  {
    ContainsIsOccurs(text, value);
  }

  /** A condition holds if any candidate satisfies the operator after the transforms, unless negated. */
  predicate CondHolds(o: Oracle, c: Cond, s: Subject, cache: Cache) {
    var raw :=
      if c.op.Cidr? then o.netContains(c.op.net, Client(s))
      else
        var cands := Candidates(o, c.field, s, cache);
        exists i :: 0 <= i < |cands| && EvalOp(o, c.op, ApplyTransforms(c.transforms, cands[i]));
    raw != c.negate
  }

  predicate RuleHolds(o: Oracle, r: Rule, s: Subject, cache: Cache) {
    forall i :: 0 <= i < |r.conds| ==> CondHolds(o, r.conds[i], s, cache)
  }

  // ── Shared state ───────────────────────────────────────────────────────────

  datatype Outcome =
    | Blocked(ruleId: string, status: nat, reason: string)
    | Allowed(ruleId: string)
    | Limited(ruleId: string, retryAfter: nat)

  /** Counters, the check times of each limiter by client, and the tally of `log` matches. */
  datatype Store = Store(cache: Cache, buckets: map<(nat, Common.Ip), seq<nat>>, logHits: nat)

  function Checks(st: Store, slot: nat, ip: Common.Ip): seq<nat> {
    if (slot, ip) in st.buckets then st.buckets[(slot, ip)] else []
  }

  /** What a matching rule decides, if anything. Response-phase rules can only block. */
  function Decide(o: Oracle, r: Rule, s: Subject, st: Store): Option<Outcome> {
    match r.action
    case Block(status, msg) => Some(Blocked(r.id, status, msg))
    case Allow => if s.Req? then Some(Allowed(r.id)) else None
    case RateLimit(slot, quota) =>
      if s.Resp? then None
      else (match o.throttle(quota, Checks(st, slot, Client(s)) + [s.at.mono])
            case Some(retry) => Some(Limited(r.id, retry))
            case None => None)
    case _ => None
  }

  /** What a matching rule leaves behind. */
  function Effect(r: Rule, s: Subject, st: Store): Store {
    match r.action
    case Log => st.(logHits := (st.logHits + 1) % (U64_MAX + 1))
    case RateLimit(slot, _) =>
      if s.Resp? then st
      else st.(buckets := st.buckets[(slot, Client(s)) := Checks(st, slot, Client(s)) + [s.at.mono]])
    case Incr(counter, amount, window) =>
      st.(cache := Bumped(st.cache, Key(counter, Client(s)), amount, window, s.at.mono))
    case _ => st
  }

  // ── The evaluation, stated by position ─────────────────────────────────────

  /** What one rule leaves behind: its effect if it matches. */
  function StepOf(o: Oracle, r: Rule, s: Subject, prev: Store): Store {
    if RuleHolds(o, r, s, prev.cache) then Effect(r, s, prev) else prev
  }

  /** The state after the first `k` rules had their effect, had none of them decided. */
  function After(o: Oracle, rules: seq<Rule>, k: nat, s: Subject, st: Store): Store
    requires k <= |rules|
  {
    if k == 0 then st else StepOf(o, rules[k - 1], s, After(o, rules, k - 1, s, st))
  }

  /** What rule `k` decides in the state that the rules before it leave. */
  function Fires(o: Oracle, rules: seq<Rule>, k: nat, s: Subject, st: Store): Option<Outcome>
    requires k < |rules|
  {
    var now := After(o, rules, k, s, st);
    if RuleHolds(o, rules[k], s, now.cache) then Decide(o, rules[k], s, now) else None
  }

  /** Whether rule `i` decides. */
  function Deciding(o: Oracle, rules: seq<Rule>, s: Subject, st: Store): nat -> bool {
    (i: nat) => i < |rules| && Fires(o, rules, i, s, st).Some?
  }

  /** The first deciding rule at or after `k`; the number of rules if there is none. */
  function FirstFiring(o: Oracle, rules: seq<Rule>, k: nat, s: Subject, st: Store): (r: nat)
    requires k <= |rules|
    ensures k <= r <= |rules|
  {
    FirstTrue(Deciding(o, rules, s, st), k, |rules|)
  }

  /** The points of matching score rules among the first `k`, with no cap. */
  function TrueScore(o: Oracle, rules: seq<Rule>, k: nat, s: Subject, st: Store): nat
    requires k <= |rules|
  {
    if k == 0 then 0
    else
      var prev := After(o, rules, k - 1, s, st);
      TrueScore(o, rules, k - 1, s, st)
        + (if RuleHolds(o, rules[k - 1], s, prev.cache) && rules[k - 1].action.Score? then rules[k - 1].action.points else 0)
  }

  function AnomalyReason(rs: RuleSet, score: nat): string {
    rs.anomalyMsg + " (score " + Show(score) + " >= " + Show(rs.threshold) + ")"
  }

  /** What rule `f` decides and the state then, for the first deciding rule; past the end, no decision. */
  function ResultAt(o: Oracle, rules: seq<Rule>, f: nat, s: Subject, st: Store): (Option<Outcome>, Store)
    requires f <= |rules|
  {
    if f < |rules| then (Fires(o, rules, f, s, st), After(o, rules, f + 1, s, st))
    else (None, After(o, rules, f, s, st))
  }

  /** What the score decides, if no rule does. */
  function ByScore(rs: RuleSet, total: nat): Option<Outcome> {
    if rs.threshold > 0 && total >= rs.threshold
    then Some(Blocked("anomaly.score", rs.anomalyStatus, AnomalyReason(rs, Min(total, U32_MAX))))
    else None
  }

  /** The verdict on a request and the state it leaves. */
  function Evaluate(o: Oracle, rs: RuleSet, s: Subject, st: Store): (Option<Outcome>, Store)
    requires s.Req?
  {
    var f, n := FirstFiring(o, rs.rules, 0, s, st), |rs.rules|;
    var (outcome, final) := ResultAt(o, rs.rules, f, s, st);
    (if f < n then outcome else ByScore(rs, TrueScore(o, rs.rules, n, s, st)), final)
  }

  /** The verdict on a response and the state it leaves. */
  function EvaluateResponse(o: Oracle, rs: RuleSet, s: Subject, st: Store): (Option<Outcome>, Store)
    requires s.Resp?
  {
    ResultAt(o, rs.responseRules, FirstFiring(o, rs.responseRules, 0, s, st), s, st)
  }

  /** One rule further: the state, the first deciding rule and the score, from what rule `i` does. */
  lemma StepAt(o: Oracle, rules: seq<Rule>, i: nat, s: Subject, st: Store)
    requires i < |rules|
    ensures var prev, rule := After(o, rules, i, s, st), rules[i];
            var holds := RuleHolds(o, rule, s, prev.cache);
            && After(o, rules, i + 1, s, st) == (if holds then Effect(rule, s, prev) else prev)
            && Fires(o, rules, i, s, st) == (if holds then Decide(o, rule, s, prev) else None)
            && FirstFiring(o, rules, i, s, st)
               == (if Fires(o, rules, i, s, st).Some? then i else FirstFiring(o, rules, i + 1, s, st))
            && TrueScore(o, rules, i + 1, s, st)
               == TrueScore(o, rules, i, s, st) + (if holds && rule.action.Score? then rule.action.points else 0)
  {
  }

  // ── The evaluator itself ───────────────────────────────────────────────────

  /** The stage that owns the counters, the limiters and the log tally. */
  class RulesStage {
    const counters: CounterStore
    var buckets: map<(nat, Common.Ip), seq<nat>>
    var logHits: nat

    constructor ()
      ensures fresh(counters) && View() == Store(map[], map[], 0)
    {
      counters := new CounterStore();
      buckets := map[];
      logHits := 0;
    }

    ghost function View(): Store
      reads this, counters
    {
      Store(counters.cache, buckets, logHits)
    }

    /** A rule's own limiter, asked once for a client. */
    method CheckLimit(o: Oracle, slot: nat, quota: Quota, ip: Common.Ip, mono: nat) returns (wait: Option<nat>)
      modifies this
      ensures var times := (if (slot, ip) in old(buckets) then old(buckets)[(slot, ip)] else []) + [mono];
              buckets == old(buckets)[(slot, ip) := times] && wait == o.throttle(quota, times)
      ensures logHits == old(logHits)
    {
      var times := (if (slot, ip) in buckets then buckets[(slot, ip)] else []) + [mono];
      buckets := buckets[(slot, ip) := times];
      wait := o.throttle(quota, times);
    }

    /** What one matching rule does: decide, or leave its effect behind, with its points. */
    method ApplyRule(o: Oracle, rule: Rule, r: Request, at: Moment) returns (outcome: Option<Outcome>, points: nat)
      modifies this, counters
      ensures outcome == Decide(o, rule, Req(r, at), old(View()))
      ensures View() == Effect(rule, Req(r, at), old(View()))
      ensures points == if rule.action.Score? then rule.action.points else 0
    {
      outcome, points := None, 0;
      match rule.action {
        case Block(status, msg) => outcome := Some(Blocked(rule.id, status, msg));
        case Allow => outcome := Some(Allowed(rule.id));
        case Log => logHits := (logHits + 1) % (U64_MAX + 1);
        case RateLimit(slot, quota) =>
          var wait := CheckLimit(o, slot, quota, r.ip, at.mono);
          if wait.Some? { outcome := Some(Limited(rule.id, wait.value)); }
        case Score(n) => points := n;
        case Incr(counter, amount, window) =>
          var _ := counters.Incr(counter, r.ip, amount, window, at.mono);
      }
    }

    /** `evaluate_inner`: one pass with a saturating score. */
    method EvaluateInner(o: Oracle, rs: RuleSet, r: Request, at: Moment) returns (outcome: Option<Outcome>)
      modifies this, counters
      ensures (outcome, View()) == Evaluate(o, rs, Req(r, at), old(View()))
    {
      ghost var st, s := View(), Req(r, at);
      var scoreTotal := 0;
      for i := 0 to |rs.rules|
        invariant View() == After(o, rs.rules, i, s, st)
        invariant FirstFiring(o, rs.rules, 0, s, st) == FirstFiring(o, rs.rules, i, s, st)
        invariant scoreTotal == Min(TrueScore(o, rs.rules, i, s, st), U32_MAX)
      {
        StepAt(o, rs.rules, i, s, st);
        var holds := RuleHolds(o, rs.rules[i], Req(r, at), counters.cache);
        if holds {
          var points: nat;
          outcome, points := ApplyRule(o, rs.rules[i], r, at);
          if outcome.Some? { return; }
          scoreTotal := SatAdd(scoreTotal, points, U32_MAX);
        }
      }
      if rs.threshold > 0 && scoreTotal >= rs.threshold {
        return Some(Blocked("anomaly.score", rs.anomalyStatus, AnomalyReason(rs, scoreTotal)));
      }
      return None;
    }

    /** What one matching response rule does; only a block decides. */
    method ApplyResponseRule(rule: Rule, r: Response, at: Moment, ghost o: Oracle) returns (outcome: Option<Outcome>)
      modifies this, counters
      ensures outcome == Decide(o, rule, Resp(r, at), old(View()))
      ensures View() == Effect(rule, Resp(r, at), old(View()))
    {
      outcome := None;
      match rule.action {
        case Block(status, msg) => outcome := Some(Blocked(rule.id, status, msg));
        case Log => logHits := (logHits + 1) % (U64_MAX + 1);
        case Incr(counter, amount, window) =>
          var _ := counters.Incr(counter, r.ip, amount, window, at.mono);
        case Allow =>
        case RateLimit(_, _) =>
        case Score(_) =>
      }
    }

    /** `evaluate_response`. */
    method EvaluateResponseRules(o: Oracle, rs: RuleSet, r: Response, at: Moment) returns (outcome: Option<Outcome>)
      modifies this, counters
      ensures (outcome, View()) == EvaluateResponse(o, rs, Resp(r, at), old(View()))
    {
      ghost var st, s := View(), Resp(r, at);
      for i := 0 to |rs.responseRules|
        invariant View() == After(o, rs.responseRules, i, s, st)
        invariant FirstFiring(o, rs.responseRules, 0, s, st) == FirstFiring(o, rs.responseRules, i, s, st)
      {
        StepAt(o, rs.responseRules, i, s, st);
        var holds := RuleHolds(o, rs.responseRules[i], Resp(r, at), counters.cache);
        if holds {
          outcome := ApplyResponseRule(rs.responseRules[i], r, at, o);
          if outcome.Some? { return; }
        }
      }
      return None;
    }
  }

  // ── Characterisation ───────────────────────────────────────────────────────

  lemma FirstFiringIs(o: Oracle, rules: seq<Rule>, k: nat, s: Subject, st: Store)
    requires k <= |rules|
    ensures var f := FirstFiring(o, rules, k, s, st);
            && (f < |rules| ==> Fires(o, rules, f, s, st).Some?)
            && (forall i :: k <= i < f ==> Fires(o, rules, i, s, st).None?)
  {
    var p := Deciding(o, rules, s, st);
    FirstTrueIs(p, k, |rules|);
    forall i | k <= i < FirstFiring(o, rules, k, s, st) ensures Fires(o, rules, i, s, st).None? { assert !p(i); }
  }

  /** The first deciding rule depends only on which rules decide. */
  lemma SameFiring(o: Oracle, rules: seq<Rule>, k: nat, s: Subject, st: Store, s': Subject, st': Store)
    requires k <= |rules| && forall i :: 0 <= i < |rules| ==> Fires(o, rules, i, s, st) == Fires(o, rules, i, s', st')
    ensures FirstFiring(o, rules, k, s, st) == FirstFiring(o, rules, k, s', st')
  {
    FirstTrueSame(Deciding(o, rules, s, st), Deciding(o, rules, s', st'), k, |rules|);
  }

  ghost predicate NoneDecides(o: Oracle, rules: seq<Rule>, n: nat, s: Subject, st: Store) {
    n <= |rules| && forall i :: 0 <= i < n ==> Fires(o, rules, i, s, st).None?
  }

  ghost predicate FirstDecides(o: Oracle, rules: seq<Rule>, k: nat, s: Subject, st: Store) {
    k < |rules| && Fires(o, rules, k, s, st).Some? && NoneDecides(o, rules, k, s, st)
  }

  lemma FirstFiringAt(o: Oracle, rules: seq<Rule>, from: nat, k: nat, s: Subject, st: Store)
    requires from <= k && FirstDecides(o, rules, k, s, st)
    ensures FirstFiring(o, rules, from, s, st) == k
  {
    FirstTrueAt(Deciding(o, rules, s, st), from, |rules|, k);
  }

  /** Rules at or after position `k` have no part in what happens before it. */
  lemma {:induction false} PrefixOnly(o: Oracle, a: seq<Rule>, b: seq<Rule>, k: nat, s: Subject, st: Store)
    requires k <= |a| && k <= |b| && a[..k] == b[..k]
    ensures After(o, a, k, s, st) == After(o, b, k, s, st)
    ensures TrueScore(o, a, k, s, st) == TrueScore(o, b, k, s, st)
  {
    if k > 0 {
      assert a[..k - 1] == a[..k][..k - 1] && b[..k - 1] == b[..k][..k - 1];
      assert a[k - 1] == a[..k][k - 1] && b[k - 1] == b[..k][k - 1];
      PrefixOnly(o, a, b, k - 1, s, st);
    }
  }

  lemma PrefixFires(o: Oracle, a: seq<Rule>, b: seq<Rule>, n: nat, i: nat, s: Subject, st: Store)
    requires i < n <= |a| && n <= |b| && a[..n] == b[..n]
    ensures Fires(o, a, i, s, st) == Fires(o, b, i, s, st)
  {
    assert a[..i] == a[..n][..i] && b[..i] == b[..n][..i];
    assert a[i] == a[..n][i] && b[i] == b[..n][i];
    PrefixOnly(o, a, b, i, s, st);
  }

  /** After the deciding rule, any other continuation of the rule file gives the same verdict and the same state. */
  lemma LaterRulesIrrelevant(o: Oracle, rs: RuleSet, other: RuleSet, s: Subject, st: Store)
    requires s.Req?
    requires var k := FirstFiring(o, rs.rules, 0, s, st);
             k < |rs.rules| && k < |other.rules| && rs.rules[..k + 1] == other.rules[..k + 1]
    ensures Evaluate(o, rs, s, st) == Evaluate(o, other, s, st)
  {
    var k := FirstFiring(o, rs.rules, 0, s, st);
    FirstFiringIs(o, rs.rules, 0, s, st);
    forall i | 0 <= i <= k ensures Fires(o, rs.rules, i, s, st) == Fires(o, other.rules, i, s, st) {
      PrefixFires(o, rs.rules, other.rules, k + 1, i, s, st);
    }
    PrefixOnly(o, rs.rules, other.rules, k + 1, s, st);
    FirstFiringAt(o, other.rules, 0, k, s, st);
  }

  /**
   The verdict on a request is that of the first rule that both holds and decides, each
   judged in the state left by the matching rules before it; with no such rule the request
   is blocked exactly when scoring is on and the true sum of points reaches the threshold.
   */
  lemma EvaluateCharacterised(o: Oracle, rs: RuleSet, s: Subject, st: Store)
    requires s.Req?
    ensures var (outcome, final) := Evaluate(o, rs, s, st);
            && (forall k: nat | FirstDecides(o, rs.rules, k, s, st) ::
                  outcome == Fires(o, rs.rules, k, s, st) && final == After(o, rs.rules, k + 1, s, st))
            && (NoneDecides(o, rs.rules, |rs.rules|, s, st) ==>
                  && final == After(o, rs.rules, |rs.rules|, s, st)
                  && (outcome.Some? <==> 0 < rs.threshold <= TrueScore(o, rs.rules, |rs.rules|, s, st))
                  && (outcome.Some? ==> outcome.value.Blocked? && outcome.value.ruleId == "anomaly.score"))
  {
    FirstFiringIs(o, rs.rules, 0, s, st);
    forall k: nat | FirstDecides(o, rs.rules, k, s, st) ensures FirstFiring(o, rs.rules, 0, s, st) == k {
      FirstFiringAt(o, rs.rules, 0, k, s, st);
    }
  }

  // ── Response bodies ────────────────────────────────────────────────────────

  predicate SameButBody(a: Subject, b: Subject) {
    a.Resp? && b.Resp? && a.at == b.at && a.resp == b.resp.(body := a.resp.body)
  }

  /** No condition of these rules reads the response body. */
  predicate BodyUnread(rules: seq<Rule>) {
    forall i, j :: 0 <= i < |rules| && 0 <= j < |rules[i].conds| ==> !rules[i].conds[j].field.RespBody?
  }

  lemma BodyBlindRule(o: Oracle, r: Rule, a: Subject, b: Subject, cache: Cache)
    requires SameButBody(a, b)
    requires forall j :: 0 <= j < |r.conds| ==> !r.conds[j].field.RespBody?
    ensures RuleHolds(o, r, a, cache) == RuleHolds(o, r, b, cache)
  {
    forall j | 0 <= j < |r.conds| ensures CondHolds(o, r.conds[j], a, cache) == CondHolds(o, r.conds[j], b, cache) {
      assert Candidates(o, r.conds[j].field, a, cache) == Candidates(o, r.conds[j].field, b, cache);
    }
  }

  /** What one rule leaves behind does not depend on a body it does not read. */
  lemma BodyBlindStep(o: Oracle, r: Rule, a: Subject, b: Subject, prev: Store)
    requires SameButBody(a, b) && forall j :: 0 <= j < |r.conds| ==> !r.conds[j].field.RespBody?
    ensures StepOf(o, r, a, prev) == StepOf(o, r, b, prev)
  {
    BodyBlindRule(o, r, a, b, prev.cache);
  }

  lemma {:induction false} BodyBlindAfter(o: Oracle, rules: seq<Rule>, k: nat, a: Subject, b: Subject, st: Store)
    requires k <= |rules| && SameButBody(a, b) && BodyUnread(rules)
    ensures After(o, rules, k, a, st) == After(o, rules, k, b, st)
  {
    if k > 0 {
      BodyBlindAfter(o, rules, k - 1, a, b, st);
      BodyBlindStep(o, rules[k - 1], a, b, After(o, rules, k - 1, a, st));
    }
  }

  lemma BodyBlindFires(o: Oracle, rules: seq<Rule>, k: nat, a: Subject, b: Subject, st: Store)
    requires k < |rules| && SameButBody(a, b) && BodyUnread(rules)
    ensures Fires(o, rules, k, a, st) == Fires(o, rules, k, b, st)
  {
    BodyBlindAfter(o, rules, k, a, b, st);
    BodyBlindRule(o, rules[k], a, b, After(o, rules, k, a, st).cache);
  }

  /** When no response rule asks for the body, verdict, tally and counters are the same whatever the body is. */
  lemma ResponseBodyInvisible(o: Oracle, rs: RuleSet, a: Subject, b: Subject, st: Store)
    requires SameButBody(a, b) && !NeedsResponseBody(rs)
    ensures EvaluateResponse(o, rs, a, st) == EvaluateResponse(o, rs, b, st)
  {
    var rules := rs.responseRules;
    forall i | 0 <= i < |rules| ensures Fires(o, rules, i, a, st) == Fires(o, rules, i, b, st) {
      BodyBlindFires(o, rules, i, a, b, st);
    }
    SameFiring(o, rules, 0, a, st, b, st);
    var k := FirstFiring(o, rules, 0, a, st);
    BodyBlindAfter(o, rules, if k < |rules| then k + 1 else k, a, b, st);
  }
}
