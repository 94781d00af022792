/** The stack `from_config` builds: none of its early stages ever stops a request with `Allow`. */
module StandardPipeline {
  import opened Text
  import opened Common
  import opened Pipeline
  import Engine
  import Rules
  import Signatures

  /** The value a request context has between two stages. */
  datatype Ctx = Ctx(req: Request, normalized: NormalizedCache)

  datatype GeoPolicy = GeoPolicy(lookup: Ip -> Option<string>, allow: seq<string>, block: seq<string>)

  datatype Limits = Limits(maxUriLen: nat, maxHeaderCount: nat)

  /** The shared state the early stages consult for one request. */
  datatype Setting = Setting(listed: Ip -> bool, geo: Option<GeoPolicy>, limiter: Ip -> Option<nat>, limits: Limits)

  function ReputationStage(listed: Ip -> bool): Stage<Ctx> {
    (c: Ctx) =>
      (c, if listed(c.req.ip) then Stop(Block("reputation.blocklist", 403, "source IP is blocklisted")) else Go)
  }

  predicate CountryPermitted(geo: Option<string>, allow: seq<string>, block: seq<string>) {
    match geo
    case Some(cc) => if allow != [] then cc in allow else cc !in block
    case None => allow == []
  }

  function GeoStage(g: GeoPolicy): Stage<Ctx> {
    (c: Ctx) =>
      var geo := g.lookup(c.req.ip);
      (c.(req := c.req.(geo := geo)),
       if CountryPermitted(geo, g.allow, g.block) then Go
       else Stop(Block("geoip.country", 403, "source country not permitted")))
  }

  function RateLimitStage(limiter: Ip -> Option<nat>): Stage<Ctx> {
    (c: Ctx) => (c, match limiter(c.req.ip) case Some(retry) => Stop(RateLimited(retry)) case None => Go)
  }

  function UriLen(r: Request): nat { |r.path| + (match r.query case Some(q) => |q| + 1 case None => 0) }

  /** A Content-Length that is absent, or text holding a 64-bit count. */
  predicate GoodContentLength(headers: Headers) {
    match GetHeader(headers, "content-length")
    case None => true
    case Some(v) =>
      match HeaderText(v)
      case None => false
      case Some(t) => ParseUnsigned(Trim(t), U64_MAX).Some?
  }

  function SanityVerdict(l: Limits, r: Request): Verdict {
    if UriLen(r) > l.maxUriLen then Stop(Block("sanity.uri_len", 414, "request URI exceeds configured limit"))
    else if |r.headers| > l.maxHeaderCount then Stop(Block("sanity.header_count", 431, "too many request headers"))
    else if !GoodContentLength(r.headers) then Stop(Block("sanity.content_length", 400, "malformed Content-Length"))
    else Go
  }

  function SanityStage(l: Limits): Stage<Ctx> { (c: Ctx) => (c, SanityVerdict(l, c.req)) }

  function NormalizeStage(): Stage<Ctx> {
    (c: Ctx) => (c.(normalized := Signatures.Filled(c.req)), Go)
  }

  /** The early stack, in the order `from_config` pushes it. */
  function EarlyStack(s: Setting): seq<Stage<Ctx>> {
    [ReputationStage(s.listed)]
    + (match s.geo case Some(g) => [GeoStage(g)] case None => [])
    + [RateLimitStage(s.limiter), SanityStage(s.limits), NormalizeStage()]
  }

  /** The same stage, except that it panics on some contexts and leaves them in some other state. */
  function Failing(stage: Stage<Ctx>, fails: Ctx -> Option<Ctx>): Stage<Ctx> {
    (c: Ctx) => match fails(c) case Some(left) => (left, Panic) case None => stage(c)
  }

  ghost predicate NeverAllows(stage: Stage<Ctx>) { forall c: Ctx :: stage(c).1 != Stop(Allow) }

  /** `early` is the standard stack, each stage of which may panic in its own way. */
  ghost predicate StandardEarly(s: Setting, early: seq<Stage<Ctx>>) {
    && |early| == |EarlyStack(s)|
    && forall i :: 0 <= i < |early| ==> exists fails :: early[i] == Failing(EarlyStack(s)[i], fails)
  }

  lemma EarlyStackNeverAllows(s: Setting, i: nat)
    requires i < |EarlyStack(s)|
    ensures NeverAllows(EarlyStack(s)[i])
  {
  }

  /** For every standard stack, settings, panics, late stages and policy, the two halves are one run. */
  lemma StandardEvaluatesAsOneRun(policy: OnError, s: Setting, early: seq<Stage<Ctx>>, late: seq<Stage<Ctx>>, c: Ctx)
    requires StandardEarly(s, early)
    ensures Evaluate(policy, early, late, c) == Outcome(policy, early + late, c)
  {
    forall k: nat | StopsAt(policy, early, c, k) ensures VerdictAt(early, c, k) != Stop(Allow) {
      EarlyStackNeverAllows(s, k);
      var fails :| early[k] == Failing(EarlyStack(s)[k], fails);
    }
    EvaluateIsOneRun(policy, early, late, c);
  }

  // ── What the early stages decide ───────────────────────────────────────────

  /** A `Content-Length` is fine if it is missing, or is text that is a 64-bit count, spaces aside. */
  predicate LengthReads(headers: Headers) {
    match GetHeader(headers, "content-length")
    case None => true
    case Some(v) => HeaderText(v).Some? && ParseUnsigned(Trim(v), U64_MAX).Some?
  }

  /** An allow list admits its countries alone, so nobody of unknown origin; a block list counts only without one. */
  predicate FromPermitted(g: GeoPolicy, country: Option<string>) {
    if g.allow != [] then country.Some? && country.value in g.allow
    else country.Some? ==> country.value !in g.block
  }

  /** The first reason that the early stages have against a request, told from the settings. */
  function Reason(s: Setting, r: Request): Option<WafDecision> {
    var length := |r.path| + (if r.query.Some? then 1 + |r.query.value| else 0);
    if s.listed(r.ip) then Some(Block("reputation.blocklist", 403, "source IP is blocklisted"))
    else if s.geo.Some? && !FromPermitted(s.geo.value, s.geo.value.lookup(r.ip)) then
      Some(Block("geoip.country", 403, "source country not permitted"))
    else if s.limiter(r.ip).Some? then Some(RateLimited(s.limiter(r.ip).value))
    else if s.limits.maxUriLen < length then Some(Block("sanity.uri_len", 414, "request URI exceeds configured limit"))
    else if s.limits.maxHeaderCount < |r.headers| then Some(Block("sanity.header_count", 431, "too many request headers"))
    else if !LengthReads(r.headers) then Some(Block("sanity.content_length", 400, "malformed Content-Length"))
    else None
  }

  lemma Permitted(g: GeoPolicy, country: Option<string>)
    ensures CountryPermitted(country, g.allow, g.block) <==> FromPermitted(g, country)
  {
  }

  /** The request as the geo stage leaves it. */
  function Located(s: Setting, c: Ctx): Ctx {
    match s.geo case Some(g) => c.(req := c.req.(geo := g.lookup(c.req.ip))) case None => c
  }

  lemma TailDecides(policy: OnError, s: Setting, c: Ctx)
    requires !s.listed(c.req.ip) && (s.geo.Some? ==> FromPermitted(s.geo.value, s.geo.value.lookup(c.req.ip)))
    ensures Outcome(policy, [RateLimitStage(s.limiter), SanityStage(s.limits), NormalizeStage()], c)
         == (match Reason(s, c.req)
             case Some(d) => (c, d)
             case None => (c.(normalized := Signatures.Filled(c.req)), Allow))
  {
    var limit, sanity, normal := RateLimitStage(s.limiter), SanityStage(s.limits), NormalizeStage();
    OneStep(policy, limit, [sanity, normal], c);
    OneStep(policy, sanity, [normal], c);
    OneStep(policy, normal, [], c);
    assert [limit] + [sanity, normal] == [limit, sanity, normal] && [sanity] + [normal] == [sanity, normal] && [normal] + [] == [normal];
  }

  /**
   The early half of the standard stack stops a request with the first reason there is against
   it; without one it goes on, located and with its path and query normalised.
   */
  lemma EarlyDecides(policy: OnError, s: Setting, c: Ctx)
    ensures Outcome(policy, EarlyStack(s), c).1 == (match Reason(s, c.req) case Some(d) => d case None => Allow)
    ensures Reason(s, c.req).None? ==>
              Outcome(policy, EarlyStack(s), c).0 == Located(s, c).(normalized := Signatures.Filled(c.req))
  {
    var tail := [RateLimitStage(s.limiter), SanityStage(s.limits), NormalizeStage()];
    var located := Located(s, c);
    if s.geo.Some? {
      var g := s.geo.value;
      Permitted(g, g.lookup(c.req.ip));
      assert EarlyStack(s) == [ReputationStage(s.listed)] + ([GeoStage(g)] + tail);
      OneStep(policy, ReputationStage(s.listed), [GeoStage(g)] + tail, c);
      OneStep(policy, GeoStage(g), tail, c);
    } else {
      assert EarlyStack(s) == [ReputationStage(s.listed)] + tail;
      OneStep(policy, ReputationStage(s.listed), tail, c);
    }
    if !s.listed(c.req.ip) && (s.geo.Some? ==> FromPermitted(s.geo.value, s.geo.value.lookup(c.req.ip))) {
      TailDecides(policy, s, located);
      assert Reason(s, located.req) == Reason(s, c.req);
    }
  }

  // ── What the whole stack decides ───────────────────────────────────────────

  /** `RulesStage::inspect`: what the stage makes of an outcome of the rules. */
  function RulesVerdict(outcome: Option<Engine.Outcome>): Verdict {
    match outcome
    case Some(Blocked(id, status, reason)) => Stop(Block(id, status, reason))
    case Some(Allowed(_)) => Stop(Allow)
    case Some(Limited(_, retry)) => Stop(RateLimited(retry))
    case None => Go
  }

  function RulesStage(rules: Ctx -> Option<Engine.Outcome>): Stage<Ctx> { (c: Ctx) => (c, RulesVerdict(rules(c))) }

  function SignatureStage(inspect: Ctx -> Flow): Stage<Ctx> {
    (c: Ctx) => (c, match inspect(c) case Continue => Go case Break(d) => Stop(d))
  }

  /** The late stack, in the order `from_config` lists it: rules before signatures. */
  function LateStack(rules: Ctx -> Option<Engine.Outcome>, inspect: Ctx -> Flow): seq<Stage<Ctx>> {
    [RulesStage(rules), SignatureStage(inspect)]
  }

  /** The rules have the first word, an `allow` rule the last; without an outcome the signatures decide. */
  function LateAnswer(outcome: Option<Engine.Outcome>, flow: Flow): WafDecision {
    if outcome.None? then (if flow.Break? then flow.decision else Allow)
    else if outcome.value.Allowed? then Allow
    else if outcome.value.Limited? then RateLimited(outcome.value.retryAfter)
    else Block(outcome.value.ruleId, outcome.value.status, outcome.value.reason)
  }

  lemma LateDecides(policy: OnError, rules: Ctx -> Option<Engine.Outcome>, inspect: Ctx -> Flow, c: Ctx)
    ensures Outcome(policy, LateStack(rules, inspect), c) == (c, LateAnswer(rules(c), inspect(c)))
  {
    var first, second := RulesStage(rules), SignatureStage(inspect);
    OneStep(policy, first, [second], c);
    OneStep(policy, second, [], c);
    assert [first] + [second] == LateStack(rules, inspect) && [second] + [] == [second];
  }

  /**
   The standard stack as a whole: the first reason the early stages have against a request; or
   else, on the request located and normalised, what the rules say; or else the signatures.
   */
  lemma StackDecides(policy: OnError, s: Setting, rules: Ctx -> Option<Engine.Outcome>, inspect: Ctx -> Flow, c: Ctx)
    ensures var seen := Located(s, c).(normalized := Signatures.Filled(c.req));
            Outcome(policy, EarlyStack(s) + LateStack(rules, inspect), c).1
              == (match Reason(s, c.req) case Some(d) => d case None => LateAnswer(rules(seen), inspect(seen)))
  {
    var early, late := EarlyStack(s), LateStack(rules, inspect);
    EarlyDecides(policy, s, c);
    LateDecides(policy, rules, inspect, Outcome(policy, early, c).0);
    forall k: nat | StopsAt(policy, early, c, k) ensures VerdictAt(early, c, k) != Stop(Allow) { EarlyStackNeverAllows(s, k); }
    EvaluateIsOneRun(policy, early, late, c);
  }

  // ── The answer that stands for a panic ─────────────────────────────────────

  lemma EarlyStackOwnAnswers(s: Setting, i: nat, c: Ctx)
    requires i < |EarlyStack(s)|
    ensures EarlyStack(s)[i](c).1 != Stop(PanicBlock()) && EarlyStack(s)[i](c).1 != Panic
  {
  }

  /** Among the early stages that answer means a panic, and nothing else does. */
  lemma EarlyBlockMeansPanic(s: Setting, early: seq<Stage<Ctx>>, c: Ctx)
    requires StandardEarly(s, early)
    ensures Outcome(Closed, early, c).1 == PanicBlock()
       <==> exists k: nat :: StopsAt(Closed, early, c, k) && VerdictAt(early, c, k) == Panic
  {
    forall k: nat | StopsAt(Closed, early, c, k) ensures VerdictAt(early, c, k) != Stop(PanicBlock()) {
      EarlyStackOwnAnswers(s, k, StateAfter(early, c, k));
      var fails :| early[k] == Failing(EarlyStack(s)[k], fails);
    }
    ClosedFailsOnPanic(early, c);
  }

  /** A block rule for every path, under the name and wording that stand for a panic. */
  const LOOKALIKE := Rules.RuleDef("pipeline.panic", Rules.RequestPhase, Rules.ABlock, 500, "inspection error", 0, 0, 300, 0, "", 1,
                                   [Rules.CondDef(Rules.FPath, "", Rules.OStartsWith, "", [], false, [], "")])

  function LookalikeRule(): Rules.Rule {
    Rules.Rule("pipeline.panic", Rules.Action.Block(500, "inspection error"),
               [Rules.Cond(Rules.Path, Rules.StartsWith(""), false, [])])
  }

  lemma OneCondition(o: Rules.Oracle, c: Rules.CondDef, k: Rules.Cond, tz: int)
    requires Rules.CompileCond(o, c, tz) == Ok(k)
    ensures Rules.CompileConds(o, [c], tz) == Ok([k])
  {
    assert [c][1..] == [] && [k] + [] == [k];
  }

  lemma LookalikeCompiles(o: Rules.Oracle, tz: int)
    ensures Rules.CompileRule(o, LOOKALIKE, 0, tz) == Ok(LookalikeRule())
  {
    var c, k := LOOKALIKE.when[0], LookalikeRule().conds[0];
    assert LOOKALIKE.when == [c] && LookalikeRule().conds == [k];
    OneCondition(o, c, k, tz);
  }

  lemma LookalikeFires(o: Rules.Oracle, r: Request, at: Engine.Moment, st: Engine.Store)
    ensures Engine.FirstFiring(o, [LookalikeRule()], 0, Engine.Req(r, at), st) == 0
    ensures Engine.Fires(o, [LookalikeRule()], 0, Engine.Req(r, at), st) == Some(Engine.Blocked("pipeline.panic", 500, "inspection error"))
  {
    var s, rule := Engine.Req(r, at), LookalikeRule();
    var cands := Engine.Candidates(o, Rules.Path, s, st.cache);
    assert cands == [r.path] && Engine.ApplyTransforms([], cands[0]) == r.path;
    assert Engine.EvalOp(o, Rules.StartsWith(""), Engine.ApplyTransforms([], cands[0]));
    assert Engine.CondHolds(o, rule.conds[0], s, st.cache);
    assert Engine.RuleHolds(o, rule, s, st.cache);
  }

  /** The late stages can give that answer without any panic: the compiler accepts such a rule, and the stage answers with it. */
  lemma RuleCanLookLikeAPanic(o: Rules.Oracle, tz: int, scoring: Rules.Scoring, r: Request, at: Engine.Moment, st: Engine.Store)
    requires ValidStatus(scoring.status)
    ensures var rs := Rules.CompileSet(o, [LOOKALIKE], scoring, tz);
            rs.Ok? && RulesVerdict(Engine.Evaluate(o, rs.value, Engine.Req(r, at), st).0) == Stop(PanicBlock())
  {
    var defs, rule := [LOOKALIKE], LookalikeRule();
    LookalikeCompiles(o, tz);
    assert defs[0] == LOOKALIKE && defs[..0] == [];
    assert Rules.Compiles(o, defs, tz);
    assert Rules.PhaseRules(o, defs, tz, Rules.RequestPhase) == [rule];
    LookalikeFires(o, r, at, st);
    var rs := Rules.CompileSet(o, defs, scoring, tz).value;
    assert rs.rules == [rule];
  }
}
