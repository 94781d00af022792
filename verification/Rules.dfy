/** Rule definitions, the validating compiler, and what a compiled condition means. */
module Rules {
  import opened Text
  import opened Common
  import Clock
  import Json

  type U32 = n: nat | n <= U32_MAX

  // ── Definitions, as read from the rule file ────────────────────────────────

  /** The `field` keyword; any other text is unknown. */
  datatype FieldName =
    | FMethod | FPath | FQuery | FUri | FHeader | FBody | FIp | FCountry | FStatus | FRespHeader | FRespBody
    | FCounter | FArg | FArgNames | FArgsCount | FCookie | FCookieNames | FArgs | FHeaders | FHeaderNames
    | FCookies | FTime | FDay | FUnknown(text: string)

  /** The `op` keyword. */
  datatype OpName =
    | OEq | ONe | OContains | OStartsWith | OEndsWith | ORegex | OCidr | OIn | OGt | OLt | OGe | OLe
    | OTimeBetween | ODayOfWeek | ODetectSqli | ODetectXss | OUnknown(text: string)

  datatype TransformName =
    | TLowercase | TUppercase | TUrlDecode | TCompressWs | TRemoveNulls | TTrim | TUnknown(text: string)

  datatype CondDef = CondDef(
    field: FieldName,
    name: string,
    op: OpName,
    value: string,
    values: seq<string>,
    negate: bool,
    transform: seq<TransformName>,
    tz: string
  )

  datatype Phase = RequestPhase | ResponsePhase

  datatype ActionName = ABlock | AAllow | ALog | ARateLimit | AScore | AIncr

  datatype RuleDef = RuleDef(
    id: string,
    phase: Phase,
    action: ActionName,
    status: nat,
    msg: string,
    rps: nat,
    burst: nat,
    ttl: nat,
    score: U32,
    counter: string,
    incr: nat,
    when: seq<CondDef>
  )

  datatype Scoring = Scoring(threshold: U32, status: nat, msg: string)

  // ── Compiled form ──────────────────────────────────────────────────────────

  datatype Field =
    | Method | Path | Query | Uri | Header(name: string) | Body | Ip | Country
    | Status | RespHeader(name: string) | RespBody | Counter(name: string)
    | Arg(name: string) | ArgNames | ArgsCount | Cookie(name: string) | CookieNames
    | Args | Headers | HeaderNames | Cookies | Time | Day

  datatype Op =
    | Eq(s: string) | Ne(s: string) | Has(s: string) | StartsWith(s: string) | EndsWith(s: string)
    | Regex(pattern: string) | Cidr(net: string) | In(list: seq<string>)
    | Gt(n: int) | Lt(n: int) | Ge(n: int) | Le(n: int)
    | DetectSqli | DetectXss
    | TimeBetween(start: int, end: int, offset: int)
    | DayOfWeek(mask: set<int>, offset: int)

  datatype Cond = Cond(field: Field, op: Op, negate: bool, transforms: seq<TransformName>)

  datatype Quota = Quota(rps: nat, burst: nat, ttl: nat)

  /** Each `rate_limit` rule owns a limiter, identified by the rule's place in the file. */
  datatype Action =
    | Block(status: nat, msg: string)
    | Allow
    | Log
    | RateLimit(slot: nat, quota: Quota)
    | Score(points: U32)
    | Incr(counter: string, amount: nat, window: nat)

  datatype Rule = Rule(id: string, action: Action, conds: seq<Cond>)

  datatype RuleSet = RuleSet(
    rules: seq<Rule>,
    responseRules: seq<Rule>,
    threshold: U32,
    anomalyStatus: nat,
    anomalyMsg: string
  )

  /** Why a definition is refused. */
  datatype Fault =
    | UnknownField | NameRequired | UnknownOp | BadNumber | BadRegex | CidrNeedsIp | BadCidr | EmptyIn
    | BadTimeOp | BadWindow | BadDayOp | BadDays | BadTz | NeedsFeature | UnknownTransform
    | NoConditions | ResponseFieldInRequest | RequestFieldInResponse | ResponseAction
    | BadStatus | NoRate | NoScore | NoCounter | BadScoring

  datatype RuleError = Invalid(rule: string, fault: Fault)

  /** The crates behind the operators: regex, ipnet, libinjection, serde_json, governor. */
  datatype Oracle = Oracle(
    regexOk: string -> bool,
    regexMatch: (string, string) -> bool,
    parseNet: string -> Option<string>,
    netContains: (string, Common.Ip) -> bool,
    injectionBuilt: bool,
    sqli: string -> bool,
    xss: string -> bool,
    parseJson: string -> Option<Json.Json>,
    /** The limiter's answer after a client's checks at these times: over budget, and for how long. */
    throttle: (Quota, seq<nat>) -> Option<nat>
  )

  // ── compile_cond ───────────────────────────────────────────────────────────

  function Named(c: CondDef, f: Field): Result<Field, Fault> {
    if Trim(c.name) == "" then Err(NameRequired) else Ok(f)
  }

  function CompileField(c: CondDef): Result<Field, Fault> {
    match c.field
    case FMethod => Ok(Method)
    case FPath => Ok(Path)
    case FQuery => Ok(Query)
    case FUri => Ok(Uri)
    case FBody => Ok(Body)
    case FIp => Ok(Ip)
    case FCountry => Ok(Country)
    case FHeader => Named(c, Header(Lower(c.name)))
    case FArg => Named(c, Arg(c.name))
    case FCounter => Named(c, Counter(c.name))
    case FStatus => Ok(Status)
    case FRespHeader => Named(c, RespHeader(Lower(c.name)))
    case FRespBody => Ok(RespBody)
    case FArgNames => Ok(ArgNames)
    case FArgsCount => Ok(ArgsCount)
    case FArgs => Ok(Args)
    case FHeaders => Ok(Headers)
    case FHeaderNames => Ok(HeaderNames)
    case FCookies => Ok(Cookies)
    case FCookie => Named(c, Cookie(c.name))
    case FCookieNames => Ok(CookieNames)
    case FTime => Ok(Time)
    case FDay => Ok(Day)
    case FUnknown(_) => Err(UnknownField)
  }

  /** A rule's own time zone, or the server's when it has none. */
  function ResolveTz(c: CondDef, defaultTz: int): Result<int, Fault> {
    if Trim(c.tz) == "" then Ok(defaultTz)
    else match Clock.ParseTzOffset(c.tz) case Some(t) => Ok(t) case None => Err(BadTz)
  }

  predicate Numeric(op: OpName) { op.OGt? || op.OLt? || op.OGe? || op.OLe? }

  /** A comparison with a number, if the value is one. */
  function NumberOp(op: OpName, value: Option<int>): Result<Op, Fault>
    requires Numeric(op)
  {
    match value
    case None => Err(BadNumber)
    case Some(n) => Ok(if op.OGt? then Gt(n) else if op.OLt? then Lt(n) else if op.OGe? then Ge(n) else Le(n))
  }

  function HoursOp(window: Option<(int, int)>, zone: Result<int, Fault>): Result<Op, Fault> {
    match window
    case None => Err(BadWindow)
    case Some(w) => match zone case Ok(t) => Ok(TimeBetween(w.0, w.1, t)) case Err(e) => Err(e)
  }

  function DaysOp(days: Option<set<int>>, zone: Result<int, Fault>): Result<Op, Fault> {
    match days
    case None => Err(BadDays)
    case Some(mask) => match zone case Ok(t) => Ok(DayOfWeek(mask, t)) case Err(e) => Err(e)
  }

  /** The operators that look at the value alone. */
  function ValueOp(o: Oracle, c: CondDef, field: Field): Result<Op, Fault> {
    match c.op
    case OEq => Ok(Eq(c.value))
    case ONe => Ok(Ne(c.value))
    case OContains => Ok(Has(c.value))
    case OStartsWith => Ok(StartsWith(c.value))
    case OEndsWith => Ok(EndsWith(c.value))
    case ORegex => if o.regexOk(c.value) then Ok(Regex(c.value)) else Err(BadRegex)
    case OCidr =>
      if !field.Ip? then Err(CidrNeedsIp)
      else (match o.parseNet(c.value) case Some(n) => Ok(Cidr(n)) case None => Err(BadCidr))
    case OIn => if c.values == [] then Err(EmptyIn) else Ok(In(c.values))
    case ODetectSqli => if o.injectionBuilt then Ok(DetectSqli) else Err(NeedsFeature)
    case ODetectXss => if o.injectionBuilt then Ok(DetectXss) else Err(NeedsFeature)
    case _ => Err(UnknownOp)
  }

  function CompileOp(o: Oracle, c: CondDef, field: Field, defaultTz: int): Result<Op, Fault> {
    if c.op.OTimeBetween? then
      if !field.Time? then Err(BadTimeOp) else HoursOp(Clock.ParseTimeWindow(c.value), ResolveTz(c, defaultTz))
    else if c.op.ODayOfWeek? then
      if !field.Day? then Err(BadDayOp) else DaysOp(Clock.DayMask(c.value), ResolveTz(c, defaultTz))
    else if Numeric(c.op) then NumberOp(c.op, ParseI64(Trim(c.value)))
    else ValueOp(o, c, field)
  }

  function CompileCond(o: Oracle, c: CondDef, defaultTz: int): Result<Cond, Fault> {
    match CompileField(c)
    case Err(e) => Err(e)
    case Ok(field) =>
      match CompileOp(o, c, field, defaultTz)
      case Err(e) => Err(e)
      case Ok(op) =>
        if field.Time? && !op.TimeBetween? then Err(BadTimeOp)
        else if field.Day? && !op.DayOfWeek? then Err(BadDayOp)
        else if exists i :: 0 <= i < |c.transform| && c.transform[i].TUnknown? then Err(UnknownTransform)
        else Ok(Cond(field, op, c.negate, c.transform))
  }

  /** All conditions of a rule, or the first complaint. */
  function CompileConds(o: Oracle, cs: seq<CondDef>, defaultTz: int): Result<seq<Cond>, Fault> {
    if cs == [] then Ok([])
    else match CompileCond(o, cs[0], defaultTz)
      case Err(e) => Err(e)
      case Ok(c) =>
        match CompileConds(o, cs[1..], defaultTz)
        case Err(e) => Err(e)
        case Ok(rest) => Ok([c] + rest)
  }

  // ── compile_with_tz ────────────────────────────────────────────────────────

  predicate ResponseOnly(f: Field) { f.Status? || f.RespHeader? || f.RespBody? }

  predicate FieldAllowed(phase: Phase, f: Field) {
    match phase
    case RequestPhase => !ResponseOnly(f)
    case ResponsePhase => ResponseOnly(f) || f.Ip? || f.Path? || f.Counter?
  }

  predicate FieldsAllowed(phase: Phase, conds: seq<Cond>) {
    forall i :: 0 <= i < |conds| ==> FieldAllowed(phase, conds[i].field)
  }

  predicate ActionAllowed(phase: Phase, a: ActionName) {
    phase.ResponsePhase? ==> a.ABlock? || a.ALog? || a.AIncr?
  }

  function CompileAction(def: RuleDef, slot: nat): Result<Action, Fault> {
    match def.action
    case ABlock =>
      if ValidStatus(def.status) then Ok(Action.Block(def.status, if def.msg == "" then def.id else def.msg))
      else Err(BadStatus)
    case AAllow => Ok(Action.Allow)
    case ALog => Ok(Log)
    case ARateLimit => if def.rps == 0 then Err(NoRate) else Ok(RateLimit(slot, Quota(def.rps, def.burst, def.ttl)))
    case AScore => if def.score == 0 then Err(NoScore) else Ok(Score(def.score))
    case AIncr => if Trim(def.counter) == "" then Err(NoCounter) else Ok(Incr(def.counter, def.incr, def.ttl))
  }

  /** One definition compiled, with its checks in the order the compiler makes them. */
  function CompileRule(o: Oracle, def: RuleDef, slot: nat, defaultTz: int): Result<Rule, Fault> {
    match CompileConds(o, def.when, defaultTz)
    case Err(e) => Err(e)
    case Ok(conds) =>
      if conds == [] then Err(NoConditions)
      else if !FieldsAllowed(def.phase, conds) then
        Err(if def.phase.RequestPhase? then ResponseFieldInRequest else RequestFieldInResponse)
      else if !ActionAllowed(def.phase, def.action) then Err(ResponseAction)
      else match CompileAction(def, slot)
        case Err(e) => Err(e)
        case Ok(action) => Ok(Rule(def.id, action, conds))
  }

  predicate Compiles(o: Oracle, defs: seq<RuleDef>, tz: int) {
    forall i :: 0 <= i < |defs| ==> CompileRule(o, defs[i], i, tz).Ok?
  }

  /** The compiled rules of one phase, in file order. */
  function PhaseRules(o: Oracle, defs: seq<RuleDef>, tz: int, phase: Phase): seq<Rule>
    requires Compiles(o, defs, tz)
  {
    if defs == [] then []
    else
      var n := |defs| - 1;
      assert forall i :: 0 <= i < n ==> defs[..n][i] == defs[i];
      PhaseRules(o, defs[..n], tz, phase)
        + (if defs[n].phase == phase then [CompileRule(o, defs[n], n, tz).value] else [])
  }

  function FirstBad(o: Oracle, defs: seq<RuleDef>, tz: int, from: nat): (k: nat)
    requires from <= |defs| && !Compiles(o, defs, tz)
    requires forall i :: 0 <= i < from ==> CompileRule(o, defs[i], i, tz).Ok?
    ensures k < |defs| && CompileRule(o, defs[k], k, tz).Err?
    ensures forall i :: 0 <= i < k ==> CompileRule(o, defs[i], i, tz).Ok?
    decreases |defs| - from
  {
    if CompileRule(o, defs[from], from, tz).Err? then from else FirstBad(o, defs, tz, from + 1)
  }

  /** The compiler's result: the first complaint in file order, or both phase lists. */
  function CompileSet(o: Oracle, defs: seq<RuleDef>, scoring: Scoring, tz: int): Result<RuleSet, RuleError> {
    if Compiles(o, defs, tz) then
      if ValidStatus(scoring.status) then
        Ok(RuleSet(PhaseRules(o, defs, tz, RequestPhase), PhaseRules(o, defs, tz, ResponsePhase),
                   scoring.threshold, scoring.status, scoring.msg))
      else Err(Invalid("[scoring]", BadScoring))
    else
      var k := FirstBad(o, defs, tz, 0);
      Err(Invalid(defs[k].id, CompileRule(o, defs[k], k, tz).error))
  }

  lemma PhaseStep(o: Oracle, defs: seq<RuleDef>, tz: int, i: nat)
    requires i < |defs| && Compiles(o, defs[..i], tz) && CompileRule(o, defs[i], i, tz).Ok?
    ensures Compiles(o, defs[..i + 1], tz)
    ensures forall phase :: PhaseRules(o, defs[..i + 1], tz, phase)
              == PhaseRules(o, defs[..i], tz, phase)
                 + (if defs[i].phase == phase then [CompileRule(o, defs[i], i, tz).value] else [])
  {
    var p := defs[..i + 1];
    forall j | 0 <= j < |p| ensures CompileRule(o, p[j], j, tz).Ok? {
      if j < i { assert defs[..i][j] == defs[j]; }
    }
    assert defs[..i + 1][..i] == defs[..i];
  }

  lemma FirstComplaint(o: Oracle, defs: seq<RuleDef>, scoring: Scoring, tz: int, i: nat)
    requires i < |defs| && Compiles(o, defs[..i], tz) && CompileRule(o, defs[i], i, tz).Err?
    ensures CompileSet(o, defs, scoring, tz) == Err(Invalid(defs[i].id, CompileRule(o, defs[i], i, tz).error))
  {
    assert forall j :: 0 <= j < i ==> defs[..i][j] == defs[j];
    assert !Compiles(o, defs, tz);
    assert FirstBad(o, defs, tz, 0) == i;
  }

  /** `compile_with_tz`: the loop that fills the two lists. */
  method CompileWithTz(o: Oracle, defs: seq<RuleDef>, scoring: Scoring, tz: int) returns (r: Result<RuleSet, RuleError>)
    ensures r == CompileSet(o, defs, scoring, tz)
  {
    var rules: seq<Rule>, responseRules: seq<Rule> := [], [];
    for i := 0 to |defs|
      invariant Compiles(o, defs[..i], tz)
      invariant rules == PhaseRules(o, defs[..i], tz, RequestPhase)
      invariant responseRules == PhaseRules(o, defs[..i], tz, ResponsePhase)
    {
      var def := defs[i];
      match CompileRule(o, def, i, tz) {
        case Err(e) =>
          FirstComplaint(o, defs, scoring, tz, i);
          return Err(Invalid(def.id, e));
        case Ok(compiled) =>
          PhaseStep(o, defs, tz, i);
          match def.phase {
            case RequestPhase => rules := rules + [compiled];
            case ResponsePhase => responseRules := responseRules + [compiled];
          }
      }
    }
    assert defs[..|defs|] == defs;
    if !ValidStatus(scoring.status) { return Err(Invalid("[scoring]", BadScoring)); }
    return Ok(RuleSet(rules, responseRules, scoring.threshold, scoring.status, scoring.msg));
  }

  // ── What the compiler guarantees ───────────────────────────────────────────

  /** The action kinds that a response-phase rule can carry. */
  predicate ResponseKind(a: Action) { a.Block? || a.Log? || a.Incr? }

  /** Every rule has a condition, no request rule looks at the response, and response rules keep to their fields and actions. */
  predicate WellPhased(rs: RuleSet) {
    && (forall i :: 0 <= i < |rs.rules| ==>
          rs.rules[i].conds != [] && FieldsAllowed(RequestPhase, rs.rules[i].conds))
    && (forall i :: 0 <= i < |rs.responseRules| ==>
          && rs.responseRules[i].conds != [] && FieldsAllowed(ResponsePhase, rs.responseRules[i].conds)
          && ResponseKind(rs.responseRules[i].action))
  }

  lemma CompiledRuleWellPhased(o: Oracle, def: RuleDef, slot: nat, tz: int)
    requires CompileRule(o, def, slot, tz).Ok?
    ensures var r := CompileRule(o, def, slot, tz).value;
            && r.conds != [] && FieldsAllowed(def.phase, r.conds)
            && (def.phase.ResponsePhase? ==> ResponseKind(r.action))
  {
  }

  lemma {:induction false} PhaseRulesWellPhased(o: Oracle, defs: seq<RuleDef>, tz: int, phase: Phase)
    requires Compiles(o, defs, tz)
    ensures forall r :: r in PhaseRules(o, defs, tz, phase) ==>
              && r.conds != [] && FieldsAllowed(phase, r.conds)
              && (phase.ResponsePhase? ==> ResponseKind(r.action))
  {
    if defs != [] {
      var n := |defs| - 1;
      assert forall i :: 0 <= i < n ==> defs[..n][i] == defs[i];
      PhaseRulesWellPhased(o, defs[..n], tz, phase);
      CompiledRuleWellPhased(o, defs[n], n, tz);
    }
  }

  /** The fall-through arms for disallowed fields and actions are never reached by a compiled set. */
  lemma CompiledIsWellPhased(o: Oracle, defs: seq<RuleDef>, scoring: Scoring, tz: int)
    requires CompileSet(o, defs, scoring, tz).Ok?
    ensures WellPhased(CompileSet(o, defs, scoring, tz).value)
  {
    PhaseRulesWellPhased(o, defs, tz, RequestPhase);
    PhaseRulesWellPhased(o, defs, tz, ResponsePhase);
  }

  /** How many of the first `n` definitions belong to a phase. */
  function CountPhase(defs: seq<RuleDef>, n: nat, phase: Phase): nat
    requires n <= |defs|
  {
    if n == 0 then 0 else CountPhase(defs, n - 1, phase) + (if defs[n - 1].phase == phase then 1 else 0)
  }

  /** All rules, of either phase, in file order. */
  function CompiledRules(o: Oracle, defs: seq<RuleDef>, tz: int): (r: seq<Rule>)
    requires Compiles(o, defs, tz)
    ensures |r| == |defs| && forall i :: 0 <= i < |r| ==> r[i] == CompileRule(o, defs[i], i, tz).value
  {
    seq(|defs|, i requires 0 <= i < |defs| => CompileRule(o, defs[i], i, tz).value)
  }

  /** Those of the first `n` rules whose definitions belong to a phase. */
  function Picked(rules: seq<Rule>, defs: seq<RuleDef>, n: nat, phase: Phase): seq<Rule>
    requires n <= |rules| == |defs|
  {
    if n == 0 then []
    else Picked(rules, defs, n - 1, phase) + (if defs[n - 1].phase == phase then [rules[n - 1]] else [])
  }

  lemma {:induction false} PickedLength(rules: seq<Rule>, defs: seq<RuleDef>, n: nat, phase: Phase)
    requires n <= |rules| == |defs|
    ensures |Picked(rules, defs, n, phase)| == CountPhase(defs, n, phase)
  {
    if n > 0 { PickedLength(rules, defs, n - 1, phase); }
  }

  lemma {:induction false} PickedKeepsOrder(rules: seq<Rule>, defs: seq<RuleDef>, n: nat, i: nat)
    requires i < n <= |rules| == |defs|
    ensures var phase := defs[i].phase;
            && |Picked(rules, defs, n, phase)| == CountPhase(defs, n, phase) > CountPhase(defs, i, phase)
            && Picked(rules, defs, n, phase)[CountPhase(defs, i, phase)] == rules[i]
  {
    if i < n - 1 {
      PickedKeepsOrder(rules, defs, n - 1, i);
    } else {
      PickedLength(rules, defs, i, defs[i].phase);
    }
  }

  lemma {:induction false} PhaseIsPicked(o: Oracle, defs: seq<RuleDef>, tz: int, phase: Phase, n: nat)
    requires Compiles(o, defs, tz) && n <= |defs|
    ensures Compiles(o, defs[..n], tz)
    ensures PhaseRules(o, defs[..n], tz, phase) == Picked(CompiledRules(o, defs, tz), defs, n, phase)
  {
    if n > 0 {
      PhaseIsPicked(o, defs, tz, phase, n - 1);
      PhaseStep(o, defs, tz, n - 1);
    }
  }

  /** Source order: definition `i` becomes the rule at the position given by the definitions of its phase before it. */
  lemma PhaseKeepsOrder(o: Oracle, defs: seq<RuleDef>, tz: int, i: nat)
    requires Compiles(o, defs, tz) && i < |defs|
    ensures var phase := defs[i].phase;
            var rules := PhaseRules(o, defs, tz, phase);
            && |rules| == CountPhase(defs, |defs|, phase)
            && CountPhase(defs, i, phase) < |rules|
            && rules[CountPhase(defs, i, phase)] == CompileRule(o, defs[i], i, tz).value
  {
    PhaseIsPicked(o, defs, tz, defs[i].phase, |defs|);
    assert defs[..|defs|] == defs;
    PickedKeepsOrder(CompiledRules(o, defs, tz), defs, |defs|, i);
  }

  /** `needs_response_body`. */
  predicate NeedsResponseBody(rs: RuleSet) {
    exists i, j :: 0 <= i < |rs.responseRules| && 0 <= j < |rs.responseRules[i].conds|
      && rs.responseRules[i].conds[j].field.RespBody?
  }
}
