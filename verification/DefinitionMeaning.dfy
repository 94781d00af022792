/** What a rule definition decides once compiled and run, said by its own keywords and texts. */
module DefinitionMeaning {
  import opened Text
  import opened Common
  import opened Counters
  import opened Rules
  import opened Engine
  import opened RuleMeaning
  import Clock

  // ── Keywords ───────────────────────────────────────────────────────────────

  /** The field that a keyword names, with its name where it takes one. */
  function KeywordField(f: FieldName, name: string): Option<Field> {
    match f
    case FMethod => Some(Method)
    case FPath => Some(Path)
    case FQuery => Some(Query)
    case FUri => Some(Uri)
    case FBody => Some(Body)
    case FIp => Some(Ip)
    case FCountry => Some(Country)
    case FHeader => Some(Header(Lower(name)))
    case FArg => Some(Arg(name))
    case FCounter => Some(Counter(name))
    case FStatus => Some(Status)
    case FRespHeader => Some(RespHeader(Lower(name)))
    case FRespBody => Some(RespBody)
    case FArgNames => Some(ArgNames)
    case FArgsCount => Some(ArgsCount)
    case FArgs => Some(Args)
    case FHeaders => Some(Headers)
    case FHeaderNames => Some(HeaderNames)
    case FCookies => Some(Cookies)
    case FCookie => Some(Cookie(name))
    case FCookieNames => Some(CookieNames)
    case FTime => Some(Time)
    case FDay => Some(Day)
    case FUnknown(_) => None
  }

  predicate KeywordOffers(o: Oracle, f: FieldName, name: string, s: Subject, cache: Cache, v: string) {
    KeywordField(f, name).Some? && Offers(o, KeywordField(f, name).value, s, cache, v)
  }

  /** The offset a clock condition uses: its own, or the server's if it states none. */
  function ZoneOf(c: CondDef, tz: int): Option<int> {
    if Trim(c.tz) == "" then Some(tz) else Clock.ParseTzOffset(c.tz)
  }

  /** The comparison with a number, which both texts must be. */
  ghost predicate Ordered(v: string, value: string, less: bool, equal: bool, greater: bool) {
    exists n: int :: ParseI64(Trim(value)) == Some(n) && NumberIs(v, less, equal, greater, n)
  }

  /** The value is a minute of the day inside the window, by the local clock. */
  ghost predicate InHours(window: Option<(int, int)>, zone: Option<int>, v: string) {
    && window.Some? && zone.Some?
    && exists k: nat :: ParseUnsigned(Trim(v), 0xFFFF) == Some(k) && Clock.InWindow(k, window.value.0, window.value.1, zone.value)
  }

  /** The value is a minute of the epoch on one of the days, by the local clock. */
  ghost predicate OnDays(days: Option<set<int>>, zone: Option<int>, v: string) {
    && days.Some? && zone.Some?
    && exists k: int :: ParseI64(Trim(v)) == Some(k) && Clock.Weekday(k, zone.value) in days.value
  }

  /** The operator keyword, with the condition's value, asks for this. */
  ghost predicate KeywordAsks(o: Oracle, c: CondDef, tz: int, v: string) {
    match c.op
    case OEq => v == c.value
    case ONe => v != c.value
    case OContains => Occurs(c.value, v)
    case OStartsWith => exists rest: string :: v == c.value + rest
    case OEndsWith => exists front: string :: v == front + c.value
    case ORegex => o.regexMatch(c.value, v)
    case OIn => exists i :: 0 <= i < |c.values| && c.values[i] == v
    case OGt => Ordered(v, c.value, false, false, true)
    case OLt => Ordered(v, c.value, true, false, false)
    case OGe => Ordered(v, c.value, false, true, true)
    case OLe => Ordered(v, c.value, true, true, false)
    case OTimeBetween => InHours(Clock.ParseTimeWindow(c.value), ZoneOf(c, tz), v)
    case ODayOfWeek => OnDays(Clock.DayMask(c.value), ZoneOf(c, tz), v)
    case ODetectSqli => o.sqli(v)
    case ODetectXss => o.xss(v)
    case OCidr => false
    case OUnknown(_) => false
  }

  /** What a condition states: some value offered satisfies the operator after the transforms in order, or none does if negated. */
  ghost predicate DefMeans(o: Oracle, c: CondDef, tz: int, s: Subject, cache: Cache) {
    if c.op.OCidr? then
      c.negate != exists net: string :: o.parseNet(c.value) == Some(net) && o.netContains(net, Client(s))
    else
      c.negate != exists v: string :: KeywordOffers(o, c.field, c.name, s, cache, v) && KeywordAsks(o, c, tz, Applied(c.transform, v))
  }

  // ── The compiler keeps what a condition states ─────────────────────────────

  lemma FieldKept(c: CondDef)
    requires CompileField(c).Ok?
    ensures KeywordField(c.field, c.name) == Some(CompileField(c).value)
  {
  }

  lemma ZoneKept(c: CondDef, tz: int)
    ensures ResolveTz(c, tz).Ok? <==> ZoneOf(c, tz).Some?
    ensures ResolveTz(c, tz).Ok? ==> ZoneOf(c, tz) == Some(ResolveTz(c, tz).value)
  {
  }

  lemma WindowAsked(o: Oracle, start: int, end: int, offset: int, v: string)
    ensures Asks(o, TimeBetween(start, end, offset), v) <==> InHours(Some((start, end)), Some(offset), v)
  {
  }

  lemma DaysAsked(o: Oracle, mask: set<int>, offset: int, v: string)
    ensures Asks(o, DayOfWeek(mask, offset), v) <==> OnDays(Some(mask), Some(offset), v)
  {
  }

  lemma HoursShape(o: Oracle, c: CondDef, field: Field, tz: int)
    requires c.op.OTimeBetween? && CompileOp(o, c, field, tz).Ok?
    ensures var window, zone := Clock.ParseTimeWindow(c.value), ZoneOf(c, tz);
            window.Some? && zone.Some? && CompileOp(o, c, field, tz).value == TimeBetween(window.value.0, window.value.1, zone.value)
  {
    ZoneKept(c, tz);
  }

  lemma DaysShape(o: Oracle, c: CondDef, field: Field, tz: int)
    requires c.op.ODayOfWeek? && CompileOp(o, c, field, tz).Ok?
    ensures var days, zone := Clock.DayMask(c.value), ZoneOf(c, tz);
            days.Some? && zone.Some? && CompileOp(o, c, field, tz).value == DayOfWeek(days.value, zone.value)
  {
    ZoneKept(c, tz);
  }

  lemma HoursKept(o: Oracle, op: Op, window: Option<(int, int)>, zone: Option<int>, v: string)
    requires window.Some? && zone.Some? && op == TimeBetween(window.value.0, window.value.1, zone.value)
    ensures Asks(o, op, v) <==> InHours(window, zone, v)
  {
    WindowAsked(o, window.value.0, window.value.1, zone.value, v);
  }

  lemma NumberAsked(o: Oracle, op: OpName, n: int, c: CondDef, tz: int, v: string)
    requires Numeric(op) && c.op == op && ParseI64(Trim(c.value)) == Some(n)
    ensures Asks(o, NumberOp(op, Some(n)).value, v) <==> KeywordAsks(o, c, tz, v)
  {
    assert forall m: int :: ParseI64(Trim(c.value)) == Some(m) <==> m == n;
  }

  lemma ValueKept(o: Oracle, c: CondDef, field: Field, tz: int, v: string)
    requires !c.op.OTimeBetween? && !c.op.ODayOfWeek? && !Numeric(c.op) && !c.op.OCidr? && ValueOp(o, c, field).Ok?
    ensures !ValueOp(o, c, field).value.Cidr?
    ensures Asks(o, ValueOp(o, c, field).value, v) <==> KeywordAsks(o, c, tz, v)
  {
    match c.op
    case OEq =>
    case ONe =>
    case OContains =>
    case OStartsWith =>
    case OEndsWith =>
    case ORegex =>
    case OIn =>
    case _ =>
  }

  lemma OperatorKept(o: Oracle, c: CondDef, field: Field, tz: int, v: string)
    requires CompileOp(o, c, field, tz).Ok? && !c.op.OCidr?
    ensures !CompileOp(o, c, field, tz).value.Cidr?
    ensures Asks(o, CompileOp(o, c, field, tz).value, v) <==> KeywordAsks(o, c, tz, v)
  {
    if c.op.OTimeBetween? {
      HoursShape(o, c, field, tz);
      HoursKept(o, CompileOp(o, c, field, tz).value, Clock.ParseTimeWindow(c.value), ZoneOf(c, tz), v);
    } else if c.op.ODayOfWeek? {
      DaysShape(o, c, field, tz);
      DaysAsked(o, Clock.DayMask(c.value).value, ZoneOf(c, tz).value, v);
    } else if Numeric(c.op) {
      NumberAsked(o, c.op, ParseI64(Trim(c.value)).value, c, tz, v);
    } else {
      ValueKept(o, c, field, tz, v);
    }
  }

  lemma PartsOf(o: Oracle, c: CondDef, tz: int)
    requires CompileCond(o, c, tz).Ok?
    ensures CompileField(c).Ok? && CompileOp(o, c, CompileField(c).value, tz).Ok?
    ensures CompileCond(o, c, tz).value
         == Cond(CompileField(c).value, CompileOp(o, c, CompileField(c).value, tz).value, c.negate, c.transform)
  {
  }

  lemma CidrKept(o: Oracle, c: CondDef, field: Field, tz: int)
    requires c.op.OCidr? && CompileOp(o, c, field, tz).Ok?
    ensures o.parseNet(c.value).Some? && CompileOp(o, c, field, tz) == Ok(Cidr(o.parseNet(c.value).value))
  {
  }

  lemma SameMeaning(o: Oracle, k: Cond, c: CondDef, tz: int, s: Subject, cache: Cache)
    requires !k.op.Cidr? && !c.op.OCidr? && k.negate == c.negate && k.transforms == c.transform
    requires forall v: string :: Offers(o, k.field, s, cache, v) <==> KeywordOffers(o, c.field, c.name, s, cache, v)
    requires forall v: string :: Asks(o, k.op, Applied(k.transforms, v)) <==> KeywordAsks(o, c, tz, Applied(c.transform, v))
    ensures Means(o, k, s, cache) <==> DefMeans(o, c, tz, s, cache)
  {
  }

  /** A compiled condition means what its definition states. */
  lemma ConditionKept(o: Oracle, c: CondDef, tz: int, s: Subject, cache: Cache)
    requires CompileCond(o, c, tz).Ok?
    ensures Means(o, CompileCond(o, c, tz).value, s, cache) <==> DefMeans(o, c, tz, s, cache)
  {
    PartsOf(o, c, tz);
    FieldKept(c);
    var field := CompileField(c).value;
    if c.op.OCidr? {
      CidrKept(o, c, field, tz);
    } else {
      forall v: string
        ensures Offers(o, field, s, cache, v) <==> KeywordOffers(o, c.field, c.name, s, cache, v)
        ensures Asks(o, CompileOp(o, c, field, tz).value, Applied(c.transform, v)) <==> KeywordAsks(o, c, tz, Applied(c.transform, v))
      {
        OperatorKept(o, c, field, tz, Applied(c.transform, v));
      }
      OperatorKept(o, c, field, tz, "");
      SameMeaning(o, Cond(field, CompileOp(o, c, field, tz).value, c.negate, c.transform), c, tz, s, cache);
    }
  }

  // ── Whole definitions ──────────────────────────────────────────────────────

  ghost predicate AllState(o: Oracle, cs: seq<CondDef>, tz: int, s: Subject, cache: Cache) {
    forall i :: 0 <= i < |cs| ==> DefMeans(o, cs[i], tz, s, cache)
  }

  lemma BothMean(o: Oracle, first: Cond, rest: seq<Cond>, s: Subject, cache: Cache)
    ensures AllMean(o, [first] + rest, s, cache) <==> Means(o, first, s, cache) && AllMean(o, rest, s, cache)
  {
    var all := [first] + rest;
    assert all[0] == first && forall i :: 0 <= i < |rest| ==> rest[i] == all[i + 1];
    assert forall i :: 0 < i < |all| ==> all[i] == rest[i - 1];
  }

  lemma BothState(o: Oracle, cs: seq<CondDef>, tz: int, s: Subject, cache: Cache)
    requires cs != []
    ensures AllState(o, cs, tz, s, cache) <==> DefMeans(o, cs[0], tz, s, cache) && AllState(o, cs[1..], tz, s, cache)
  {
    var tail := cs[1..];
    assert forall i :: 0 <= i < |tail| ==> tail[i] == cs[i + 1];
    assert forall i :: 0 < i < |cs| ==> cs[i] == tail[i - 1];
  }

  lemma {:induction false} ConditionsKept(o: Oracle, cs: seq<CondDef>, tz: int, s: Subject, cache: Cache)
    requires CompileConds(o, cs, tz).Ok?
    ensures |CompileConds(o, cs, tz).value| == |cs|
    ensures AllMean(o, CompileConds(o, cs, tz).value, s, cache) <==> AllState(o, cs, tz, s, cache)
  {
    if cs != [] {
      var first, rest := CompileCond(o, cs[0], tz).value, CompileConds(o, cs[1..], tz).value;
      ConditionKept(o, cs[0], tz, s, cache);
      ConditionsKept(o, cs[1..], tz, s, cache);
      BothMean(o, first, rest, s, cache);
      BothState(o, cs, tz, s, cache);
    }
  }

  /** What a definition's action does, from its own entries. */
  function ActionStated(def: RuleDef, slot: nat): Action {
    match def.action
    case ABlock => Action.Block(def.status, if def.msg == "" then def.id else def.msg)
    case AAllow => Action.Allow
    case ALog => Log
    case ARateLimit => RateLimit(slot, Quota(def.rps, def.burst, def.ttl))
    case AScore => Score(def.score)
    case AIncr => Incr(def.counter, def.incr, def.ttl)
  }

  lemma DefinitionKept(o: Oracle, def: RuleDef, slot: nat, tz: int)
    requires CompileRule(o, def, slot, tz).Ok?
    ensures CompileConds(o, def.when, tz).Ok?
    ensures CompileRule(o, def, slot, tz).value == Rule(def.id, ActionStated(def, slot), CompileConds(o, def.when, tz).value)
  {
  }

  lemma OneCompiled(o: Oracle, def: RuleDef, scoring: Scoring, tz: int)
    requires CompileSet(o, [def], scoring, tz).Ok? && def.phase.RequestPhase?
    ensures CompileRule(o, def, 0, tz).Ok?
    ensures CompileSet(o, [def], scoring, tz).value
         == RuleSet([CompileRule(o, def, 0, tz).value], [], scoring.threshold, scoring.status, scoring.msg)
  {
    var defs := [def];
    assert defs[0] == def && defs[..0] == [];
    assert PhaseRules(o, defs[..0], tz, RequestPhase) == [] && PhaseRules(o, defs[..0], tz, ResponsePhase) == [];
  }

  /**
   A file of one definition, compiled and run on any request: its action is taken exactly when
   all its conditions state it, under its own id, status and message, and otherwise nothing is
   decided and nothing changes.
   */
  lemma DefinitionDecides(o: Oracle, def: RuleDef, scoring: Scoring, tz: int, r: Request, at: Moment, st: Store)
    requires CompileSet(o, [def], scoring, tz).Ok? && def.phase.RequestPhase?
    ensures var rs := CompileSet(o, [def], scoring, tz).value;
            && rs.threshold == scoring.threshold && rs.anomalyStatus == scoring.status && rs.anomalyMsg == scoring.msg
            && Evaluate(o, rs, Req(r, at), st)
               == (if AllState(o, def.when, tz, Req(r, at), st.cache)
                   then Acts(o, rs, def.id, ActionStated(def, 0), Req(r, at), st) else (None, st))
  {
    OneCompiled(o, def, scoring, tz);
    DefinitionKept(o, def, 0, tz);
    ConditionsKept(o, def.when, tz, Req(r, at), st.cache);
    OneRuleDecides(o, CompileSet(o, [def], scoring, tz).value, CompileRule(o, def, 0, tz).value, Req(r, at), st);
  }

  lemma {:induction false} ConditionsCounted(o: Oracle, cs: seq<CondDef>, tz: int)
    requires CompileConds(o, cs, tz).Ok?
    ensures |CompileConds(o, cs, tz).value| == |cs|
  {
    if cs != [] { ConditionsCounted(o, cs[1..], tz); }
  }

  /** Every rule of a compiled file carries its own definition's id, action and conditions. */
  lemma {:induction false} FileKept(o: Oracle, defs: seq<RuleDef>, tz: int, i: nat)
    requires Compiles(o, defs, tz) && i < |defs|
    ensures var rules := PhaseRules(o, defs, tz, defs[i].phase);
            && CountPhase(defs, i, defs[i].phase) < |rules|
            && var rule := rules[CountPhase(defs, i, defs[i].phase)];
               && rule.id == defs[i].id && rule.action == ActionStated(defs[i], i) && |rule.conds| == |defs[i].when|
               && forall s: Subject, cache: Cache :: AllMean(o, rule.conds, s, cache) <==> AllState(o, defs[i].when, tz, s, cache)
  {
    PhaseKeepsOrder(o, defs, tz, i);
    DefinitionKept(o, defs[i], i, tz);
    forall s: Subject, cache: Cache
      ensures |CompileConds(o, defs[i].when, tz).value| == |defs[i].when|
      ensures AllMean(o, CompileConds(o, defs[i].when, tz).value, s, cache) <==> AllState(o, defs[i].when, tz, s, cache)
    {
      ConditionsKept(o, defs[i].when, tz, s, cache);
    }
    ConditionsCounted(o, defs[i].when, tz);
  }
}
