/**
 The import preserves meaning. The reference is a direct reading of the grouped rules:
 an unchained rule matches once per matching variable, a chain matches when all its
 members do, and groups take effect in file order. The emitted rules, compiled and run
 by the engine, give the same verdict on every request.
 */
module ImportMeaning {
  import opened Text
  import opened Counters
  import opened Rules
  import opened Engine
  import opened ModSec

  // ── Emitted rules as definitions ───────────────────────────────────────────

  function Default(v: Option<string>): string { match v case Some(s) => s case None => "" }

  /** An emitted condition read back from the rule file. */
  function CondDefOf(c: EmittedCond): CondDef {
    CondDef(c.field, Default(c.name), c.op, Default(c.value), [], c.negate, c.transform, "")
  }

  function CondDefs(cs: seq<EmittedCond>): (r: seq<CondDef>)
    ensures |r| == |cs| && forall i :: 0 <= i < |cs| ==> r[i] == CondDefOf(cs[i])
  {
    seq(|cs|, i requires 0 <= i < |cs| => CondDefOf(cs[i]))
  }

  /** An emitted rule read back, with the file's defaults for what is not written. */
  function DefOf(e: EmittedRule): RuleDef {
    RuleDef(e.id, RequestPhase, e.action, match e.status case Some(s) => s case None => 403, e.msg,
            0, 0, 300, e.score, "", 1, CondDefs(e.when))
  }

  function Defs(es: seq<EmittedRule>): (r: seq<RuleDef>)
    ensures |r| == |es| && forall i :: 0 <= i < |es| ==> r[i] == DefOf(es[i])
  {
    seq(|es|, i requires 0 <= i < |es| => DefOf(es[i]))
  }

  // ── The reference reading of a group ───────────────────────────────────────

  /** The engine's own meaning of an emitted condition, apart from any rule. */
  predicate Holds(o: Oracle, tz: int, c: EmittedCond, s: Subject) {
    var r := CompileCond(o, CondDefOf(c), tz);
    r.Ok? && CondHolds(o, r.value, s, map[])
  }

  /** A variable of a member matches: it is not excluded, it is supported, and its condition holds. */
  predicate VarMatches(o: Oracle, tz: int, m: ParsedRule, v: RawVar, s: Subject) {
    var op := MapOperator(m.opName, m.opArg);
    op.Ok? && VarCond(m, op.value, v).Some? && Holds(o, tz, VarCond(m, op.value, v).value, s)
  }

  function MatchCount(o: Oracle, tz: int, m: ParsedRule, vars: seq<RawVar>, s: Subject): nat {
    if vars == [] then 0
    else (if VarMatches(o, tz, m, vars[0], s) then 1 else 0) + MatchCount(o, tz, m, vars[1..], s)
  }

  /** How often a group matches: per variable if unchained, at most once if chained. */
  function Times(o: Oracle, tz: int, ms: seq<ParsedRule>, s: Subject): nat
    requires ms != []
  {
    if |ms| == 1 then MatchCount(o, tz, ms[0], ms[0].vars, s)
    else if forall i :: 0 <= i < |ms| ==> MatchCount(o, tz, ms[i], ms[i].vars, s) > 0 then 1
    else 0
  }

  /** A verdict up to wording: denied with a status, or let through. */
  datatype Kind = Deny(status: nat) | LetThrough

  /** From the starter's own fields: `allow` lets through; a score, disruptive or not, only scores; else a disruptive action denies. */
  function GroupVerdict(o: Oracle, tz: int, ms: seq<ParsedRule>, s: Subject): Option<Kind>
    requires ms != []
  {
    var starter := ms[0];
    if Times(o, tz, ms, s) == 0 then None
    else if starter.allow then Some(LetThrough)
    else if starter.score.Some? then None
    else if starter.disrupt then Some(Deny(if starter.status.Some? then starter.status.value else 403))
    else None
  }

  /** A score without `allow` counts once for every match. */
  function GroupPoints(o: Oracle, tz: int, ms: seq<ParsedRule>, s: Subject): nat
    requires ms != []
  {
    if !ms[0].allow && ms[0].score.Some? then ms[0].score.value * Times(o, tz, ms, s) else 0
  }

  predicate Converts(g: Group) { ConvertedOf(g).Some? }

  function VerdictOf(o: Oracle, tz: int, g: Group, s: Subject): Option<Kind> {
    if Converts(g) then GroupVerdict(o, tz, g.members, s) else None
  }

  function PointsOf(o: Oracle, tz: int, g: Group, s: Subject): nat {
    if Converts(g) then GroupPoints(o, tz, g.members, s) else 0
  }

  function FirstSome(xs: seq<Option<Kind>>): Option<Kind> {
    if xs == [] then None else if xs[0].Some? then xs[0] else FirstSome(xs[1..])
  }

  function Sum(xs: seq<nat>): nat { if xs == [] then 0 else xs[0] + Sum(xs[1..]) }

  function Verdicts(o: Oracle, tz: int, groups: seq<Group>, s: Subject): (r: seq<Option<Kind>>)
    ensures |r| == |groups| && forall i :: 0 <= i < |groups| ==> r[i] == VerdictOf(o, tz, groups[i], s)
  {
    seq(|groups|, i requires 0 <= i < |groups| => VerdictOf(o, tz, groups[i], s))
  }

  function PointsList(o: Oracle, tz: int, groups: seq<Group>, s: Subject): (r: seq<nat>)
    ensures |r| == |groups| && forall i :: 0 <= i < |groups| ==> r[i] == PointsOf(o, tz, groups[i], s)
  {
    seq(|groups|, i requires 0 <= i < |groups| => PointsOf(o, tz, groups[i], s))
  }

  /** The first deciding group of a file, in order. */
  function FileVerdict(o: Oracle, tz: int, groups: seq<Group>, s: Subject): Option<Kind> {
    FirstSome(Verdicts(o, tz, groups, s))
  }

  /** The points of all groups. */
  function FilePoints(o: Oracle, tz: int, groups: seq<Group>, s: Subject): nat {
    Sum(PointsList(o, tz, groups, s))
  }

  // ── The engine on rules without state ──────────────────────────────────────

  predicate Stateless(r: Rule) {
    && (forall i :: 0 <= i < |r.conds| ==> !r.conds[i].field.Counter?)
    && (r.action.Block? || r.action.Allow? || r.action.Log? || r.action.Score?)
  }

  predicate AllStateless(rules: seq<Rule>) { forall i :: 0 <= i < |rules| ==> Stateless(rules[i]) }

  lemma StatelessHolds(o: Oracle, r: Rule, s: Subject, cache: Cache)
    requires Stateless(r)
    ensures RuleHolds(o, r, s, cache) == RuleHolds(o, r, s, map[])
  {
    forall i | 0 <= i < |r.conds| ensures CondHolds(o, r.conds[i], s, cache) == CondHolds(o, r.conds[i], s, map[]) {
      assert Candidates(o, r.conds[i].field, s, cache) == Candidates(o, r.conds[i].field, s, map[]);
    }
  }

  function KindOf(out: Outcome): Kind {
    match out case Blocked(_, status, _) => Deny(status) case Allowed(_) => LetThrough case Limited(_, _) => Deny(429)
  }

  function ActionKind(a: Action): Option<Kind> {
    match a case Block(status, _) => Some(Deny(status)) case Allow => Some(LetThrough) case _ => None
  }

  function RulePoints(a: Action): nat { match a case Score(p) => p case _ => 0 }

  function Verdict(o: Oracle, rules: seq<Rule>, s: Subject): Option<Kind> {
    if rules == [] then None
    else if RuleHolds(o, rules[0], s, map[]) && ActionKind(rules[0].action).Some? then ActionKind(rules[0].action)
    else Verdict(o, rules[1..], s)
  }

  function Points(o: Oracle, rules: seq<Rule>, s: Subject): nat {
    if rules == [] then 0
    else (if RuleHolds(o, rules[0], s, map[]) then RulePoints(rules[0].action) else 0) + Points(o, rules[1..], s)
  }

  lemma {:induction false} VerdictAppend(o: Oracle, a: seq<Rule>, b: seq<Rule>, s: Subject)
    ensures Verdict(o, a + b, s) == (if Verdict(o, a, s).Some? then Verdict(o, a, s) else Verdict(o, b, s))
    ensures Points(o, a + b, s) == Points(o, a, s) + Points(o, b, s)
  {
    if a == [] {
      assert a + b == b;
    } else {
      assert (a + b)[1..] == a[1..] + b;
      VerdictAppend(o, a[1..], b, s);
    }
  }

  lemma {:induction false} EngineFiring(o: Oracle, rules: seq<Rule>, k: nat, s: Subject, st: Store)
    requires AllStateless(rules) && s.Req? && k <= |rules|
    ensures var f := FirstFiring(o, rules, k, s, st);
            if f < |rules| then Fires(o, rules, f, s, st).Some? && Verdict(o, rules[k..], s) == Some(KindOf(Fires(o, rules, f, s, st).value))
            else Verdict(o, rules[k..], s) == None
    decreases |rules| - k
  {
    if k < |rules| {
      assert rules[k..][0] == rules[k] && rules[k..][1..] == rules[k + 1..];
      StatelessHolds(o, rules[k], s, After(o, rules, k, s, st).cache);
      EngineFiring(o, rules, k + 1, s, st);
    }
  }

  lemma {:induction false} EngineScore(o: Oracle, rules: seq<Rule>, k: nat, s: Subject, st: Store)
    requires AllStateless(rules) && s.Req? && k <= |rules|
    ensures TrueScore(o, rules, k, s, st) == Points(o, rules[..k], s)
  {
    if k > 0 {
      EngineScore(o, rules, k - 1, s, st);
      StatelessHolds(o, rules[k - 1], s, After(o, rules, k - 1, s, st).cache);
      assert rules[..k] == rules[..k - 1] + [rules[k - 1]];
      VerdictAppend(o, rules[..k - 1], [rules[k - 1]], s);
      assert [rules[k - 1]][1..] == [];
    }
  }

  // ── Compiled conditions ────────────────────────────────────────────────────

  lemma {:induction false} CondsCompiled(o: Oracle, cs: seq<CondDef>, tz: int)
    requires CompileConds(o, cs, tz).Ok?
    ensures var conds := CompileConds(o, cs, tz).value;
            && |conds| == |cs|
            && forall i :: 0 <= i < |cs| ==> CompileCond(o, cs[i], tz) == Ok(conds[i])
  {
    if cs != [] {
      CondsCompiled(o, cs[1..], tz);
      forall i | 0 <= i < |cs| ensures CompileCond(o, cs[i], tz) == Ok(CompileConds(o, cs, tz).value[i]) {
        if i > 0 { assert cs[1..][i - 1] == cs[i]; }
      }
    }
  }

  /** An emitted rule of the kinds the importer makes. */
  predicate ImportKind(e: EmittedRule) {
    && (e.action.ABlock? || e.action.AAllow? || e.action.ALog? || e.action.AScore?)
    && (forall i :: 0 <= i < |e.when| ==> !e.when[i].field.FCounter?)
  }

  lemma CondsHold(o: Oracle, cs: seq<EmittedCond>, tz: int, s: Subject)
    requires CompileConds(o, CondDefs(cs), tz).Ok? && forall i :: 0 <= i < |cs| ==> !cs[i].field.FCounter?
    ensures var conds := CompileConds(o, CondDefs(cs), tz).value;
            && |conds| == |cs|
            && forall i :: 0 <= i < |cs| ==>
                 !conds[i].field.Counter? && (CondHolds(o, conds[i], s, map[]) <==> Holds(o, tz, cs[i], s))
  {
    CondsCompiled(o, CondDefs(cs), tz);
    var conds := CompileConds(o, CondDefs(cs), tz).value;
    forall i | 0 <= i < |cs|
      ensures !conds[i].field.Counter? && (CondHolds(o, conds[i], s, map[]) <==> Holds(o, tz, cs[i], s))
    {
      assert CondDefs(cs)[i] == CondDefOf(cs[i]);
    }
  }

  function EmittedKind(e: EmittedRule): Option<Kind> {
    if e.action.ABlock? then Some(Deny(match e.status case Some(x) => x case None => 403))
    else if e.action.AAllow? then Some(LetThrough)
    else None
  }

  /** One emitted rule, compiled: it keeps no state, holds exactly when all its conditions do, and acts as emitted. */
  lemma RuleCompiled(o: Oracle, e: EmittedRule, slot: nat, tz: int, s: Subject)
    requires ImportKind(e) && CompileRule(o, DefOf(e), slot, tz).Ok?
    ensures var r := CompileRule(o, DefOf(e), slot, tz).value;
            && Stateless(r)
            && (RuleHolds(o, r, s, map[]) <==> forall i :: 0 <= i < |e.when| ==> Holds(o, tz, e.when[i], s))
            && ActionKind(r.action) == EmittedKind(e)
            && RulePoints(r.action) == (if e.action.AScore? then e.score else 0)
  {
    var conds := CompileConds(o, DefOf(e).when, tz).value;
    CondsHold(o, e.when, tz, s);
    assert CompileRule(o, DefOf(e), slot, tz).value.conds == conds;
  }

  /** The compiled rules of a list of emitted rules that starts at place `base` of the file. */
  predicate CompiledAs(o: Oracle, es: seq<EmittedRule>, base: nat, tz: int, rules: seq<Rule>) {
    |rules| == |es| && forall i :: 0 <= i < |es| ==> CompileRule(o, DefOf(es[i]), base + i, tz) == Ok(rules[i])
  }

  // ── One group ──────────────────────────────────────────────────────────────

  predicate AllImport(es: seq<EmittedRule>) { forall i :: 0 <= i < |es| ==> ImportKind(es[i]) }

  function CountHolds(o: Oracle, tz: int, cs: seq<EmittedCond>, s: Subject): nat {
    if cs == [] then 0 else (if Holds(o, tz, cs[0], s) then 1 else 0) + CountHolds(o, tz, cs[1..], s)
  }

  lemma {:induction false} MappedConds(m: ParsedRule, op: (OpName, Option<string>), vars: seq<RawVar>, o: Oracle, tz: int, s: Subject)
    requires MapOperator(m.opName, m.opArg) == Ok(op)
    ensures var conds := FilterMap((v: RawVar) => VarCond(m, op, v), vars);
            && (forall i :: 0 <= i < |conds| ==> !conds[i].field.FCounter?)
            && CountHolds(o, tz, conds, s) == MatchCount(o, tz, m, vars, s)
  {
    if vars != [] {
      MappedConds(m, op, vars[1..], o, tz, s);
      var f := (v: RawVar) => VarCond(m, op, v);
      var rest := FilterMap(f, vars[1..]);
      match f(vars[0])
      case Some(c) => assert ([c] + rest)[1..] == rest;
      case None => assert [] + rest == rest;
    }
  }

  lemma MemberMapped(m: ParsedRule, o: Oracle, tz: int, s: Subject)
    requires MemberConds(m).Ok?
    ensures forall i :: 0 <= i < |MemberConds(m).value| ==> !MemberConds(m).value[i].field.FCounter?
    ensures CountHolds(o, tz, MemberConds(m).value, s) == MatchCount(o, tz, m, m.vars, s)
  {
    MappedConds(m, MapOperator(m.opName, m.opArg).value, m.vars, o, tz, s);
  }

  function CountTrue(hs: seq<bool>): nat {
    if hs == [] then 0 else (if hs[0] then 1 else 0) + CountTrue(hs[1..])
  }

  /** Rules that share one action: OR for a decision, a sum for points. */
  lemma {:induction false} UniformRun(o: Oracle, rules: seq<Rule>, hs: seq<bool>, kind: Option<Kind>, points: nat, s: Subject)
    requires |rules| == |hs|
    requires forall i :: 0 <= i < |rules| ==>
               RuleHolds(o, rules[i], s, map[]) == hs[i] && ActionKind(rules[i].action) == kind && RulePoints(rules[i].action) == points
    ensures Verdict(o, rules, s) == (if CountTrue(hs) > 0 then kind else None)
    ensures Points(o, rules, s) == points * CountTrue(hs)
  {
    if rules != [] {
      UniformRun(o, rules[1..], hs[1..], kind, points, s);
      assert points * (1 + CountTrue(hs[1..])) == points + points * CountTrue(hs[1..]);
    }
  }

  function HoldsList(o: Oracle, tz: int, cs: seq<EmittedCond>, s: Subject): (r: seq<bool>)
    ensures |r| == |cs| && forall i :: 0 <= i < |cs| ==> r[i] == Holds(o, tz, cs[i], s)
  {
    seq(|cs|, i requires 0 <= i < |cs| => Holds(o, tz, cs[i], s))
  }

  lemma {:induction false} CountsAgree(o: Oracle, tz: int, cs: seq<EmittedCond>, s: Subject)
    ensures CountTrue(HoldsList(o, tz, cs, s)) == CountHolds(o, tz, cs, s)
  {
    if cs != [] {
      CountsAgree(o, tz, cs[1..], s);
      assert HoldsList(o, tz, cs, s)[1..] == HoldsList(o, tz, cs[1..], s);
    }
  }

  predicate Uniform(es: seq<EmittedRule>, cs: seq<EmittedCond>, kind: Option<Kind>, points: nat) {
    |es| == |cs| && forall i :: 0 <= i < |es| ==>
      && es[i].when == [cs[i]] && EmittedKind(es[i]) == kind
      && (if es[i].action.AScore? then es[i].score else 0) == points
  }

  lemma AlternativesRun(o: Oracle, tz: int, es: seq<EmittedRule>, cs: seq<EmittedCond>, kind: Option<Kind>, points: nat,
                        base: nat, rules: seq<Rule>, s: Subject)
    requires AllImport(es) && CompiledAs(o, es, base, tz, rules) && Uniform(es, cs, kind, points)
    ensures AllStateless(rules)
    ensures Verdict(o, rules, s) == (if CountHolds(o, tz, cs, s) > 0 then kind else None)
    ensures Points(o, rules, s) == points * CountHolds(o, tz, cs, s)
  {
    var hs := HoldsList(o, tz, cs, s);
    forall i | 0 <= i < |rules|
      ensures Stateless(rules[i]) && RuleHolds(o, rules[i], s, map[]) == hs[i]
      ensures ActionKind(rules[i].action) == kind && RulePoints(rules[i].action) == points
    {
      RuleCompiled(o, es[i], base + i, tz, s);
      assert es[i].when[0] == cs[i];
    }
    UniformRun(o, rules, hs, kind, points, s);
    CountsAgree(o, tz, cs, s);
  }

  lemma {:induction false} CondsOfMembers(ms: seq<ParsedRule>)
    requires AllConds(ms).Ok?
    ensures forall i :: 0 <= i < |ms| ==> MemberConds(ms[i]) == Ok(AllConds(ms).value[i])
  {
    if ms != [] {
      var n := |ms| - 1;
      CondsOfMembers(ms[..n]);
      forall i | 0 <= i < |ms| ensures MemberConds(ms[i]) == Ok(AllConds(ms).value[i]) {
        if i < n { assert ms[..n][i] == ms[i]; }
      }
    }
  }

  lemma AlternativesUniform(m: ParsedRule, conds: seq<EmittedCond>)
    requires forall i :: 0 <= i < |conds| ==> !conds[i].field.FCounter?
    ensures AllImport(Alternatives(m, conds))
    ensures Uniform(Alternatives(m, conds), conds, EmittedKind(Emit(m, "", [])), if ActionOf(m).0.AScore? then ActionOf(m).2 else 0)
  {
  }

  /** An unchained rule: one rule per usable variable, together an OR. */
  lemma UnchainedRun(o: Oracle, tz: int, m: ParsedRule, conds: seq<EmittedCond>, base: nat, rules: seq<Rule>, s: Subject)
    requires MemberConds(m) == Ok(conds) && CompiledAs(o, Alternatives(m, conds), base, tz, rules)
    ensures AllStateless(rules)
    ensures Verdict(o, rules, s) == GroupVerdict(o, tz, [m], s)
    ensures Points(o, rules, s) == GroupPoints(o, tz, [m], s)
  {
    MemberMapped(m, o, tz, s);
    AlternativesUniform(m, conds);
    var kind, points := EmittedKind(Emit(m, "", [])), if ActionOf(m).0.AScore? then ActionOf(m).2 else 0;
    AlternativesRun(o, tz, Alternatives(m, conds), conds, kind, points, base, rules, s);
    assert [m][0] == m;
    assert Times(o, tz, [m], s) == CountHolds(o, tz, conds, s);
  }

  lemma UnchainedShape(ms: seq<ParsedRule>)
    requires |ms| == 1 && Built(ms).Ok?
    ensures MemberConds(ms[0]).Ok? && Built(ms).value == Alternatives(ms[0], MemberConds(ms[0]).value)
  {
    CondsOfMembers(ms);
  }

  /** A member with a single condition matches exactly when that condition holds. */
  lemma SingleMember(o: Oracle, tz: int, m: ParsedRule, c: EmittedCond, s: Subject)
    requires MemberConds(m) == Ok([c])
    ensures !c.field.FCounter?
    ensures Holds(o, tz, c, s) <==> MatchCount(o, tz, m, m.vars, s) > 0
  {
    MemberMapped(m, o, tz, s);
    assert [c][0] == c && [c][1..] == [];
    assert CountHolds(o, tz, [c], s) == (if Holds(o, tz, c, s) then 1 else 0);
  }

  /** A compiled rule keeps no state, and decides and scores as emitted exactly when all its conditions hold. */
  predicate RunsAs(o: Oracle, tz: int, e: EmittedRule, r: Rule, s: Subject) {
    var holds := forall i :: 0 <= i < |e.when| ==> Holds(o, tz, e.when[i], s);
    && Stateless(r)
    && Verdict(o, [r], s) == (if holds then EmittedKind(e) else None)
    && Points(o, [r], s) == (if holds && e.action.AScore? then e.score else 0)
  }

  lemma OneRuleRun(o: Oracle, tz: int, e: EmittedRule, base: nat, r: Rule, s: Subject)
    requires ImportKind(e) && CompileRule(o, DefOf(e), base, tz) == Ok(r)
    ensures RunsAs(o, tz, e, r, s)
  {
    RuleCompiled(o, e, base, tz, s);
    assert [r][1..] == [];
  }

  predicate SingleConds(ms: seq<ParsedRule>, when: seq<EmittedCond>) {
    |ms| == |when| && forall i :: 0 <= i < |ms| ==> MemberConds(ms[i]) == Ok([when[i]])
  }

  lemma ChainedShape(ms: seq<ParsedRule>) returns (when: seq<EmittedCond>)
    requires |ms| > 1 && Built(ms).Ok?
    ensures SingleConds(ms, when) && Built(ms).value == [Emit(ms[0], IdBase(ms[0]), when)]
  {
    CondsOfMembers(ms);
    var css := AllConds(ms).value;
    when := Firsts(css);
    forall i | 0 <= i < |ms| ensures MemberConds(ms[i]) == Ok([when[i]]) {
      assert |css[i]| == 1;
      assert css[i] == [css[i][0]];
    }
  }

  /** A chain matches, once, exactly when the conditions of all its members hold. */
  lemma ChainTimes(o: Oracle, tz: int, ms: seq<ParsedRule>, when: seq<EmittedCond>, s: Subject)
    requires |ms| > 1 && SingleConds(ms, when)
    ensures forall i :: 0 <= i < |when| ==> !when[i].field.FCounter?
    ensures Times(o, tz, ms, s) == if forall i :: 0 <= i < |when| ==> Holds(o, tz, when[i], s) then 1 else 0
  {
    forall i | 0 <= i < |ms|
      ensures !when[i].field.FCounter? && (Holds(o, tz, when[i], s) <==> MatchCount(o, tz, ms[i], ms[i].vars, s) > 0)
    {
      SingleMember(o, tz, ms[i], when[i], s);
    }
  }

  /** The reading of a chain, from how often it matches and what its rule does. */
  lemma ByTimes(o: Oracle, tz: int, ms: seq<ParsedRule>, e: EmittedRule, s: Subject)
    requires ms != [] && Times(o, tz, ms, s) <= 1
    requires (e.action, e.status, e.score) == ActionOf(ms[0])
    ensures GroupVerdict(o, tz, ms, s) == (if Times(o, tz, ms, s) == 1 then EmittedKind(e) else None)
    ensures GroupPoints(o, tz, ms, s) == (if Times(o, tz, ms, s) == 1 && e.action.AScore? then e.score else 0)
  {
  }

  lemma ChainKind(o: Oracle, tz: int, ms: seq<ParsedRule>, when: seq<EmittedCond>, s: Subject)
    requires |ms| > 1 && SingleConds(ms, when)
    ensures ImportKind(Emit(ms[0], IdBase(ms[0]), when))
  {
    ChainTimes(o, tz, ms, when, s);
  }

  lemma ReadAsGroup(o: Oracle, tz: int, ms: seq<ParsedRule>, when: seq<EmittedCond>, e: EmittedRule, r: Rule, s: Subject)
    requires |ms| > 1 && SingleConds(ms, when) && e == Emit(ms[0], IdBase(ms[0]), when) && RunsAs(o, tz, e, r, s)
    ensures Stateless(r)
    ensures Verdict(o, [r], s) == GroupVerdict(o, tz, ms, s) && Points(o, [r], s) == GroupPoints(o, tz, ms, s)
  {
    ChainTimes(o, tz, ms, when, s);
    ByTimes(o, tz, ms, e, s);
  }

  /** A chain: one rule that holds when every member matches. */
  lemma ChainedRun(o: Oracle, tz: int, ms: seq<ParsedRule>, when: seq<EmittedCond>, base: nat, r: Rule, s: Subject)
    requires |ms| > 1 && SingleConds(ms, when)
    requires CompileRule(o, DefOf(Emit(ms[0], IdBase(ms[0]), when)), base, tz) == Ok(r)
    ensures Stateless(r)
    ensures Verdict(o, [r], s) == GroupVerdict(o, tz, ms, s)
    ensures Points(o, [r], s) == GroupPoints(o, tz, ms, s)
  {
    var e := Emit(ms[0], IdBase(ms[0]), when);
    ChainKind(o, tz, ms, when, s);
    OneRuleRun(o, tz, e, base, r, s);
    ReadAsGroup(o, tz, ms, when, e, r, s);
  }

  lemma GroupRun(o: Oracle, tz: int, ms: seq<ParsedRule>, base: nat, rules: seq<Rule>, s: Subject)
    requires ms != [] && Built(ms).Ok? && CompiledAs(o, Built(ms).value, base, tz, rules)
    ensures AllStateless(rules)
    ensures Verdict(o, rules, s) == GroupVerdict(o, tz, ms, s)
    ensures Points(o, rules, s) == GroupPoints(o, tz, ms, s)
  {
    if |ms| == 1 {
      UnchainedShape(ms);
      assert ms == [ms[0]];
      UnchainedRun(o, tz, ms[0], MemberConds(ms[0]).value, base, rules, s);
    } else {
      var when := ChainedShape(ms);
      assert CompileRule(o, DefOf(Built(ms).value[0]), base + 0, tz) == Ok(rules[0]);
      ChainedRun(o, tz, ms, when, base, rules[0], s);
      assert rules == [rules[0]];
    }
  }

  // ── A whole file ───────────────────────────────────────────────────────────

  /** One emitted rule compiled at a place of the file. */
  function Compiler(o: Oracle, tz: int): (EmittedRule, nat) -> Result<Rule, Fault> {
    (e: EmittedRule, place: nat) => CompileRule(o, DefOf(e), place, tz)
  }

  predicate CompiledBy(cr: (EmittedRule, nat) -> Result<Rule, Fault>, es: seq<EmittedRule>, base: nat, rules: seq<Rule>) {
    |rules| == |es| && forall i :: 0 <= i < |es| ==> cr(es[i], base + i) == Ok(rules[i])
  }

  lemma CompiledSame(o: Oracle, es: seq<EmittedRule>, base: nat, tz: int, rules: seq<Rule>)
    ensures CompiledAs(o, es, base, tz, rules) <==> CompiledBy(Compiler(o, tz), es, base, rules)
  {
  }

  lemma CompiledSplit(cr: (EmittedRule, nat) -> Result<Rule, Fault>, a: seq<EmittedRule>, b: seq<EmittedRule>, base: nat, rules: seq<Rule>)
    requires CompiledBy(cr, a + b, base, rules)
    ensures CompiledBy(cr, a, base, rules[..|a|]) && CompiledBy(cr, b, base + |a|, rules[|a|..])
  {
    var es := a + b;
    forall i | 0 <= i < |a| ensures cr(a[i], base + i) == Ok(rules[..|a|][i]) {
      assert es[i] == a[i];
    }
    forall i | 0 <= i < |b| ensures cr(b[i], base + |a| + i) == Ok(rules[|a|..][i]) {
      assert es[|a| + i] == b[i];
      assert cr(es[|a| + i], base + (|a| + i)) == Ok(rules[|a| + i]);
    }
  }

  lemma AnyGroupRun(o: Oracle, tz: int, g: Group, base: nat, rules: seq<Rule>, s: Subject)
    requires CompiledAs(o, GroupRules(g), base, tz, rules)
    ensures AllStateless(rules)
    ensures Verdict(o, rules, s) == VerdictOf(o, tz, g, s) && Points(o, rules, s) == PointsOf(o, tz, g, s)
  {
    if Converts(g) { GroupRun(o, tz, g.members, base, rules, s); }
  }

  function Concat(chunks: seq<seq<Rule>>): seq<Rule> {
    if chunks == [] then [] else chunks[0] + Concat(chunks[1..])
  }

  /** The compiled file, cut where the groups' rules begin and end. */
  lemma {:induction false} Chunks(cr: (EmittedRule, nat) -> Result<Rule, Fault>, emit: Group -> seq<EmittedRule>,
                                  groups: seq<Group>, base: nat, rules: seq<Rule>)
    returns (chunks: seq<seq<Rule>>, bases: seq<nat>)
    requires CompiledBy(cr, FlatMap(emit, groups), base, rules)
    ensures |chunks| == |bases| == |groups| && Concat(chunks) == rules
    ensures forall i :: 0 <= i < |groups| ==> CompiledBy(cr, emit(groups[i]), bases[i], chunks[i])
    decreases |groups|
  {
    if groups == [] {
      chunks, bases := [], [];
    } else {
      var g := emit(groups[0]);
      CompiledSplit(cr, g, FlatMap(emit, groups[1..]), base, rules);
      var cs, bs := Chunks(cr, emit, groups[1..], base + |g|, rules[|g|..]);
      chunks, bases := [rules[..|g|]] + cs, [base] + bs;
      assert rules == rules[..|g|] + rules[|g|..];
      assert chunks[1..] == cs;
    }
  }

  lemma BothRun(o: Oracle, a: seq<Rule>, b: seq<Rule>, s: Subject)
    requires AllStateless(a) && AllStateless(b)
    ensures AllStateless(a + b)
    ensures Verdict(o, a + b, s) == (if Verdict(o, a, s).Some? then Verdict(o, a, s) else Verdict(o, b, s))
    ensures Points(o, a + b, s) == Points(o, a, s) + Points(o, b, s)
  {
    VerdictAppend(o, a, b, s);
  }

  /** Parts run one after the other: the first verdict wins and the points add up. */
  lemma {:induction false} ChunksRun(o: Oracle, chunks: seq<seq<Rule>>, vs: seq<Option<Kind>>, ps: seq<nat>, s: Subject)
    requires |chunks| == |vs| == |ps|
    requires forall i :: 0 <= i < |chunks| ==>
               AllStateless(chunks[i]) && Verdict(o, chunks[i], s) == vs[i] && Points(o, chunks[i], s) == ps[i]
    ensures AllStateless(Concat(chunks))
    ensures Verdict(o, Concat(chunks), s) == FirstSome(vs) && Points(o, Concat(chunks), s) == Sum(ps)
  {
    if chunks != [] {
      ChunksRun(o, chunks[1..], vs[1..], ps[1..], s);
      BothRun(o, chunks[0], Concat(chunks[1..]), s);
    }
  }

  lemma {:induction false} PickedAll(rules: seq<Rule>, defs: seq<RuleDef>, n: nat)
    requires n <= |rules| == |defs| && forall i :: 0 <= i < |defs| ==> defs[i].phase == RequestPhase
    ensures Picked(rules, defs, n, RequestPhase) == rules[..n]
  {
    if n > 0 { PickedAll(rules, defs, n - 1); }
  }

  lemma RequestRules(o: Oracle, defs: seq<RuleDef>, tz: int)
    requires Compiles(o, defs, tz) && forall i :: 0 <= i < |defs| ==> defs[i].phase == RequestPhase
    ensures var rules := PhaseRules(o, defs, tz, RequestPhase);
            |rules| == |defs| && forall i :: 0 <= i < |defs| ==> CompileRule(o, defs[i], i, tz) == Ok(rules[i])
  {
    var all := CompiledRules(o, defs, tz);
    assert defs[..|defs|] == defs;
    PhaseIsPicked(o, defs, tz, RequestPhase, |defs|);
    PickedAll(all, defs, |defs|);
    assert all[..|defs|] == all;
  }

  /** The engine on rules without state, in one line. */
  function Reading(verdict: Option<Kind>, points: nat, scoring: Scoring): Option<Kind> {
    if verdict.Some? then verdict
    else if 0 < scoring.threshold <= points then Some(Deny(scoring.status))
    else None
  }

  function OutcomeKind(out: Option<Outcome>): Option<Kind> {
    match out case Some(x) => Some(KindOf(x)) case None => None
  }

  lemma StatelessEvaluate(o: Oracle, rs: RuleSet, s: Subject, st: Store)
    requires AllStateless(rs.rules) && s.Req?
    ensures OutcomeKind(Evaluate(o, rs, s, st).0)
         == Reading(Verdict(o, rs.rules, s), Points(o, rs.rules, s), Scoring(rs.threshold, rs.anomalyStatus, rs.anomalyMsg))
  {
    var rules := rs.rules;
    EngineFiring(o, rules, 0, s, st);
    EngineScore(o, rules, |rules|, s, st);
    assert rules[0..] == rules && rules[..|rules|] == rules;
  }

  lemma ImportedRules(o: Oracle, tz: int, es: seq<EmittedRule>, scoring: Scoring)
    requires CompileSet(o, Defs(es), scoring, tz).Ok?
    ensures var rs := CompileSet(o, Defs(es), scoring, tz).value;
            && CompiledAs(o, es, 0, tz, rs.rules)
            && Scoring(rs.threshold, rs.anomalyStatus, rs.anomalyMsg) == scoring
  {
    var defs := Defs(es);
    RequestRules(o, defs, tz);
    var rules := PhaseRules(o, defs, tz, RequestPhase);
    forall i | 0 <= i < |es| ensures CompileRule(o, DefOf(es[i]), 0 + i, tz) == Ok(rules[i]) {
      assert CompileRule(o, defs[i], i, tz) == Ok(rules[i]);
    }
  }

  /** The rule set that the import of a file gives, as the engine would load it. */
  function Imported(o: Oracle, tz: int, groups: seq<Group>, scoring: Scoring): Result<RuleSet, RuleError>
  {
    CompileSet(o, Defs(Summary(groups).rules), scoring, tz)
  }

  /**
   The import preserves meaning, for a whole file and every request: if the emitted rules
   compile, the engine's verdict is that of the first deciding group, and with no such
   group it blocks exactly when scoring is on and the groups' points reach the threshold.
   */
  lemma ImportPreservesMeaning(o: Oracle, tz: int, groups: seq<Group>, scoring: Scoring, s: Subject, st: Store)
    requires Imported(o, tz, groups, scoring).Ok? && s.Req?
    ensures OutcomeKind(Evaluate(o, Imported(o, tz, groups, scoring).value, s, st).0)
         == Reading(FileVerdict(o, tz, groups, s), FilePoints(o, tz, groups, s), scoring)
  {
    ImportedRules(o, tz, FlatMap(GroupRules, groups), scoring);
    var rs := Imported(o, tz, groups, scoring).value;
    var vs, ps := Verdicts(o, tz, groups, s), PointsList(o, tz, groups, s);
    CompiledSame(o, FlatMap(GroupRules, groups), 0, tz, rs.rules);
    var chunks, bases := Chunks(Compiler(o, tz), GroupRules, groups, 0, rs.rules);
    forall i | 0 <= i < |groups|
      ensures AllStateless(chunks[i]) && Verdict(o, chunks[i], s) == vs[i] && Points(o, chunks[i], s) == ps[i]
    {
      CompiledSame(o, GroupRules(groups[i]), bases[i], tz, chunks[i]);
      AnyGroupRun(o, tz, groups[i], bases[i], chunks[i], s);
    }
    ChunksRun(o, chunks, vs, ps, s);
    StatelessEvaluate(o, rs, s, st);
  }
}
