/** When the rules an import emits can be loaded by the engine, told from the imported members. */
module ImportLoads {
  import opened Text
  import opened Common
  import opened Rules
  import opened ModSec
  import opened ImportMeaning

  // ── What the engine asks of an emitted rule ────────────────────────────────

  /** The operators the importer emits. */
  predicate ImportOp(op: OpName) {
    match op
    case OEq => true
    case OContains => true
    case OStartsWith => true
    case OEndsWith => true
    case ORegex => true
    case OCidr => true
    case OGt => true
    case OLt => true
    case OGe => true
    case OLe => true
    case ODetectSqli => true
    case ODetectXss => true
    case _ => false
  }

  predicate NeedsName(f: FieldName) { f.FHeader? || f.FArg? || f.FCookie? }

  /** The fields the importer emits: none of the response, no counter and no clock. */
  predicate ImportField(f: FieldName) {
    match f
    case FCountry => false
    case FStatus => false
    case FRespHeader => false
    case FRespBody => false
    case FCounter => false
    case FTime => false
    case FDay => false
    case FUnknown(_) => false
    case _ => true
  }

  /** The argument of an operator is usable: a regex that builds, one network on the address, a number. */
  predicate OpLoads(o: Oracle, op: OpName, value: string, field: FieldName) {
    match op
    case ORegex => o.regexOk(value)
    case OCidr => field.FIp? && o.parseNet(value).Some?
    case OGt => ParseI64(Trim(value)).Some?
    case OLt => ParseI64(Trim(value)).Some?
    case OGe => ParseI64(Trim(value)).Some?
    case OLe => ParseI64(Trim(value)).Some?
    case ODetectSqli => o.injectionBuilt
    case ODetectXss => o.injectionBuilt
    case _ => true
  }

  predicate CondLoads(o: Oracle, c: EmittedCond) {
    && (NeedsName(c.field) ==> Trim(Default(c.name)) != "")
    && OpLoads(o, c.op, Default(c.value), c.field)
    && KnownTransforms(c.transform)
  }

  predicate CondsLoad(o: Oracle, cs: seq<EmittedCond>) { forall i :: 0 <= i < |cs| ==> CondLoads(o, cs[i]) }

  /** A block needs a valid status and a score needs points. */
  predicate ActionLoads(action: ActionName, status: Option<nat>, score: U32) {
    && (action.ABlock? ==> ValidStatus(match status case Some(s) => s case None => 403))
    && (action.AScore? ==> score != 0)
  }

  predicate RuleLoads(o: Oracle, e: EmittedRule) {
    e.when != [] && CondsLoad(o, e.when) && ActionLoads(e.action, e.status, e.score)
  }

  predicate ImportCond(c: EmittedCond) { ImportOp(c.op) && ImportField(c.field) }

  predicate ImportConds(cs: seq<EmittedCond>) { forall i :: 0 <= i < |cs| ==> ImportCond(cs[i]) }

  predicate ImportAction(a: ActionName) { a.ABlock? || a.AAllow? || a.ALog? || a.AScore? }

  predicate ImportShape(e: EmittedRule) { ImportConds(e.when) && ImportAction(e.action) }

  lemma FieldCompiles(c: CondDef)
    requires ImportField(c.field)
    ensures CompileField(c).Ok? <==> (NeedsName(c.field) ==> Trim(c.name) != "")
    ensures CompileField(c).Ok? ==>
              var f := CompileField(c).value;
              !ResponseOnly(f) && !f.Time? && !f.Day? && (f.Ip? <==> c.field.FIp?)
  {
  }

  lemma OpCompiles(o: Oracle, c: CondDef, field: Field, tz: int)
    requires ImportOp(c.op) && (field.Ip? <==> c.field.FIp?)
    ensures CompileOp(o, c, field, tz).Ok? <==> OpLoads(o, c.op, c.value, c.field)
  {
  }

  lemma CondCompiles(o: Oracle, c: EmittedCond, tz: int)
    requires ImportCond(c)
    ensures CompileCond(o, CondDefOf(c), tz).Ok? <==> CondLoads(o, c)
    ensures CompileCond(o, CondDefOf(c), tz).Ok? ==> !ResponseOnly(CompileCond(o, CondDefOf(c), tz).value.field)
  {
    var def := CondDefOf(c);
    FieldCompiles(def);
    if CompileField(def).Ok? { OpCompiles(o, def, CompileField(def).value, tz); }
  }

  lemma {:induction false} CondsCompile(o: Oracle, cs: seq<EmittedCond>, tz: int)
    requires ImportConds(cs)
    ensures var r := CompileConds(o, CondDefs(cs), tz);
            && (r.Ok? <==> CondsLoad(o, cs))
            && (r.Ok? ==> |r.value| == |cs| && FieldsAllowed(RequestPhase, r.value))
  {
    if cs != [] {
      CondCompiles(o, cs[0], tz);
      CondsCompile(o, cs[1..], tz);
      assert CondDefs(cs)[1..] == CondDefs(cs[1..]);
      assert CondsLoad(o, cs) <==> CondLoads(o, cs[0]) && CondsLoad(o, cs[1..]) by {
        assert forall i :: 0 < i < |cs| ==> cs[i] == cs[1..][i - 1];
      }
    }
  }

  lemma RuleCompiles(o: Oracle, e: EmittedRule, slot: nat, tz: int)
    requires ImportShape(e)
    ensures CompileRule(o, DefOf(e), slot, tz).Ok? <==> RuleLoads(o, e)
  {
    CondsCompile(o, e.when, tz);
  }

  // ── What that means for the members ────────────────────────────────────────

  /** Every usable variable of a member gives a condition the engine can load. */
  predicate MemberLoads(o: Oracle, m: ParsedRule) {
    var op := MapOperator(m.opName, m.opArg);
    op.Ok? && forall i :: 0 <= i < |m.vars| && VarCond(m, op.value, m.vars[i]).Some? ==>
                            CondLoads(o, VarCond(m, op.value, m.vars[i]).value)
  }

  /** All members load, and so does the action of the first. */
  predicate Loads(o: Oracle, ms: seq<ParsedRule>)
    requires ms != []
  {
    var (action, status, score) := ActionOf(ms[0]);
    ActionLoads(action, status, score) && forall i :: 0 <= i < |ms| ==> MemberLoads(o, ms[i])
  }

  lemma OperatorShape(name: string, arg: string)
    requires MapOperator(name, arg).Ok?
    ensures ImportOp(MapOperator(name, arg).value.0)
  {
  }

  lemma VarShape(v: RawVar)
    requires MapVar(v).Some?
    ensures ImportField(MapVar(v).value.0)
  {
  }

  lemma {:induction false} FilterMapForall<A(!new), B(!new)>(f: A -> Option<B>, xs: seq<A>, p: B -> bool)
    ensures (forall i :: 0 <= i < |FilterMap(f, xs)| ==> p(FilterMap(f, xs)[i]))
       <==> (forall i :: 0 <= i < |xs| && f(xs[i]).Some? ==> p(f(xs[i]).value))
  {
    if xs != [] {
      var tail, rest, all := xs[1..], FilterMap(f, xs[1..]), FilterMap(f, xs);
      FilterMapForall(f, tail, p);
      assert forall i :: 0 <= i < |tail| ==> tail[i] == xs[i + 1];
      assert forall i :: 0 < i < |xs| ==> xs[i] == tail[i - 1];
      if f(xs[0]).Some? {
        assert all == [f(xs[0]).value] + rest;
        assert forall i :: 0 <= i < |rest| ==> rest[i] == all[i + 1];
        assert forall i :: 0 < i < |all| ==> all[i] == rest[i - 1];
        assert all[0] == f(xs[0]).value;
      } else {
        assert all == rest;
      }
    }
  }

  lemma MemberShape(o: Oracle, m: ParsedRule)
    requires MemberConds(m).Ok?
    ensures MemberConds(m).value != [] && ImportConds(MemberConds(m).value)
    ensures CondsLoad(o, MemberConds(m).value) <==> MemberLoads(o, m)
  {
    var op := MapOperator(m.opName, m.opArg).value;
    var f := (v: RawVar) => VarCond(m, op, v);
    OperatorShape(m.opName, m.opArg);
    forall i | 0 <= i < |m.vars| && f(m.vars[i]).Some? ensures ImportCond(f(m.vars[i]).value) { VarShape(m.vars[i]); }
    FilterMapForall(f, m.vars, (c: EmittedCond) => ImportCond(c));
    FilterMapForall(f, m.vars, (c: EmittedCond) => CondLoads(o, c));
  }

  predicate AllLoad(o: Oracle, es: seq<EmittedRule>) { forall i :: 0 <= i < |es| ==> RuleLoads(o, es[i]) }

  predicate AllShaped(es: seq<EmittedRule>) { forall i :: 0 <= i < |es| ==> ImportShape(es[i]) }

  lemma AlternativesLoad(o: Oracle, m: ParsedRule, conds: seq<EmittedCond>)
    requires conds != [] && ImportConds(conds)
    ensures AllShaped(Alternatives(m, conds))
    ensures var (action, status, score) := ActionOf(m);
            AllLoad(o, Alternatives(m, conds)) <==> ActionLoads(action, status, score) && CondsLoad(o, conds)
  {
    var es := Alternatives(m, conds);
    forall i | 0 <= i < |es| ensures es[i].when == [conds[i]] && ImportShape(es[i]) {}
    if AllLoad(o, es) {
      assert RuleLoads(o, es[0]);
      forall i | 0 <= i < |conds| ensures CondLoads(o, conds[i]) { assert RuleLoads(o, es[i]) && es[i].when[0] == conds[i]; }
    }
  }

  lemma OneCond(o: Oracle, c: EmittedCond)
    ensures (CondsLoad(o, [c]) <==> CondLoads(o, c)) && (ImportConds([c]) <==> ImportCond(c))
  {
    assert [c][0] == c;
  }

  lemma ChainLoads(o: Oracle, ms: seq<ParsedRule>, when: seq<EmittedCond>)
    requires |ms| > 1 && SingleConds(ms, when)
    ensures var e := Emit(ms[0], IdBase(ms[0]), when); ImportShape(e) && (RuleLoads(o, e) <==> Loads(o, ms))
  {
    forall i | 0 <= i < |ms| ensures ImportCond(when[i]) && (CondLoads(o, when[i]) <==> MemberLoads(o, ms[i])) {
      MemberShape(o, ms[i]);
      OneCond(o, when[i]);
    }
  }

  lemma OneRule(o: Oracle, e: EmittedRule)
    ensures (AllLoad(o, [e]) <==> RuleLoads(o, e)) && (AllShaped([e]) <==> ImportShape(e))
  {
    assert [e][0] == e;
  }

  lemma BuiltLoads(o: Oracle, ms: seq<ParsedRule>)
    requires ms != [] && Built(ms).Ok?
    ensures AllShaped(Built(ms).value)
    ensures AllLoad(o, Built(ms).value) <==> Loads(o, ms)
  {
    if |ms| == 1 {
      UnchainedShape(ms);
      MemberShape(o, ms[0]);
      AlternativesLoad(o, ms[0], MemberConds(ms[0]).value);
    } else {
      var when := ChainedShape(ms);
      ChainLoads(o, ms, when);
      OneRule(o, Emit(ms[0], IdBase(ms[0]), when));
    }
  }

  lemma ByMember(o: Oracle, es: seq<EmittedRule>)
    ensures AllShaped(es) <==> forall y :: y in es ==> ImportShape(y)
    ensures AllLoad(o, es) <==> forall y :: y in es ==> RuleLoads(o, y)
  {
  }

  /** What all rules of a group must satisfy, as one condition on the group. */
  lemma GroupLoads(o: Oracle, g: Group)
    ensures forall y :: y in GroupRules(g) ==> ImportShape(y)
    ensures (forall y :: y in GroupRules(g) ==> RuleLoads(o, y)) <==> (Converts(g) ==> Loads(o, g.members))
  {
    if Converts(g) {
      BuiltLoads(o, g.members);
      ByMember(o, Built(g.members).value);
    }
  }

  lemma {:induction false} FlatMapForall<A(!new), B(!new)>(f: A -> seq<B>, xs: seq<A>, p: B -> bool, q: A -> bool)
    requires forall x :: (forall y :: y in f(x) ==> p(y)) <==> q(x)
    ensures (forall y :: y in FlatMap(f, xs) ==> p(y)) <==> (forall i :: 0 <= i < |xs| ==> q(xs[i]))
  {
    if xs != [] {
      var tail := xs[1..];
      FlatMapForall(f, tail, p, q);
      assert forall i :: 0 <= i < |tail| ==> tail[i] == xs[i + 1];
      assert forall i :: 0 < i < |xs| ==> xs[i] == tail[i - 1];
    }
  }

  lemma FileLoads(o: Oracle, groups: seq<Group>)
    ensures AllShaped(FlatMap(GroupRules, groups))
    ensures AllLoad(o, FlatMap(GroupRules, groups))
       <==> forall i :: 0 <= i < |groups| && Converts(groups[i]) ==> Loads(o, groups[i].members)
  {
    var shaped, loads := (e: EmittedRule) => ImportShape(e), (e: EmittedRule) => RuleLoads(o, e);
    var any, ok := (g: Group) => true, (g: Group) => Converts(g) ==> Loads(o, g.members);
    forall g: Group
      ensures forall y :: y in GroupRules(g) ==> shaped(y)
      ensures (forall y :: y in GroupRules(g) ==> loads(y)) <==> ok(g)
    {
      GroupLoads(o, g);
    }
    FlatMapForall(GroupRules, groups, shaped, any);
    FlatMapForall(GroupRules, groups, loads, ok);
    ByMember(o, FlatMap(GroupRules, groups));
  }

  /**
   The engine loads an imported file exactly when the scoring status is valid and, for every
   group that converts, the starter's action is usable and every usable variable of every
   member has a name where one is needed and an argument its operator can take on that field.
   */
  lemma ImportLoadsExactly(o: Oracle, tz: int, groups: seq<Group>, scoring: Scoring)
    ensures Imported(o, tz, groups, scoring).Ok?
       <==> && ValidStatus(scoring.status)
            && forall i :: 0 <= i < |groups| && Converts(groups[i]) ==> Loads(o, groups[i].members)
  {
    var es := FlatMap(GroupRules, groups);
    FileLoads(o, groups);
    forall i | 0 <= i < |es| ensures CompileRule(o, Defs(es)[i], i, tz).Ok? <==> RuleLoads(o, es[i]) {
      RuleCompiles(o, es[i], i, tz);
    }
  }

  // ── A rule that converts and does not load ─────────────────────────────────

  lemma ArgsMapped()
    ensures MapVar(RawVar("ARGS", None, false, false)) == Some((FArgs, None))
  {
    assert Upper("ARGS") == "ARGS";
  }

  lemma OneNet(arg: string)
    requires arg != "" && Trimmed(arg) && Free(arg, ',')
    ensures CidrList(arg) == [arg]
  {
    SplitFree(arg, ',');
    TrimTrimmed(arg);
    FilterMapAll((p: string) => if Trim(p) == "" then None else Some(Trim(p)), [arg], [arg]);
  }

  lemma NoMacro(arg: string)
    requires Free(arg, '%')
    ensures !Contains("%{", arg)
  {
    ContainsIsOccurs("%{", arg);
    forall i: nat ensures !OccursAt("%{", arg, i) {
      if i + 2 <= |arg| { assert arg[i..i + 2][0] == arg[i]; }
    }
  }

  lemma IpMatchMapped(arg: string)
    requires arg != "" && Trimmed(arg) && Free(arg, ',') && Free(arg, '%')
    ensures MapOperator("ipMatch", arg) == Ok((OCidr, Some(arg)))
  {
    OneNet(arg);
    NoMacro(arg);
  }

  lemma OneMember(m: ParsedRule, op: (OpName, Option<string>))
    requires |m.vars| == 1 && m.phase < 3 && MapOperator(m.opName, m.opArg) == Ok(op) && VarCond(m, op, m.vars[0]).Some?
    ensures Converts(Members([m]))
  {
    var f := (v: RawVar) => VarCond(m, op, v);
    var c := VarCond(m, op, m.vars[0]).value;
    FilterMapAll(f, m.vars, [c]);
    assert MemberConds(m) == Ok([c]);
    assert [m][..0] == [] && [m][0] == m;
    assert AllConds([]) == Ok([]);
    assert AllConds([m]).Ok?;
  }

  lemma RefusedVar(o: Oracle, m: ParsedRule, op: (OpName, Option<string>))
    requires MapOperator(m.opName, m.opArg) == Ok(op) && op.0.OCidr?
    requires |m.vars| == 1 && !m.vars[0].exclude && MapVar(m.vars[0]) == Some((FArgs, None))
    ensures VarCond(m, op, m.vars[0]).Some? && !MemberLoads(o, m)
  {
    var c := VarCond(m, op, m.vars[0]);
    assert c.Some? && !CondLoads(o, c.value);
  }

  lemma RefusedGroup(o: Oracle, tz: int, m: ParsedRule, scoring: Scoring)
    requires Converts(Members([m])) && !MemberLoads(o, m)
    ensures Imported(o, tz, [Members([m])], scoring).Err?
  {
    var groups := [Members([m])];
    assert groups[0].members[0] == m;
    assert !Loads(o, groups[0].members);
    ImportLoadsExactly(o, tz, groups, scoring);
  }

  /** `ARGS "@ipMatch 1.2.3.4"`, or any other network: an address operator on something other than the address. */
  lemma IpMatchOnArgs(o: Oracle, tz: int, m: ParsedRule, scoring: Scoring)
    requires m.vars == [RawVar("ARGS", None, false, false)] && m.phase < 3
    requires m.opName == "ipMatch" && m.opArg != "" && Trimmed(m.opArg) && Free(m.opArg, ',') && Free(m.opArg, '%')
    ensures Converts(Members([m])) && Imported(o, tz, [Members([m])], scoring).Err?
  {
    IpMatchMapped(m.opArg);
    ArgsMapped();
    RefusedVar(o, m, (OCidr, Some(m.opArg)));
    OneMember(m, (OCidr, Some(m.opArg)));
    RefusedGroup(o, tz, m, scoring);
  }
}
