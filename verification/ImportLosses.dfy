/** What an import drops from a rule that it converts, without a word in the report. */
module ImportLosses {
  import opened Text
  import opened Rules
  import opened ModSec
  import opened ImportMeaning
  import ImportLoads
  import opened SecRuleText
  import opened SecRuleFile

  // ── Sums ───────────────────────────────────────────────────────────────────

  lemma {:induction false} SumsEqual(a: seq<nat>, b: seq<nat>)
    requires |a| == |b| && forall i :: 0 <= i < |a| ==> a[i] <= b[i]
    ensures Sum(a) <= Sum(b) && (Sum(a) == Sum(b) <==> a == b)
  {
    if a != [] {
      SumsEqual(a[1..], b[1..]);
      assert a == [a[0]] + a[1..] && b == [b[0]] + b[1..];
    }
  }

  lemma {:induction false} SumOfOnes(a: seq<nat>)
    requires forall i :: 0 <= i < |a| ==> a[i] == 1
    ensures Sum(a) == |a|
  {
    if a != [] { SumOfOnes(a[1..]); }
  }

  lemma {:induction false} FilterLength<A, B>(f: A -> Option<B>, xs: seq<A>)
    ensures |FilterMap(f, xs)| <= |xs|
    ensures |FilterMap(f, xs)| == |xs| <==> forall i :: 0 <= i < |xs| ==> f(xs[i]).Some?
  {
    if xs != [] {
      var tail := xs[1..];
      FilterLength(f, tail);
      assert forall i :: 0 <= i < |tail| ==> tail[i] == xs[i + 1];
      assert forall i :: 0 < i < |xs| ==> xs[i] == tail[i - 1];
    }
  }

  // ── Variables ──────────────────────────────────────────────────────────────

  /** A variable that an emitted condition can stand for. */
  predicate Usable(v: RawVar) { !v.exclude && MapVar(v).Some? }

  predicate AllUsable(m: ParsedRule) { forall i :: 0 <= i < |m.vars| ==> Usable(m.vars[i]) }

  predicate MembersUsable(ms: seq<ParsedRule>) { forall i :: 0 <= i < |ms| ==> AllUsable(ms[i]) }

  lemma CondCount(m: ParsedRule)
    requires MemberConds(m).Ok?
    ensures |MemberConds(m).value| <= |m.vars| && (|MemberConds(m).value| == |m.vars| <==> AllUsable(m))
  {
    var op := MapOperator(m.opName, m.opArg).value;
    var f := (v: RawVar) => VarCond(m, op, v);
    FilterLength(f, m.vars);
    assert forall i :: 0 <= i < |m.vars| ==> (f(m.vars[i]).Some? <==> Usable(m.vars[i]));
  }

  /** How many conditions emitted rules hold. */
  function Conditions(es: seq<EmittedRule>): nat {
    if es == [] then 0 else |es[0].when| + Conditions(es[1..])
  }

  function VarCounts(ms: seq<ParsedRule>): (r: seq<nat>)
    ensures |r| == |ms| && forall i :: 0 <= i < |ms| ==> r[i] == |ms[i].vars|
  {
    seq(|ms|, i requires 0 <= i < |ms| => |ms[i].vars|)
  }

  /** How many variables the members of a group name. */
  function Variables(ms: seq<ParsedRule>): nat { Sum(VarCounts(ms)) }

  lemma {:induction false} OneEachCount(es: seq<EmittedRule>)
    requires forall i :: 0 <= i < |es| ==> |es[i].when| == 1
    ensures Conditions(es) == |es|
  {
    if es != [] { OneEachCount(es[1..]); }
  }

  lemma OneSum(a: seq<nat>)
    requires |a| == 1
    ensures Sum(a) == a[0]
  {
    assert a[1..] == [];
  }

  lemma UnchainedLoss(ms: seq<ParsedRule>)
    requires |ms| == 1 && Built(ms).Ok?
    ensures Conditions(Built(ms).value) <= Variables(ms)
    ensures Conditions(Built(ms).value) == Variables(ms) <==> MembersUsable(ms)
  {
    UnchainedShape(ms);
    CondCount(ms[0]);
    OneEachCount(Built(ms).value);
    OneSum(VarCounts(ms));
  }

  lemma ChainedLoss(ms: seq<ParsedRule>, when: seq<EmittedCond>)
    requires |ms| > 1 && SingleConds(ms, when)
    ensures |ms| <= Variables(ms) && (|ms| == Variables(ms) <==> MembersUsable(ms))
  {
    var ones: seq<nat>, counts := seq(|ms|, i => 1), VarCounts(ms);
    forall i | 0 <= i < |ms| ensures 1 <= counts[i] && (counts[i] == 1 <==> AllUsable(ms[i])) { CondCount(ms[i]); }
    SumOfOnes(ones);
    SumsEqual(ones, counts);
    assert ones == counts <==> forall i :: 0 <= i < |ms| ==> counts[i] == 1;
  }

  lemma OneRuleConditions(e: EmittedRule)
    ensures Conditions([e]) == |e.when|
  {
    assert [e][1..] == [];
  }

  /** A group that converts keeps a condition for every variable exactly when every variable of every member is usable. */
  lemma GroupLosesNothing(ms: seq<ParsedRule>)
    requires ms != [] && Built(ms).Ok?
    ensures Conditions(Built(ms).value) <= Variables(ms)
    ensures Conditions(Built(ms).value) == Variables(ms) <==> MembersUsable(ms)
  {
    if |ms| == 1 {
      UnchainedLoss(ms);
    } else {
      var when := ChainedShape(ms);
      ChainedLoss(ms, when);
      OneRuleConditions(Built(ms).value[0]);
    }
  }

  // ── Whole reports ──────────────────────────────────────────────────────────

  lemma {:induction false} ConditionsAppend(a: seq<EmittedRule>, b: seq<EmittedRule>)
    ensures Conditions(a + b) == Conditions(a) + Conditions(b)
  {
    if a == [] {
      assert a + b == b;
    } else {
      assert (a + b)[1..] == a[1..] + b;
      ConditionsAppend(a[1..], b);
    }
  }

  /** What a group states: the variables of its members, if it converts. */
  function Stated(g: Group): nat { if Converts(g) then Variables(g.members) else 0 }

  function CountAll(f: Group -> nat, groups: seq<Group>): (r: seq<nat>)
    ensures |r| == |groups| && forall i :: 0 <= i < |groups| ==> r[i] == f(groups[i])
  {
    seq(|groups|, i requires 0 <= i < |groups| => f(groups[i]))
  }

  lemma {:induction false} ConditionsOfAll(emit: Group -> seq<EmittedRule>, count: Group -> nat, groups: seq<Group>)
    requires forall g :: count(g) == Conditions(emit(g))
    ensures Conditions(FlatMap(emit, groups)) == Sum(CountAll(count, groups))
  {
    if groups != [] {
      ConditionsOfAll(emit, count, groups[1..]);
      ConditionsAppend(emit(groups[0]), FlatMap(emit, groups[1..]));
      assert CountAll(count, groups)[1..] == CountAll(count, groups[1..]);
    }
  }

  function Kept(g: Group): nat { Conditions(GroupRules(g)) }

  lemma KeptAtMost(g: Group)
    ensures Kept(g) <= Stated(g) && (Kept(g) == Stated(g) <==> (Converts(g) ==> MembersUsable(g.members)))
  {
    if Converts(g) { GroupLosesNothing(g.members); }
  }

  /**
   The rules of a report hold a condition for every variable of every group that converts
   exactly when all those variables are usable. Nothing else in the report tells the difference.
   */
  lemma ReportLosesNothing(groups: seq<Group>)
    ensures Conditions(Summary(groups).rules) == Sum(CountAll(Stated, groups))
       <==> forall i :: 0 <= i < |groups| && Converts(groups[i]) ==> MembersUsable(groups[i].members)
  {
    var kept, stated := CountAll(Kept, groups), CountAll(Stated, groups);
    ConditionsOfAll(GroupRules, Kept, groups);
    forall i | 0 <= i < |groups|
      ensures kept[i] <= stated[i] && (kept[i] == stated[i] <==> (Converts(groups[i]) ==> MembersUsable(groups[i].members)))
    {
      KeptAtMost(groups[i]);
    }
    SumsEqual(kept, stated);
    assert kept == stated <==> forall i :: 0 <= i < |groups| ==> kept[i] == stated[i];
  }

  // ── The report does not tell ───────────────────────────────────────────────

  function IfUsable(v: RawVar): Option<RawVar> { if Usable(v) then Some(v) else None }

  /** The member with only its usable variables. */
  function Reduced(m: ParsedRule): ParsedRule { m.(vars := FilterMap(IfUsable, m.vars)) }

  function AllReduced(ms: seq<ParsedRule>): (r: seq<ParsedRule>)
    ensures |r| == |ms| && forall i :: 0 <= i < |ms| ==> r[i] == Reduced(ms[i])
  {
    seq(|ms|, i requires 0 <= i < |ms| => Reduced(ms[i]))
  }

  function ReducedGroup(g: Group): Group { match g case Unparsed => Unparsed case Members(ms) => Members(AllReduced(ms)) }

  lemma SameConds(m: ParsedRule)
    ensures MemberConds(Reduced(m)) == MemberConds(m)
  {
    var op := MapOperator(m.opName, m.opArg);
    if op.Ok? {
      var m' := Reduced(m);
      var f, g := (v: RawVar) => VarCond(m, op.value, v), (v: RawVar) => VarCond(m', op.value, v);
      FilterThen(IfUsable, g, f, m.vars);
    }
  }

  lemma {:induction false} SameAllConds(ms: seq<ParsedRule>)
    ensures AllConds(AllReduced(ms)) == AllConds(ms)
  {
    if ms != [] {
      var n := |ms| - 1;
      SameAllConds(ms[..n]);
      SameConds(ms[n]);
      assert AllReduced(ms)[..n] == AllReduced(ms[..n]);
    }
  }

  lemma {:induction false} SameWarnings(ms: seq<ParsedRule>)
    ensures WarningsOf(AllReduced(ms)) == WarningsOf(ms)
  {
    if ms != [] {
      SameConds(ms[0]);
      SameWarnings(ms[1..]);
      assert AllReduced(ms)[1..] == AllReduced(ms[1..]);
      assert OperatorWarning(Reduced(ms[0])) == OperatorWarning(ms[0]);
    }
  }

  lemma SameAlternatives(m: ParsedRule, conds: seq<EmittedCond>)
    ensures Alternatives(Reduced(m), conds) == Alternatives(m, conds)
  {
  }

  lemma SameBuilt(ms: seq<ParsedRule>)
    requires ms != []
    ensures Built(AllReduced(ms)) == Built(ms)
  {
    SameAllConds(ms);
    if AllConds(ms).Ok? { SameAlternatives(ms[0], AllConds(ms).value[0]); }
  }

  lemma SameGroup(g: Group)
    ensures GroupRules(ReducedGroup(g)) == GroupRules(g) && GroupWarnings(ReducedGroup(g)) == GroupWarnings(g)
    ensures ConvertedOf(ReducedGroup(g)) == ConvertedOf(g) && NoteOf(ReducedGroup(g)) == NoteOf(g)
  {
    if g.Members? && g.members != [] {
      SameBuilt(g.members);
      SameWarnings(g.members);
    }
  }

  function ReducedGroups(groups: seq<Group>): (r: seq<Group>)
    ensures |r| == |groups| && forall i :: 0 <= i < |groups| ==> r[i] == ReducedGroup(groups[i])
  {
    seq(|groups|, i requires 0 <= i < |groups| => ReducedGroup(groups[i]))
  }

  lemma {:induction false} FlatMapSame<A, B>(f: A -> seq<B>, xs: seq<A>, ys: seq<A>)
    requires |xs| == |ys| && forall i :: 0 <= i < |xs| ==> f(xs[i]) == f(ys[i])
    ensures FlatMap(f, xs) == FlatMap(f, ys)
  {
    if xs != [] { FlatMapSame(f, xs[1..], ys[1..]); }
  }

  lemma {:induction false} FilterMapSame<A, B>(f: A -> Option<B>, xs: seq<A>, ys: seq<A>)
    requires |xs| == |ys| && forall i :: 0 <= i < |xs| ==> f(xs[i]) == f(ys[i])
    ensures FilterMap(f, xs) == FilterMap(f, ys)
  {
    if xs != [] { FilterMapSame(f, xs[1..], ys[1..]); }
  }

  /** A file whose unusable variables were never written gives the very same report: what is lost is reported nowhere. */
  lemma LossUnreported(groups: seq<Group>)
    ensures Summary(ReducedGroups(groups)) == Summary(groups)
  {
    var reduced := ReducedGroups(groups);
    forall i | 0 <= i < |groups|
      ensures GroupRules(reduced[i]) == GroupRules(groups[i]) && GroupWarnings(reduced[i]) == GroupWarnings(groups[i])
      ensures ConvertedOf(reduced[i]) == ConvertedOf(groups[i]) && NoteOf(reduced[i]) == NoteOf(groups[i])
    {
      SameGroup(groups[i]);
    }
    FlatMapSame(GroupRules, reduced, groups);
    FlatMapSame(GroupWarnings, reduced, groups);
    FilterMapSame(ConvertedOf, reduced, groups);
    FilterMapSame(NoteOf, reduced, groups);
  }

  // ── Actions of later members ───────────────────────────────────────────────

  /** The member as a bare condition: no id, phase, verdict, status, message or score of its own. */
  function Bare(m: ParsedRule): ParsedRule {
    m.(id := None, phase := 2, disrupt := false, allow := false, pass := false, status := None, msg := "", score := None)
  }

  /** The group with every member after the first reduced to its bare condition. */
  function LaterBare(ms: seq<ParsedRule>): (r: seq<ParsedRule>)
    ensures |r| == |ms| && forall i :: 0 <= i < |ms| ==> r[i] == if i == 0 then ms[i] else Bare(ms[i])
  {
    seq(|ms|, i requires 0 <= i < |ms| => if i == 0 then ms[i] else Bare(ms[i]))
  }

  lemma {:induction false} FunctionsSame<A, B>(f: A -> Option<B>, g: A -> Option<B>, xs: seq<A>)
    requires forall i :: 0 <= i < |xs| ==> f(xs[i]) == g(xs[i])
    ensures FilterMap(f, xs) == FilterMap(g, xs)
  {
    if xs != [] { FunctionsSame(f, g, xs[1..]); }
  }

  lemma BareConds(m: ParsedRule)
    ensures MemberConds(Bare(m)) == MemberConds(m) && OperatorWarning(Bare(m)) == OperatorWarning(m)
  {
    var op := MapOperator(m.opName, m.opArg);
    if op.Ok? {
      var m' := Bare(m);
      var f, g := (v: RawVar) => VarCond(m, op.value, v), (v: RawVar) => VarCond(m', op.value, v);
      FunctionsSame(f, g, m.vars);
    }
  }

  lemma {:induction false} LaterConds(ms: seq<ParsedRule>)
    ensures AllConds(LaterBare(ms)) == AllConds(ms)
  {
    if ms != [] {
      var n := |ms| - 1;
      LaterConds(ms[..n]);
      BareConds(ms[n]);
      assert LaterBare(ms)[..n] == LaterBare(ms[..n]);
    }
  }

  /** Of a member after the first only the condition is read: its phase, verdict and score go unreported. */
  lemma LaterActionsUnread(ms: seq<ParsedRule>)
    requires ms != []
    ensures Built(LaterBare(ms)) == Built(ms)
  {
    LaterConds(ms);
  }

  // ── Transforms ─────────────────────────────────────────────────────────────

  predicate IsT(a: ActionItem) { a.0 == "t" && a.1.Some? }

  predicate Unsupports(a: ActionItem) { IsT(a) && MapTransform(a.1.value).Unsupported? }

  predicate Clears(a: ActionItem) { IsT(a) && MapTransform(a.1.value).Clear? }

  predicate SomeClears(acts: seq<ActionItem>) { exists i :: 0 <= i < |acts| && Clears(acts[i]) }

  /** Every transform that is not supported is cleared by a later `t:none`. */
  predicate AllCleared(acts: seq<ActionItem>) {
    acts != [] ==> (Unsupports(acts[0]) ==> SomeClears(acts[1..])) && AllCleared(acts[1..])
  }

  /** The transforms as written, the unsupported ones among them. */
  function StatedTransform(ts: seq<TransformName>, a: ActionItem): seq<TransformName> {
    if Unsupports(a) then ts + [TUnknown(a.1.value)]
    else if Clears(a) then []
    else if IsT(a) then ts + [MapTransform(a.1.value).name]
    else ts
  }

  function StatedTransforms(ts: seq<TransformName>, acts: seq<ActionItem>): seq<TransformName>
    decreases |acts|
  {
    if acts == [] then ts else StatedTransforms(StatedTransform(ts, acts[0]), acts[1..])
  }

  lemma ActionTransform(r: ParsedRule, a: ActionItem)
    ensures WithAction(r, a).transforms == (if Unsupports(a) then r.transforms else StatedTransform(r.transforms, a))
  {
  }

  lemma ClearsCons(a: ActionItem, rest: seq<ActionItem>)
    ensures SomeClears([a] + rest) <==> Clears(a) || SomeClears(rest)
  {
    var all := [a] + rest;
    assert all[0] == a && forall i :: 0 <= i < |rest| ==> all[i + 1] == rest[i];
    if SomeClears(all) {
      var i :| 0 <= i < |all| && Clears(all[i]);
      assert i > 0 ==> rest[i - 1] == all[i];
    }
  }

  /** Either nothing is missing so far, or the stated list is longer; only a `t:none` makes up for it. */
  lemma {:induction false} TransformsMeet(r: ParsedRule, stated: seq<TransformName>, acts: seq<ActionItem>)
    requires r.transforms == stated || |r.transforms| < |stated|
    ensures WithActions(r, acts).transforms == StatedTransforms(stated, acts)
       <==> (r.transforms == stated || SomeClears(acts)) && AllCleared(acts)
    decreases |acts|
  {
    if acts != [] {
      var a, rest := acts[0], acts[1..];
      ActionTransform(r, a);
      ClearsCons(a, rest);
      assert [a] + rest == acts;
      TransformsMeet(WithAction(r, a), StatedTransform(stated, a), rest);
    }
  }

  /** A rule keeps every transform its actions state exactly when each unsupported one is cleared by a later `t:none`. */
  lemma TransformsKeptExactly(vars: seq<RawVar>, op: Operator, acts: seq<ActionItem>)
    ensures WithActions(Base(vars, op), acts).transforms == StatedTransforms([], acts) <==> AllCleared(acts)
  {
    TransformsMeet(Base(vars, op), [], acts);
  }

  function IfSupported(a: ActionItem): Option<ActionItem> { if Unsupports(a) then None else Some(a) }

  /** A rule whose unsupported transforms were never written is read as the very same rule. */
  lemma {:induction false} TransformUnreported(r: ParsedRule, acts: seq<ActionItem>)
    ensures WithActions(r, FilterMap(IfSupported, acts)) == WithActions(r, acts)
    decreases |acts|
  {
    if acts != [] {
      var a, rest := acts[0], acts[1..];
      var kept := FilterMap(IfSupported, rest);
      TransformUnreported(WithAction(r, a), rest);
      if Unsupports(a) {
        assert WithAction(r, a) == r;
        assert FilterMap(IfSupported, acts) == [] + kept == kept;
      } else {
        assert FilterMap(IfSupported, acts) == [a] + kept;
        assert ([a] + kept)[1..] == kept;
      }
    }
  }

  // ── Two inputs ─────────────────────────────────────────────────────────────

  /** A transform the importer does not know leaves no trace. */
  lemma EntityDecodeLost(r: ParsedRule)
    ensures WithAction(r, ("t", Some("htmlEntityDecode"))) == r
  {
    TrimTrimmed("htmlEntityDecode");
  }

  lemma ArgsUsable()
    ensures MapVar(RawVar("ARGS", None, false, false)) == Some((FArgs, None))
  {
    assert Upper("ARGS") == "ARGS";
  }

  lemma SelectorUnusable()
    ensures MapVar(RawVar("REQUEST_HEADERS", Some("/x/"), false, false)) == None
  {
    assert Upper("REQUEST_HEADERS") == "REQUEST_HEADERS";
  }

  lemma StreqMapped()
    ensures MapOperator("streq", "bad") == Ok((OEq, Some("bad")))
  {
    ImportLoads.NoMacro("bad");
  }

  lemma TwoVars(f: RawVar -> Option<EmittedCond>, vars: seq<RawVar>, c: EmittedCond)
    requires |vars| == 2 && f(vars[0]) == Some(c) && f(vars[1]) == None
    ensures FilterMap(f, vars) == [c]
  {
    var tail := vars[1..];
    assert tail == [vars[1]] && tail[1..] == [];
    assert FilterMap(f, tail) == [];
  }

  lemma OneSummary(g: Group)
    ensures Summary([g])
         == Report(GroupRules(g), if ConvertedOf(g).Some? then 1 else 0,
                   match NoteOf(g) case Some(n) => [n] case None => [], GroupWarnings(g))
  {
    FlatMapAppend(GroupRules, [], g);
    FlatMapAppend(GroupWarnings, [], g);
    FilterMapAppend(ConvertedOf, [], g);
    FilterMapAppend(NoteOf, [], g);
    assert [] + [g] == [g];
    assert [] + GroupRules(g) == GroupRules(g) && [] + GroupWarnings(g) == GroupWarnings(g);
  }

  lemma OneGroup(m: ParsedRule, c: EmittedCond)
    requires MemberConds(m) == Ok([c]) && m.phase < 3 && m.opName == "streq"
    ensures var rep := Summary([Members([m])]);
            rep.converted == 1 && rep.skipped == [] && rep.warnings == [] && |rep.rules| == 1
  {
    var ms, g := [m], Members([m]);
    assert ms[..0] == [] && ms[0] == m && AllConds([]) == Ok([]);
    assert AllConds(ms) == Ok([] + [[c]]);
    assert Built(ms) == Ok(Alternatives(m, [c]));
    assert ms[1..] == [] && WarningsOf(ms) == [];
    OneSummary(g);
  }

  /** `ARGS|REQUEST_HEADERS:/x/`: the rule converts, nothing is skipped or warned about, and the selector is gone. */
  lemma RegexSelectorLost(m: ParsedRule)
    requires m.vars == [RawVar("ARGS", None, false, false), RawVar("REQUEST_HEADERS", Some("/x/"), false, false)]
    requires m.opName == "streq" && m.opArg == "bad" && m.phase < 3
    ensures var rep := Summary([Members([m])]);
            rep.converted == 1 && rep.skipped == [] && rep.warnings == [] && |rep.rules| == 1
  {
    ArgsUsable();
    SelectorUnusable();
    StreqMapped();
    var op := (OEq, Some("bad"));
    var c := EmittedCond(FArgs, None, OEq, Some("bad"), m.negate, m.transforms);
    TwoVars((v: RawVar) => VarCond(m, op, v), m.vars, c);
    assert MemberConds(m) == Ok([c]);
    OneGroup(m, c);
  }
}
