/** The stage stack: short-circuit, panics and the fail policy, and the split around the body gate. */
module Pipeline {
  import opened Text
  import opened Common

  /** What one guarded stage call gives: go on, stop with a decision, or a caught panic. */
  datatype Verdict = Go | Stop(decision: WafDecision) | Panic

  datatype OnError = Closed | Open

  /** A stage: it may change the context before answering, also when it panics. */
  type Stage<!C> = C -> (C, Verdict)

  function PanicBlock(): WafDecision { Block("pipeline.panic", 500, "inspection error") }

  predicate Passes(policy: OnError, v: Verdict) { v.Go? || (v.Panic? && policy.Open?) }

  function Answer(v: Verdict): WafDecision
    requires !v.Go?
  {
    match v case Stop(d) => d case Panic => PanicBlock()
  }

  // ── One run over a stack ───────────────────────────────────────────────────

  function Outcome<C>(policy: OnError, stages: seq<Stage<C>>, c: C): (C, WafDecision)
    decreases |stages|
  {
    if stages == [] then (c, Allow)
    else
      var (c', v) := stages[0](c);
      if Passes(policy, v) then Outcome(policy, stages[1..], c') else (c', Answer(v))
  }

  /** `Pipeline::run`. */
  method Run<C>(policy: OnError, stages: seq<Stage<C>>, c: C) returns (ctx: C, d: WafDecision)
    ensures (ctx, d) == Outcome(policy, stages, c)
  {
    ctx := c;
    for i := 0 to |stages|
      invariant Outcome(policy, stages, c) == Outcome(policy, stages[i..], ctx)
    {
      assert stages[i..][1..] == stages[i + 1..];
      var (next, v) := stages[i](ctx);
      ctx := next;
      match v
      case Go =>
      case Stop(decision) => return ctx, decision;
      case Panic =>
        if policy.Closed? { return ctx, Block("pipeline.panic", 500, "inspection error"); }
    }
    d := Allow;
  }

  /** The context after the first `k` stages, whatever they answered. */
  function StateAfter<C>(stages: seq<Stage<C>>, c: C, k: nat): C
    requires k <= |stages|
  {
    if k == 0 then c else stages[k - 1](StateAfter(stages, c, k - 1)).0
  }

  function VerdictAt<C>(stages: seq<Stage<C>>, c: C, k: nat): Verdict
    requires k < |stages|
  {
    stages[k](StateAfter(stages, c, k)).1
  }

  ghost predicate PassesBefore<C>(policy: OnError, stages: seq<Stage<C>>, c: C, k: nat)
    requires k <= |stages|
  {
    forall j: nat :: j < k ==> Passes(policy, VerdictAt(stages, c, j))
  }

  /** Stage `k` is the first that does not continue. */
  ghost predicate StopsAt<C>(policy: OnError, stages: seq<Stage<C>>, c: C, k: nat) {
    k < |stages| && PassesBefore(policy, stages, c, k) && !Passes(policy, VerdictAt(stages, c, k))
  }

  lemma {:induction false} Skip<C>(policy: OnError, stages: seq<Stage<C>>, c: C, k: nat)
    requires k <= |stages| && PassesBefore(policy, stages, c, k)
    ensures Outcome(policy, stages, c) == Outcome(policy, stages[k..], StateAfter(stages, c, k))
  {
    if k > 0 {
      Skip(policy, stages, c, k - 1);
      assert Passes(policy, VerdictAt(stages, c, k - 1));
      assert stages[k - 1..][1..] == stages[k..];
    } else {
      assert stages[0..] == stages;
    }
  }

  /** The first stage that does not continue decides, and the later ones never see the request. */
  lemma FirstStopDecides<C>(policy: OnError, stages: seq<Stage<C>>, c: C, k: nat)
    requires StopsAt(policy, stages, c, k)
    ensures Outcome(policy, stages, c) == (StateAfter(stages, c, k + 1), Answer(VerdictAt(stages, c, k)))
  {
    Skip(policy, stages, c, k);
    assert stages[k..][0] == stages[k];
  }

  lemma NoStopAllows<C>(policy: OnError, stages: seq<Stage<C>>, c: C)
    requires PassesBefore(policy, stages, c, |stages|)
    ensures Outcome(policy, stages, c) == (StateAfter(stages, c, |stages|), Allow)
  {
    Skip(policy, stages, c, |stages|);
  }

  /** Either some stage is the first to stop, or all of them pass. */
  lemma {:induction false} StopOrPass<C>(policy: OnError, stages: seq<Stage<C>>, c: C, k: nat) returns (stop: Option<nat>)
    requires k <= |stages|
    ensures stop.Some? ==> StopsAt(policy, stages, c, stop.value)
    ensures stop.None? ==> PassesBefore(policy, stages, c, k)
  {
    if k == 0 { return None; }
    stop := StopOrPass(policy, stages, c, k - 1);
    if stop.None? && !Passes(policy, VerdictAt(stages, c, k - 1)) { stop := Some(k - 1); }
  }

  // ── The fail policy ────────────────────────────────────────────────────────

  lemma OneStop<C>(policy: OnError, stages: seq<Stage<C>>, c: C, j: nat, k: nat)
    requires StopsAt(policy, stages, c, j) && StopsAt(policy, stages, c, k)
    ensures j == k
  {
  }

  /**
   Closed: the 500 block is the answer exactly when the first stage that does not continue
   panics, or answers with that very block itself.
   */
  lemma ClosedFailsOnPanic<C>(stages: seq<Stage<C>>, c: C)
    ensures Outcome(Closed, stages, c).1 == PanicBlock()
       <==> exists k: nat :: StopsAt(Closed, stages, c, k) && VerdictAt(stages, c, k) in {Panic, Stop(PanicBlock())}
  {
    var stop := StopOrPass(Closed, stages, c, |stages|);
    match stop
    case None =>
      NoStopAllows(Closed, stages, c);
      forall k: nat ensures !StopsAt(Closed, stages, c, k) {
        if k < |stages| { assert Passes(Closed, VerdictAt(stages, c, k)); }
      }
    case Some(k) =>
      FirstStopDecides(Closed, stages, c, k);
      forall j: nat | StopsAt(Closed, stages, c, j) ensures j == k {
        OneStop(Closed, stages, c, j, k);
      }
  }

  /** The stage with its panics turned into continues; what it did to the context stays. */
  function Forgiving<C>(stage: Stage<C>): Stage<C> {
    (c: C) => (stage(c).0, if stage(c).1.Panic? then Go else stage(c).1)
  }

  function AllForgiving<C>(stages: seq<Stage<C>>): (r: seq<Stage<C>>)
    ensures |r| == |stages| && forall i :: 0 <= i < |r| ==> r[i] == Forgiving(stages[i])
  {
    seq(|stages|, i requires 0 <= i < |stages| => Forgiving(stages[i]))
  }

  /** On this context two stages leave the same context and answer alike, each under its own policy. */
  predicate Alike<C(==)>(p: OnError, f: Stage<C>, q: OnError, g: Stage<C>, c: C) {
    && f(c).0 == g(c).0
    && (Passes(p, f(c).1) <==> Passes(q, g(c).1))
    && (!Passes(p, f(c).1) ==> Answer(f(c).1) == Answer(g(c).1))
  }

  /** Stacks that are alike stage by stage give the same outcome. */
  lemma {:induction false} AlikeRuns<C>(p: OnError, a: seq<Stage<C>>, q: OnError, b: seq<Stage<C>>, c: C)
    requires |a| == |b| && forall i, x :: 0 <= i < |a| ==> Alike(p, a[i], q, b[i], x)
    ensures Outcome(p, a, c) == Outcome(q, b, c)
    decreases |a|
  {
    if a != [] {
      assert Alike(p, a[0], q, b[0], c);
      AlikeRuns(p, a[1..], q, b[1..], a[0](c).0);
    }
  }

  /** Open: a run with panics is the run, under either policy, of stages whose panics are continues. */
  lemma OpenSkipsPanics<C>(policy: OnError, stages: seq<Stage<C>>, c: C)
    ensures Outcome(Open, stages, c) == Outcome(policy, AllForgiving(stages), c)
  {
    AlikeRuns(Open, stages, policy, AllForgiving(stages), c);
  }

  lemma OneStep<C>(policy: OnError, stage: Stage<C>, rest: seq<Stage<C>>, c: C)
    ensures Outcome(policy, [stage] + rest, c)
         == (if Passes(policy, stage(c).1) then Outcome(policy, rest, stage(c).0) else (stage(c).0, Answer(stage(c).1)))
  {
    assert ([stage] + rest)[1..] == rest;
  }

  // ── The context after a panic ──────────────────────────────────────────────

  /** Stage `k` is run at all. */
  ghost predicate Runs<C>(policy: OnError, stages: seq<Stage<C>>, c: C, k: nat) {
    k < |stages| && PassesBefore(policy, stages, c, k)
  }

  /** Some stage that runs is handed the context a panicking stage before it left. */
  ghost predicate SeesLeftover<C>(policy: OnError, stages: seq<Stage<C>>, c: C) {
    exists j: nat, k: nat :: j < k && Runs(policy, stages, c, k) && VerdictAt(stages, c, j) == Panic
  }

  /** That happens exactly when the run is open and a stage that is not the last is reached and panics; never when closed. */
  lemma LeftoverExactly<C>(policy: OnError, stages: seq<Stage<C>>, c: C)
    ensures SeesLeftover(policy, stages, c)
       <==> policy.Open? && exists j: nat :: j + 1 < |stages| && Runs(Open, stages, c, j) && VerdictAt(stages, c, j) == Panic
  {
    if SeesLeftover(policy, stages, c) {
      var j: nat, k: nat :| j < k && Runs(policy, stages, c, k) && VerdictAt(stages, c, j) == Panic;
      assert Passes(policy, VerdictAt(stages, c, j));
      assert Runs(Open, stages, c, j);
    }
    if policy.Open? && exists j: nat :: j + 1 < |stages| && Runs(Open, stages, c, j) && VerdictAt(stages, c, j) == Panic {
      var j: nat :| j + 1 < |stages| && Runs(Open, stages, c, j) && VerdictAt(stages, c, j) == Panic;
      assert Runs(Open, stages, c, j + 1);
    }
  }

  /** Counts up and panics. */
  function Half(): Stage<nat> { (n: nat) => (n + 1, Panic) }

  /** Blocks on the count a panic left. */
  function Picky(): Stage<nat> { (n: nat) => (n, if n == 1 then Stop(Block("picky", 403, "")) else Go) }

  /** What a panicking stage leaves can decide: the second stage alone allows, after the panic it blocks. */
  lemma LeftoverDecides()
    ensures SeesLeftover(Open, [Half(), Picky()], 0)
    ensures Outcome(Open, [Picky()], 0).1 == Allow
    ensures Outcome(Open, [Half(), Picky()], 0).1 == Block("picky", 403, "")
  {
    var both, alone := [Half(), Picky()], [Picky()];
    assert StateAfter(both, 0, 0) == 0 && VerdictAt(both, 0, 0) == Panic;
    assert PassesBefore(Open, both, 0, 1);
    assert Runs(Open, both, 0, 1);
    OneStep(Open, Picky(), [], 0);
    OneStep(Open, Picky(), [], 1);
    OneStep(Open, Half(), alone, 0);
    assert [Picky()] + [] == alone && [Half()] + alone == both;
  }

  // ── Early stages, body gate, late stages ───────────────────────────────────

  /** `Pipeline::evaluate`. */
  function Evaluate<C>(policy: OnError, early: seq<Stage<C>>, late: seq<Stage<C>>, c: C): (C, WafDecision) {
    var (c', d) := Outcome(policy, early, c);
    if d == Allow then Outcome(policy, late, c') else (c', d)
  }

  /** An early stage stopped the request with `Allow`. */
  ghost predicate EarlyAllows<C>(policy: OnError, early: seq<Stage<C>>, c: C) {
    exists k: nat :: StopsAt(policy, early, c, k) && VerdictAt(early, c, k) == Stop(Allow)
  }

  lemma {:induction false} StatePrefix<C>(early: seq<Stage<C>>, late: seq<Stage<C>>, c: C, k: nat)
    requires k <= |early|
    ensures StateAfter(early + late, c, k) == StateAfter(early, c, k)
  {
    if k > 0 { StatePrefix(early, late, c, k - 1); }
  }

  lemma PassPrefix<C>(policy: OnError, early: seq<Stage<C>>, late: seq<Stage<C>>, c: C, k: nat)
    requires k <= |early| && PassesBefore(policy, early, c, k)
    ensures PassesBefore(policy, early + late, c, k)
  {
    forall j: nat | j < k ensures Passes(policy, VerdictAt(early + late, c, j)) {
      StatePrefix(early, late, c, j);
      assert Passes(policy, VerdictAt(early, c, j));
    }
  }

  /**
   Evaluating in two halves is one run over the whole stack, unless an early stage stops with
   `Allow` and the late stages then do anything other than leave the context alone and allow.
   */
  lemma EvaluateIsOneRun<C>(policy: OnError, early: seq<Stage<C>>, late: seq<Stage<C>>, c: C)
    ensures Evaluate(policy, early, late, c) == Outcome(policy, early + late, c)
       <==> (EarlyAllows(policy, early, c) ==>
               var c' := Outcome(policy, early, c).0; Outcome(policy, late, c') == (c', Allow))
  {
    var stop := StopOrPass(policy, early, c, |early|);
    match stop
    case None =>
      NoStopAllows(policy, early, c);
      PassPrefix(policy, early, late, c, |early|);
      Skip(policy, early + late, c, |early|);
      StatePrefix(early, late, c, |early|);
      assert (early + late)[|early|..] == late;
      forall k: nat ensures !StopsAt(policy, early, c, k) {
        if k < |early| { assert Passes(policy, VerdictAt(early, c, k)); }
      }
    case Some(k) =>
      FirstStopDecides(policy, early, c, k);
      PassPrefix(policy, early, late, c, k);
      StatePrefix(early, late, c, k);
      StatePrefix(early, late, c, k + 1);
      FirstStopDecides(policy, early + late, c, k);
      forall j: nat | StopsAt(policy, early, c, j) ensures j == k {
        OneStop(policy, early, c, j, k);
      }
  }
}
