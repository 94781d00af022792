/**
 The request protocol: any number of requests walk allowlist, early stages, body gate, late
 stages, forward and response phase at the same time, and share the counters. Each step of a
 request touches at most one counter, so the steps of different requests interleave freely.
 */
module Protocol {
  import opened Text
  import opened Common
  import opened Metrics

  /** How a request ended. */
  datatype End =
    | Refused          // answered by a decision before it was forwarded
    | UpstreamFailed   // the forward failed, or the reply could not be read
    | Delivered        // the client got the upstream reply
    | ReplyBlocked     // a response rule replaced the upstream reply

  /** Where a request is. */
  datatype Place =
    | Arrived | Trusted | Early | Gate | Late | Passed | Forwarding | Responding | Done(end: End)

  /** A request under way; `decided` is the decision it was refused with and `noted` its downgraded blocks. */
  datatype Job = Job(place: Place, detect: bool, trusted: bool, decided: WafDecision, noted: nat)

  /** What the surroundings answer at one step. */
  datatype Answer =
    | Listed(yes: bool)          // is the client on the allowlist
    | Decision(d: WafDecision)   // of the early, late or response rules
    | Body(ok: bool)             // the body gate let the request through
    | Proceed
    | Upstream(ok: bool)
    | ReadFailed                 // the reply overran the cap or broke off

  function Fresh(detect: bool): Job { Job(Arrived, detect, false, Allow, 0) }

  /** `act_on`: stop with the decision, or go on to `next`; and the counter that moves. */
  function Act(j: Job, d: WafDecision, next: Place, stop: End): (Job, Option<Counter>) {
    if d == Allow then (j.(place := next), None)
    else if d.Block? && j.detect then (j.(place := next, noted := j.noted + 1), Some(WouldBlock))
    else (j.(place := Done(stop), decided := d), Some(Slot(d)))
  }

  const BODY_TOO_LARGE := Block("bodygate.too_large", 413, "request body exceeds inspection limit")

  /** One step of one request; an answer to another question leaves it where it is. */
  function Move(j: Job, a: Answer): (Job, Option<Counter>) {
    match (j.place, a)
    case (Arrived, Listed(yes)) =>
      if yes then (j.(place := Trusted, trusted := true), Some(Whitelisted)) else (j.(place := Early), None)
    case (Trusted, Proceed) => (j.(place := Forwarding), Some(Allowed))
    case (Early, Decision(d)) => Act(j, d, Gate, Refused)
    case (Gate, Body(ok)) =>
      if ok then (j.(place := Late), None) else (j.(place := Done(Refused), decided := BODY_TOO_LARGE), Some(Blocked))
    case (Late, Decision(d)) => Act(j, d, Passed, Refused)
    case (Passed, Proceed) => (j.(place := Forwarding), Some(Allowed))
    case (Forwarding, Upstream(ok)) =>
      if !ok then (j.(place := Done(UpstreamFailed)), Some(UpstreamErrors))
      else (j.(place := if j.trusted then Done(Delivered) else Responding), None)
    case (Responding, ReadFailed) => (j.(place := Done(UpstreamFailed)), Some(UpstreamErrors))
    case (Responding, Decision(d)) => if d.RateLimited? then (j, None) else Act(j, d, Done(Delivered), ReplyBlocked)
    case _ => (j, None)
  }

  function Count(t: Tally, c: Option<Counter>): Tally { match c case Some(k) => Bump(t, k) case None => t }

  // ── All requests together ──────────────────────────────────────────────────

  datatype World = World(counters: Tally, jobs: seq<Job>)

  datatype Event = Arrive(detect: bool) | Step(job: nat, answer: Answer)

  function Next(w: World, e: Event): World {
    match e
    case Arrive(detect) => World(Bump(w.counters, Requests), w.jobs + [Fresh(detect)])
    case Step(i, a) =>
      if i >= |w.jobs| then w
      else
        var (j, c) := Move(w.jobs[i], a);
        World(Count(w.counters, c), w.jobs[i := j])
  }

  function Run(w: World, es: seq<Event>): World
    decreases |es|
  {
    if es == [] then w else Run(Next(w, es[0]), es[1..])
  }

  const START := World(ZERO, [])

  // ── What one request accounts for ──────────────────────────────────────────

  predicate Undecided(j: Job) {
    match j.place
    case Forwarding => false
    case Responding => false
    case Done(_) => false
    case _ => true
  }

  /** The request was let through to the upstream. */
  predicate LetThrough(j: Job) { !Undecided(j) && j.place != Done(Refused) }

  predicate LetThroughInspected(j: Job) { LetThrough(j) && !j.trusted }

  predicate Marked(j: Job) { j.place == Trusted }

  predicate Replaced(j: Job) { j.place == Done(ReplyBlocked) }

  predicate Failed(j: Job) { j.place == Done(UpstreamFailed) }

  predicate RefusedAs(j: Job, c: Counter) { j.place == Done(Refused) && Slot(j.decided) == c }

  function One(b: bool): nat { if b then 1 else 0 }

  /** What a request has added to a counter so far, told from where it is. */
  function Share(j: Job, c: Counter): nat {
    match c
    case Requests => 1
    case Allowed => One(LetThrough(j))
    case Blocked => One(RefusedAs(j, Blocked)) + One(Replaced(j))
    case Limited => One(RefusedAs(j, Limited))
    case UpstreamErrors => One(Failed(j))
    case WouldBlock => j.noted
    case Whitelisted => One(j.trusted)
  }

  /** At most one downgraded block for each of the three inspections already made, and only in detect mode. */
  function Inspections(p: Place): nat {
    match p
    case Arrived => 0 case Trusted => 0 case Early => 0
    case Gate => 1 case Late => 1
    case Passed => 2 case Forwarding => 2 case Responding => 2
    case Done(_) => 3
  }

  predicate OnTrustedPath(p: Place) {
    match p
    case Trusted => true
    case Forwarding => true
    case Done(end) => end.UpstreamFailed? || end.Delivered?
    case _ => false
  }

  /** What holds of every request at every point of every run. */
  predicate Sound(j: Job) {
    && j.noted <= Inspections(j.place)
    && (!j.detect ==> j.noted == 0)
    && (j.place == Done(Refused) <==> j.decided != Allow && j.place != Done(ReplyBlocked))
    && (j.place == Done(ReplyBlocked) ==> j.decided.Block? && !j.detect)
    && (j.place == Done(Refused) && j.detect ==> j.decided.RateLimited? || j.decided == BODY_TOO_LARGE)
    && (j.trusted ==> j.noted == 0 && OnTrustedPath(j.place))
    && (j.place == Trusted ==> j.trusted)
  }

  lemma MoveSound(j: Job, a: Answer)
    requires Sound(j)
    ensures Sound(Move(j, a).0)
  {
  }

  /** A step adds to each counter exactly what the request's share of it grows by. */
  lemma MoveShares(j: Job, a: Answer, c: Counter)
    requires Sound(j)
    ensures var (j', k) := Move(j, a); Share(j', c) == Share(j, c) + One(k == Some(c))
  {
  }

  function Total(share: Job -> nat, jobs: seq<Job>): nat {
    if jobs == [] then 0 else share(jobs[0]) + Total(share, jobs[1..])
  }

  function ShareOf(c: Counter): Job -> nat { j => Share(j, c) }

  function Holding(p: Job -> bool): Job -> nat { j => One(p(j)) }

  /** How many requests satisfy `p`. */
  function Number(p: Job -> bool, w: World): nat { Total(Holding(p), w.jobs) }

  lemma {:induction false} TotalAppend(share: Job -> nat, jobs: seq<Job>, j: Job)
    ensures Total(share, jobs + [j]) == Total(share, jobs) + share(j)
  {
    if jobs != [] {
      TotalAppend(share, jobs[1..], j);
      assert (jobs + [j])[1..] == jobs[1..] + [j];
    } else {
      assert [] + [j] == [j];
    }
  }

  lemma {:induction false} TotalUpdate(share: Job -> nat, jobs: seq<Job>, i: nat, j: Job)
    requires i < |jobs|
    ensures Total(share, jobs[i := j]) + share(jobs[i]) == Total(share, jobs) + share(j)
  {
    if i > 0 {
      TotalUpdate(share, jobs[1..], i - 1, j);
      assert jobs[i := j][1..] == jobs[1..][i - 1 := j];
    } else {
      assert jobs[0 := j][1..] == jobs[1..];
    }
  }

  function Nothing(): Job -> nat { j => 0 }

  /** A law that holds of the weights of each request holds of their totals. */
  lemma {:induction false} TotalsAtMost(a: Job -> nat, b: Job -> nat, c: Job -> nat, d: Job -> nat,
                                        e: Job -> nat, f: Job -> nat, jobs: seq<Job>)
    requires forall j :: j in jobs ==> a(j) + b(j) + c(j) + d(j) <= e(j) + f(j)
    ensures Total(a, jobs) + Total(b, jobs) + Total(c, jobs) + Total(d, jobs) <= Total(e, jobs) + Total(f, jobs)
  {
    if jobs != [] { TotalsAtMost(a, b, c, d, e, f, jobs[1..]); }
  }

  lemma {:induction false} TotalsAtLeast(a: Job -> nat, b: Job -> nat, c: Job -> nat, d: Job -> nat,
                                         e: Job -> nat, f: Job -> nat, jobs: seq<Job>)
    requires forall j :: j in jobs ==> a(j) + b(j) + c(j) + d(j) >= e(j) + f(j)
    ensures Total(a, jobs) + Total(b, jobs) + Total(c, jobs) + Total(d, jobs) >= Total(e, jobs) + Total(f, jobs)
  {
    if jobs != [] { TotalsAtLeast(a, b, c, d, e, f, jobs[1..]); }
  }

  lemma {:induction false} TotalNothing(jobs: seq<Job>)
    ensures Total(Nothing(), jobs) == 0
  {
    if jobs != [] { TotalNothing(jobs[1..]); }
  }

  // ── The invariant over every interleaving ──────────────────────────────────

  predicate Balanced(w: World, c: Counter) { Read(w.counters, c) == Total(ShareOf(c), w.jobs) }

  ghost predicate Invariant(w: World) {
    && (forall i :: 0 <= i < |w.jobs| ==> Sound(w.jobs[i]))
    && (forall c :: Balanced(w, c))
  }

  lemma StepBalanced(w: World, i: nat, a: Answer, c: Counter)
    requires i < |w.jobs| && Sound(w.jobs[i]) && Balanced(w, c)
    ensures Balanced(Next(w, Step(i, a)), c)
  {
    MoveShares(w.jobs[i], a, c);
    TotalUpdate(ShareOf(c), w.jobs, i, Move(w.jobs[i], a).0);
  }

  lemma EventBalanced(w: World, e: Event, c: Counter)
    requires Invariant(w)
    ensures Balanced(Next(w, e), c)
  {
    assert Balanced(w, c);
    match e
    case Arrive(detect) => TotalAppend(ShareOf(c), w.jobs, Fresh(detect));
    case Step(i, a) =>
      if i < |w.jobs| { StepBalanced(w, i, a, c); }
  }

  lemma EventSound(w: World, e: Event)
    requires Invariant(w)
    ensures Invariant(Next(w, e))
  {
    forall c ensures Balanced(Next(w, e), c) { EventBalanced(w, e, c); }
    match e
    case Arrive(_) =>
    case Step(i, a) => if i < |w.jobs| { MoveSound(w.jobs[i], a); }
  }

  lemma {:induction false} RunSound(w: World, es: seq<Event>)
    requires Invariant(w)
    ensures Invariant(Run(w, es))
    decreases |es|
  {
    if es != [] {
      EventSound(w, es[0]);
      RunSound(Next(w, es[0]), es[1..]);
    }
  }

  /** Some interleaving of arrivals and steps leads here. */
  ghost predicate Reachable(w: World) { exists es :: Run(START, es) == w }

  lemma ReachableSound(w: World)
    requires Reachable(w)
    ensures Invariant(w)
  {
    var es :| Run(START, es) == w;
    forall c ensures Balanced(START, c) {}
    RunSound(START, es);
  }

  lemma JobConserves(j: Job)
    requires Sound(j)
    ensures Share(j, Allowed) + Share(j, Blocked) + Share(j, Limited) + One(Undecided(j))
         == Share(j, Requests) + One(Replaced(j))
  {
  }

  lemma JobTrusted(j: Job)
    requires Sound(j)
    ensures Share(j, Whitelisted) + One(LetThroughInspected(j)) == Share(j, Allowed) + One(Marked(j))
  {
  }

  /**
   Conservation: at every moment of every interleaving, the decisions recorded are the
   requests counted, less those not decided yet, plus the replies a response rule replaced
   (which were recorded as allowed and then as blocked).
   */
  lemma Conservation(w: World)
    requires Reachable(w)
    ensures Read(w.counters, Allowed) + Read(w.counters, Blocked) + Read(w.counters, Limited)
              + Number(Undecided, w)
            == Read(w.counters, Requests) + Number(Replaced, w)
  {
    ReachableSound(w);
    assert Balanced(w, Allowed) && Balanced(w, Blocked) && Balanced(w, Limited) && Balanced(w, Requests);
    var a, b, l, u := ShareOf(Allowed), ShareOf(Blocked), ShareOf(Limited), Holding(Undecided);
    var q, r := ShareOf(Requests), Holding(Replaced);
    forall j | j in w.jobs ensures a(j) + b(j) + l(j) + u(j) == q(j) + r(j) { JobConserves(j); }
    TotalsAtMost(a, b, l, u, q, r, w.jobs);
    TotalsAtLeast(a, b, l, u, q, r, w.jobs);
  }

  lemma JobFailed(j: Job)
    ensures Share(j, UpstreamErrors) + One(Replaced(j)) <= Share(j, Allowed)
  {
  }

  /** Failed forwards and replaced replies all belong to requests recorded as allowed. */
  lemma FailuresWereAllowed(w: World)
    requires Reachable(w)
    ensures Read(w.counters, UpstreamErrors) + Number(Replaced, w) <= Read(w.counters, Allowed)
  {
    ReachableSound(w);
    assert Balanced(w, UpstreamErrors) && Balanced(w, Allowed);
    var u, r, a, n := ShareOf(UpstreamErrors), Holding(Replaced), ShareOf(Allowed), Nothing();
    forall j | j in w.jobs ensures u(j) + r(j) + n(j) + n(j) <= a(j) + n(j) { JobFailed(j); }
    TotalNothing(w.jobs);
    TotalsAtMost(u, r, n, n, a, n, w.jobs);
  }

  lemma {:induction false} ThriceTotal(a: Job -> nat, b: Job -> nat, jobs: seq<Job>)
    requires forall j :: j in jobs ==> a(j) <= 3 * b(j)
    ensures Total(a, jobs) <= 3 * Total(b, jobs)
  {
    if jobs != [] { ThriceTotal(a, b, jobs[1..]); }
  }

  /** No request is noted as a would-be block more than three times. */
  lemma WouldBlockBound(w: World)
    requires Reachable(w)
    ensures Read(w.counters, WouldBlock) <= 3 * Read(w.counters, Requests)
  {
    ReachableSound(w);
    assert Balanced(w, WouldBlock) && Balanced(w, Requests);
    ThriceTotal(ShareOf(WouldBlock), ShareOf(Requests), w.jobs);
  }

  /**
   Whitelisted against allowed: the two differ by the inspected requests that were let through
   and the trusted ones caught between the two counters. So whitelisted stays within allowed
   exactly while no more requests are caught there than inspected ones have been let through.
   */
  lemma WhitelistedAgainstAllowed(w: World)
    requires Reachable(w)
    ensures && Read(w.counters, Whitelisted) + Number(LetThroughInspected, w)
               == Read(w.counters, Allowed) + Number(Marked, w)
            && (Read(w.counters, Whitelisted) <= Read(w.counters, Allowed)
                <==> Number(Marked, w) <= Number(LetThroughInspected, w))
  {
    ReachableSound(w);
    assert Balanced(w, Whitelisted) && Balanced(w, Allowed);
    var t, i, n := ShareOf(Whitelisted), Holding(LetThroughInspected), Nothing();
    var a, m := ShareOf(Allowed), Holding(Marked);
    forall j | j in w.jobs ensures t(j) + i(j) + n(j) + n(j) == a(j) + m(j) { JobTrusted(j); }
    TotalNothing(w.jobs);
    TotalsAtMost(t, i, n, n, a, m, w.jobs);
    TotalsAtLeast(t, i, n, n, a, m, w.jobs);
  }

  /** The one trusted request of this run is whitelisted before it is allowed. */
  lemma WhitelistedLeads()
    ensures var w := Run(START, [Arrive(false), Step(0, Listed(true))]);
            Read(w.counters, Whitelisted) > Read(w.counters, Allowed)
  {
    var es := [Arrive(false), Step(0, Listed(true))];
    var w1 := Next(START, es[0]);
    var w2 := Next(w1, es[1]);
    assert es[1..] == [es[1]] && es[1..][1..] == [];
    assert Run(START, es) == Run(w1, es[1..]) == Run(w2, []);
    assert w1.jobs == [Fresh(false)];
  }

  /** Detect mode: a block is never enforced, except the body limit; rate limits always are. */
  lemma DetectNeverBlocks(w: World, i: nat)
    requires Reachable(w) && i < |w.jobs| && w.jobs[i].detect
    ensures var j := w.jobs[i];
            !Replaced(j) && (RefusedAs(j, Blocked) ==> j.decided == BODY_TOO_LARGE)
  {
    ReachableSound(w);
  }

  /** An allowlisted request is never refused, replaced or noted, in either mode. */
  lemma TrustedNeverInspected(w: World, i: nat)
    requires Reachable(w) && i < |w.jobs| && w.jobs[i].trusted
    ensures var j := w.jobs[i];
            j.noted == 0 && !Replaced(j) && j.place != Done(Refused) && j.place != Responding
  {
    ReachableSound(w);
  }
}
