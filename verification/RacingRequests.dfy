/**
 Requests that race. Each one counts (a read, and a separate insert) and then compares the
 counter, while any number of others do the same, entries lapse and entries are evicted.
 */
module RacingRequests {
  import opened Text
  import opened Common
  import opened Counters
  import opened Rules
  import opened Engine
  import opened Threshold

  /** How far a request has got; `seen` is what it read and has not yet written back. */
  datatype Stage = Fresh | HasRead(seen: nat) | HasCounted | Judged(blocked: bool)

  datatype Job = Job(req: Request, stage: Stage)

  datatype Race = Race(cache: Cache, jobs: seq<Job>, now: nat)

  datatype Event = Arrive(req: Request) | Step(job: nat) | Evict(key: string) | Tick(seconds: nat)

  function SlotOf(x: Setup, j: Job): string { Key(x.c, j.req.ip) }

  /** One step of one request: read, insert, compare by the engine's own reading of the rule. */
  function Advance(o: Oracle, x: Setup, stop: Rule, w: Race, i: nat): Race
    requires i < |w.jobs|
  {
    var j := w.jobs[i];
    var key := SlotOf(x, j);
    match j.stage
    case Fresh => w.(jobs := w.jobs[i := j.(stage := HasRead(Lookup(w.cache, key, w.now)))])
    case HasRead(seen) =>
      w.(cache := w.cache[key := Entry(SatAdd(seen, x.amount, U64_MAX), w.now + Ttl(x.window))],
         jobs := w.jobs[i := j.(stage := HasCounted)])
    case HasCounted =>
      w.(jobs := w.jobs[i := j.(stage := Judged(RuleHolds(o, stop, Req(j.req, Moment(w.now, 0)), w.cache)))])
    case Judged(_) => w
  }

  function Next(o: Oracle, x: Setup, stop: Rule, w: Race, e: Event): Race {
    match e
    case Arrive(req) => w.(jobs := w.jobs + [Job(req, Fresh)])
    case Step(i) => if i < |w.jobs| then Advance(o, x, stop, w, i) else w
    case Evict(key) => w.(cache := w.cache - {key})
    case Tick(d) => w.(now := w.now + d)
  }

  function Run(o: Oracle, x: Setup, stop: Rule, w: Race, es: seq<Event>): Race
    decreases |es|
  {
    if es == [] then w else Run(o, x, stop, Next(o, x, stop, w, es[0]), es[1..])
  }

  function Start(now: nat): Race { Race(map[], [], now) }

  // ── How often a client has counted ─────────────────────────────────────────

  predicate HasMade(j: Job, ip: Common.Ip) { j.req.ip == ip && (j.stage.HasCounted? || j.stage.Judged?) }

  /** How many requests of a client have inserted their count. */
  function Made(jobs: seq<Job>, ip: Common.Ip): nat {
    if jobs == [] then 0 else (if HasMade(jobs[0], ip) then 1 else 0) + Made(jobs[1..], ip)
  }

  /** How many requests a client has made. */
  function Requests(jobs: seq<Job>, ip: Common.Ip): nat {
    if jobs == [] then 0 else (if jobs[0].req.ip == ip then 1 else 0) + Requests(jobs[1..], ip)
  }

  lemma {:induction false} MadeAppend(jobs: seq<Job>, j: Job, ip: Common.Ip)
    ensures Made(jobs + [j], ip) == Made(jobs, ip) + (if HasMade(j, ip) then 1 else 0)
  {
    if jobs == [] {
      assert [] + [j] == [j];
    } else {
      assert (jobs + [j])[1..] == jobs[1..] + [j];
      MadeAppend(jobs[1..], j, ip);
    }
  }

  lemma {:induction false} MadeUpdate(jobs: seq<Job>, i: nat, j: Job, ip: Common.Ip)
    requires i < |jobs|
    ensures Made(jobs[i := j], ip) + (if HasMade(jobs[i], ip) then 1 else 0)
         == Made(jobs, ip) + (if HasMade(j, ip) then 1 else 0)
  {
    if i == 0 {
      assert jobs[0 := j][1..] == jobs[1..];
    } else {
      assert jobs[i := j][1..] == jobs[1..][i - 1 := j];
      MadeUpdate(jobs[1..], i - 1, j, ip);
    }
  }

  lemma {:induction false} MadeAtMost(jobs: seq<Job>, ip: Common.Ip)
    ensures Made(jobs, ip) <= Requests(jobs, ip)
  {
    if jobs != [] { MadeAtMost(jobs[1..], ip); }
  }

  // ── The invariant over every interleaving ──────────────────────────────────

  function Ceiling(x: Setup, jobs: seq<Job>, ip: Common.Ip): nat { Capped(Made(jobs, ip), x.amount) }

  /** No entry holds, and no request has read, more than its client has inserted; a blocked client has inserted more than the limit. */
  predicate JobSound(x: Setup, jobs: seq<Job>, j: Job) {
    && (j.stage.HasRead? ==> j.stage.seen <= Ceiling(x, jobs, j.req.ip))
    && (j.stage == Judged(true) ==> Made(jobs, j.req.ip) * x.amount > x.limit)
  }

  ghost predicate Sound(x: Setup, w: Race) {
    && (forall ip: Common.Ip :: Key(x.c, ip) in w.cache ==> w.cache[Key(x.c, ip)].count <= Ceiling(x, w.jobs, ip))
    && (forall i :: 0 <= i < |w.jobs| ==> JobSound(x, w.jobs, w.jobs[i]))
  }

  lemma Product(a: nat, d: nat, m: nat)
    ensures (a + d) * m == a * m + d * m
  {
  }

  lemma CappedMonotone(a: nat, b: nat, amount: nat)
    requires a <= b
    ensures Capped(a, amount) <= Capped(b, amount) && a * amount <= b * amount
  {
    Product(a, b - a, amount);
  }

  /** More inserts by anyone keep what was sound sound. */
  lemma JobStaysSound(x: Setup, jobs: seq<Job>, jobs': seq<Job>, j: Job)
    requires JobSound(x, jobs, j) && Made(jobs, j.req.ip) <= Made(jobs', j.req.ip)
    ensures JobSound(x, jobs', j)
  {
    CappedMonotone(Made(jobs, j.req.ip), Made(jobs', j.req.ip), x.amount);
  }

  lemma StageMoves(x: Setup, w: Race, i: nat, j: Job, cache: Cache)
    requires Sound(x, w) && i < |w.jobs| && j.req == w.jobs[i].req
    requires w.jobs[i].stage.HasCounted? || w.jobs[i].stage.Judged? ==> j.stage.HasCounted? || j.stage.Judged?
    requires JobSound(x, w.jobs[i := j], j)
    requires forall ip: Common.Ip :: Key(x.c, ip) in cache ==>
               || cache[Key(x.c, ip)].count <= Ceiling(x, w.jobs[i := j], ip)
               || (Key(x.c, ip) in w.cache && cache[Key(x.c, ip)] == w.cache[Key(x.c, ip)])
    ensures Sound(x, Race(cache, w.jobs[i := j], w.now))
  {
    var jobs' := w.jobs[i := j];
    forall ip: Common.Ip ensures Made(w.jobs, ip) <= Made(jobs', ip) { MadeUpdate(w.jobs, i, j, ip); }
    forall k | 0 <= k < |jobs'| ensures JobSound(x, jobs', jobs'[k]) {
      if k != i { JobStaysSound(x, w.jobs, jobs', w.jobs[k]); }
    }
    forall ip: Common.Ip | Key(x.c, ip) in cache ensures cache[Key(x.c, ip)].count <= Ceiling(x, jobs', ip) {
      CappedMonotone(Made(w.jobs, ip), Made(jobs', ip), x.amount);
    }
  }

  lemma ReadSound(x: Setup, w: Race, i: nat)
    requires Sound(x, w) && i < |w.jobs| && w.jobs[i].stage.Fresh?
    ensures var j := w.jobs[i];
            Sound(x, w.(jobs := w.jobs[i := j.(stage := HasRead(Lookup(w.cache, SlotOf(x, j), w.now)))]))
  {
    var j := w.jobs[i];
    var j' := j.(stage := HasRead(Lookup(w.cache, SlotOf(x, j), w.now)));
    MadeUpdate(w.jobs, i, j', j.req.ip);
    StageMoves(x, w, i, j', w.cache);
  }

  lemma InsertSound(x: Setup, w: Race, i: nat)
    requires Sound(x, w) && i < |w.jobs| && w.jobs[i].stage.HasRead?
    ensures var j := w.jobs[i];
            var cache := w.cache[SlotOf(x, j) := Entry(SatAdd(j.stage.seen, x.amount, U64_MAX), w.now + Ttl(x.window))];
            Sound(x, Race(cache, w.jobs[i := j.(stage := HasCounted)], w.now))
  {
    var j := w.jobs[i];
    var j' := j.(stage := HasCounted);
    var e := Entry(SatAdd(j.stage.seen, x.amount, U64_MAX), w.now + Ttl(x.window));
    MadeUpdate(w.jobs, i, j', j.req.ip);
    assert JobSound(x, w.jobs, j);
    OneMore(Made(w.jobs, j.req.ip), x.amount);
    assert e.count <= Ceiling(x, w.jobs[i := j'], j.req.ip);
    forall ip: Common.Ip | ip != j.req.ip ensures Key(x.c, ip) != SlotOf(x, j) { KeyInjective(x.c, ip, x.c, j.req.ip); }
    StageMoves(x, w, i, j', w.cache[SlotOf(x, j) := e]);
  }

  predicate Compares(x: Setup, stop: Rule) { stop.conds == [Cond(Counter(x.c), Gt(x.limit), false, [])] }

  lemma JudgeSound(o: Oracle, x: Setup, stop: Rule, w: Race, i: nat)
    requires Sound(x, w) && Compares(x, stop) && i < |w.jobs| && w.jobs[i].stage.HasCounted?
    ensures var j := w.jobs[i];
            Sound(x, w.(jobs := w.jobs[i := j.(stage := Judged(RuleHolds(o, stop, Req(j.req, Moment(w.now, 0)), w.cache)))]))
  {
    var j := w.jobs[i];
    var s := Req(j.req, Moment(w.now, 0));
    var count := Lookup(w.cache, SlotOf(x, j), w.now);
    var j' := j.(stage := Judged(RuleHolds(o, stop, s, w.cache)));
    ComparesCount(o, x, stop, s, w.cache, count);
    MadeUpdate(w.jobs, i, j', j.req.ip);
    assert count <= Ceiling(x, w.jobs, j.req.ip);
    StageMoves(x, w, i, j', w.cache);
  }

  lemma ArriveSound(x: Setup, w: Race, req: Request)
    requires Sound(x, w)
    ensures Sound(x, w.(jobs := w.jobs + [Job(req, Fresh)]))
  {
    var j := Job(req, Fresh);
    forall ip: Common.Ip ensures Made(w.jobs + [j], ip) == Made(w.jobs, ip) { MadeAppend(w.jobs, j, ip); }
    forall k | 0 <= k < |w.jobs| ensures JobSound(x, w.jobs + [j], w.jobs[k]) {
      JobStaysSound(x, w.jobs, w.jobs + [j], w.jobs[k]);
    }
  }

  lemma EventSound(o: Oracle, x: Setup, stop: Rule, w: Race, e: Event)
    requires Sound(x, w) && Compares(x, stop)
    ensures Sound(x, Next(o, x, stop, w, e))
  {
    match e
    case Arrive(req) => ArriveSound(x, w, req);
    case Step(i) =>
      if i < |w.jobs| {
        match w.jobs[i].stage
        case Fresh => ReadSound(x, w, i);
        case HasRead(_) => InsertSound(x, w, i);
        case HasCounted => JudgeSound(o, x, stop, w, i);
        case Judged(_) =>
      }
    case Evict(_) =>
    case Tick(_) =>
  }

  lemma {:induction false} RunSound(o: Oracle, x: Setup, stop: Rule, w: Race, es: seq<Event>)
    requires Sound(x, w) && Compares(x, stop)
    ensures Sound(x, Run(o, x, stop, w, es))
    decreases |es|
  {
    if es != [] {
      EventSound(o, x, stop, w, es[0]);
      RunSound(o, x, stop, Next(o, x, stop, w, es[0]), es[1..]);
    }
  }

  /**
   Races never block early: in every interleaving of any requests of any clients, a request
   is blocked by `counter > limit` only if its client has by then inserted more than the limit,
   and so only if it has made that many requests.
   */
  lemma NeverBlocksEarly(o: Oracle, x: Setup, stop: Rule, now: nat, es: seq<Event>, i: nat)
    requires Compares(x, stop)
    requires i < |Run(o, x, stop, Start(now), es).jobs|
    requires Run(o, x, stop, Start(now), es).jobs[i].stage == Judged(true)
    ensures var jobs := Run(o, x, stop, Start(now), es).jobs;
            x.limit < Made(jobs, jobs[i].req.ip) * x.amount <= Requests(jobs, jobs[i].req.ip) * x.amount
  {
    var w := Run(o, x, stop, Start(now), es);
    RunSound(o, x, stop, Start(now), es);
    assert JobSound(x, w.jobs, w.jobs[i]);
    MadeAtMost(w.jobs, w.jobs[i].req.ip);
    CappedMonotone(Made(w.jobs, w.jobs[i].req.ip), Requests(w.jobs, w.jobs[i].req.ip), x.amount);
  }

  lemma Replaced(jobs: seq<Job>, a: Job, b: Job)
    ensures (jobs + [a])[|jobs| := b] == jobs + [b]
  {
  }

  lemma FourEvents(o: Oracle, x: Setup, stop: Rule, w: Race, e: Event, f: Event)
    ensures Run(o, x, stop, w, [e, f, f, f])
         == Next(o, x, stop, Next(o, x, stop, Next(o, x, stop, Next(o, x, stop, w, e), f), f), f)
  {
    var w1 := Next(o, x, stop, w, e);
    var w2 := Next(o, x, stop, w1, f);
    var w3 := Next(o, x, stop, w2, f);
    assert [e, f, f, f][1..] == [f, f, f] && [f, f, f][1..] == [f, f] && [f, f][1..] == [f] && [f][1..] == [];
    assert Run(o, x, stop, w3, [f]) == Next(o, x, stop, w3, f);
    assert Run(o, x, stop, w2, [f, f]) == Run(o, x, stop, w3, [f]);
  }

  /**
   Without a race the answer is exact: a request whose four steps nothing interrupts is blocked
   if and only if what it read, plus its own amount, is over the limit and can be compared at all.
   */
  lemma AloneIsExact(o: Oracle, x: Setup, stop: Rule, w: Race, req: Request)
    requires Compares(x, stop)
    ensures var n, total := |w.jobs|, Min(Lookup(w.cache, Key(x.c, req.ip), w.now) + x.amount, U64_MAX);
            Run(o, x, stop, w, [Arrive(req), Step(n), Step(n), Step(n)])
              == Race(w.cache[Key(x.c, req.ip) := Entry(total, w.now + Max(x.window, 1))],
                      w.jobs + [Job(req, Judged(x.limit < total <= I64_MAX))], w.now)
  {
    var n, key := |w.jobs|, Key(x.c, req.ip);
    var seen := Lookup(w.cache, key, w.now);
    var total := Min(seen + x.amount, U64_MAX);
    var cache := w.cache[key := Entry(total, w.now + Ttl(x.window))];
    var w1, w2 := w.(jobs := w.jobs + [Job(req, Fresh)]), w.(jobs := w.jobs + [Job(req, HasRead(seen))]);
    var w3 := Race(cache, w.jobs + [Job(req, HasCounted)], w.now);
    var blocked := RuleHolds(o, stop, Req(req, Moment(w.now, 0)), cache);
    ComparesCount(o, x, stop, Req(req, Moment(w.now, 0)), cache, total);
    Replaced(w.jobs, Job(req, Fresh), Job(req, HasRead(seen)));
    Replaced(w.jobs, Job(req, HasRead(seen)), Job(req, HasCounted));
    Replaced(w.jobs, Job(req, HasCounted), Job(req, Judged(blocked)));
    assert Next(o, x, stop, w, Arrive(req)) == w1 && Next(o, x, stop, w1, Step(n)) == w2;
    assert Next(o, x, stop, w2, Step(n)) == w3;
    FourEvents(o, x, stop, w, Arrive(req), Step(n));
  }
}
