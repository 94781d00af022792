/** Concurrent increments: any number of threads, each reading and then inserting. */
module CounterRaces {
  import opened Text
  import opened Counters

  /** An increment that has read the counter and not yet written it. */
  datatype Pending = Pending(key: string, amount: nat, window: nat, seen: nat)

  /** The shared cache, the increments under way by thread, and the amounts inserted so far by key. */
  datatype State = State(cache: Cache, pending: map<nat, Pending>, inserted: map<string, nat>, now: nat)

  datatype Step =
    | Read(thread: nat, key: string, amount: nat, window: nat)
    | Insert(thread: nat)
    | Evict(key: string)
    | Tick(seconds: nat)

  function Start(now: nat): State { State(map[], map[], map[], now) }

  function Inserted(s: State, key: string): nat { if key in s.inserted then s.inserted[key] else 0 }

  function Next(s: State, step: Step): State {
    match step
    case Read(t, key, amount, window) =>
      if t in s.pending then s
      else s.(pending := s.pending[t := Pending(key, amount, window, Lookup(s.cache, key, s.now))])
    case Insert(t) =>
      if t !in s.pending then s
      else
        var p := s.pending[t];
        s.(cache := s.cache[p.key := Entry(SatAdd(p.seen, p.amount, U64_MAX), s.now + Ttl(p.window))],
           pending := s.pending - {t},
           inserted := s.inserted[p.key := Inserted(s, p.key) + p.amount])
    case Evict(key) => s.(cache := s.cache - {key})
    case Tick(d) => s.(now := s.now + d)
  }

  function Run(s: State, steps: seq<Step>): State
    decreases |steps|
  {
    if steps == [] then s else Run(Next(s, steps[0]), steps[1..])
  }

  /** The stored value, expired or not. */
  function Stored(s: State, key: string): nat { if key in s.cache then s.cache[key].count else 0 }

  /** The amounts inserted for a key, capped like the counter itself. */
  function Ceiling(s: State, key: string): nat { Min(Inserted(s, key), U64_MAX) }

  ghost predicate Bounded(s: State) {
    && (forall k :: k in s.cache ==> s.cache[k].count <= Ceiling(s, k))
    && (forall t :: t in s.pending ==> s.pending[t].seen <= Ceiling(s, s.pending[t].key))
  }

  lemma {:induction false} BoundedRun(s: State, steps: seq<Step>)
    requires Bounded(s)
    ensures Bounded(Run(s, steps))
    decreases |steps|
  {
    if steps != [] {
      BoundedRun(Next(s, steps[0]), steps[1..]);
    }
  }

  /** Under any interleaving of any threads, with expiry and eviction, a counter never exceeds what was inserted. */
  lemma NeverOverCounts(now: nat, steps: seq<Step>, key: string, time: nat)
    ensures var s := Run(Start(now), steps);
            Lookup(s.cache, key, time) <= Stored(s, key) <= Min(Inserted(s, key), U64_MAX)
  {
    BoundedRun(Start(now), steps);
  }

  // ── When counting is exact ─────────────────────────────────────────────────

  /** No other increment of `key` is under way, the entry has not lapsed, and it is not evicted. */
  ghost predicate Orderly(s: State, step: Step, key: string) {
    match step
    case Read(t, k, _, _) =>
      k == key ==> (forall u :: u in s.pending ==> s.pending[u].key != key)
                   && (key in s.cache ==> s.now < s.cache[key].expires)
    case Evict(k) => k != key
    case _ => true
  }

  ghost predicate OrderlyRun(s: State, steps: seq<Step>, key: string)
    decreases |steps|
  {
    steps != [] ==> Orderly(s, steps[0], key) && OrderlyRun(Next(s, steps[0]), steps[1..], key)
  }

  ghost predicate Exact(s: State, key: string) {
    && Stored(s, key) == Ceiling(s, key)
    && (forall t :: t in s.pending && s.pending[t].key == key ==> s.pending[t].seen == Ceiling(s, key))
    && (forall t, u :: t in s.pending && u in s.pending && s.pending[t].key == key == s.pending[u].key ==> t == u)
  }

  lemma {:induction false} ExactRun(s: State, steps: seq<Step>, key: string)
    requires Exact(s, key) && OrderlyRun(s, steps, key)
    ensures Exact(Run(s, steps), key)
    decreases |steps|
  {
    if steps != [] {
      ExactRun(Next(s, steps[0]), steps[1..], key);
    }
  }

  /** If increments of a key do not overlap and its entry neither lapses nor is evicted, nothing is lost. */
  lemma OrderlyIsExact(now: nat, steps: seq<Step>, key: string)
    requires OrderlyRun(Start(now), steps, key)
    ensures var s := Run(Start(now), steps);
            Stored(s, key) == Min(Inserted(s, key), U64_MAX)
  {
    ExactRun(Start(now), steps, key);
  }

  /** Two overlapping increments of 1 leave 1, so the ceiling cannot be an equality. */
  lemma OverlapLosesOne(key: string, now: nat)
    ensures var s := Run(Start(now), [Read(0, key, 1, 60), Read(1, key, 1, 60), Insert(0), Insert(1)]);
            Stored(s, key) == 1 && Inserted(s, key) == 2
  {
    var s0 := Start(now);
    var s1 := Next(s0, Read(0, key, 1, 60));
    var s2 := Next(s1, Read(1, key, 1, 60));
    var s3 := Next(s2, Insert(0));
    var s4 := Next(s3, Insert(1));
    var steps := [Read(0, key, 1, 60), Read(1, key, 1, 60), Insert(0), Insert(1)];
    assert steps[1..] == [Read(1, key, 1, 60), Insert(0), Insert(1)];
    assert steps[1..][1..] == [Insert(0), Insert(1)];
    assert steps[1..][1..][1..] == [Insert(1)];
    assert Run(s3, [Insert(1)]) == Run(s4, []);
    assert Run(s2, [Insert(0), Insert(1)]) == Run(s3, [Insert(1)]);
    assert Run(s1, steps[1..]) == Run(s2, [Insert(0), Insert(1)]);
    assert s1.pending[0].seen == 0 && s2.pending[1].seen == 0;
  }
}
