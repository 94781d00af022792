/**
 Named per-client counters with sliding windows. An increment is a read followed by a
 separate insert; an entry stops being visible `ttl` seconds after its last write.
 */
module Counters {
  import opened Text
  import opened Common

  datatype Entry = Entry(count: nat, expires: nat)

  type Cache = map<string, Entry>

  const MARK: char := 1 as char

  /** The cache key of a counter name and a client. */
  function Key(name: string, ip: Ip): string { name + [MARK] + ip }

  lemma KeyIpLength(n1: string, ip1: Ip, n2: string, ip2: Ip)
    requires Key(n1, ip1) == Key(n2, ip2)
    ensures |ip1| >= |ip2|
  {
    var k := Key(n1, ip1);
    assert k[|n1|] == MARK && !IpChar(MARK);
    assert forall i :: |n2| < i < |k| ==> k[i] == ip2[i - |n2| - 1] && IpChar(k[i]);
  }

  /** Different clients, or different names, never share an entry, whatever characters a name holds. */
  lemma KeyInjective(n1: string, ip1: Ip, n2: string, ip2: Ip)
    ensures Key(n1, ip1) == Key(n2, ip2) <==> n1 == n2 && ip1 == ip2
  {
    if Key(n1, ip1) == Key(n2, ip2) {
      KeyIpLength(n1, ip1, n2, ip2);
      KeyIpLength(n2, ip2, n1, ip1);
      var k := Key(n1, ip1);
      assert k[..|n1|] == n1 && k[..|n2|] == n2;
      assert k[|n1| + 1..] == ip1 && k[|n2| + 1..] == ip2;
    }
  }

  /** The visible value of an entry: 0 when unset or expired. */
  function Lookup(cache: Cache, key: string, now: nat): nat {
    if key in cache && now < cache[key].expires then cache[key].count else 0
  }

  function Ttl(window: nat): nat { Max(window, 1) }

  function Bumped(cache: Cache, key: string, amount: nat, window: nat, now: nat): Cache {
    cache[key := Entry(SatAdd(Lookup(cache, key, now), amount, U64_MAX), now + Ttl(window))]
  }

  /**
   Reading after an increment: the same client and name read the new total until the window
   has passed and 0 from then on; every other client and every other name reads as before.
   */
  lemma ReadBack(cache: Cache, name: string, ip: Ip, amount: nat, window: nat, now: nat, name': string, ip': Ip, t: nat)
    requires now <= t
    ensures Lookup(Bumped(cache, Key(name, ip), amount, window, now), Key(name', ip'), t)
         == (if name != name' || ip != ip' then Lookup(cache, Key(name', ip'), t)
             else if t < now + Max(window, 1) then Min(Lookup(cache, Key(name, ip), now) + amount, U64_MAX)
             else 0)
  {
    KeyInjective(name, ip, name', ip');
  }

  class CounterStore {
    var cache: Cache

    constructor ()
      ensures cache == map[]
    {
      cache := map[];
    }

    method Incr(name: string, ip: Ip, amount: nat, window: nat, now: nat) returns (count: nat)
      modifies this
      ensures cache == Bumped(old(cache), Key(name, ip), amount, window, now)
      ensures count == Lookup(cache, Key(name, ip), now)
    {
      var key := Key(name, ip);
      var current := Lookup(cache, key, now);
      count := SatAdd(current, amount, U64_MAX);
      cache := cache[key := Entry(count, now + Ttl(window))];
    }

    /** The stored count until its window has passed; nothing stored, or a window passed, reads as 0. */
    method Get(name: string, ip: Ip, now: nat) returns (count: nat)
      ensures Key(name, ip) in cache && now < cache[Key(name, ip)].expires ==> count == cache[Key(name, ip)].count
      ensures Key(name, ip) !in cache || cache[Key(name, ip)].expires <= now ==> count == 0
    {
      count := Lookup(cache, Key(name, ip), now);
    }
  }
}
