/** The per-domain token bucket, in both implementations: the in-process dictionary and the Lua script
    on a Redis hash that expires 60 seconds after its last use. */
module TokenBucket {
  import opened Basics

  const EXPIRE_SECONDS := 60.0

  datatype Bucket = Bucket(tokens: real, last: real)

  function MinReal(a: real, b: real): real {
    if a <= b then a else b
  }

  /** Tokens flowing in over `d` seconds. */
  function Inflow(rate: real, d: real): real {
    d * rate
  }

  /** Tokens available at `now`; a bucket never seen is full. */
  function Level(b: Option<Bucket>, rate: real, now: real): real {
    match b
    case None => MinReal(rate, rate + Inflow(rate, now - now))
    case Some(x) => MinReal(rate, x.tokens + Inflow(rate, now - x.last))
  }

  /** One call: what the bucket becomes, and whether the call is let through. */
  function Use(b: Option<Bucket>, rate: real, now: real): (Bucket, bool) {
    var tokens := Level(b, rate, now);
    if tokens < 1.0 then (Bucket(tokens, now), false) else (Bucket(tokens - 1.0, now), true)
  }

  function Lookup<T>(m: map<string, T>, domain: string): Option<T> {
    if domain in m then Some(m[domain]) else None
  }

  class InProcessTokenBucket {
    var buckets: map<string, Bucket>

    constructor ()
      ensures buckets == map[]
    {
      buckets := map[];
    }

    method Consume(domain: string, rate: real, now: real) returns (ok: bool)
      modifies this
      ensures var (b, granted) := Use(Lookup(old(buckets), domain), rate, now);
              ok == granted && buckets == old(buckets)[domain := b]
    {
      var tokens, last := rate, now;
      if domain in buckets {
        tokens, last := buckets[domain].tokens, buckets[domain].last;
      }
      hide Inflow;
      tokens := MinReal(rate, tokens + Inflow(rate, now - last));
      if tokens < 1.0 {
        buckets := buckets[domain := Bucket(tokens, now)];
        return false;
      }
      buckets := buckets[domain := Bucket(tokens - 1.0, now)];
      return true;
    }
  }

  /** A Redis hash with its expiry. */
  datatype Entry = Entry(bucket: Bucket, expireAt: real)

  /** What HMGET sees: an expired key is an absent one. */
  function Alive(e: Option<Entry>, now: real): Option<Bucket> {
    if e.Some? && now < e.value.expireAt then Some(e.value.bucket) else None
  }

  function LuaUse(e: Option<Entry>, rate: real, now: real): (Entry, bool) {
    var (b, granted) := Use(Alive(e, now), rate, now);
    (Entry(b, now + EXPIRE_SECONDS), granted)
  }

  class RedisTokenBucket {
    var keys: map<string, Entry>

    constructor ()
      ensures keys == map[]
    {
      keys := map[];
    }

    method Eval(domain: string, rate: real, now: real) returns (ok: bool)
      modifies this
      ensures var (e, granted) := LuaUse(Lookup(old(keys), domain), rate, now);
              ok == granted && keys == old(keys)[domain := e]
      ensures domain in keys && keys[domain].expireAt == now + 60.0
    {
      var tokens, ts := rate, now;
      if domain in keys && now < keys[domain].expireAt {
        tokens, ts := keys[domain].bucket.tokens, keys[domain].bucket.last;
      }
      hide Inflow;
      tokens := MinReal(rate, tokens + Inflow(rate, now - ts));
      if tokens < 1.0 {
        keys := keys[domain := Entry(Bucket(tokens, now), now + EXPIRE_SECONDS)];
        return false;
      }
      keys := keys[domain := Entry(Bucket(tokens - 1.0, now), now + EXPIRE_SECONDS)];
      return true;
    }
  }

  // ----- traces of calls on one domain at a fixed rate

  ghost predicate Clock(times: seq<real>) {
    forall i | 0 <= i < |times| - 1 :: times[i] <= times[i + 1]
  }

  /** The bucket is in range and the trace does not start before its last use. */
  ghost predicate Starts(b: Option<Bucket>, rate: real, times: seq<real>) {
    && rate > 0.0 && Clock(times)
    && (b.Some? ==> 0.0 <= b.value.tokens <= rate && (times != [] ==> b.value.last <= times[0]))
  }

  function Decisions(b: Option<Bucket>, rate: real, times: seq<real>): (d: seq<bool>)
    ensures |d| == |times|
    decreases |times|
  {
    if times == [] then []
    else
      var (next, granted) := Use(b, rate, times[0]);
      [granted] + Decisions(Some(next), rate, times[1..])
  }

  function LuaDecisions(e: Option<Entry>, rate: real, times: seq<real>): (d: seq<bool>)
    ensures |d| == |times|
    decreases |times|
  {
    if times == [] then []
    else
      var (next, granted) := LuaUse(e, rate, times[0]);
      [granted] + LuaDecisions(Some(next), rate, times[1..])
  }

  lemma InflowGrows(rate: real, d: real)
    requires rate > 0.0 && d >= 0.0
    ensures Inflow(rate, d) >= 0.0
  {
  }

  lemma InflowAdds(rate: real, d: real, e: real)
    ensures Inflow(rate, d + e) == Inflow(rate, d) + Inflow(rate, e)
  {
  }

  lemma InflowUnits(rate: real)
    ensures Inflow(rate, 0.0) == 0.0 && Inflow(rate, 1.0) == rate
  {
  }

  lemma UseStaysInRange(b: Option<Bucket>, rate: real, times: seq<real>)
    requires Starts(b, rate, times) && times != []
    ensures 0.0 <= Level(b, rate, times[0]) <= rate
    ensures Starts(Some(Use(b, rate, times[0]).0), rate, times[1..])
  {
    InflowUnits(rate);
    hide Inflow;
    if b.Some? {
      InflowGrows(rate, times[0] - b.value.last);
    }
  }

  // ----- the Lua script refines the dictionary

  /** Both stores have seen the same last call. */
  ghost predicate Match(b: Option<Bucket>, e: Option<Entry>) {
    match (b, e)
    case (None, None) => true
    case (Some(x), Some(y)) => y.bucket == x && y.expireAt == x.last + EXPIRE_SECONDS
    case _ => false
  }

  lemma IdleMinuteFills(x: Bucket, rate: real, now: real)
    requires rate > 0.0 && 0.0 <= x.tokens && now >= x.last + EXPIRE_SECONDS
    ensures Level(Some(x), rate, now) == rate
  {
    InflowUnits(rate);
    InflowAdds(rate, 1.0, now - x.last - 1.0);
    InflowGrows(rate, now - x.last - 1.0);
    hide Inflow;
  }

  /** On the same nondecreasing timestamps both implementations give the same decisions: the key only
      expires when the bucket would be full anyway. */
  lemma {:induction false} LuaRefinesInProcess(b: Option<Bucket>, e: Option<Entry>, rate: real, times: seq<real>)
    requires Starts(b, rate, times) && Match(b, e)
    ensures LuaDecisions(e, rate, times) == Decisions(b, rate, times)
    decreases |times|
  {
    InflowUnits(rate);
    hide Inflow;
    if times == [] {
    } else {
      if e.Some? && times[0] >= e.value.expireAt {
        IdleMinuteFills(b.value, rate, times[0]);
      }
      UseStaysInRange(b, rate, times);
      LuaRefinesInProcess(Some(Use(b, rate, times[0]).0), Some(LuaUse(e, rate, times[0]).0), rate, times[1..]);
    }
  }

  // ----- refused calls are invisible

  function Keep<T>(s: seq<T>, mask: seq<bool>): seq<T>
    requires |mask| == |s|
  {
    if s == [] then [] else (if mask[0] then [s[0]] else []) + Keep(s[1..], mask[1..])
  }

  /** From `t` on the two buckets hold the same number of tokens. */
  ghost predicate SameFrom(a: Option<Bucket>, b: Option<Bucket>, rate: real, t: real) {
    forall now | now >= t :: Level(a, rate, now) == Level(b, rate, now)
  }

  /** Storing a refill changes nothing later. */
  lemma RefillIsInvisible(b: Option<Bucket>, rate: real, t: real)
    requires rate > 0.0 && (b.Some? ==> b.value.last <= t)
    ensures SameFrom(Some(Bucket(Level(b, rate, t), t)), b, rate, t)
  {
    forall now | now >= t
      ensures Level(Some(Bucket(Level(b, rate, t), t)), rate, now) == Level(b, rate, now)
    {
      InflowGrows(rate, now - t);
      InflowUnits(rate);
      if b.Some? {
        InflowAdds(rate, now - t, t - b.value.last);
      }
      hide Inflow;
    }
  }

  lemma {:induction false} SameDecisions(a: Option<Bucket>, b: Option<Bucket>, rate: real, times: seq<real>)
    requires Clock(times) && (times != [] ==> SameFrom(a, b, rate, times[0]))
    ensures Decisions(a, rate, times) == Decisions(b, rate, times)
  {
    hide Inflow;
    if times != [] {
      assert Level(a, rate, times[0]) == Level(b, rate, times[0]);
    }
  }

  lemma {:induction false} KeepStays(times: seq<real>, mask: seq<bool>, t: real)
    requires |mask| == |times| && Clock(times) && (times != [] ==> t <= times[0])
    ensures Clock(Keep(times, mask)) && (Keep(times, mask) != [] ==> t <= Keep(times, mask)[0])
    decreases |times|
  {
    if times == [] {
    } else {
      KeepStays(times[1..], mask[1..], times[0]);
    }
  }

  /** Delete any refused calls from a trace: every call that is left is decided as before. */
  lemma {:induction false} RefusedCallsAreInvisible(b: Option<Bucket>, rate: real, times: seq<real>, mask: seq<bool>)
    requires Starts(b, rate, times) && |mask| == |times|
    requires forall i | 0 <= i < |times| && !mask[i] :: !Decisions(b, rate, times)[i]
    ensures Decisions(b, rate, Keep(times, mask)) == Keep(Decisions(b, rate, times), mask)
    decreases |times|
  {
    hide Inflow;
    if times == [] {
    } else {
      var (next, granted) := Use(b, rate, times[0]);
      var d := Decisions(b, rate, times);
      assert d[1..] == Decisions(Some(next), rate, times[1..]);
      UseStaysInRange(b, rate, times);
      forall i | 0 <= i < |times| - 1 && !mask[1..][i]
        ensures !Decisions(Some(next), rate, times[1..])[i]
      {
        assert !mask[i + 1] && !d[i + 1];
      }
      RefusedCallsAreInvisible(Some(next), rate, times[1..], mask[1..]);
      var rest := Keep(times[1..], mask[1..]);
      if mask[0] {
        assert ([times[0]] + rest)[1..] == rest;
      } else {
        assert !granted;
        RefillIsInvisible(b, rate, times[0]);
        KeepStays(times[1..], mask[1..], times[0]);
        SameDecisions(Some(next), b, rate, rest);
        assert [] + rest == rest;
        assert [] + Keep(d[1..], mask[1..]) == Keep(d[1..], mask[1..]);
      }
    }
  }

  // ----- how many calls are granted

  function GrantedIn(times: seq<real>, d: seq<bool>, s: real, t: real): nat
    requires |d| == |times|
  {
    if times == [] then 0
    else (if d[0] && s <= times[0] <= t then 1 else 0) + GrantedIn(times[1..], d[1..], s, t)
  }

  lemma {:induction false} NoneAfter(times: seq<real>, d: seq<bool>, s: real, t: real)
    requires |d| == |times| && Clock(times) && (times != [] ==> times[0] > t)
    ensures GrantedIn(times, d, s, t) == 0
    decreases |times|
  {
    if times == [] {
    } else {
      NoneAfter(times[1..], d[1..], s, t);
    }
  }

  /** From a call inside the window on, the bucket's level and the refill up to `t` pay for every grant. */
  lemma {:induction false} LevelPays(b: Option<Bucket>, rate: real, times: seq<real>, s: real, t: real)
    requires Starts(b, rate, times) && times != [] && s <= times[0] <= t
    ensures GrantedIn(times, Decisions(b, rate, times), s, t) as real <= Level(b, rate, times[0]) + Inflow(rate, t - times[0])
    decreases |times|
  {
    var (next, granted) := Use(b, rate, times[0]);
    var d := Decisions(b, rate, times);
    assert d[1..] == Decisions(Some(next), rate, times[1..]);
    UseStaysInRange(b, rate, times);
    InflowGrows(rate, t - times[0]);
    hide Inflow;
    if |times| == 1 || times[1] > t {
      NoneAfter(times[1..], d[1..], s, t);
    } else {
      LevelPays(Some(next), rate, times[1..], s, t);
      InflowAdds(rate, times[1] - times[0], t - times[1]);
    }
  }

  /** In any window, at most one bucketful and what flows in meanwhile. */
  lemma {:induction false} GrantsAreBounded(b: Option<Bucket>, rate: real, times: seq<real>, s: real, t: real)
    requires Starts(b, rate, times) && s <= t
    ensures GrantedIn(times, Decisions(b, rate, times), s, t) as real <= rate + Inflow(rate, t - s)
    decreases |times|
  {
    InflowGrows(rate, t - s);
    hide Inflow;
    if times == [] {
    } else if times[0] > t {
      NoneAfter(times, Decisions(b, rate, times), s, t);
    } else {
      UseStaysInRange(b, rate, times);
      if times[0] >= s {
        LevelPays(b, rate, times, s, t);
        InflowGrows(rate, times[0] - s);
        InflowAdds(rate, times[0] - s, t - times[0]);
      } else {
        var next := Use(b, rate, times[0]).0;
        assert Decisions(b, rate, times)[1..] == Decisions(Some(next), rate, times[1..]);
        GrantsAreBounded(Some(next), rate, times[1..], s, t);
      }
    }
  }

  // ----- which calls are granted for sure

  /** The capacity is the rate itself: on a fresh bucket something is granted if and only if the rate is
      at least one, and then the first call and every call at least 1/rate after the one before it. */
  lemma GrantsNeedRateOne(rate: real, times: seq<real>)
    requires rate > 0.0 && Clock(times) && times != []
    ensures true in Decisions(None, rate, times) <==> rate >= 1.0
    ensures rate >= 1.0 ==> Decisions(None, rate, times)[0]
    ensures rate >= 1.0 ==> forall i | 0 < i < |times| && times[i] - times[i - 1] >= 1.0 / rate ::
                              Decisions(None, rate, times)[i]
  {
    InflowUnits(rate);
    hide Inflow;
    if rate < 1.0 {
      forall i | 0 <= i < |times|
        ensures !Decisions(None, rate, times)[i]
      {
        SlowRateRefuses(None, rate, times, i);
      }
    } else {
      assert Decisions(None, rate, times)[0];
      forall i | 0 < i < |times| && times[i] - times[i - 1] >= 1.0 / rate
        ensures Decisions(None, rate, times)[i]
      {
        OneOverRateIsAToken(rate, times[i] - times[i - 1]);
        SpacedCallIsGranted(None, rate, times, i);
      }
    }
  }

  lemma {:induction false} SlowRateRefuses(b: Option<Bucket>, rate: real, times: seq<real>, i: nat)
    requires rate < 1.0 && i < |times|
    ensures !Decisions(b, rate, times)[i]
    decreases |times|
  {
    hide Inflow;
    if i == 0 {
    } else {
      SlowRateRefuses(Some(Use(b, rate, times[0]).0), rate, times[1..], i - 1);
    }
  }

  lemma {:induction false} SpacedCallIsGranted(b: Option<Bucket>, rate: real, times: seq<real>, i: nat)
    requires Starts(b, rate, times) && rate >= 1.0 && 0 < i < |times|
    requires Inflow(rate, times[i] - times[i - 1]) >= 1.0
    ensures Decisions(b, rate, times)[i]
    decreases |times|
  {
    UseStaysInRange(b, rate, times);
    hide Inflow;
    if i <= 1 {
    } else {
      SpacedCallIsGranted(Some(Use(b, rate, times[0]).0), rate, times[1..], i - 1);
    }
  }

  lemma OneOverRateIsAToken(rate: real, d: real)
    requires rate >= 1.0 && d >= 1.0 / rate
    ensures Inflow(rate, d) >= 1.0
  {
    InflowGrows(rate, d - 1.0 / rate);
    InflowAdds(rate, 1.0 / rate, d - 1.0 / rate);
    assert Inflow(rate, 1.0 / rate) == 1.0;
  }

  // ----- a refused call has a reason

  lemma {:induction false} WiderWindow(times: seq<real>, d: seq<bool>, s: real, s': real, t: real)
    requires |d| == |times| && s <= s'
    ensures GrantedIn(times, d, s', t) <= GrantedIn(times, d, s, t)
    decreases |times|
  {
    if times == [] {
    } else {
      WiderWindow(times[1..], d[1..], s, s', t);
    }
  }

  /** Granted calls from `times[j]` to `times[i]` used up all but one token of `level` and the inflow between. */
  ghost predicate Spent(times: seq<real>, d: seq<bool>, rate: real, level: real, j: nat, i: nat)
    requires |d| == |times| && j <= i < |times|
  {
    GrantedIn(times, d, times[j], times[i]) as real > level - 1.0 + Inflow(rate, times[i] - times[j])
  }

  lemma {:induction false} RefusedMeansSpent(b: Option<Bucket>, rate: real, times: seq<real>, i: nat) returns (j: nat)
    requires Starts(b, rate, times) && i < |times| && !Decisions(b, rate, times)[i]
    ensures j <= i
    ensures Spent(times, Decisions(b, rate, times), rate, if j == 0 then Level(b, rate, times[0]) else rate, j, i)
    decreases |times|
  {
    InflowUnits(rate);
    hide Inflow;
    if i == 0 {
      j := 0;
    } else {
      var next := Use(b, rate, times[0]).0;
      UseStaysInRange(b, rate, times);
      assert Decisions(b, rate, times)[1..] == Decisions(Some(next), rate, times[1..]);
      j := RefusedMeansSpent(Some(next), rate, times[1..], i - 1);
      if j > 0 || Level(Some(next), rate, times[1]) == rate {
        SpentLater(times, Decisions(b, rate, times), rate, j, i - 1);
        j := j + 1;
      } else {
        SpentFromTheFirst(b, rate, times, i);
      }
    }
  }

  lemma SpentLater(times: seq<real>, d: seq<bool>, rate: real, j: nat, i: nat)
    requires |d| == |times| && j <= i < |times| - 1 && Spent(times[1..], d[1..], rate, rate, j, i)
    ensures Spent(times, d, rate, rate, j + 1, i + 1)
  {
    hide Inflow;
  }

  /** One call earlier: what the first call took is part of what was spent. */
  lemma SpentFromTheFirst(b: Option<Bucket>, rate: real, times: seq<real>, i: nat)
    requires Starts(b, rate, times) && 0 < i < |times|
    requires var next := Use(b, rate, times[0]).0; var d := Decisions(b, rate, times);
             && Level(Some(next), rate, times[1]) < rate
             && Spent(times[1..], d[1..], rate, Level(Some(next), rate, times[1]), 0, i - 1)
    ensures Spent(times, Decisions(b, rate, times), rate, Level(b, rate, times[0]), 0, i)
  {
    var d := Decisions(b, rate, times);
    WiderWindow(times[1..], d[1..], times[0], times[1], times[i]);
    InflowAdds(rate, times[i] - times[1], times[1] - times[0]);
    ClockGrows(times, 0, i);
    hide Inflow;
  }

  lemma {:induction false} ClockGrows(times: seq<real>, i: nat, j: nat)
    requires Clock(times) && i <= j < |times|
    ensures times[i] <= times[j]
  {
    if i == j {
    } else {
      ClockGrows(times, i, j - 1);
    }
  }

  /** The bound on grants is met from below: on a fresh bucket a call is refused only if, from some earlier
      call on, all but a token of a bucketful and of what flowed in since has been granted. */
  lemma RefusalsNeedGrants(rate: real, times: seq<real>, i: nat)
    requires rate > 0.0 && Clock(times) && i < |times| && !Decisions(None, rate, times)[i]
    ensures exists j: nat :: j <= i &&
              GrantedIn(times, Decisions(None, rate, times), times[j], times[i]) as real
              > rate - 1.0 + Inflow(rate, times[i] - times[j])
  {
    InflowUnits(rate);
    hide Inflow;
    var j := RefusedMeansSpent(None, rate, times, i);
    assert Level(None, rate, times[0]) == rate;
    hide Decisions, GrantedIn, Level;
    assert GrantedIn(times, Decisions(None, rate, times), times[j], times[i]) as real
         > rate - 1.0 + Inflow(rate, times[i] - times[j]);
  }

  lemma {:induction false} BurstFrom(x: Bucket, rate: real, times: seq<real>, i: nat)
    requires 0.0 <= x.tokens <= rate && i < |times| && forall k | 0 <= k < |times| :: times[k] == x.last
    ensures Decisions(Some(x), rate, times)[i] <==> (i + 1) as real <= x.tokens
    decreases |times|
  {
    InflowUnits(rate);
    hide Inflow;
    assert times[0] == x.last;
    if i == 0 {
    } else {
      BurstFrom(Use(Some(x), rate, times[0]).0, rate, times[1..], i - 1);
    }
  }

  /** Of any number of calls at one instant on a fresh bucket, exactly the first `rate` are granted. */
  lemma BurstIsGranted(rate: real, times: seq<real>, t: real, i: nat)
    requires rate > 0.0 && i < |times| && forall k | 0 <= k < |times| :: times[k] == t
    ensures Decisions(None, rate, times)[i] <==> (i + 1) as real <= rate
  {
    InflowUnits(rate);
    BurstFrom(Bucket(rate, t), rate, times, i);
    hide Inflow;
    assert times[0] == t;
    assert Level(None, rate, t) == rate == Level(Some(Bucket(rate, t)), rate, t);
  }
}
