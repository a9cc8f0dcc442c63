/** The per-tenant limiter of the request middleware: a Redis counter per tenant and clock window. */
module RateLimit {
  import opened Basics

  type Tenant(==, !new)

  /** `expireAt` is when Redis drops the counter. */
  datatype Counter = Counter(count: nat, expireAt: real)

  type Counters = map<(Tenant, int), Counter>

  /** Limiter settings: seconds per window and requests per window, as configured. */
  datatype Limits = Limits(window: nat, limit: int)

  datatype Reply = Reply(admitted: bool, remaining: int, reset: int, retryAfter: Option<nat>)

  datatype Request = Request(tenant: Tenant, at: real)

  function Times(a: real, b: real): real {
    a * b
  }

  /** Where window `w` starts. */
  function StartOf(l: Limits, w: int): real {
    Times(w as real, l.window as real)
  }

  function WindowOf(l: Limits, at: real): int
    requires l.window > 0
  {
    (at / l.window as real).Floor
  }

  lemma WindowBounds(l: Limits, at: real)
    requires l.window > 0
    ensures StartOf(l, WindowOf(l, at)) <= at < StartOf(l, WindowOf(l, at) + 1)
  {
    var w := l.window as real;
    DivideBack(at, w);
    hide Times;
    var q := at / w;
    TimesOrder(q.Floor as real, q, w);
    TimesOrder(q, q.Floor as real + 1.0, w);
    assert (q.Floor + 1) as real == q.Floor as real + 1.0;
  }

  lemma DivideBack(a: real, w: real)
    requires w > 0.0
    ensures Times(a / w, w) == a
  {
  }

  lemma TimesOrder(a: real, b: real, w: real)
    requires w > 0.0
    ensures a <= b ==> Times(a, w) <= Times(b, w)
    ensures a < b ==> Times(a, w) < Times(b, w)
  {
    assert Times(b, w) - Times(a, w) == (b - a) * w;
    if a < b {
      assert (b - a) * w > 0.0;
    }
  }

  lemma StartsInOrder(l: Limits, v: int, w: int)
    requires l.window > 0
    ensures v <= w <==> StartOf(l, v) <= StartOf(l, w)
    ensures StartOf(l, v + 1) == StartOf(l, v) + l.window as real
  {
    var size := l.window as real;
    assert (v + 1) as real == v as real + 1.0;
    assert Times(v as real + 1.0, size) == Times(v as real, size) + size;
    hide Times;
    TimesOrder(v as real, w as real, size);
    TimesOrder(w as real, v as real, size);
  }

  function Max0(x: int): nat {
    if x > 0 then x else 0
  }

  /** One request: INCR, an expiry on the first hit, and the decision. */
  function Step(l: Limits, m: Counters, r: Request): (Counters, Reply)
    requires l.window > 0
  {
    var w := WindowOf(l, r.at);
    var key := (r.tenant, w);
    var alive := key in m && r.at < m[key].expireAt;
    var count := if alive then m[key].count + 1 else 1;
    var c := Counter(count, if count == 1 then r.at + (l.window + 1) as real else m[key].expireAt);
    (m[key := c],
     if c.count > l.limit then Reply(false, 0, (w + 1) * l.window, Some(l.window))
     else Reply(true, Max0(l.limit - c.count), (w + 1) * l.window, None))
  }

  class RateLimiter {
    const limits: Limits
    var counters: Counters

    constructor (limits: Limits)
      ensures this.limits == limits && counters == map[]
    {
      this.limits := limits;
      counters := map[];
    }

    method Dispatch(r: Request) returns (reply: Reply)
      requires limits.window > 0
      modifies this
      ensures (counters, reply) == Step(limits, old(counters), r)
      // A first hit starts a counter that outlives its window by a second; the count alone decides.
      ensures var key := (r.tenant, WindowOf(limits, r.at));
              var alive := key in old(counters) && r.at < old(counters)[key].expireAt && old(counters)[key].count > 0;
              && key in counters
              && counters[key] == (if alive then Counter(old(counters)[key].count + 1, old(counters)[key].expireAt)
                                   else Counter(1, r.at + limits.window as real + 1.0))
              && (reply.admitted <==> counters[key].count <= limits.limit)
    {
      var currentWindow := WindowOf(limits, r.at);
      var key := (r.tenant, currentWindow);
      var nextWindowStart := (currentWindow + 1) * limits.window;
      var count, expireAt := 1, 0.0;
      if key in counters && r.at < counters[key].expireAt {
        count, expireAt := counters[key].count + 1, counters[key].expireAt;
      }
      if count == 1 {
        expireAt := r.at + (limits.window + 1) as real;
      }
      counters := counters[key := Counter(count, expireAt)];
      var remaining := Max0(limits.limit - count);
      if count > limits.limit {
        return Reply(false, 0, nextWindowStart, Some(limits.window));
      }
      return Reply(true, remaining, nextWindowStart, None);
    }
  }

  // ----- runs

  /** The counters after the first `n` requests. */
  function CountersAfter(l: Limits, reqs: seq<Request>, n: nat): Counters
    requires l.window > 0 && n <= |reqs|
  {
    if n == 0 then map[] else Step(l, CountersAfter(l, reqs, n - 1), reqs[n - 1]).0
  }

  function ReplyTo(l: Limits, reqs: seq<Request>, i: nat): Reply
    requires l.window > 0 && i < |reqs|
  {
    Step(l, CountersAfter(l, reqs, i), reqs[i]).1
  }

  predicate InWindow(l: Limits, r: Request, tenant: Tenant, w: int)
    requires l.window > 0
  {
    r.tenant == tenant && WindowOf(l, r.at) == w
  }

  /** How many of the first `n` requests the tenant made in window `w`. */
  function Made(l: Limits, reqs: seq<Request>, tenant: Tenant, w: int, n: nat): nat
    requires l.window > 0 && n <= |reqs|
  {
    if n == 0 then 0
    else Made(l, reqs, tenant, w, n - 1) + (if InWindow(l, reqs[n - 1], tenant, w) then 1 else 0)
  }

  /** How many of those were let through. */
  function Admitted(l: Limits, reqs: seq<Request>, tenant: Tenant, w: int, n: nat): nat
    requires l.window > 0 && n <= |reqs|
  {
    if n == 0 then 0
    else Admitted(l, reqs, tenant, w, n - 1)
         + (if InWindow(l, reqs[n - 1], tenant, w) && ReplyTo(l, reqs, n - 1).admitted then 1 else 0)
  }

  /** A counter is there as long as its window lasts, and counts every request made in it. */
  lemma {:induction false} CounterCounts(l: Limits, reqs: seq<Request>, tenant: Tenant, w: int, n: nat)
    requires l.window > 0 && n <= |reqs|
    ensures var m := CountersAfter(l, reqs, n); var made := Made(l, reqs, tenant, w, n);
            && ((tenant, w) in m <==> made > 0)
            && (made > 0 ==> m[(tenant, w)].count == made && m[(tenant, w)].expireAt > StartOf(l, w + 1))
  {
    if n == 0 {
    } else {
      CounterCounts(l, reqs, tenant, w, n - 1);
      WindowBounds(l, reqs[n - 1].at);
      StartsInOrder(l, w, w);
      hide WindowOf, StartOf;
    }
  }

  /** In every run, and in each window, exactly the first `limit` requests of a tenant are let through. */
  lemma {:induction false} AdmitsExactlyTheLimit(l: Limits, reqs: seq<Request>, tenant: Tenant, w: int, n: nat)
    requires l.window > 0 && n <= |reqs|
    ensures Admitted(l, reqs, tenant, w, n) == Min(Made(l, reqs, tenant, w, n), Max0(l.limit))
  {
    if n == 0 {
    } else {
      AdmitsExactlyTheLimit(l, reqs, tenant, w, n - 1);
      if InWindow(l, reqs[n - 1], tenant, w) {
        ReplyCounts(l, reqs, n - 1);
      }
      hide WindowOf, Step;
    }
  }

  /** The reply to request `i` is decided by the requests its tenant made in its window so far, and the
      remaining quota it reports is the limit less those let through, this one included. */
  lemma ReplyCounts(l: Limits, reqs: seq<Request>, i: nat)
    requires l.window > 0 && i < |reqs|
    ensures var t, w := reqs[i].tenant, WindowOf(l, reqs[i].at); var made := Made(l, reqs, t, w, i) + 1;
            && (ReplyTo(l, reqs, i).admitted <==> made <= l.limit)
            && ReplyTo(l, reqs, i).remaining == Max0(l.limit - made)
            && ReplyTo(l, reqs, i).reset == (w + 1) * l.window
            && (ReplyTo(l, reqs, i).retryAfter == if made <= l.limit then None else Some(l.window))
  {
    var t, w := reqs[i].tenant, WindowOf(l, reqs[i].at);
    CounterCounts(l, reqs, t, w, i);
    WindowBounds(l, reqs[i].at);
    hide WindowOf, StartOf, CountersAfter;
  }

  lemma RemainingIsLimitLessAdmitted(l: Limits, reqs: seq<Request>, i: nat)
    requires l.window > 0 && i < |reqs| && l.limit >= 0
    ensures ReplyTo(l, reqs, i).remaining
         == l.limit - Admitted(l, reqs, reqs[i].tenant, WindowOf(l, reqs[i].at), i + 1)
  {
    ReplyCounts(l, reqs, i);
    AdmitsExactlyTheLimit(l, reqs, reqs[i].tenant, WindowOf(l, reqs[i].at), i + 1);
    hide WindowOf, ReplyTo;
  }

  // ----- intervals that straddle a window boundary

  /** Requests of the tenant let through at times from `s` up to but not including `s` + one window. */
  function AdmittedFrom(l: Limits, reqs: seq<Request>, tenant: Tenant, s: real, n: nat): nat
    requires l.window > 0 && n <= |reqs|
  {
    if n == 0 then 0
    else AdmittedFrom(l, reqs, tenant, s, n - 1)
         + (if reqs[n - 1].tenant == tenant && s <= reqs[n - 1].at < s + l.window as real
               && ReplyTo(l, reqs, n - 1).admitted then 1 else 0)
  }

  lemma NextOrSameWindow(l: Limits, s: real, at: real)
    requires l.window > 0 && s <= at < s + l.window as real
    ensures WindowOf(l, at) == WindowOf(l, s) || WindowOf(l, at) == WindowOf(l, s) + 1
  {
    var u, v := WindowOf(l, s), WindowOf(l, at);
    WindowBounds(l, s);
    WindowBounds(l, at);
    StartsInOrder(l, v + 1, u);
    StartsInOrder(l, u + 1, u);
    StartsInOrder(l, u + 2, v);
    hide WindowOf, StartOf;
  }

  lemma {:induction false} SplitByWindow(l: Limits, reqs: seq<Request>, tenant: Tenant, s: real, n: nat)
    requires l.window > 0 && n <= |reqs|
    ensures AdmittedFrom(l, reqs, tenant, s, n)
         <= Admitted(l, reqs, tenant, WindowOf(l, s), n) + Admitted(l, reqs, tenant, WindowOf(l, s) + 1, n)
  {
    if n == 0 {
    } else {
      SplitByWindow(l, reqs, tenant, s, n - 1);
      if s <= reqs[n - 1].at < s + l.window as real {
        NextOrSameWindow(l, s, reqs[n - 1].at);
      }
      hide WindowOf, ReplyTo;
    }
  }

  /** The window is fixed, not sliding: any stretch of one window length lets at most twice the limit
      through. */
  lemma {:induction false} AtMostTwiceTheLimit(l: Limits, reqs: seq<Request>, tenant: Tenant, s: real)
    requires l.window > 0
    ensures AdmittedFrom(l, reqs, tenant, s, |reqs|) <= 2 * Max0(l.limit)
  {
    SplitByWindow(l, reqs, tenant, s, |reqs|);
    AdmitsExactlyTheLimit(l, reqs, tenant, WindowOf(l, s), |reqs|);
    AdmitsExactlyTheLimit(l, reqs, tenant, WindowOf(l, s) + 1, |reqs|);
  }

  /** How many of the first `n` requests the tenant made in window `w` before time `at`. */
  function MadeBefore(l: Limits, reqs: seq<Request>, tenant: Tenant, w: int, at: real, n: nat): nat
    requires l.window > 0 && n <= |reqs|
  {
    if n == 0 then 0
    else MadeBefore(l, reqs, tenant, w, at, n - 1)
         + (if InWindow(l, reqs[n - 1], tenant, w) && reqs[n - 1].at < at then 1 else 0)
  }

  predicate InOrder(reqs: seq<Request>) {
    forall i, j | 0 <= i < j < |reqs| :: reqs[i].at <= reqs[j].at
  }

  lemma {:induction false} AllBefore(l: Limits, reqs: seq<Request>, tenant: Tenant, w: int, at: real, n: nat)
    requires l.window > 0 && n <= |reqs| && forall i | 0 <= i < n :: reqs[i].at < at
    ensures MadeBefore(l, reqs, tenant, w, at, n) == Made(l, reqs, tenant, w, n)
  {
    if n == 0 {
    } else {
      AllBefore(l, reqs, tenant, w, at, n - 1);
    }
  }

  /** When request `i` comes before `at`, so did everything before it. */
  lemma LatestBefore(l: Limits, reqs: seq<Request>, tenant: Tenant, w: int, at: real, i: nat)
    requires l.window > 0 && i < |reqs| && InOrder(reqs) && reqs[i].at < at
    ensures MadeBefore(l, reqs, tenant, w, at, i) == Made(l, reqs, tenant, w, i)
  {
    AllBefore(l, reqs, tenant, w, at, i);
  }

  /** Where a time lies relative to the stretch from `s`, told from its window. */
  lemma StretchAndWindows(l: Limits, s: real, at: real)
    requires l.window > 0
    ensures WindowOf(l, at) == WindowOf(l, s) ==> at < s + l.window as real
    ensures WindowOf(l, at) == WindowOf(l, s) + 1 ==> s < at
    ensures s <= at < s + l.window as real ==> WindowOf(l, at) - WindowOf(l, s) in {0, 1}
  {
    if s <= at < s + l.window as real {
      NextOrSameWindow(l, s, at);
    }
    WindowBounds(l, s);
    WindowBounds(l, at);
    StartsInOrder(l, WindowOf(l, s), WindowOf(l, at));
    hide WindowOf, StartOf;
  }

  /** How many requests a stretch of one window length from `s` lets through, in request counts alone: what
      is admitted in the window of `s` less what of it came before `s`, and what the next window admits
      before the stretch ends. */
  function StretchCount(l: Limits, reqs: seq<Request>, tenant: Tenant, s: real, n: nat): int
    requires l.window > 0 && n <= |reqs|
  {
    var w, limit := WindowOf(l, s), Max0(l.limit);
    Min(Made(l, reqs, tenant, w, n), limit) - Min(MadeBefore(l, reqs, tenant, w, s, n), limit)
    + Min(MadeBefore(l, reqs, tenant, w + 1, s + l.window as real, n), limit)
  }

  lemma {:induction false} StretchIsCounted(l: Limits, reqs: seq<Request>, tenant: Tenant, s: real, n: nat)
    requires l.window > 0 && n <= |reqs| && InOrder(reqs)
    ensures AdmittedFrom(l, reqs, tenant, s, n) == StretchCount(l, reqs, tenant, s, n)
  {
    hide WindowOf, ReplyTo, InOrder;
    if n == 0 {
    } else {
      StretchIsCounted(l, reqs, tenant, s, n - 1);
      var r := reqs[n - 1];
      StretchAndWindows(l, s, r.at);
      if r.tenant == tenant {
        ReplyCounts(l, reqs, n - 1);
      }
      if r.at < s {
        LatestBefore(l, reqs, tenant, WindowOf(l, s), s, n - 1);
      }
      if r.at < s + l.window as real {
        LatestBefore(l, reqs, tenant, WindowOf(l, s) + 1, s + l.window as real, n - 1);
      }
    }
  }

  /** When the documented sliding limit holds: exactly when what the next window lets through before the
      stretch ends is covered by the quota of the first window that was used before `s` or not at all. */
  lemma WithinTheLimitIff(l: Limits, reqs: seq<Request>, tenant: Tenant, s: real)
    requires l.window > 0 && InOrder(reqs)
    ensures var w, limit, n := WindowOf(l, s), Max0(l.limit), |reqs|;
            AdmittedFrom(l, reqs, tenant, s, n) <= limit
            <==> Min(MadeBefore(l, reqs, tenant, w + 1, s + l.window as real, n), limit)
                 <= Min(MadeBefore(l, reqs, tenant, w, s, n), limit) + (limit - Min(Made(l, reqs, tenant, w, n), limit))
  {
    StretchIsCounted(l, reqs, tenant, s, |reqs|);
  }

  // ----- and the bound is reached

  function Burst(tenant: Tenant, at: real, n: nat): seq<Request>
    ensures |Burst(tenant, at, n)| == n
    ensures forall i | 0 <= i < n :: Burst(tenant, at, n)[i] == Request(tenant, at)
  {
    if n == 0 then [] else Burst(tenant, at, n - 1) + [Request(tenant, at)]
  }

  /** `limit` requests just before a boundary and `limit` at it. */
  function TwoBursts(l: Limits, tenant: Tenant): seq<Request>
    ensures |TwoBursts(l, tenant)| == 2 * Max0(l.limit)
  {
    Burst(tenant, l.window as real - 0.5, Max0(l.limit)) + Burst(tenant, l.window as real, Max0(l.limit))
  }

  lemma BurstAt(l: Limits, tenant: Tenant, i: nat)
    requires i < 2 * Max0(l.limit)
    ensures TwoBursts(l, tenant)[i]
         == Request(tenant, if i < Max0(l.limit) then l.window as real - 0.5 else l.window as real)
  {
  }

  lemma {:induction false} BurstsAreAdmitted(l: Limits, tenant: Tenant, n: nat)
    requires l.window > 0 && n <= 2 * Max0(l.limit)
    ensures var reqs := TwoBursts(l, tenant);
            && Made(l, reqs, tenant, 0, n) == Min(n, Max0(l.limit))
            && Made(l, reqs, tenant, 1, n) == n - Min(n, Max0(l.limit))
            && AdmittedFrom(l, reqs, tenant, l.window as real - 0.5, n) == n
  {
    hide TwoBursts, Burst, WindowOf, ReplyTo;
    if n == 0 {
    } else {
      var reqs := TwoBursts(l, tenant);
      BurstAt(l, tenant, n - 1);
      BurstsAreAdmitted(l, tenant, n - 1);
      BurstWindows(l);
      ReplyCounts(l, reqs, n - 1);
    }
  }

  lemma BurstWindows(l: Limits)
    requires l.window > 0
    ensures WindowOf(l, l.window as real - 0.5) == 0 && WindowOf(l, l.window as real) == 1
  {
    var w := l.window as real;
    assert StartOf(l, 0) == 0.0 && StartOf(l, 1) == w && StartOf(l, 2) == 2.0 * w;
    InTheWindow(l, w - 0.5, 0);
    InTheWindow(l, w, 1);
  }

  lemma InTheWindow(l: Limits, at: real, w: int)
    requires l.window > 0 && StartOf(l, w) <= at < StartOf(l, w + 1)
    ensures WindowOf(l, at) == w
  {
    var v := WindowOf(l, at);
    WindowBounds(l, at);
    StartsInOrder(l, v + 1, w);
    StartsInOrder(l, w + 1, v);
    hide WindowOf, StartOf;
  }

  lemma {:induction false} TwiceTheLimitIsReached(l: Limits, tenant: Tenant)
    requires l.window > 0
    ensures var reqs := TwoBursts(l, tenant);
            AdmittedFrom(l, reqs, tenant, l.window as real - 0.5, |reqs|) == 2 * Max0(l.limit)
  {
    BurstsAreAdmitted(l, tenant, 2 * Max0(l.limit));
  }
}
