/** The control flow of the message loop on its own: how the answers of the broker, cancellations and
    crashes decide when the loop ends, given how many messages the crawl has in all. */
module PollLoop {
  import opened Basics
  import opened JobStatus

  const EMPTY_POLLS := 2
  const ERROR_POLLS := 3

  /** How one `queue.get` goes.  `Reply` is the next message, or `QueueEmpty` when there is none;
      `Timeout` is no answer in time, whatever is queued. */
  datatype Poll = Reply | Timeout | BrokerError | Crash

  /** One iteration: did a client cancel the job just before it, and how does the poll go. */
  datatype Tick = Tick(cancelled: bool, poll: Poll)

  datatype Verdict = GoOn | Stop(status: Status) | Crashed

  /** No message: a timeout and an empty queue are handled alike. */
  function Waited(streak: nat): (Verdict, nat) {
    (if streak + 1 >= EMPTY_POLLS then Stop(Done) else GoOn, streak + 1)
  }

  /** What one iteration makes of the streak; a streak of zero with `GoOn` means a message was taken. */
  function React(tick: Tick, queued: bool, streak: nat): (Verdict, nat) {
    if tick.cancelled then (Stop(Cancelled), streak) else
    match tick.poll
    case Crash => (Crashed, streak)
    case BrokerError => (if streak + 1 >= ERROR_POLLS then Stop(Partial) else GoOn, streak + 1)
    case Timeout => Waited(streak)
    case Reply => if queued then (GoOn, 0) else Waited(streak)
  }

  /** How the loop ends: why, after how many polls, and after how many messages. */
  datatype End = End(verdict: Verdict, polls: nat, handled: nat)

  /** The loop on a crawl of `total` messages, from its state on. */
  function Loop(env: nat -> Tick, total: nat, polls: nat, handled: nat, streak: nat): (end: End)
    requires handled <= total && streak < ERROR_POLLS
    ensures end.polls > polls
    decreases total - handled, ERROR_POLLS - streak
  {
    var (verdict, s) := React(env(polls), handled < total, streak);
    if verdict != GoOn then End(verdict, polls + 1, handled)
    else if s == 0 then Loop(env, total, polls + 1, handled + 1, 0)
    else Loop(env, total, polls + 1, handled, s)
  }

  lemma LoopStep(env: nat -> Tick, total: nat, polls: nat, handled: nat, streak: nat)
    requires handled <= total && streak < ERROR_POLLS
    ensures var (verdict, s) := React(env(polls), handled < total, streak);
            && (if verdict == GoOn && s == 0 then handled < total else streak <= s <= streak + 1)
            && (verdict == GoOn ==> s < ERROR_POLLS && (s == 0 || s == streak + 1))
            && (verdict == Stop(Cancelled) <==> env(polls).cancelled)
            && Loop(env, total, polls, handled, streak)
            == if verdict != GoOn then End(verdict, polls + 1, handled)
               else if s == 0 then Loop(env, total, polls + 1, handled + 1, 0)
               else Loop(env, total, polls + 1, handled, s)
  {
  }

  /** At most three polls per message and three more, and the ways to end. */
  lemma {:induction false} LoopFacts(env: nat -> Tick, total: nat, polls: nat, handled: nat, streak: nat)
    requires handled <= total && streak < ERROR_POLLS
    ensures var end := Loop(env, total, polls, handled, streak);
            && handled <= end.handled <= total
            && polls < end.polls <= polls + 3 * (end.handled - handled) + 3 - streak
            && (end.verdict == Crashed || end.verdict in {Stop(Done), Stop(Partial), Stop(Cancelled)})
            && (end.verdict == Stop(Cancelled) <==> env(end.polls - 1).cancelled)
    decreases total - handled, ERROR_POLLS - streak
  {
    var (verdict, s) := React(env(polls), handled < total, streak);
    if verdict != GoOn {
    } else if s == 0 {
      LoopFacts(env, total, polls + 1, handled + 1, 0);
    } else {
      LoopFacts(env, total, polls + 1, handled, s);
    }
  }

  // ----- where the loop ends, told from the broker's answers alone

  function Replies(env: nat -> Tick, n: nat): nat {
    if n == 0 then 0 else Replies(env, n - 1) + One(env(n - 1).poll == Reply)
  }

  /** Poll `i` takes a message: the broker answers, and has answered fewer polls before than there are
      messages. */
  predicate Takes(env: nat -> Tick, total: nat, i: nat) {
    env(i).poll == Reply && Replies(env, i) < total
  }

  /** Poll `i` ends a loop that has come to it: a cancellation, a crash, the second poll in a row without a
      message if it is a timeout or finds the queue empty, or the third if it is a broker error. */
  predicate EndsAt(env: nat -> Tick, total: nat, i: nat) {
    || env(i).cancelled
    || env(i).poll == Crash
    || (env(i).poll == Timeout && i >= 1 && !Takes(env, total, i - 1))
    || (env(i).poll == Reply && !Takes(env, total, i) && i >= 1 && !Takes(env, total, i - 1))
    || (env(i).poll == BrokerError && i >= 2 && !Takes(env, total, i - 1) && !Takes(env, total, i - 2))
  }

  ghost predicate FirstEnd(env: nat -> Tick, total: nat, n: nat) {
    EndsAt(env, total, n) && forall i: nat | i < n :: !EndsAt(env, total, i)
  }

  /** Polls without a message just before poll `n`. */
  function Trail(env: nat -> Tick, total: nat, n: nat): nat {
    if n == 0 || Takes(env, total, n - 1) then 0 else Trail(env, total, n - 1) + 1
  }

  lemma {:induction false} TrailIsShort(env: nat -> Tick, total: nat, n: nat)
    requires forall i: nat | i < n :: !EndsAt(env, total, i)
    ensures Trail(env, total, n) < 3
    ensures Trail(env, total, n) >= 1 <==> n >= 1 && !Takes(env, total, n - 1)
    ensures Trail(env, total, n) >= 2 <==> n >= 2 && !Takes(env, total, n - 1) && !Takes(env, total, n - 2)
  {
    if n == 0 {
    } else {
      TrailIsShort(env, total, n - 1);
      assert !EndsAt(env, total, n - 1);
    }
  }

  /** How a loop that ends with this tick ends. */
  ghost predicate EndedBy(tick: Tick, verdict: Verdict) {
    && (verdict == Stop(Cancelled) <==> tick.cancelled)
    && (verdict == Crashed <==> !tick.cancelled && tick.poll == Crash)
    && (verdict == Stop(Partial) <==> !tick.cancelled && tick.poll == BrokerError)
    && (verdict == Stop(Done) <==> !tick.cancelled && (tick.poll == Timeout || tick.poll == Reply))
  }

  /** One iteration ends the loop exactly when its poll does. */
  lemma ReactAt(env: nat -> Tick, total: nat, n: nat)
    requires forall i: nat | i < n :: !EndsAt(env, total, i)
    ensures var (verdict, s) := React(env(n), Replies(env, n) < total, Trail(env, total, n));
            && (verdict != GoOn <==> EndsAt(env, total, n))
            && (verdict != GoOn ==> EndedBy(env(n), verdict))
            && (verdict == GoOn ==> s == Trail(env, total, n + 1) && (s == 0 <==> Takes(env, total, n)))
  {
    TrailIsShort(env, total, n);
  }

  lemma {:induction false} EndsFrom(env: nat -> Tick, total: nat, n: nat)
    requires (forall i: nat | i < n :: !EndsAt(env, total, i)) && Trail(env, total, n) < ERROR_POLLS
    ensures var end := Loop(env, total, n, Min(Replies(env, n), total), Trail(env, total, n));
            && FirstEnd(env, total, end.polls - 1)
            && end.handled == Min(Replies(env, end.polls - 1), total)
            && EndedBy(env(end.polls - 1), end.verdict)
    decreases total - Min(Replies(env, n), total), ERROR_POLLS - Trail(env, total, n)
  {
    ReactAt(env, total, n);
    LoopStep(env, total, n, Min(Replies(env, n), total), Trail(env, total, n));
    if EndsAt(env, total, n) {
      hide Loop, React, EndsAt, EndedBy;
    } else {
      TrailIsShort(env, total, n + 1);
      hide Loop, React, EndsAt, EndedBy, FirstEnd;
      EndsFrom(env, total, n + 1);
    }
  }

  lemma FirstEndIsUnique(env: nat -> Tick, total: nat, m: nat, n: nat)
    requires FirstEnd(env, total, m) && FirstEnd(env, total, n)
    ensures m == n
  {
    assert (m < n ==> !EndsAt(env, total, m)) && (n < m ==> !EndsAt(env, total, n));
  }

  /** The whole loop, told from the broker's answers: it ends at the first poll that ends it, the kind of
      that poll is how, and every reply before it was a message as long as there were any. */
  lemma LoopEndsFirst(env: nat -> Tick, total: nat, n: nat)
    ensures var end := Loop(env, total, 0, 0, 0); var last := env(end.polls - 1);
            && (FirstEnd(env, total, n) <==> n == end.polls - 1)
            && end.handled == Min(Replies(env, end.polls - 1), total)
            && (end.verdict == Stop(Cancelled) <==> last.cancelled)
            && (end.verdict == Crashed <==> !last.cancelled && last.poll == Crash)
            && (end.verdict == Stop(Partial) <==> !last.cancelled && last.poll == BrokerError)
            && (end.verdict == Stop(Done) <==>
                  !last.cancelled && (last.poll == Timeout || (last.poll == Reply && end.handled == total)))
  {
    var end := Loop(env, total, 0, 0, 0);
    EndsFrom(env, total, 0);
    if FirstEnd(env, total, n) {
      FirstEndIsUnique(env, total, n, end.polls - 1);
    }
    hide Loop, FirstEnd;
  }

  // ----- a broker that answers

  lemma {:induction false} AllReply(env: nat -> Tick, n: nat)
    requires forall i: nat :: env(i) == Tick(false, Reply)
    ensures Replies(env, n) == n
  {
    if n == 0 {
    } else {
      AllReply(env, n - 1);
    }
  }

  /** When every poll is answered and nothing else happens, every message is handled and the job is done two
      polls later. */
  lemma AnsweredCrawlIsDone(env: nat -> Tick, total: nat)
    requires forall i: nat :: env(i) == Tick(false, Reply)
    ensures Loop(env, total, 0, 0, 0) == End(Stop(Done), total + 2, total)
  {
    forall i: nat
      ensures Takes(env, total, i) <==> i < total
    {
      AllReply(env, i);
    }
    assert EndsAt(env, total, total + 1);
    assert FirstEnd(env, total, total + 1);
    LoopEndsFirst(env, total, total + 1);
    AllReply(env, total + 1);
  }

  // ----- done with messages still queued

  /** A timeout that follows a poll without a message ends the loop before all messages have been answered. */
  ghost predicate LosesMessages(env: nat -> Tick, total: nat) {
    exists n: nat :: FirstEnd(env, total, n) && Replies(env, n) < total && !env(n).cancelled && env(n).poll == Timeout
  }

  /** The loop reports done with messages still queued if and only if, before as many replies as the crawl
      has messages, a timeout follows a poll without a reply and nothing else ended the loop earlier. */
  lemma DoneEarlyIff(env: nat -> Tick, total: nat)
    ensures var end := Loop(env, total, 0, 0, 0);
            end.verdict == Stop(Done) && end.handled < total <==> LosesMessages(env, total)
    ensures (forall i: nat :: env(i).poll != Timeout) ==> !LosesMessages(env, total)
  {
    hide Loop, FirstEnd, EndsAt, Replies;
    var end := Loop(env, total, 0, 0, 0);
    LoopEndsFirst(env, total, end.polls - 1);
    forall n: nat | FirstEnd(env, total, n)
      ensures n == end.polls - 1
    {
      LoopEndsFirst(env, total, n);
    }
  }

  /** Two polls are enough: the broker is slow twice, or fails once and is slow once. */
  lemma SlowBrokerLosesEverything(env: nat -> Tick, total: nat)
    requires total > 0 && !env(0).cancelled && !env(1).cancelled
    requires env(0).poll in {Timeout, BrokerError} && env(1).poll == Timeout
    ensures Loop(env, total, 0, 0, 0) == End(Stop(Done), 2, 0) && LosesMessages(env, total)
  {
    assert !EndsAt(env, total, 0) && EndsAt(env, total, 1);
    assert FirstEnd(env, total, 1);
    LoopEndsFirst(env, total, 1);
    DoneEarlyIff(env, total);
  }
}
