/** The webhook retry worker: messages move between the queue, the worker's hands, sleeping requeue
    tasks and three final places, under every interleaving and every POST outcome. */
module WebhookWorker {
  import opened Basics

  type Body(==, !new)

  const MAX_RETRIES := 3
  const RETRY_DELAYS: seq<nat> := [5, 25, 125]

  /** `id` numbers the published payloads; `retry` is the x-retry-count header; `waited` is the delay its
      last requeue task slept. */
  datatype Msg = Msg(id: nat, body: Body, retry: nat, waited: nat)

  /** `attempts[id]` counts the deliveries begun for payload `id`, `posts[id]` those that sent the request. */
  datatype State = State(published: seq<Body>, queue: seq<Msg>, current: Option<Msg>, sleeping: seq<Msg>,
                         delivered: seq<Msg>, dropped: seq<Msg>, dead: seq<Msg>, attempts: seq<nat>, posts: seq<nat>)

  const EMPTY := State([], [], None, [], [], [], [], [], [])

  datatype Step =
    | Publish(body: Body)
    | Receive
    | Refuse         // no callback URL, or its host is not allowed: acknowledged without a POST
    | PostSucceeds
    | PostFails      // an error status or an exception once the request is sent
    | FailsUnsent    // an exception before that: the callback check, the signature, the client
    | Wake(i: nat)   // a requeue task finishes sleeping

  function Without(s: seq<Msg>, i: nat): seq<Msg>
    requires i < |s|
  {
    s[..i] + s[i + 1..]
  }

  function Bump(counts: seq<nat>, id: nat): seq<nat> {
    if id < |counts| then counts[id := counts[id] + 1] else counts
  }

  /** A failed delivery of `m` goes to sleep for a retry, or after the last one to the dead letters. */
  function Fail(s: State, m: Msg): State {
    var t := s.(current := None, attempts := Bump(s.attempts, m.id));
    if m.retry < MAX_RETRIES
    then t.(sleeping := s.sleeping + [m.(retry := m.retry + 1, waited := RETRY_DELAYS[m.retry])])
    else t.(dead := s.dead + [m])
  }

  predicate Enabled(s: State, step: Step) {
    match step
    case Publish(_) => true
    case Receive => s.current.None? && s.queue != []
    case Wake(i) => i < |s.sleeping|
    case _ => s.current.Some?
  }

  /** Steps that are not enabled change nothing. */
  function Next(s: State, step: Step): State {
    if !Enabled(s, step) then s else
    match step
    case Publish(body) =>
      s.(published := s.published + [body], queue := s.queue + [Msg(|s.published|, body, 0, 0)],
         attempts := s.attempts + [0], posts := s.posts + [0])
    case Receive => s.(queue := s.queue[1..], current := Some(s.queue[0]))
    case Refuse => s.(current := None, dropped := s.dropped + [s.current.value])
    case PostSucceeds =>
      var m := s.current.value;
      s.(current := None, delivered := s.delivered + [m],
         attempts := Bump(s.attempts, m.id), posts := Bump(s.posts, m.id))
    case PostFails => Fail(s.(posts := Bump(s.posts, s.current.value.id)), s.current.value)
    case FailsUnsent => Fail(s, s.current.value)
    case Wake(i) => s.(sleeping := Without(s.sleeping, i), queue := s.queue + [s.sleeping[i]])
  }

  function After(s: State, steps: seq<Step>): State
    decreases |steps|
  {
    if steps == [] then s else After(Next(s, steps[0]), steps[1..])
  }

  // ----- the worker's code

  /** What delivering one message runs into. */
  datatype Delivery = NotAllowed | Accepted | Error | ErrorUnsent

  function StepFor(d: Delivery): Step {
    match d
    case NotAllowed => Refuse
    case Accepted => PostSucceeds
    case Error => PostFails
    case ErrorUnsent => FailsUnsent
  }

  /** `published`, `delivered`, `dropped`, `attempts` and `posts` are history the real worker does not keep. */
  class Worker {
    var published: seq<Body>
    var queue: seq<Msg>
    var current: Option<Msg>
    var backgroundTasks: seq<Msg>
    var delivered: seq<Msg>
    var dropped: seq<Msg>
    var dlq: seq<Msg>
    var attempts: seq<nat>
    var posts: seq<nat>

    function Model(): State
      reads this
    {
      State(published, queue, current, backgroundTasks, delivered, dropped, dlq, attempts, posts)
    }

    constructor ()
      ensures Model() == EMPTY
    {
      published, queue, current, backgroundTasks := [], [], None, [];
      delivered, dropped, dlq, attempts, posts := [], [], [], [], [];
    }

    /** A publish that raises is logged and leaves nothing behind. */
    method PublishWebhook(body: Body, raises: bool)
      modifies this
      ensures Model() == if raises then old(Model()) else Next(old(Model()), Publish(body))
    {
      if raises {
        return;
      }
      queue := queue + [Msg(|published|, body, 0, 0)];
      published := published + [body];
      attempts, posts := attempts + [0], posts + [0];
    }

    /** One round of the consume loop. */
    method HandleNext(d: Delivery)
      requires current.None? && queue != []
      modifies this
      ensures Model() == Next(Next(old(Model()), Receive), StepFor(d))
    {
      var message := queue[0];
      queue := queue[1..];
      if d == NotAllowed {
        dropped := dropped + [message];
        return;
      }
      attempts := Bump(attempts, message.id);
      if d != ErrorUnsent {
        posts := Bump(posts, message.id);
      }
      if d == Accepted {
        delivered := delivered + [message];
        return;
      }
      if message.retry < MAX_RETRIES {
        var delay := RETRY_DELAYS[message.retry];
        var newMsg := Msg(message.id, message.body, message.retry + 1, delay);
        backgroundTasks := backgroundTasks + [newMsg];
      } else {
        dlq := dlq + [message];
      }
    }

    /** A requeue task has slept its delay. */
    method Requeue(i: nat)
      requires i < |backgroundTasks|
      modifies this
      ensures Model() == Next(old(Model()), Wake(i))
    {
      queue := queue + [backgroundTasks[i]];
      backgroundTasks := Without(backgroundTasks, i);
    }
  }

  /** One round: the oldest message leaves the queue for the place its delivery earns it, a failed one for
      five, then twenty-five, then a hundred and twenty-five seconds. */
  lemma RoundMoves(s: State, d: Delivery)
    requires s.current.None? && s.queue != []
    ensures var t := Next(Next(s, Receive), StepFor(d)); var m := s.queue[0];
            && t.published == s.published && t.current == None && t.queue == s.queue[1..]
            && t.dropped == s.dropped + (if d == NotAllowed then [m] else [])
            && t.delivered == s.delivered + (if d == Accepted then [m] else [])
            && t.dead == s.dead + (if d in {Error, ErrorUnsent} && m.retry >= 3 then [m] else [])
            && t.sleeping == s.sleeping +
               (if d in {Error, ErrorUnsent} && m.retry < 3
                then [Msg(m.id, m.body, m.retry + 1, if m.retry == 0 then 5 else if m.retry == 1 then 25 else 125)]
                else [])
  {
    assert s.dropped + [] == s.dropped && s.delivered + [] == s.delivered && s.dead + [] == s.dead;
    assert s.sleeping + [] == s.sleeping;
  }

  // ----- where each payload is

  /** How many messages of `ms` carry payload `id`. */
  function Count(ms: seq<Msg>, id: nat): nat {
    if ms == [] then 0 else Count(ms[..|ms| - 1], id) + One(ms[|ms| - 1].id == id)
  }

  lemma CountAppend(ms: seq<Msg>, m: Msg, id: nat)
    ensures Count(ms + [m], id) == Count(ms, id) + One(m.id == id)
  {
    var all := ms + [m];
    assert all[..|all| - 1] == ms;
  }

  lemma {:induction false} CountConcat(a: seq<Msg>, b: seq<Msg>, id: nat)
    ensures Count(a + b, id) == Count(a, id) + Count(b, id)
    decreases |b|
  {
    if b == [] {
      assert a + b == a;
    } else {
      var n := |b| - 1;
      CountConcat(a, b[..n], id);
      CountAppend(a + b[..n], b[n], id);
      assert a + b == (a + b[..n]) + [b[n]];
    }
  }

  lemma CountWithout(ms: seq<Msg>, i: nat, id: nat)
    requires i < |ms|
    ensures Count(ms, id) == Count(Without(ms, i), id) + One(ms[i].id == id)
  {
    assert ms == (ms[..i] + [ms[i]]) + ms[i + 1..];
    CountConcat(ms[..i] + [ms[i]], ms[i + 1..], id);
    CountAppend(ms[..i], ms[i], id);
    CountConcat(ms[..i], ms[i + 1..], id);
  }

  lemma CountHeld(o: Option<Msg>, id: nat)
    ensures Count(Held(o), id) == One(o.Some? && o.value.id == id)
  {
    if o.Some? {
      assert [] + [o.value] == Held(o);
      CountAppend([], o.value, id);
    }
  }

  function Held(o: Option<Msg>): seq<Msg> {
    if o.Some? then [o.value] else []
  }

  function Everywhere(s: State, id: nat): nat {
    Count(s.queue, id) + Count(Held(s.current), id) + Count(s.sleeping, id)
    + Count(s.delivered, id) + Count(s.dropped, id) + Count(s.dead, id)
  }

  /** Each published payload is in exactly one place, exactly once. */
  ghost predicate OnePlaceEach(s: State) {
    forall id: nat :: Everywhere(s, id) == One(id < |s.published|)
  }

  lemma FailureKeepsPlaces(s: State, step: Step, id: nat)
    requires s.current.Some? && (step.PostFails? || step.FailsUnsent?)
    ensures Everywhere(Next(s, step), id) == Everywhere(s, id)
  {
    hide Count;
    var m := s.current.value;
    CountHeld(s.current, id);
    CountHeld(None, id);
    if m.retry < MAX_RETRIES {
      CountAppend(s.sleeping, m.(retry := m.retry + 1, waited := RETRY_DELAYS[m.retry]), id);
    } else {
      CountAppend(s.dead, m, id);
    }
  }

  lemma WakeKeepsPlaces(s: State, i: nat, id: nat)
    requires i < |s.sleeping|
    ensures Everywhere(Next(s, Wake(i)), id) == Everywhere(s, id)
  {
    hide Count;
    CountWithout(s.sleeping, i, id);
    CountAppend(s.queue, s.sleeping[i], id);
    hide Count, Without;
  }

  lemma ReceiveKeepsPlaces(s: State, id: nat)
    requires s.current.None? && s.queue != []
    ensures Everywhere(Next(s, Receive), id) == Everywhere(s, id)
  {
    hide Count;
    CountWithout(s.queue, 0, id);
    assert Without(s.queue, 0) == s.queue[1..];
    CountHeld(s.current, id);
    CountHeld(Some(s.queue[0]), id);
    hide Count, Without;
  }

  /** A move takes a message from one place and puts it in another; publishing adds one. */
  lemma MovesKeepPlaces(s: State, step: Step, id: nat)
    ensures Everywhere(Next(s, step), id) == Everywhere(s, id) + One(step.Publish? && id == |s.published|)
  {
    hide Count;
    if Enabled(s, step) {
      match step
      case Publish(body) => CountAppend(s.queue, Msg(|s.published|, body, 0, 0), id);
      case Receive => ReceiveKeepsPlaces(s, id);
      case Wake(i) => WakeKeepsPlaces(s, i, id);
      case PostFails => FailureKeepsPlaces(s, step, id);
      case FailsUnsent => FailureKeepsPlaces(s, step, id);
      case Refuse =>
        CountHeld(s.current, id);
        CountHeld(None, id);
        CountAppend(s.dropped, s.current.value, id);
      case PostSucceeds =>
        CountHeld(s.current, id);
        CountHeld(None, id);
        CountAppend(s.delivered, s.current.value, id);
    }
  }

  lemma PlacesKept(s: State, step: Step)
    requires OnePlaceEach(s)
    ensures OnePlaceEach(Next(s, step))
  {
    forall id: nat
      ensures Everywhere(Next(s, step), id) == One(id < |Next(s, step).published|)
    {
      MovesKeepPlaces(s, step, id);
      hide Everywhere, OnePlaceEach;
    }
  }

  // ----- what each message says

  /** The body is the published one, the header is in range, and it counts the deliveries begun so far. */
  predicate MsgOk(s: State, m: Msg, begun: nat) {
    && m.id < |s.published| && m.body == s.published[m.id] && m.retry <= MAX_RETRIES
    && m.waited == (if m.retry == 0 then 0 else RETRY_DELAYS[m.retry - 1])
    && m.id < |s.attempts| && s.attempts[m.id] == begun
  }

  predicate AllOk(s: State, ms: seq<Msg>, failed: nat) {
    forall i | 0 <= i < |ms| :: MsgOk(s, ms[i], ms[i].retry + failed)
  }

  ghost predicate Inv(s: State) {
    && OnePlaceEach(s)
    && AllOk(s, s.queue, 0) && AllOk(s, Held(s.current), 0) && AllOk(s, s.sleeping, 0)
    && AllOk(s, s.dropped, 0) && AllOk(s, s.delivered, 1) && AllOk(s, s.dead, 1)
    && (forall i | 0 <= i < |s.sleeping| :: s.sleeping[i].retry > 0)
    && (forall i | 0 <= i < |s.dead| :: s.dead[i].retry == MAX_RETRIES)
    && |s.attempts| == |s.posts| == |s.published|
    && (forall id | 0 <= id < |s.posts| :: s.posts[id] <= s.attempts[id])
    && (forall i | 0 <= i < |s.delivered| :: s.delivered[i].id < |s.posts| && s.posts[s.delivered[i].id] >= 1)
  }

  lemma {:induction false} CountAt(ms: seq<Msg>, i: nat)
    requires i < |ms|
    ensures Count(ms, ms[i].id) >= 1
  {
    CountWithout(ms, i, ms[i].id);
  }

  /** Only the message in hand carries its id, so a delivery of it leaves what the others say true. */
  lemma DeliveryKeepsOthers(s: State, t: State, ms: seq<Msg>, failed: nat)
    requires OnePlaceEach(s) && s.current.Some? && s.current.value.id < |s.published|
    requires ms in {s.queue, s.sleeping, s.delivered, s.dropped, s.dead} && AllOk(s, ms, failed)
    requires t.published == s.published && t.attempts == Bump(s.attempts, s.current.value.id)
    ensures AllOk(t, ms, failed)
  {
    var id := s.current.value.id;
    CountHeld(s.current, id);
    assert Everywhere(s, id) == 1;
    forall i | 0 <= i < |ms|
      ensures MsgOk(t, ms[i], ms[i].retry + failed)
    {
      assert MsgOk(s, ms[i], ms[i].retry + failed);
      CountAt(ms, i);
      hide Count;
    }
  }

  lemma DeliveryKeeps(s: State, step: Step)
    requires Inv(s) && s.current.Some? && (step.PostSucceeds? || step.PostFails? || step.FailsUnsent?)
    ensures Inv(Next(s, step))
  {
    var t := Next(s, step);
    assert MsgOk(s, Held(s.current)[0], s.current.value.retry);
    PlacesKept(s, step);
    DeliveryKeepsOthers(s, t, s.queue, 0);
    DeliveryKeepsOthers(s, t, s.sleeping, 0);
    DeliveryKeepsOthers(s, t, s.dropped, 0);
    DeliveryKeepsOthers(s, t, s.delivered, 1);
    DeliveryKeepsOthers(s, t, s.dead, 1);
    hide Everywhere, OnePlaceEach;
  }

  lemma MoveKeeps(s: State, step: Step)
    requires Inv(s) && (step.Receive? || step.Refuse? || step.Wake?)
    ensures Inv(Next(s, step))
  {
    var t := Next(s, step);
    PlacesKept(s, step);
    if Enabled(s, step) {
      match step
      case Receive =>
        assert MsgOk(s, s.queue[0], s.queue[0].retry);
        assert forall i | 0 <= i < |t.queue| :: t.queue[i] == s.queue[i + 1];
      case Refuse => assert MsgOk(s, Held(s.current)[0], s.current.value.retry);
      case Wake(i) =>
        assert MsgOk(s, s.sleeping[i], s.sleeping[i].retry);
        assert forall k | 0 <= k < |t.sleeping| :: t.sleeping[k] == s.sleeping[if k < i then k else k + 1];
    }
    hide Everywhere, OnePlaceEach;
  }

  lemma PublishKeepsOthers(s: State, t: State, ms: seq<Msg>, failed: nat)
    requires AllOk(s, ms, failed) && s.published <= t.published && s.attempts <= t.attempts
    ensures AllOk(t, ms, failed)
  {
    forall i | 0 <= i < |ms|
      ensures MsgOk(t, ms[i], ms[i].retry + failed)
    {
      assert MsgOk(s, ms[i], ms[i].retry + failed);
    }
  }

  lemma PublishKeeps(s: State, body: Body)
    requires Inv(s)
    ensures Inv(Next(s, Publish(body)))
  {
    PlacesKept(s, Publish(body));
    var t := Next(s, Publish(body));
    hide Everywhere, OnePlaceEach;
    PublishKeepsOthers(s, t, s.queue, 0);
    PublishKeepsOthers(s, t, Held(s.current), 0);
    PublishKeepsOthers(s, t, s.sleeping, 0);
    PublishKeepsOthers(s, t, s.dropped, 0);
    PublishKeepsOthers(s, t, s.delivered, 1);
    PublishKeepsOthers(s, t, s.dead, 1);
  }

  lemma {:induction false} RunKeeps(s: State, steps: seq<Step>)
    requires Inv(s)
    ensures Inv(After(s, steps))
    decreases |steps|
  {
    if steps == [] {
    } else {
      match steps[0] {
        case Publish(body) => PublishKeeps(s, body);
        case PostSucceeds => if s.current.Some? { DeliveryKeeps(s, steps[0]); }
        case PostFails => if s.current.Some? { DeliveryKeeps(s, steps[0]); }
        case FailsUnsent => if s.current.Some? { DeliveryKeeps(s, steps[0]); }
        case _ => MoveKeeps(s, steps[0]);
      }
      RunKeeps(Next(s, steps[0]), steps[1..]);
    }
  }

  function Live(s: State): seq<Msg> {
    s.queue + Held(s.current) + s.sleeping
  }

  function Settled(s: State): seq<Msg> {
    s.delivered + s.dropped + s.dead
  }

  lemma PlacesAreLiveOrSettled(s: State, id: nat)
    ensures Everywhere(s, id) == Count(Live(s), id) + Count(Settled(s), id)
  {
    CountConcat(s.queue + Held(s.current), s.sleeping, id);
    CountConcat(s.queue, Held(s.current), id);
    CountConcat(s.delivered + s.dropped, s.dead, id);
    CountConcat(s.delivered, s.dropped, id);
  }

  lemma {:induction false} CountFinds(ms: seq<Msg>, id: nat)
    requires Count(ms, id) > 0
    ensures exists m :: m in ms && m.id == id
    decreases |ms|
  {
    var n := |ms| - 1;
    if ms[n].id != id {
      CountFinds(ms[..n], id);
      var m :| m in ms[..n] && m.id == id;
      assert m in ms;
    } else {
      assert ms[n] in ms;
    }
  }

  /** What a message says about its payload, wherever it is. */
  ghost predicate Truthful(s: State, m: Msg) {
    && m.id < |s.published| && |s.attempts| == |s.posts| == |s.published|
    && m.body == s.published[m.id] && 0 <= m.retry <= 3 && m.waited == [0, 5, 25, 125][m.retry]
    && s.posts[m.id] <= s.attempts[m.id] <= 4
    && (m in Live(s) || m in s.dropped ==> s.attempts[m.id] == m.retry)
    && (m in s.delivered ==> s.attempts[m.id] == m.retry + 1 && s.posts[m.id] >= 1)
    && (m in s.dead ==> s.attempts[m.id] == 4)
  }

  lemma OkMeans(s: State, ms: seq<Msg>, failed: nat, m: Msg)
    requires AllOk(s, ms, failed) && m in ms
    ensures MsgOk(s, m, m.retry + failed)
  {
    var i :| 0 <= i < |ms| && ms[i] == m;
  }

  lemma MessagesAreTruthful(s: State, m: Msg)
    requires Inv(s) && (m in Live(s) || m in Settled(s))
    ensures Truthful(s, m)
  {
    hide OnePlaceEach;
    if m in s.queue { OkMeans(s, s.queue, 0, m); }
    if m in Held(s.current) { OkMeans(s, Held(s.current), 0, m); }
    if m in s.sleeping { OkMeans(s, s.sleeping, 0, m); }
    if m in s.dropped { OkMeans(s, s.dropped, 0, m); }
    if m in s.delivered { OkMeans(s, s.delivered, 1, m); }
    if m in s.dead { OkMeans(s, s.dead, 1, m); }
    hide AllOk;
  }

  lemma PayloadIsSomewhere(s: State, id: nat)
    requires OnePlaceEach(s) && id < |s.published|
    ensures Count(Live(s), id) + Count(Settled(s), id) == 1
    ensures exists m :: (m in Live(s) || m in Settled(s)) && m.id == id
  {
    PlacesAreLiveOrSettled(s, id);
    assert Everywhere(s, id) == 1;
    hide Everywhere, Live, Settled;
    if Count(Live(s), id) > 0 {
      CountFinds(Live(s), id);
    } else {
      CountFinds(Settled(s), id);
    }
  }

  /** In every run, each payload is live exactly once or settled exactly once, always with the published
      body; headers stay in 0..3 and count the deliveries begun before; at most four are begun, each
      with at most one POST, and a payload is dead-lettered exactly after the fourth failed. */
  lemma EveryPayloadIsAccountedFor(steps: seq<Step>, id: nat)
    requires id < |After(EMPTY, steps).published|
    ensures var s := After(EMPTY, steps);
            && Count(Live(s), id) + Count(Settled(s), id) == 1
            && (exists m :: (m in Live(s) || m in Settled(s)) && m.id == id)
            && (forall m | m in Live(s) || m in Settled(s) :: Truthful(s, m))
  {
    RunKeeps(EMPTY, steps);
    var s := After(EMPTY, steps);
    hide After, Truthful, Live, Settled;
    PayloadIsSomewhere(s, id);
    forall m | m in Live(s) || m in Settled(s)
      ensures Truthful(s, m)
    {
      MessagesAreTruthful(s, m);
    }
  }

  /** As long as no delivery fails before its request is sent, each is one POST. */
  lemma {:induction false} EveryAttemptIsAPost(s: State, steps: seq<Step>)
    requires s.posts == s.attempts && FailsUnsent !in steps
    ensures After(s, steps).posts == After(s, steps).attempts
    decreases |steps|
  {
    if steps == [] {
    } else {
      EveryAttemptIsAPost(Next(s, steps[0]), steps[1..]);
    }
  }

  // ----- when a payload gets its fourth attempt

  predicate FailsFor(s: State, step: Step, id: nat) {
    s.current.Some? && s.current.value.id == id && (step.PostFails? || step.FailsUnsent?)
  }

  /** How many deliveries of payload `id` fail during a run. */
  function Failures(s: State, steps: seq<Step>, id: nat): nat
    decreases |steps|
  {
    if steps == [] then 0 else One(FailsFor(s, steps[0], id)) + Failures(Next(s, steps[0]), steps[1..], id)
  }

  function AttemptsFor(s: State, id: nat): nat {
    if id < |s.attempts| then s.attempts[id] else 0
  }

  lemma StepAttempts(s: State, step: Step, id: nat)
    requires Inv(s)
    ensures AttemptsFor(Next(s, step), id) + Count(s.delivered, id)
         == AttemptsFor(s, id) + One(FailsFor(s, step, id)) + Count(Next(s, step).delivered, id)
  {
    if s.current.Some? {
      assert MsgOk(s, Held(s.current)[0], s.current.value.retry);
      CountAppend(s.delivered, s.current.value, id);
    }
    hide Count, Everywhere, OnePlaceEach;
  }

  lemma {:induction false} RunAttempts(s: State, steps: seq<Step>, id: nat)
    requires Inv(s)
    ensures AttemptsFor(After(s, steps), id) + Count(s.delivered, id)
         == AttemptsFor(s, id) + Failures(s, steps, id) + Count(After(s, steps).delivered, id)
    decreases |steps|
  {
    hide Inv, Count, AttemptsFor, Next, FailsFor;
    if steps == [] {
    } else {
      StepAttempts(s, steps[0], id);
      StepKeepsInv(s, steps[0]);
      RunAttempts(Next(s, steps[0]), steps[1..], id);
    }
  }

  lemma StepKeepsInv(s: State, step: Step)
    requires Inv(s)
    ensures Inv(Next(s, step))
  {
    hide Inv, Next;
    RunKeeps(s, [step]);
    assert [step][1..] == [];
    assert After(s, [step]) == Next(s, step);
  }

  /** In every run the attempts for a payload are its failed deliveries and the successful one, so a fourth
      is begun exactly when three have failed and another delivery ends; it is dead-lettered exactly when
      four have failed. */
  lemma FailuresDecide(steps: seq<Step>, id: nat)
    requires id < |After(EMPTY, steps).published|
    ensures var s, failures := After(EMPTY, steps), Failures(EMPTY, steps, id);
            && id < |s.attempts| && s.attempts[id] == failures + Count(s.delivered, id)
            && failures <= 4 && (Count(s.dead, id) == 1 <==> failures == 4)
            && (s.attempts[id] == 4 <==> failures == 4 || (failures == 3 && Count(s.delivered, id) == 1))
  {
    hide *;
    NothingAtFirst(id);
    RunAttempts(EMPTY, steps, id);
    EveryPayloadIsAccountedFor(steps, id);
    WhereFourFailuresLead(After(EMPTY, steps), id, Failures(EMPTY, steps, id));
  }

  lemma NothingAtFirst(id: nat)
    ensures Inv(EMPTY) && AttemptsFor(EMPTY, id) == 0 && Count(EMPTY.delivered, id) == 0
  {
  }

  lemma WhereFourFailuresLead(s: State, id: nat, failures: nat)
    requires AttemptsFor(s, id) == failures + Count(s.delivered, id)
    requires Count(Live(s), id) + Count(Settled(s), id) == 1
    requires exists m :: (m in Live(s) || m in Settled(s)) && m.id == id
    requires forall m | m in Live(s) || m in Settled(s) :: Truthful(s, m)
    ensures id < |s.attempts| && s.attempts[id] == failures + Count(s.delivered, id)
    ensures failures <= 4 && (Count(s.dead, id) == 1 <==> failures == 4)
    ensures s.attempts[id] == 4 <==> failures == 4 || (failures == 3 && Count(s.delivered, id) == 1)
  {
    hide Count, Live;
    var m :| (m in Live(s) || m in Settled(s)) && m.id == id;
    assert Truthful(s, m);
    SettledCounts(s, id);
    if Count(s.dead, id) > 0 {
      CountFinds(s.dead, id);
      var d :| d in s.dead && d.id == id;
      assert d in Settled(s) && Truthful(s, d);
    }
    assert m in Live(s) || m in s.delivered || m in s.dropped || m in s.dead;
    if m in s.dead {
      CountIn(s.dead, m);
    }
    if m in s.delivered {
      CountIn(s.delivered, m);
    }
  }

  lemma SettledCounts(s: State, id: nat)
    ensures Count(Settled(s), id) == Count(s.delivered, id) + Count(s.dropped, id) + Count(s.dead, id)
  {
    CountConcat(s.delivered + s.dropped, s.dead, id);
    CountConcat(s.delivered, s.dropped, id);
  }

  lemma CountIn(ms: seq<Msg>, m: Msg)
    requires m in ms
    ensures Count(ms, m.id) >= 1
  {
    var i :| 0 <= i < |ms| && ms[i] == m;
    CountAt(ms, i);
  }

  /** One failed round: the message comes back with the next retry count. */
  lemma FailedRound(s: State, m: Msg, rest: seq<Step>) returns (t: State)
    requires s.queue == [m] && s.current == None && s.sleeping == [] && m.retry < MAX_RETRIES && m.id < |s.attempts|
    ensures After(s, [Receive] + ([PostFails] + ([Wake(0)] + rest))) == After(t, rest)
    ensures t == s.(queue := [m.(retry := m.retry + 1, waited := RETRY_DELAYS[m.retry])],
                    attempts := Bump(s.attempts, m.id), posts := Bump(s.posts, m.id))
  {
    hide After;
    var s1 := Next(s, Receive);
    var s2 := Next(s1, PostFails);
    t := Next(s2, Wake(0));
    FirstStep(s, Receive, [PostFails] + ([Wake(0)] + rest));
    FirstStep(s1, PostFails, [Wake(0)] + rest);
    FirstStep(s2, Wake(0), rest);
  }

  lemma FirstStep(s: State, step: Step, rest: seq<Step>)
    ensures After(s, [step] + rest) == After(Next(s, step), rest)
  {
    assert ([step] + rest)[1..] == rest;
  }

  function FailedRounds(n: nat, rest: seq<Step>): seq<Step> {
    if n == 0 then rest else [Receive] + ([PostFails] + ([Wake(0)] + FailedRounds(n - 1, rest)))
  }

  /** A receiver that refuses every POST is sent four of them before the payload is a dead letter. */
  lemma FourAttemptsAreMade(body: Body)
    ensures var s := After(EMPTY, [Publish(body)] + FailedRounds(3, [Receive] + ([PostFails] + [])));
            s.attempts == [4] && s.posts == [4] && |s.dead| == 1 && s.dead[0].body == body
  {
    var last := [Receive] + ([PostFails] + []);
    var s0 := Next(EMPTY, Publish(body));
    FirstStep(EMPTY, Publish(body), FailedRounds(3, last));
    var s1 := FailedRound(s0, Msg(0, body, 0, 0), FailedRounds(2, last));
    var s2 := FailedRound(s1, Msg(0, body, 1, 5), FailedRounds(1, last));
    var s3 := FailedRound(s2, Msg(0, body, 2, 25), FailedRounds(0, last));
    FirstStep(s3, Receive, [PostFails] + []);
    FirstStep(Next(s3, Receive), PostFails, []);
  }

  // ----- the worker comes to rest

  function Weight(m: Msg, stage: nat): nat {
    3 * (if m.retry <= MAX_RETRIES then MAX_RETRIES - m.retry else 0) + stage
  }

  function Sum(ms: seq<Msg>, stage: nat): nat {
    if ms == [] then 0 else Sum(ms[..|ms| - 1], stage) + Weight(ms[|ms| - 1], stage)
  }

  lemma SumAppend(ms: seq<Msg>, m: Msg, stage: nat)
    ensures Sum(ms + [m], stage) == Sum(ms, stage) + Weight(m, stage)
  {
    var all := ms + [m];
    assert all[..|all| - 1] == ms;
  }

  lemma {:induction false} SumConcat(a: seq<Msg>, b: seq<Msg>, stage: nat)
    ensures Sum(a + b, stage) == Sum(a, stage) + Sum(b, stage)
    decreases |b|
  {
    hide Weight;
    if b == [] {
      assert a + b == a;
    } else {
      var n := |b| - 1;
      SumConcat(a, b[..n], stage);
      SumAppend(a + b[..n], b[n], stage);
      assert a + b == (a + b[..n]) + [b[n]];
    }
  }

  lemma SumWithout(ms: seq<Msg>, i: nat, stage: nat)
    requires i < |ms|
    ensures Sum(ms, stage) == Sum(Without(ms, i), stage) + Weight(ms[i], stage)
  {
    assert ms == (ms[..i] + [ms[i]]) + ms[i + 1..];
    SumConcat(ms[..i] + [ms[i]], ms[i + 1..], stage);
    SumAppend(ms[..i], ms[i], stage);
    SumConcat(ms[..i], ms[i + 1..], stage);
  }

  /** Work left: a message in hand is one step from its outcome, a queued one two, a sleeping one three,
      and each retry still allowed adds three more. */
  function Measure(s: State): nat {
    Sum(s.queue, 2) + (if s.current.Some? then Weight(s.current.value, 1) else 0) + Sum(s.sleeping, 3)
  }

  lemma StepUsesMeasure(s: State, step: Step)
    requires Inv(s) && Enabled(s, step)
    ensures step.Publish? ==> Measure(Next(s, step)) == Measure(s) + 11
    ensures !step.Publish? ==> Measure(Next(s, step)) < Measure(s)
  {
    hide Sum, OnePlaceEach;
    match step
    case Publish(body) => SumAppend(s.queue, Msg(|s.published|, body, 0, 0), 2);
    case Receive =>
      SumWithout(s.queue, 0, 2);
      assert Without(s.queue, 0) == s.queue[1..];
    case Wake(i) =>
      SumWithout(s.sleeping, i, 3);
      SumAppend(s.queue, s.sleeping[i], 2);
    case _ =>
      var m := s.current.value;
      assert MsgOk(s, Held(s.current)[0], m.retry);
      if m.retry < MAX_RETRIES {
        SumAppend(s.sleeping, m.(retry := m.retry + 1, waited := RETRY_DELAYS[m.retry]), 3);
      }
  }

  /** How many steps of a run do something other than publishing. */
  function Worked(s: State, steps: seq<Step>): nat
    decreases |steps|
  {
    if steps == [] then 0
    else (if Enabled(s, steps[0]) && !steps[0].Publish? then 1 else 0) + Worked(Next(s, steps[0]), steps[1..])
  }

  lemma {:induction false} WorkIsPaidFor(s: State, steps: seq<Step>)
    requires Inv(s)
    ensures Worked(s, steps) + Measure(After(s, steps)) <= Measure(s) + 11 * (|After(s, steps).published| - |s.published|)
    ensures |s.published| <= |After(s, steps).published|
    decreases |steps|
  {
    if steps == [] {
    } else {
      if Enabled(s, steps[0]) {
        StepUsesMeasure(s, steps[0]);
      }
      assert [steps[0]][1..] == [];
      assert After(s, [steps[0]]) == Next(s, steps[0]);
      RunKeeps(s, [steps[0]]);
      WorkIsPaidFor(Next(s, steps[0]), steps[1..]);
    }
  }

  lemma RestMeansSettled(s: State)
    ensures (forall step: Step :: Enabled(s, step) ==> step.Publish?) <==> Live(s) == []
  {
    if forall step: Step :: Enabled(s, step) ==> step.Publish? {
      assert !Enabled(s, Receive) && !Enabled(s, Refuse) && !Enabled(s, Wake(0));
    }
  }

  /** Every run makes at most eleven steps per payload, and it can only stop making them once every
      payload is delivered, dropped or dead-lettered. */
  lemma WorkerComesToRest(steps: seq<Step>)
    ensures var s := After(EMPTY, steps);
            && Worked(EMPTY, steps) <= 11 * |s.published|
            && ((forall step: Step :: Enabled(s, step) ==> step.Publish?) <==> Live(s) == [])
  {
    WorkIsPaidFor(EMPTY, steps);
    RestMeansSettled(After(EMPTY, steps));
    hide After, Worked, Live, Enabled;
  }
}
