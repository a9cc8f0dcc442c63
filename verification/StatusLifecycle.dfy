/** The job status machine, the writers that go through it, and the claim protocol by which any
    number of crawl runners pick jobs. */
module JobStatus {
  import opened Basics

  datatype Status = Queued | FetchingSitemap | Crawling | Extracting | Classifying | Done | Failed | Cancelled | Partial

  /** The transition table. */
  function ValidNext(s: Status): set<Status> {
    match s
    case Queued => {FetchingSitemap, Crawling, Failed, Cancelled, Done}
    case FetchingSitemap => {Crawling, Failed, Cancelled}
    case Crawling => {Extracting, Done, Failed, Cancelled, Partial}
    case Extracting => {Classifying, Done, Failed, Cancelled, Partial}
    case Classifying => {Done, Failed, Cancelled, Partial}
    case _ => {}
  }

  /** The same table by columns: from where each status can be reached. */
  lemma WhoCanReach(s: Status)
    ensures Queued !in ValidNext(s)
    ensures FetchingSitemap in ValidNext(s) <==> s == Queued
    ensures Crawling in ValidNext(s) <==> s in {Queued, FetchingSitemap}
    ensures Extracting in ValidNext(s) <==> s == Crawling
    ensures Classifying in ValidNext(s) <==> s == Extracting
    ensures Done in ValidNext(s) <==> s in {Queued, Crawling, Extracting, Classifying}
    ensures Partial in ValidNext(s) <==> s in {Crawling, Extracting, Classifying}
    ensures Failed in ValidNext(s) <==> !Terminal(s)
    ensures Cancelled in ValidNext(s) <==> !Terminal(s)
    ensures ValidNext(s) == {} <==> Terminal(s)
  {
    assert !Terminal(s) ==> Failed in ValidNext(s);
  }

  predicate Terminal(s: Status) {
    s in {Done, Failed, Cancelled, Partial}
  }

  /** Consecutive entries are equal or one table transition apart. */
  ghost predicate StutteringPath(h: seq<Status>) {
    forall i | 0 <= i < |h| - 1 :: h[i + 1] == h[i] || h[i + 1] in ValidNext(h[i])
  }

  function Stage(s: Status): nat {
    match s
    case Queued => 0
    case FetchingSitemap => 1
    case Crawling => 2
    case Extracting => 3
    case Classifying => 4
    case _ => 5
  }

  /** A path moves strictly forward through the stages whenever it moves at all. */
  lemma {:induction false} PathMovesForward(h: seq<Status>, i: nat, j: nat)
    requires StutteringPath(h) && i <= j < |h|
    ensures h[i] == h[j] || Stage(h[i]) < Stage(h[j])
    decreases j - i
  {
    if i == j {
    } else {
      PathMovesForward(h, i, j - 1);
    }
  }

  /** Hence a status once left is never seen again, a terminal status is never left, and a path without
      stutter changes status at most five times. */
  lemma PathsNeverReturn(h: seq<Status>, i: nat, k: nat, j: nat)
    requires StutteringPath(h) && i <= k <= j < |h|
    ensures h[i] == h[j] ==> h[k] == h[i]
    ensures Terminal(h[i]) ==> h[j] == h[i]
    ensures (forall m | 0 <= m < |h| - 1 :: h[m] != h[m + 1]) ==> |h| <= 6
  {
    PathMovesForward(h, i, k);
    PathMovesForward(h, k, j);
    PathMovesForward(h, i, j);
    if forall m | 0 <= m < |h| - 1 :: h[m] != h[m + 1] {
      StagesCount(h, |h| - 1);
    }
  }

  lemma {:induction false} StagesCount(h: seq<Status>, n: nat)
    requires StutteringPath(h) && n < |h| && forall m | 0 <= m < |h| - 1 :: h[m] != h[m + 1]
    ensures Stage(h[n]) >= n
  {
    if n == 0 {
    } else {
      StagesCount(h, n - 1);
      PathMovesForward(h, n - 1, n);
    }
  }

  // ----- the writers that go through the job store

  datatype Write = Update(status: Option<Status>) | CancelJob

  datatype Result = NotFound | Rejected | Ok(status: Status)

  type JobId(==, !new)

  class JobTable {
    var rows: map<JobId, Status>

    constructor ()
      ensures rows == map[]
    {
      rows := map[];
    }

    /** `JobStore.update`: a changed status must be a table transition from the status read; by the time of
        the write the other clients have turned the table into `later`. */
    method Update(job: JobId, status: Option<Status>, later: map<JobId, Status>) returns (r: Result)
      modifies this
      ensures job !in old(rows) ==> r == NotFound && rows == old(rows)
      ensures job in old(rows) && status.None? ==> r == Ok(old(rows)[job]) && rows == old(rows)
      ensures job in old(rows) && status.Some? ==>
                if WriteStep(old(rows)[job], Write.Update(status)).None? then r == Rejected && rows == old(rows)
                else if job !in later then r == NotFound && rows == later
                else r == Ok(status.value) && rows == later[job := status.value]
      // A change is refused exactly when it is neither a repetition nor in the table.
      ensures job in old(rows) && status.Some? ==>
                (r == Rejected <==> status.value != old(rows)[job] && status.value !in ValidNext(old(rows)[job]))
      // With nobody in between this is one step of `WriteStep`.
      ensures job in old(rows) && later == old(rows) ==>
                match WriteStep(old(rows)[job], Write.Update(status))
                case None => r == Rejected && rows == old(rows)
                case Some(s) => r == Ok(s) && rows == old(rows)[job := s]
    {
      if job !in rows {
        return NotFound;
      }
      if status.None? {
        return Ok(rows[job]);
      }
      var current := rows[job];
      if current != status.value && status.value !in ValidNext(current) {
        return Rejected;
      }
      rows := later;
      if job !in rows {
        return NotFound;
      }
      rows := rows[job := status.value];
      return Ok(status.value);
    }

    /** `JobStore.cancel_job`: unconditional for a row that is found. */
    method CancelJob(job: JobId, later: map<JobId, Status>) returns (r: Result)
      modifies this
      ensures job !in old(rows) ==> r == NotFound && rows == old(rows)
      ensures job in old(rows) && job !in later ==> r == NotFound && rows == later
      ensures job in old(rows) && job in later ==>
                r == Ok(Cancelled) && Some(Cancelled) == WriteStep(later[job], Write.CancelJob)
                && rows == later[job := Cancelled]
    {
      if job !in rows {
        return NotFound;
      }
      rows := later;
      if job !in rows {
        return NotFound;
      }
      rows := rows[job := Cancelled];
      return Ok(Cancelled);
    }
  }

  /** The status after one write; `None` is a rejected transition. */
  function WriteStep(current: Status, w: Write): Option<Status> {
    match w
    case CancelJob => Some(Cancelled)
    case Update(None) => Some(current)
    case Update(Some(s)) => if s == current || s in ValidNext(current) then Some(s) else None
  }

  function Writes(s: Status, ws: seq<Write>): Status
    decreases |ws|
  {
    if ws == [] then s
    else Writes(if WriteStep(s, ws[0]).Some? then WriteStep(s, ws[0]).value else s, ws[1..])
  }

  /** However many updates and cancellations follow, a terminal job stays as it is or becomes cancelled,
      and it becomes cancelled exactly when one of them is a cancellation. */
  lemma {:induction false} TerminalStaysTerminal(s: Status, ws: seq<Write>)
    requires Terminal(s)
    ensures Writes(s, ws) == if CancelJob in ws then Cancelled else s
    decreases |ws|
  {
    if ws == [] {
    } else {
      var t := if WriteStep(s, ws[0]).Some? then WriteStep(s, ws[0]).value else s;
      assert ws == [ws[0]] + ws[1..];
      TerminalStaysTerminal(t, ws[1..]);
    }
  }

  // ----- updates whose read and write are apart

  type Writer(==, !new)

  /** One job: its status, and the new statuses of clients whose transition was accepted when they read the
      row and who have not written it yet. */
  datatype Race = Race(status: Status, pending: map<Writer, Status>)

  datatype RaceStep =
    | Check(c: Writer, status: Status)   // read the row and validate the transition
    | Store(c: Writer)                   // the UPDATE statement
    | Cancel

  function RaceNext(s: Race, step: RaceStep): Race {
    match step
    case Check(c, status) =>
      if c !in s.pending && WriteStep(s.status, Update(Some(status))).Some? then s.(pending := s.pending[c := status])
      else s
    case Store(c) => if c in s.pending then Race(s.pending[c], s.pending - {c}) else s
    case Cancel => s.(status := Cancelled)
  }

  function RaceAfter(s: Race, steps: seq<RaceStep>): Race
    decreases |steps|
  {
    if steps == [] then s else RaceAfter(RaceNext(s, steps[0]), steps[1..])
  }

  /** Status and pending writes are all in `ok`. */
  predicate AllIn(s: Race, ok: set<Status>) {
    s.status in ok && forall c | c in s.pending :: s.pending[c] in ok
  }

  /** From terminal statuses only themselves and a cancellation can be validated. */
  lemma {:induction false} AllInStays(s: Race, ok: set<Status>, steps: seq<RaceStep>)
    requires AllIn(s, ok) && Cancelled in ok && forall x | x in ok :: Terminal(x)
    ensures AllIn(RaceAfter(s, steps), ok)
    decreases |steps|
  {
    if steps == [] {
    } else {
      AllInStays(RaceNext(s, steps[0]), ok, steps[1..]);
    }
  }

  /** A terminal job can come back to life if and only if some client has validated a transition to a live
      status before and has yet to write it. */
  lemma RevivedIff(s: Race)
    requires Terminal(s.status)
    ensures (exists steps :: !Terminal(RaceAfter(s, steps).status)) <==>
            exists c :: c in s.pending && !Terminal(s.pending[c])
  {
    if c :| c in s.pending && !Terminal(s.pending[c]) {
      RaceStepwise(s, Store(c), []);
      assert !Terminal(RaceAfter(s, [Store(c)] + []).status);
    } else {
      forall steps
        ensures Terminal(RaceAfter(s, steps).status)
      {
        AllInStays(s, {Done, Failed, Cancelled, Partial}, steps);
      }
    }
  }

  /** A cancellation can be lost if and only if some client has validated another status before and has yet
      to write it. */
  lemma CancellationLostIff(s: Race)
    requires s.status == Cancelled
    ensures (exists steps :: RaceAfter(s, steps).status != Cancelled) <==>
            exists c :: c in s.pending && s.pending[c] != Cancelled
  {
    if c :| c in s.pending && s.pending[c] != Cancelled {
      RaceStepwise(s, Store(c), []);
      assert RaceAfter(s, [Store(c)] + []).status != Cancelled;
    } else {
      forall steps
        ensures RaceAfter(s, steps).status == Cancelled
      {
        AllInStays(s, {Cancelled}, steps);
      }
    }
  }

  /** Such a run: one client finishes a job while another cancels it. */
  lemma CancellationOverwritten(c: Writer)
    ensures RaceAfter(Race(Queued, map[]), [Check(c, Done), Cancel]).status == Cancelled
    ensures RaceAfter(Race(Queued, map[]), [Check(c, Done), Cancel, Store(c)]).status == Done
  {
    var s0 := Race(Queued, map[]);
    var s1 := RaceNext(s0, Check(c, Done));
    var s2 := RaceNext(s1, Cancel);
    assert [Check(c, Done), Cancel] == [Check(c, Done)] + ([Cancel] + []);
    assert [Check(c, Done), Cancel, Store(c)] == [Check(c, Done)] + ([Cancel] + ([Store(c)] + []));
    RaceStepwise(s0, Check(c, Done), [Cancel] + []);
    RaceStepwise(s0, Check(c, Done), [Cancel] + ([Store(c)] + []));
    RaceStepwise(s1, Cancel, []);
    RaceStepwise(s1, Cancel, [Store(c)] + []);
    RaceStepwise(s2, Store(c), []);
  }

  lemma RaceStepwise(s: Race, step: RaceStep, rest: seq<RaceStep>)
    ensures RaceAfter(s, [step] + rest) == RaceAfter(RaceNext(s, step), rest)
  {
    assert ([step] + rest)[1..] == rest;
  }
}

/** `_claim_queued_job` and the slot accounting of `main`, for any number of runner processes. */
module ClaimProtocol {
  import opened Basics
  import opened JobStatus

  type RunnerId(==, !new)

  datatype Row = Row(status: Status, submittedAt: int)

  /** `active` holds the tasks of a runner, finished or not, until they are reaped; `slots` is what is
      left of the claim loop; `holding` is the row it has selected FOR UPDATE and not yet committed. */
  datatype Runner = Runner(active: set<JobId>, finished: set<JobId>, slots: nat, holding: Option<JobId>)

  /** `rows` are the crawl jobs; scrape jobs are never selected. */
  datatype State = State(rows: map<JobId, Row>, runners: map<RunnerId, Runner>, claims: seq<(RunnerId, JobId)>)

  ghost predicate Locked(s: State, j: JobId) {
    exists r :: r in s.runners && s.runners[r].holding == Some(j)
  }

  predicate IsQueued(s: State, j: JobId) {
    j in s.rows && s.rows[j].status == Queued
  }

  ghost predicate Init(s: State) {
    && s.claims == []
    && forall r | r in s.runners :: s.runners[r] == Runner({}, {}, 0, None)
  }

  datatype Step =
    | Reap(r: RunnerId)                               // top of the main loop: recompute the free slots
    | Select(r: RunnerId, j: JobId)                   // SELECT ... FOR UPDATE SKIP LOCKED, oldest first
    | NoneQueued(r: RunnerId)                         // the same query finding no row
    | Commit(r: RunnerId, j: JobId)                   // UPDATE, COMMIT and create_task
    | RunWrite(r: RunnerId, j: JobId, status: Status) // a raw status write of run_job
    | Finish(r: RunnerId, j: JobId)                   // a task ends
    | ApiWrite(j: JobId, status: Status)              // the UPDATE of update or cancel_job, whenever its read was
    | Create(j: JobId, at: int)

  ghost predicate Enabled(s: State, step: Step) {
    match step
    case Reap(r) => r in s.runners && s.runners[r].slots == 0 && s.runners[r].holding.None?
    case Select(r, j) =>
      && r in s.runners && s.runners[r].slots > 0 && s.runners[r].holding.None?
      && IsQueued(s, j) && !Locked(s, j)
      && (forall k | IsQueued(s, k) && !Locked(s, k) :: s.rows[j].submittedAt <= s.rows[k].submittedAt)
    case NoneQueued(r) =>
      r in s.runners && s.runners[r].holding.None? && forall k | IsQueued(s, k) :: Locked(s, k)
    case Commit(r, j) => r in s.runners && s.runners[r].holding == Some(j) && j in s.rows
    case RunWrite(r, j, status) =>
      && r in s.runners && j in s.runners[r].active - s.runners[r].finished && j in s.rows
      && status in {FetchingSitemap, Crawling, Done, Failed, Cancelled, Partial}
    case Finish(r, j) => r in s.runners && j in s.runners[r].active
    case ApiWrite(j, status) => j in s.rows && !Locked(s, j) && (status == Queued ==> s.rows[j].status == Queued)
    case Create(j, at) => j !in s.rows
  }

  ghost function SetRunner(s: State, r: RunnerId, x: Runner): State {
    s.(runners := s.runners[r := x])
  }

  ghost function SetStatus(s: State, j: JobId, status: Status): State
    requires j in s.rows
  {
    s.(rows := s.rows[j := s.rows[j].(status := status)])
  }

  /** A step that is not enabled leaves the state alone, so any list of steps is a run. */
  ghost function Next(workers: nat, s: State, step: Step): State {
    if !Enabled(s, step) then s else
    match step
    case Reap(r) =>
      var live := s.runners[r].active - s.runners[r].finished;
      SetRunner(s, r, Runner(live, {}, if |live| <= workers then workers - |live| else 0, None))
    case Select(r, j) => SetRunner(s, r, s.runners[r].(holding := Some(j)))
    case NoneQueued(r) => SetRunner(s, r, s.runners[r].(slots := 0))
    case Commit(r, j) =>
      var x := s.runners[r];
      SetRunner(SetStatus(s, j, FetchingSitemap), r,
                x.(active := x.active + {j}, slots := if x.slots > 0 then x.slots - 1 else 0, holding := None))
      .(claims := s.claims + [(r, j)])
    case RunWrite(r, j, status) => SetStatus(s, j, status)
    case Finish(r, j) => SetRunner(s, r, s.runners[r].(finished := s.runners[r].finished + {j}))
    case ApiWrite(j, status) => SetStatus(s, j, status)
    case Create(j, at) => s.(rows := s.rows[j := Row(Queued, at)])
  }

  ghost function After(workers: nat, s: State, steps: seq<Step>): State
    decreases |steps|
  {
    if steps == [] then s else After(workers, Next(workers, s, steps[0]), steps[1..])
  }

  // ----- invariants

  ghost predicate ClaimsOk(s: State) {
    && (forall i, k | 0 <= i < k < |s.claims| :: s.claims[i].1 != s.claims[k].1)
    && (forall i | 0 <= i < |s.claims| :: s.claims[i].1 in s.rows && s.rows[s.claims[i].1].status != Queued)
  }

  ghost predicate LocksOk(s: State) {
    && (forall r | r in s.runners && s.runners[r].holding.Some? ::
          IsQueued(s, s.runners[r].holding.value) && s.runners[r].slots > 0)
    && (forall r, q | r in s.runners && q in s.runners && r != q && s.runners[r].holding.Some? ::
          s.runners[r].holding != s.runners[q].holding)
  }

  ghost predicate TasksOk(workers: nat, s: State) {
    && (forall r | r in s.runners :: |s.runners[r].active| + s.runners[r].slots <= workers)
    && (forall r, j | r in s.runners && j in s.runners[r].active :: (r, j) in s.claims)
  }

  ghost predicate Inv(workers: nat, s: State) {
    ClaimsOk(s) && LocksOk(s) && TasksOk(workers, s)
  }

  lemma ActiveIsClaimed(workers: nat, s: State, r: RunnerId, j: JobId)
    requires Inv(workers, s) && r in s.runners && j in s.runners[r].active && j in s.rows
    ensures s.rows[j].status != Queued && !Locked(s, j)
  {
    var i :| 0 <= i < |s.claims| && s.claims[i] == (r, j);
    assert s.claims[i].1 == j;
  }

  lemma RowWriteKeeps(workers: nat, s: State, j: JobId, status: Status)
    requires Inv(workers, s) && j in s.rows && !Locked(s, j)
    requires s.rows[j].status != Queued ==> status != Queued
    ensures Inv(workers, SetStatus(s, j, status))
  {
    assert forall r | r in s.runners :: s.runners[r].holding != Some(j);
  }

  lemma ReapKeeps(workers: nat, s: State, r: RunnerId)
    requires Inv(workers, s)
    ensures Inv(workers, Next(workers, s, Reap(r)))
  {
    if Enabled(s, Reap(r)) {
      assert |s.runners[r].active - s.runners[r].finished| <= |s.runners[r].active|;
    }
  }

  lemma SelectKeeps(workers: nat, s: State, r: RunnerId, j: JobId)
    requires Inv(workers, s)
    ensures Inv(workers, Next(workers, s, Select(r, j)))
  {
    if Enabled(s, Select(r, j)) {
      assert forall q | q in s.runners :: s.runners[q].holding != Some(j);
    }
  }

  lemma CommitKeepsClaims(workers: nat, s: State, r: RunnerId, j: JobId)
    requires Inv(workers, s) && Enabled(s, Commit(r, j))
    ensures ClaimsOk(Next(workers, s, Commit(r, j)))
  {
    assert forall i | 0 <= i < |s.claims| :: s.claims[i].1 != j;
  }

  lemma CommitKeepsTasks(workers: nat, s: State, r: RunnerId, j: JobId)
    requires Inv(workers, s) && Enabled(s, Commit(r, j))
    ensures LocksOk(Next(workers, s, Commit(r, j))) && TasksOk(workers, Next(workers, s, Commit(r, j)))
  {
    var t := Next(workers, s, Commit(r, j));
    assert t.claims[|s.claims|] == (r, j);
    forall q, k | q in t.runners && k in t.runners[q].active
      ensures (q, k) in t.claims
    {
      assert (q, k) in s.claims || (q, k) == (r, j);
    }
  }

  lemma OtherKeeps(workers: nat, s: State, step: Step)
    requires Inv(workers, s) && (step.NoneQueued? || step.Finish? || step.Create?)
    ensures Inv(workers, Next(workers, s, step))
  {
    if step.Create? && Enabled(s, step) {
      assert forall i | 0 <= i < |s.claims| :: s.claims[i].1 != step.j;
    }
  }

  lemma StepKeeps(workers: nat, s: State, step: Step)
    requires Inv(workers, s)
    ensures Inv(workers, Next(workers, s, step))
  {
    if Enabled(s, step) {
      match step
      case Reap(r) => ReapKeeps(workers, s, r);
      case Select(r, j) => SelectKeeps(workers, s, r, j);
      case NoneQueued(r) => OtherKeeps(workers, s, step);
      case Commit(r, j) =>
        CommitKeepsClaims(workers, s, r, j);
        CommitKeepsTasks(workers, s, r, j);
      case RunWrite(r, j, status) =>
        ActiveIsClaimed(workers, s, r, j);
        RowWriteKeeps(workers, s, j, status);
      case Finish(r, j) => OtherKeeps(workers, s, step);
      case ApiWrite(j, status) => RowWriteKeeps(workers, s, j, status);
      case Create(j, at) => OtherKeeps(workers, s, step);
    }
  }

  lemma SoleClaimant(s: State, i: nat, c: (RunnerId, JobId))
    requires ClaimsOk(s) && i < |s.claims| && s.claims[i].1 == c.1 && s.claims[i].0 != c.0
    ensures c !in s.claims
  {
    forall k | 0 <= k < |s.claims|
      ensures s.claims[k] != c
    {
      assert i != k ==> s.claims[i].1 != s.claims[k].1;
    }
  }

  lemma {:induction false} RunKeeps(workers: nat, s: State, steps: seq<Step>)
    requires Inv(workers, s)
    ensures Inv(workers, After(workers, s, steps))
    decreases |steps|
  {
    if steps == [] {
    } else {
      StepKeeps(workers, s, steps[0]);
      RunKeeps(workers, Next(workers, s, steps[0]), steps[1..]);
    }
  }

  /** After every run: a job was claimed at most once, no two runners have it in hand, and no runner
      has more tasks than its worker limit. */
  lemma ClaimedAtMostOnce(workers: nat, s: State, steps: seq<Step>)
    requires Init(s)
    ensures var t := After(workers, s, steps);
            && (forall i, k | 0 <= i < k < |t.claims| :: t.claims[i].1 != t.claims[k].1)
            && (forall r | r in t.runners :: |t.runners[r].active| <= workers)
            && (forall r, q | r in t.runners && q in t.runners && r != q :: t.runners[r].active !! t.runners[q].active)
  {
    RunKeeps(workers, s, steps);
    var t := After(workers, s, steps);
    forall r, q, j | r in t.runners && q in t.runners && r != q && j in t.runners[r].active
      ensures j !in t.runners[q].active
    {
      var i :| 0 <= i < |t.claims| && t.claims[i] == (r, j);
      assert (q, j) !in t.claims by {
        SoleClaimant(t, i, (q, j));
      }
    }
  }

  // ----- first come, first served

  ghost predicate Waiting(s: State, j: JobId) {
    IsQueued(s, j) && !Locked(s, j)
  }

  ghost predicate Taken(s: State, j: JobId) {
    Locked(s, j) || exists i :: 0 <= i < |s.claims| && s.claims[i].1 == j
  }

  /** No job still waiting was submitted before one that was claimed or selected. */
  ghost predicate OldestFirst(s: State) {
    forall j, k | Taken(s, j) && j in s.rows && Waiting(s, k) :: s.rows[j].submittedAt <= s.rows[k].submittedAt
  }

  /** New rows are no older than those there. */
  ghost predicate InOrder(s: State, step: Step) {
    step.Create? ==> forall j | j in s.rows :: s.rows[j].submittedAt <= step.at
  }

  ghost predicate AllInOrder(workers: nat, s: State, steps: seq<Step>)
    decreases |steps|
  {
    steps == [] || (InOrder(s, steps[0]) && AllInOrder(workers, Next(workers, s, steps[0]), steps[1..]))
  }

  /** Where a step leaves each job. */
  lemma StepPlaces(workers: nat, s: State, step: Step, j: JobId)
    requires Inv(workers, s)
    ensures var t := Next(workers, s, step);
            && (j in s.rows ==> j in t.rows && t.rows[j].submittedAt == s.rows[j].submittedAt)
            && (Waiting(t, j) ==> Waiting(s, j) || (j !in s.rows && step.Create? && step.j == j && t.rows[j].submittedAt == step.at))
            && (Taken(t, j) && j in t.rows ==> Taken(s, j) || (step.Select? && step.j == j && Enabled(s, step)))
  {
    var t := Next(workers, s, step);
    if Enabled(s, step) {
      if Waiting(t, j) && j in s.rows {
        WaitingBefore(workers, s, step, j);
      }
      if Taken(t, j) && j in t.rows {
        TakenBefore(workers, s, step, j);
      }
    }
  }

  lemma WaitingBefore(workers: nat, s: State, step: Step, j: JobId)
    requires Inv(workers, s) && Enabled(s, step) && j in s.rows && Waiting(Next(workers, s, step), j)
    ensures Waiting(s, j)
  {
    var t := Next(workers, s, step);
    forall r | r in s.runners
      ensures s.runners[r].holding != Some(j)
    {
      assert r in t.runners && t.runners[r].holding != Some(j);
    }
  }

  lemma TakenBefore(workers: nat, s: State, step: Step, j: JobId)
    requires Inv(workers, s) && Enabled(s, step) && Taken(Next(workers, s, step), j)
    ensures Taken(s, j) || (step.Select? && step.j == j)
  {
    var t := Next(workers, s, step);
    if i :| 0 <= i < |t.claims| && t.claims[i].1 == j {
      if i < |s.claims| {
        assert s.claims[i] == t.claims[i];
      } else {
        assert s.runners[step.r].holding == Some(j);
      }
    } else {
      var r :| r in t.runners && t.runners[r].holding == Some(j);
      assert s.runners[r].holding == Some(j) || step == Select(r, j);
    }
  }

  lemma OldestFirstKept(workers: nat, s: State, step: Step)
    requires Inv(workers, s) && OldestFirst(s) && InOrder(s, step)
    requires forall j | Taken(s, j) :: j in s.rows
    ensures OldestFirst(Next(workers, s, step))
  {
    var t := Next(workers, s, step);
    hide Inv, Taken, Locked, Next;
    forall j, k | Taken(t, j) && j in t.rows && Waiting(t, k)
      ensures t.rows[j].submittedAt <= t.rows[k].submittedAt
    {
      StepPlaces(workers, s, step, j);
      StepPlaces(workers, s, step, k);
    }
  }

  lemma TakenExists(workers: nat, s: State, j: JobId)
    requires Inv(workers, s) && Taken(s, j)
    ensures j in s.rows
  {
  }

  lemma {:induction false} OldestFirstRun(workers: nat, s: State, steps: seq<Step>)
    requires Inv(workers, s) && OldestFirst(s) && AllInOrder(workers, s, steps)
    ensures OldestFirst(After(workers, s, steps))
    decreases |steps|
  {
    hide Inv, OldestFirst, Next, Taken, InOrder;
    if steps == [] {
    } else {
      forall j | Taken(s, j)
        ensures j in s.rows
      {
        TakenExists(workers, s, j);
      }
      StepKeeps(workers, s, steps[0]);
      OldestFirstKept(workers, s, steps[0]);
      OldestFirstRun(workers, Next(workers, s, steps[0]), steps[1..]);
    }
  }

  /** In every run of any number of runners in which rows are created in order, each job claimed so far was
      submitted no later than every job that is still queued and that no runner has selected. */
  lemma FirstComeFirstServed(workers: nat, s: State, steps: seq<Step>, i: nat, k: JobId)
    requires Init(s) && AllInOrder(workers, s, steps)
    requires i < |After(workers, s, steps).claims|
    ensures var t := After(workers, s, steps); var j := t.claims[i].1;
            && j in t.rows
            && (k in t.rows && t.rows[k].status == Queued && (forall r | r in t.runners :: t.runners[r].holding != Some(k))
                ==> t.rows[j].submittedAt <= t.rows[k].submittedAt)
  {
    RunKeeps(workers, s, steps);
    OldestFirstRun(workers, s, steps);
    var t := After(workers, s, steps);
    hide After, AllInOrder;
    assert Taken(t, t.claims[i].1);
    TakenExists(workers, t, t.claims[i].1);
  }

  /** A runner with room for a task claims the oldest waiting job: free slots are counted, the row is
      selected, and the commit adds the claim. */
  lemma IdleRunnerClaims(workers: nat, s: State, r: RunnerId, j: JobId)
    requires Inv(workers, s) && r in s.runners && s.runners[r].holding.None? && s.runners[r].slots == 0
    requires |s.runners[r].active - s.runners[r].finished| < workers
    requires Waiting(s, j) && forall k | Waiting(s, k) :: s.rows[j].submittedAt <= s.rows[k].submittedAt
    ensures var t := Next(workers, Next(workers, Next(workers, s, Reap(r)), Select(r, j)), Commit(r, j));
            && t.claims == s.claims + [(r, j)] && j in t.rows && t.rows[j].status == FetchingSitemap
            && r in t.runners && t.runners[r].active == (s.runners[r].active - s.runners[r].finished) + {j}
            && t.runners[r].slots + |s.runners[r].active - s.runners[r].finished| + 1 == workers
  {
    var s1 := Next(workers, s, Reap(r));
    assert s1.rows == s.rows;
    forall k
      ensures Locked(s1, k) <==> Locked(s, k)
    {
      if q :| q in s.runners && s.runners[q].holding == Some(k) {
        assert q in s1.runners && s1.runners[q].holding == Some(k);
      }
    }
  }

  /** A round that finds no row ends, and the next counts all slots that unfinished tasks leave free. */
  lemma RoundEnds(workers: nat, s: State, r: RunnerId)
    requires Inv(workers, s) && r in s.runners && s.runners[r].holding.None?
    requires forall k | IsQueued(s, k) :: Locked(s, k)
    ensures var t := Next(workers, Next(workers, s, NoneQueued(r)), Reap(r));
            && r in t.runners && t.runners[r].finished == {}
            && t.runners[r].slots + |s.runners[r].active - s.runners[r].finished| == workers
  {
    ActiveFits(s.runners[r].active, s.runners[r].finished);
    hide Locked, ClaimsOk, LocksOk, IsQueued;
  }

  /** A task that ends makes room for one more. */
  lemma FinishMakesRoom(workers: nat, s: State, r: RunnerId, j: JobId)
    requires Inv(workers, s) && r in s.runners && s.runners[r].holding.None?
    requires forall k | IsQueued(s, k) :: Locked(s, k)
    requires j in s.runners[r].active - s.runners[r].finished
    ensures var t := Next(workers, Next(workers, Next(workers, s, Finish(r, j)), NoneQueued(r)), Reap(r));
            && r in t.runners
            && t.runners[r].slots + |s.runners[r].active - s.runners[r].finished| == workers + 1
  {
    var s1 := Next(workers, s, Finish(r, j));
    StepKeeps(workers, s, Finish(r, j));
    forall k | IsQueued(s1, k)
      ensures Locked(s1, k)
    {
      assert IsQueued(s, k);
      var q :| q in s.runners && s.runners[q].holding == Some(k);
      assert q in s1.runners && s1.runners[q].holding == Some(k);
    }
    assert s1.runners[r].active - s1.runners[r].finished == (s.runners[r].active - s.runners[r].finished) - {j};
    hide Inv, Next, Locked, IsQueued;
    RoundEnds(workers, s1, r);
  }

  lemma ActiveFits(active: set<JobId>, finished: set<JobId>)
    ensures |active - finished| <= |active|
  {
  }
}
