/** `create_crawl_job` as a program: one client's code, with the steps of all other clients let in at
    every await point.  Its run is proved to be a run of the protocol in `JobCreation`. */
module JobStore {
  import opened Basics
  import opened JobStatus
  import opened JobCreation

  datatype Answer = Job(job: JobId) | DuplicateJobError(job: JobId)

  /** What other clients do before the n-th Redis command or commit of this one. */
  type Others = nat -> seq<Step>

  ghost predicate LeavesAlone(others: Others, me: ClientId) {
    forall n, i | 0 <= i < |others(n)| :: others(n)[i].c != me
  }

  lemma {:induction false} OthersKeepMe(s: State, steps: seq<Step>, me: ClientId)
    requires me in s.clients && forall i | 0 <= i < |steps| :: steps[i].c != me
    ensures me in After(s, steps).clients && After(s, steps).clients[me] == s.clients[me]
    decreases |steps|
  {
    if steps == [] {
    } else {
      OthersKeepMe(Next(s, steps[0]), steps[1..], me);
    }
  }

  lemma OneStepMore(s: State, run: seq<Step>, others: seq<Step>, step: Step)
    ensures After(s, run + others + [step]) == Next(After(After(s, run), others), step)
  {
    RunsCompose(s, run, others);
    RunsCompose(s, run + others, [step]);
    var t := After(s, run + others);
    assert [step][1..] == [];
    assert After(t, [step]) == After(Next(t, step), []);
  }

  class JobStore {
    var key: Key
    var fpKey: Option<Fingerprint>
    var rows: map<JobId, ClientId>
    var clients: map<ClientId, Client>
    var winner: Option<ClientId>
    ghost var start: State
    ghost var run: seq<Step>

    function Model(): State
      reads this
    {
      State(key, fpKey, rows, clients, winner)
    }

    /** The state is what the steps in `run` made of `start`, and this client is at `pc`. */
    ghost predicate At(me: ClientId, fp: Fingerprint, pc: Pc)
      reads this
    {
      Model() == After(start, run) && me in clients && clients[me] == Client(fp, pc)
    }

    method Set(t: State)
      modifies this`key, this`fpKey, this`rows, this`clients, this`winner
      ensures Model() == t
    {
      key, fpKey, rows, clients, winner := t.key, t.fpKey, t.rows, t.clients, t.winner;
    }

    /** Let the others run, then take one step of this client. */
    method Await(me: ClientId, fp: Fingerprint, pc: Pc, others: seq<Step>, step: Step)
      returns (ghost seen: State)
      requires At(me, fp, pc) && step.c == me && forall i | 0 <= i < |others| :: others[i].c != me
      modifies this
      ensures start == old(start) && Model() == After(start, run)
      ensures me in seen.clients && seen.clients[me] == Client(fp, pc) && Model() == Next(seen, step)
    {
      seen := After(Model(), others);
      OthersKeepMe(Model(), others, me);
      Set(After(Model(), others));
      Set(Next(Model(), step));
      OneStepMore(start, run, others, step);
      run := run + others + [step];
    }

    /** The key names a job: compare fingerprints, then fetch its row.  `None` is a missing row. */
    method ReadExisting(me: ClientId, fp: Fingerprint, j: JobId, others: Others, time: nat)
      returns (answer: Option<Answer>)
      requires At(me, fp, SawJob(j)) && LeavesAlone(others, me)
      modifies this
      ensures start == old(start) && Model() == After(start, run) && me in clients && clients[me].fp == fp
      ensures match answer
              case None => clients[me].pc == Creating(RowMissing)
              case Some(Job(k)) => k == j && clients[me].pc.Returned? && clients[me].pc.job == j
              case Some(DuplicateJobError(k)) => k == j && clients[me].pc.Duplicate? && clients[me].pc.job == j
    {
      hide After;
      var _ := Await(me, fp, SawJob(j), others(time), ReadFp(me));
      if clients[me].pc.Duplicate? {
        return Some(DuplicateJobError(j));
      }
      var seen := clients[me].pc.seen;
      var _ := Await(me, fp, Checked(j, seen), others(time + 1), ReadRow(me));
      return if clients[me].pc.Returned? then Some(Job(j)) else None;
    }

    /** `newId` stands for the random job id, which no committed row has. */
    method CreateCrawlJob(me: ClientId, fp: Fingerprint, others: Others, newId: map<JobId, ClientId> -> JobId)
      returns (answer: Answer)
      requires start == Model() && run == [] && me in clients && clients[me] == Client(fp, Start)
      requires LeavesAlone(others, me) && forall m :: newId(m) !in m
      modifies this
      ensures start == old(start) && Model() == After(start, run) && me in clients
      ensures match answer
              case Job(j) => Succeeded(clients[me].pc) && clients[me].pc.job == j
              case DuplicateJobError(j) => clients[me].pc.Duplicate? && clients[me].pc.job == j
    {
      assert After(start, []) == start;
      hide After;
      var _ := Await(me, fp, Start, others(0), SetNx(me));
      var time := 1;
      if !clients[me].pc.Creating? {
        var attempt := 0;
        while attempt < POLL_ATTEMPTS
          invariant 0 <= attempt <= POLL_ATTEMPTS && start == old(start)
          invariant At(me, fp, Polling(attempt))
        {
          var _ := Await(me, fp, Polling(attempt), others(time), Poll(me));
          time := time + 1;
          if clients[me].pc.SawJob? {
            var found := ReadExisting(me, fp, clients[me].pc.job, others, time);
            time := time + 2;
            if found.Some? {
              return found.value;
            }
            break;
          }
          attempt := attempt + 1;
        }
        if clients[me].pc.Polling? {
          var _ := Await(me, fp, Polling(POLL_ATTEMPTS), [], Poll(me));
        }
      }
      answer := Materialise(me, fp, clients[me].pc.why, others, newId, time);
    }

    /** Insert a row and write both keys. */
    method Materialise(me: ClientId, fp: Fingerprint, why: Why, others: Others, newId: map<JobId, ClientId> -> JobId,
                       time: nat)
      returns (answer: Answer)
      requires At(me, fp, Creating(why)) && LeavesAlone(others, me) && forall m :: newId(m) !in m
      modifies this
      ensures start == old(start) && Model() == After(start, run) && me in clients
      ensures answer.Job? && clients[me].pc == Created(answer.job, why)
    {
      hide After;
      var seen := After(Model(), others(time));
      OthersKeepMe(Model(), others(time), me);
      var job := newId(seen.rows);
      Set(seen);
      OneStepMore(start, run, others(time), Insert(me, job));
      Set(Next(Model(), Insert(me, job)));
      run := run + others(time) + [Insert(me, job)];
      var _ := Await(me, fp, Committed(job, why), others(time + 1), WriteKey(me));
      var _ := Await(me, fp, KeyWritten(job, why), others(time + 2), WriteFp(me));
      return Job(job);
    }
  }
}
