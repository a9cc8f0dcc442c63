/** Idempotent job creation: any number of clients run `create_crawl_job` on one idempotency key, every
    Redis command and every commit a step of its own. */
module JobCreation {
  import opened Basics
  import opened JobStatus

  type ClientId(==, !new)
  type Fingerprint(==, !new)

  const POLL_ATTEMPTS := 40

  /** The idempotency key: unset, holding the sentinel, or naming a job. */
  datatype Key = Absent | Pending | Names(job: JobId)

  /** How a client came to create a row. */
  datatype Why = WonRace | Exhausted | RowMissing

  datatype Pc =
    | Start
    | Polling(attempt: nat)
    | SawJob(job: JobId)                                // about to read the fingerprint key
    | Checked(job: JobId, seen: Option<Fingerprint>)    // about to read the row
    | Creating(why: Why)
    | Committed(job: JobId, why: Why)
    | KeyWritten(job: JobId, why: Why)
    | Created(job: JobId, why: Why)                     // success with a row of its own
    | Returned(job: JobId, seen: Option<Fingerprint>)   // success with the existing row
    | Duplicate(job: JobId, seen: Option<Fingerprint>)  // DuplicateJobError

  datatype Client = Client(fp: Fingerprint, pc: Pc)

  /** `rows` maps each committed row to the client that inserted it; `winner` records who won SET NX. */
  datatype State = State(key: Key, fpKey: Option<Fingerprint>, rows: map<JobId, ClientId>,
                         clients: map<ClientId, Client>, winner: Option<ClientId>)

  datatype Step =
    | SetNx(c: ClientId)
    | Poll(c: ClientId)
    | ReadFp(c: ClientId)
    | ReadRow(c: ClientId)
    | Insert(c: ClientId, job: JobId)
    | WriteKey(c: ClientId)
    | WriteFp(c: ClientId)

  ghost predicate Init(s: State) {
    && s.key == Absent && s.fpKey == None && s.rows == map[] && s.winner == None
    && forall c | c in s.clients :: s.clients[c].pc == Start
  }

  function Go(s: State, c: ClientId, pc: Pc): State
    requires c in s.clients
  {
    s.(clients := s.clients[c := s.clients[c].(pc := pc)])
  }

  /** Steps that do not fit the client's program counter change nothing; a fresh job id is one no row has. */
  function Next(s: State, step: Step): State {
    var c := step.c;
    if c !in s.clients then s else
    var me := s.clients[c];
    match (step, me.pc)
    case (SetNx(_), Start) =>
      if s.key == Absent then Go(s, c, Creating(WonRace)).(key := Pending, winner := Some(c))
      else Go(s, c, Polling(0))
    case (Poll(_), Polling(k)) =>
      if k >= POLL_ATTEMPTS then Go(s, c, Creating(Exhausted))
      else if s.key.Names? then Go(s, c, SawJob(s.key.job))
      else Go(s, c, Polling(k + 1))
    case (ReadFp(_), SawJob(j)) =>
      if s.fpKey.Some? && s.fpKey.value != me.fp then Go(s, c, Duplicate(j, s.fpKey))
      else Go(s, c, Checked(j, s.fpKey))
    case (ReadRow(_), Checked(j, seen)) =>
      if j in s.rows then Go(s, c, Returned(j, seen)) else Go(s, c, Creating(RowMissing))
    case (Insert(_, j), Creating(why)) =>
      if j in s.rows then s else Go(s, c, Committed(j, why)).(rows := s.rows[j := c])
    case (WriteKey(_), Committed(j, why)) => Go(s, c, KeyWritten(j, why)).(key := Names(j))
    case (WriteFp(_), KeyWritten(j, why)) => Go(s, c, Created(j, why)).(fpKey := Some(me.fp))
    case _ => s
  }

  function After(s: State, steps: seq<Step>): State
    decreases |steps|
  {
    if steps == [] then s else After(Next(s, steps[0]), steps[1..])
  }

  // ----- every name leads to a committed row

  predicate PcJobs(rows: map<JobId, ClientId>, pc: Pc) {
    match pc
    case SawJob(j) => j in rows
    case Checked(j, _) => j in rows
    case Returned(j, _) => j in rows
    case Duplicate(j, _) => j in rows
    case Committed(j, _) => j in rows
    case KeyWritten(j, _) => j in rows
    case Created(j, _) => j in rows
    case Creating(why) => why != RowMissing
    case _ => true
  }

  ghost predicate NamesOk(s: State) {
    && (s.key.Names? ==> s.key.job in s.rows)
    && (forall c | c in s.clients :: PcJobs(s.rows, s.clients[c].pc))
    && (s.key == Absent ==> forall c | c in s.clients :: s.clients[c].pc == Start)
  }

  lemma NamesKept(s: State, step: Step)
    requires NamesOk(s)
    ensures NamesOk(Next(s, step))
  {
  }

  // ----- how many rows

  predicate HasInserted(pc: Pc) {
    pc.Committed? || pc.KeyWritten? || pc.Created?
  }

  predicate HasExhausted(pc: Pc) {
    (pc.Creating? || HasInserted(pc)) && pc.why == Exhausted
  }

  ghost function InCreation(s: State): set<ClientId> {
    set c | c in s.clients && s.clients[c].pc.Creating?
  }

  ghost function Inserted(s: State): set<ClientId> {
    set c | c in s.clients && HasInserted(s.clients[c].pc)
  }

  ghost function ExhaustedClients(s: State): set<ClientId> {
    set c | c in s.clients && HasExhausted(s.clients[c].pc)
  }

  ghost predicate CountsOk(s: State) {
    && |s.rows| == |Inserted(s)|
    && |Inserted(s)| + |InCreation(s)| == One(s.key != Absent) + |ExhaustedClients(s)|
  }

  /** Moving client `c` from `s` to `t` changes each count by what `c` contributes before and after. */
  lemma CountsMove(s: State, t: State, c: ClientId)
    requires c in s.clients && c in t.clients && t.clients == s.clients[c := t.clients[c]]
    ensures |InCreation(t)| + One(s.clients[c].pc.Creating?) == |InCreation(s)| + One(t.clients[c].pc.Creating?)
    ensures |Inserted(t)| + One(HasInserted(s.clients[c].pc)) == |Inserted(s)| + One(HasInserted(t.clients[c].pc))
    ensures |ExhaustedClients(t)| + One(HasExhausted(s.clients[c].pc))
         == |ExhaustedClients(s)| + One(HasExhausted(t.clients[c].pc))
  {
    DifferAt(InCreation(s), InCreation(t), c);
    DifferAt(Inserted(s), Inserted(t), c);
    DifferAt(ExhaustedClients(s), ExhaustedClients(t), c);
  }

  /** What one step changes, seen from the client that takes it. */
  lemma StepBalance(s: State, step: Step)
    requires NamesOk(s) && step.c in s.clients
    ensures var t := Next(s, step);
            && step.c in t.clients && t.clients == s.clients[step.c := t.clients[step.c]]
            && var x, y := s.clients[step.c].pc, t.clients[step.c].pc;
            && One(HasInserted(y)) + One(y.Creating?) + One(s.key != Absent) + One(HasExhausted(x))
            == One(HasInserted(x)) + One(x.Creating?) + One(t.key != Absent) + One(HasExhausted(y))
  {
    assert PcJobs(s.rows, s.clients[step.c].pc);
  }

  lemma RowBalance(s: State, step: Step)
    requires step.c in s.clients
    ensures var t := Next(s, step);
            && step.c in t.clients
            && |t.rows| + One(HasInserted(s.clients[step.c].pc)) == |s.rows| + One(HasInserted(t.clients[step.c].pc))
  {
    var t := Next(s, step);
    if t.rows != s.rows {
      assert t.rows.Keys == s.rows.Keys + {step.job};
    }
  }

  lemma CountsKept(s: State, step: Step)
    requires CountsOk(s) && NamesOk(s)
    ensures CountsOk(Next(s, step))
  {
    if step.c in s.clients {
      StepBalance(s, step);
      RowBalance(s, step);
      hide Next, NamesOk, InCreation, Inserted, ExhaustedClients;
      CountsMove(s, Next(s, step), step.c);
    }
  }

  lemma {:induction false} RunKeeps(s: State, steps: seq<Step>)
    requires NamesOk(s) && CountsOk(s)
    ensures NamesOk(After(s, steps)) && CountsOk(After(s, steps))
    decreases |steps|
  {
    if steps == [] {
    } else {
      NamesKept(s, steps[0]);
      CountsKept(s, steps[0]);
      RunKeeps(Next(s, steps[0]), steps[1..]);
    }
  }

  lemma InitOk(s: State)
    requires Init(s)
    ensures NamesOk(s) && CountsOk(s)
  {
    assert InCreation(s) == {} && Inserted(s) == {} && ExhaustedClients(s) == {};
  }

  /** In every run the key, once it is not the sentinel, names a committed row, no client ever finds the
      row missing, and the rows created or about to be are exactly one for the SET NX winner and one for
      each loser that used up its polls. */
  lemma RowsAreCounted(s: State, steps: seq<Step>)
    requires Init(s)
    ensures var t := After(s, steps);
            && (t.key.Names? ==> t.key.job in t.rows)
            && (forall c | c in t.clients :: t.clients[c].pc != Creating(RowMissing))
            && (forall c | c in t.clients && (t.clients[c].pc.Returned? || t.clients[c].pc.Created?) ::
                  t.clients[c].pc.job in t.rows)
            && |t.rows| + |InCreation(t)| == One(t.key != Absent) + |ExhaustedClients(t)|
            && |t.rows| <= 1 + |ExhaustedClients(t)|
  {
    InitOk(s);
    RunKeeps(s, steps);
    var t := After(s, steps);
    forall c | c in t.clients
      ensures t.clients[c].pc != Creating(RowMissing)
    {
      assert PcJobs(t.rows, t.clients[c].pc);
    }
  }

  // ----- nobody exhausts its polls

  /** What a client other than the winner can be doing, given the winner's row and fingerprint. */
  predicate LoserOk(me: Client, j: Option<JobId>, fp: Fingerprint, written: bool) {
    match me.pc
    case Start => true
    case Polling(_) => true
    case SawJob(k) => Some(k) == j
    case Checked(k, seen) => Some(k) == j && SeenOk(me, seen, fp, written) && seen in {None, Some(me.fp)}
    case Returned(k, seen) => Some(k) == j && SeenOk(me, seen, fp, written) && seen in {None, Some(me.fp)}
    case Duplicate(k, seen) => Some(k) == j && SeenOk(me, seen, fp, written) && seen.Some? && fp != me.fp
    case _ => false
  }

  predicate SeenOk(me: Client, seen: Option<Fingerprint>, fp: Fingerprint, written: bool) {
    seen == None || (written && seen == Some(fp))
  }

  /** The row the key already names. */
  function Named(pc: Pc): Option<JobId> {
    match pc
    case KeyWritten(j, _) => Some(j)
    case Created(j, _) => Some(j)
    case _ => None
  }

  predicate WinnerOk(s: State, w: ClientId)
    requires w in s.clients
  {
    match s.clients[w].pc
    case Creating(WonRace) => s.key == Pending && s.rows == map[] && s.fpKey == None
    case Committed(j, WonRace) => s.key == Pending && s.rows == map[j := w] && s.fpKey == None
    case KeyWritten(j, WonRace) => s.key == Names(j) && s.rows == map[j := w] && s.fpKey == None
    case Created(j, WonRace) => s.key == Names(j) && s.rows == map[j := w] && s.fpKey == Some(s.clients[w].fp)
    case _ => false
  }

  /** One winner, one row, and everyone else at most looking at it. */
  ghost predicate Single(s: State) {
    match s.winner
    case None => s.key == Absent && s.rows == map[] && s.fpKey == None &&
                 forall c | c in s.clients :: s.clients[c].pc == Start
    case Some(w) =>
      && w in s.clients && WinnerOk(s, w)
      && forall c | c in s.clients && c != w ::
           LoserOk(s.clients[c], Named(s.clients[w].pc), s.clients[w].fp, s.fpKey.Some?)
  }

  ghost predicate NoneExhausted(s: State) {
    forall c | c in s.clients :: !HasExhausted(s.clients[c].pc)
  }

  lemma ExhaustionStays(s: State, step: Step)
    requires NoneExhausted(Next(s, step))
    ensures NoneExhausted(s)
  {
    var t := Next(s, step);
    forall c | c in s.clients
      ensures !HasExhausted(s.clients[c].pc)
    {
      assert !HasExhausted(t.clients[c].pc);
    }
  }

  lemma {:induction false} ExhaustionStaysLong(s: State, steps: seq<Step>)
    requires NoneExhausted(After(s, steps))
    ensures NoneExhausted(s)
    decreases |steps|
  {
    if steps == [] {
    } else {
      ExhaustionStaysLong(Next(s, steps[0]), steps[1..]);
      ExhaustionStays(s, steps[0]);
    }
  }

  lemma WinnerMoves(s: State, step: Step)
    requires Single(s) && s.winner == Some(step.c)
    ensures Single(Next(s, step))
  {
    var t := Next(s, step);
    forall c | c in t.clients && c != step.c
      ensures LoserOk(t.clients[c], Named(t.clients[step.c].pc), t.clients[step.c].fp, t.fpKey.Some?)
    {
      assert LoserOk(s.clients[c], Named(s.clients[step.c].pc), s.clients[step.c].fp, s.fpKey.Some?);
    }
  }

  lemma LoserMoves(s: State, step: Step)
    requires Single(s) && s.winner.Some? && s.winner != Some(step.c) && NoneExhausted(Next(s, step))
    ensures Single(Next(s, step))
  {
    var t := Next(s, step);
    if step.c in s.clients {
      assert LoserOk(s.clients[step.c], Named(s.clients[s.winner.value].pc), s.clients[s.winner.value].fp, s.fpKey.Some?);
      assert !HasExhausted(t.clients[step.c].pc);
    }
  }

  lemma SingleKept(s: State, step: Step)
    requires Single(s) && NoneExhausted(Next(s, step))
    ensures Single(Next(s, step))
  {
    if s.winner == Some(step.c) {
      WinnerMoves(s, step);
    } else if s.winner.Some? {
      LoserMoves(s, step);
    }
  }

  lemma {:induction false} SingleRun(s: State, steps: seq<Step>)
    requires Single(s) && NoneExhausted(After(s, steps))
    ensures Single(After(s, steps))
    decreases |steps|
  {
    if steps == [] {
    } else {
      ExhaustionStaysLong(Next(s, steps[0]), steps[1..]);
      SingleKept(s, steps[0]);
      SingleRun(Next(s, steps[0]), steps[1..]);
    }
  }

  predicate Succeeded(pc: Pc) {
    pc.Created? || pc.Returned?
  }

  /** If no client used up its polls there is at most one row, every success returns it, and a finished
      client got `DuplicateJobError` exactly when its fingerprint differs from the winner's and the
      fingerprint key was already written when it read it. */
  lemma OneRowForAll(s: State, steps: seq<Step>, c: ClientId)
    requires Init(s) && NoneExhausted(After(s, steps)) && c in After(s, steps).clients
    ensures var t := After(s, steps); var me := t.clients[c];
            && |t.rows| <= 1
            && (Succeeded(me.pc) ==>
                  && t.winner.Some? && t.winner.value in t.clients && t.rows == map[me.pc.job := t.winner.value])
            && (me.pc.Created? ==> t.winner == Some(c))
            && (me.pc.Returned? || me.pc.Duplicate? ==>
                  && t.winner.Some? && t.winner.value in t.clients
                  && (me.pc.Duplicate? <==> t.clients[t.winner.value].fp != me.fp && me.pc.seen.Some?))
  {
    SingleRun(s, steps);
    var t := After(s, steps);
    if t.winner.Some? && t.winner != Some(c) {
      assert LoserOk(t.clients[c], Named(t.clients[t.winner.value].pc), t.clients[t.winner.value].fp, t.fpKey.Some?);
    }
  }

  // ----- once the fingerprint key is written

  /** The client has not read the fingerprint key yet, or read it when it was written. */
  predicate ReadsLate(me: Client) {
    match me.pc
    case Checked(_, seen) => seen.Some?
    case Returned(_, seen) => seen.Some?
    case _ => true
  }

  lemma {:induction false} LateStaysLate(s: State, steps: seq<Step>, c: ClientId)
    requires s.fpKey.Some? && c in s.clients && ReadsLate(s.clients[c])
    ensures var t := After(s, steps); c in t.clients && ReadsLate(t.clients[c]) && t.clients[c].fp == s.clients[c].fp
    decreases |steps|
  {
    if steps == [] {
    } else {
      LateStaysLate(Next(s, steps[0]), steps[1..], c);
    }
  }

  lemma {:induction false} RunsCompose(s: State, a: seq<Step>, b: seq<Step>)
    ensures After(s, a + b) == After(After(s, a), b)
    decreases |a|
  {
    if a == [] {
      assert a + b == b;
    } else {
      assert (a + b)[0] == a[0] && (a + b)[1..] == a[1..] + b;
      RunsCompose(Next(s, a[0]), a[1..], b);
    }
  }

  /** A client with another fingerprint that had not read the fingerprint key by the time it was written
      never gets the existing job. */
  lemma LateMismatchIsRefused(s: State, before: seq<Step>, after: seq<Step>, c: ClientId)
    requires Init(s) && NoneExhausted(After(s, before + after))
    requires var m := After(s, before);
             m.fpKey.Some? && c in m.clients && (m.clients[c].pc.Start? || m.clients[c].pc.Polling? || m.clients[c].pc.SawJob?)
    ensures var t := After(s, before + after);
            && c in t.clients && t.winner.Some? && t.winner.value in t.clients
            && (t.clients[c].fp != t.clients[t.winner.value].fp ==> !Succeeded(t.clients[c].pc))
  {
    RunsCompose(s, before, after);
    var m := After(s, before);
    LateStaysLate(m, after, c);
    OneRowForAll(s, before + after, c);
    SingleRun(s, before + after);
    FpKeyStays(m, after);
  }

  lemma {:induction false} FpKeyStays(s: State, steps: seq<Step>)
    requires s.fpKey.Some?
    ensures After(s, steps).fpKey.Some?
    decreases |steps|
  {
    if steps == [] {
    } else {
      FpKeyStays(Next(s, steps[0]), steps[1..]);
    }
  }

  lemma FirstStep(s: State, steps: seq<Step>)
    requires steps != []
    ensures After(s, steps) == After(Next(s, steps[0]), steps[1..])
  {
  }

  /** Between the two key writes there is a window: a client with a different request body that polls
      there is given the winner's job instead of an error. */
  lemma MismatchInWindowSucceeds(s: State, a: ClientId, b: ClientId, j: JobId)
    requires Init(s) && s.clients.Keys == {a, b} && s.clients[a].fp != s.clients[b].fp
    ensures var t := After(s, [SetNx(a), Insert(a, j), WriteKey(a), SetNx(b), Poll(b), ReadFp(b), ReadRow(b), WriteFp(a)]);
            && NoneExhausted(t)
            && a in t.clients && t.clients[a].pc == Created(j, WonRace)
            && b in t.clients && t.clients[b].pc == Returned(j, None)
  {
    hide After;
    assert [SetNx(a), Insert(a, j), WriteKey(a)] + [SetNx(b), Poll(b), ReadFp(b), ReadRow(b), WriteFp(a)]
        == [SetNx(a), Insert(a, j), WriteKey(a), SetNx(b), Poll(b), ReadFp(b), ReadRow(b), WriteFp(a)];
    var s3 := WinnerNamesJob(s, a, b, j, [SetNx(b), Poll(b), ReadFp(b), ReadRow(b), WriteFp(a)]);
    LoserReadsInWindow(s3, a, b, j);
  }

  lemma WinnerNamesJob(s: State, a: ClientId, b: ClientId, j: JobId, rest: seq<Step>) returns (t: State)
    requires Init(s) && s.clients.Keys == {a, b} && a != b
    ensures t == State(Names(j), None, map[j := a], s.clients[a := Client(s.clients[a].fp, KeyWritten(j, WonRace))], Some(a))
    ensures After(s, [SetNx(a), Insert(a, j), WriteKey(a)] + rest) == After(t, rest)
  {
    var s1 := Next(s, SetNx(a));
    var s2 := Next(s1, Insert(a, j));
    t := Next(s2, WriteKey(a));
    var steps := [SetNx(a), Insert(a, j), WriteKey(a)] + rest;
    FirstStep(s, steps);
    FirstStep(s1, steps[1..]);
    FirstStep(s2, steps[1..][1..]);
    assert steps[1..][1..][1..] == rest;
    assert s1.clients == s.clients[a := Client(s.clients[a].fp, Creating(WonRace))];
  }

  lemma LoserReadsInWindow(s: State, a: ClientId, b: ClientId, j: JobId)
    requires a in s.clients && b in s.clients && a != b && s.clients.Keys == {a, b}
    requires s.key == Names(j) && s.fpKey == None && j in s.rows
    requires s.clients[a].pc == KeyWritten(j, WonRace) && s.clients[b].pc == Start
    ensures var t := After(s, [SetNx(b), Poll(b), ReadFp(b), ReadRow(b), WriteFp(a)]);
            && NoneExhausted(t)
            && a in t.clients && t.clients[a].pc == Created(j, WonRace)
            && b in t.clients && t.clients[b].pc == Returned(j, None)
  {
    var steps := [SetNx(b), Poll(b), ReadFp(b), ReadRow(b), WriteFp(a)];
    var s1 := Next(s, steps[0]);
    var s2 := Next(s1, steps[1]);
    var s3 := Next(s2, steps[2]);
    var s4 := Next(s3, steps[3]);
    var t := Next(s4, steps[4]);
    hide After;
    FirstStep(s, steps);
    FirstStep(s1, steps[1..]);
    FirstStep(s2, steps[2..]);
    FirstStep(s3, steps[3..]);
    FirstStep(s4, steps[4..]);
    assert steps[1..][1..] == steps[2..] && steps[2..][1..] == steps[3..] && steps[3..][1..] == steps[4..];
    AfterNothing(t, steps[4..][1..]);
  }

  // ----- who can use up its polls

  /** The client has not used up its polls, and has at least one left if it is still polling. */
  predicate InTime(me: Client) {
    !HasExhausted(me.pc) && (me.pc.Polling? ==> me.pc.attempt < 40)
  }

  /** Once the key names a job, a client with a poll left never uses up its polls: its next poll sees the job. */
  lemma {:induction false} NamedKeyIsSeen(s: State, steps: seq<Step>, c: ClientId)
    requires s.key.Names? && c in s.clients && InTime(s.clients[c])
    ensures var t := After(s, steps); t.key.Names? && c in t.clients && InTime(t.clients[c])
    ensures s.clients[c].pc.Polling? ==>
              c in Next(s, Poll(c)).clients && Next(s, Poll(c)).clients[c].pc == SawJob(s.key.job)
    decreases |steps|
  {
    if steps == [] {
    } else {
      NamedKeyIsSeen(Next(s, steps[0]), steps[1..], c);
    }
  }

  lemma {:induction false} ClientsStay(s: State, steps: seq<Step>)
    ensures After(s, steps).clients.Keys == s.clients.Keys
    decreases |steps|
  {
    if steps == [] {
    } else {
      assert Next(s, steps[0]).clients.Keys == s.clients.Keys;
      ClientsStay(Next(s, steps[0]), steps[1..]);
    }
  }

  /** When the winner has written the key while every client still had a poll left, there is one row in the
      end and every success returns it. */
  lemma TimelyWinnerMakesOneRow(s: State, before: seq<Step>, after: seq<Step>, c: ClientId)
    requires Init(s) && c in s.clients
    requires var m := After(s, before); m.key.Names? && forall k | k in m.clients :: InTime(m.clients[k])
    ensures var t := After(s, before + after);
            && |t.rows| == 1 && NoneExhausted(t) && c in t.clients
            && (Succeeded(t.clients[c].pc) ==> t.clients[c].pc.job in t.rows)
  {
    RunsCompose(s, before, after);
    var m := After(s, before);
    var t := After(m, after);
    ClientsStay(s, before);
    ClientsStay(m, after);
    forall k | k in t.clients
      ensures !HasExhausted(t.clients[k].pc)
    {
      NamedKeyIsSeen(m, after, k);
    }
    NamedKeyIsSeen(m, after, c);
    OneRowForAll(s, before + after, c);
    RowsAreCounted(s, before + after);
    hide After;
    assert t.rows != map[];
  }

  /** Client `c` polls and finds no job named. */
  predicate AsksInVain(s: State, step: Step, c: ClientId) {
    && step == Poll(c) && c in s.clients && !s.key.Names?
    && s.clients[c].pc.Polling? && s.clients[c].pc.attempt < 40
  }

  function Unanswered(s: State, steps: seq<Step>, c: ClientId): nat
    decreases |steps|
  {
    if steps == [] then 0
    else One(AsksInVain(s, steps[0], c)) + Unanswered(Next(s, steps[0]), steps[1..], c)
  }

  predicate PollsMatch(pc: Pc, unanswered: nat) {
    match pc
    case Start => unanswered == 0
    case Polling(k) => unanswered == k <= 40
    case _ => HasExhausted(pc) ==> unanswered == 40
  }

  lemma PollCounted(s: State, step: Step, c: ClientId, n: nat)
    requires c in s.clients && PollsMatch(s.clients[c].pc, n)
    ensures c in Next(s, step).clients && PollsMatch(Next(s, step).clients[c].pc, n + One(AsksInVain(s, step, c)))
  {
  }

  lemma {:induction false} PollsCountedFrom(s: State, steps: seq<Step>, c: ClientId, n: nat)
    requires c in s.clients && PollsMatch(s.clients[c].pc, n)
    ensures c in After(s, steps).clients && PollsMatch(After(s, steps).clients[c].pc, n + Unanswered(s, steps, c))
    decreases |steps|
  {
    if steps == [] {
    } else {
      hide Next, PollsMatch, AsksInVain;
      PollCounted(s, steps[0], c, n);
      PollsCountedFrom(Next(s, steps[0]), steps[1..], c, n + One(AsksInVain(s, steps[0], c)));
    }
  }

  /** A client polls on exactly as often as it has found no job named, and uses up its polls only after the
      fortieth. */
  lemma PollsAreCounted(s: State, steps: seq<Step>, c: ClientId)
    requires Init(s) && c in s.clients
    ensures var t, unanswered := After(s, steps), Unanswered(s, steps, c);
            && c in t.clients
            && (t.clients[c].pc.Polling? ==> t.clients[c].pc.attempt == unanswered)
            && (HasExhausted(t.clients[c].pc) ==> unanswered == 40)
  {
    PollsCountedFrom(s, steps, c, 0);
  }

  // ----- a loser that uses up its polls

  function Polls(c: ClientId, n: nat): seq<Step> {
    if n == 0 then [] else [Poll(c)] + Polls(c, n - 1)
  }

  lemma {:induction false} UnansweredPolls(s: State, c: ClientId, k: nat, n: nat)
    requires c in s.clients && s.clients[c].pc == Polling(k) && s.key == Pending && k + n <= POLL_ATTEMPTS
    ensures After(s, Polls(c, n)) == Go(s, c, Polling(k + n))
    decreases n
  {
    if n == 0 {
      assert s.clients[c := s.clients[c]] == s.clients;
    } else {
      var t := Next(s, Poll(c));
      FirstStep(s, Polls(c, n));
      assert Polls(c, n)[1..] == Polls(c, n - 1);
      UnansweredPolls(t, c, k + 1, n - 1);
      assert Go(t, c, Polling(k + n)) == Go(s, c, Polling(k + n));
    }
  }

  lemma OneStep(s: State, step: Step)
    ensures After(s, [step]) == Next(s, step)
  {
    FirstStep(s, [step]);
    AfterNothing(Next(s, step), [step][1..]);
  }

  /** The winner stays in front of its commit while the loser polls 40 times and gives up; then each creates
      a row and returns it, so one key has given two jobs. */
  lemma SlowWinnerGivesTwoRows(s: State, a: ClientId, b: ClientId, j: JobId, k: JobId)
    requires Init(s) && s.clients.Keys == {a, b} && a != b && j != k
    ensures var t := After(s, [SetNx(a)] + ([SetNx(b)] + (Polls(b, 40) + ([Poll(b)] + BothCreate(a, b, j, k)))));
            && |t.rows| == 2
            && a in t.clients && t.clients[a].pc == Created(k, WonRace)
            && b in t.clients && t.clients[b].pc == Created(j, Exhausted)
  {
    hide After, Next, Polls;
    var s1 := Next(s, SetNx(a));
    var s2 := Next(s1, SetNx(b));
    LoserStartsPolling(s, a, b);
    var s3 := Go(s2, b, Polling(POLL_ATTEMPTS));
    var s4 := Next(s3, Poll(b));
    UnansweredPolls(s2, b, 0, POLL_ATTEMPTS);
    LoserGivesUp(s3, a, b);
    BothCreateRows(s4, a, b, j, k);
    var last := BothCreate(a, b, j, k);
    OneStep(s, SetNx(a));
    OneStep(s1, SetNx(b));
    OneStep(s3, Poll(b));
    RunsCompose(s3, [Poll(b)], last);
    RunsCompose(s2, Polls(b, POLL_ATTEMPTS), [Poll(b)] + last);
    RunsCompose(s1, [SetNx(b)], Polls(b, POLL_ATTEMPTS) + ([Poll(b)] + last));
    RunsCompose(s, [SetNx(a)], [SetNx(b)] + (Polls(b, POLL_ATTEMPTS) + ([Poll(b)] + last)));
  }

  lemma LoserStartsPolling(s: State, a: ClientId, b: ClientId)
    requires Init(s) && s.clients.Keys == {a, b} && a != b
    ensures var t := Next(Next(s, SetNx(a)), SetNx(b));
            && t.key == Pending && t.rows == map[] && t.clients.Keys == {a, b}
            && a in t.clients && t.clients[a].pc == Creating(WonRace)
            && b in t.clients && t.clients[b].pc == Polling(0)
  {
  }

  lemma LoserGivesUp(s: State, a: ClientId, b: ClientId)
    requires s.clients.Keys == {a, b} && a != b && a in s.clients && b in s.clients && s.rows == map[]
    requires s.clients[a].pc == Creating(WonRace) && s.clients[b].pc == Polling(POLL_ATTEMPTS)
    ensures var t := Next(s, Poll(b));
            && t.rows == map[] && t.clients.Keys == {a, b}
            && a in t.clients && t.clients[a].pc == Creating(WonRace)
            && b in t.clients && t.clients[b].pc == Creating(Exhausted)
  {
  }

  function BothCreate(a: ClientId, b: ClientId, j: JobId, k: JobId): seq<Step> {
    [Insert(b, j)] + ([WriteKey(b)] + ([WriteFp(b)] + ([Insert(a, k)] + ([WriteKey(a)] + [WriteFp(a)]))))
  }

  lemma BothCreateRows(s: State, a: ClientId, b: ClientId, j: JobId, k: JobId)
    requires s.clients.Keys == {a, b} && a != b && j != k && a in s.clients && b in s.clients && s.rows == map[]
    requires s.clients[a].pc == Creating(WonRace) && s.clients[b].pc == Creating(Exhausted)
    ensures var t := After(s, BothCreate(a, b, j, k));
            && |t.rows| == 2
            && a in t.clients && t.clients[a].pc == Created(k, WonRace)
            && b in t.clients && t.clients[b].pc == Created(j, Exhausted)
  {
    var m := OneCreates(s, b, j, Exhausted, [Insert(a, k)] + ([WriteKey(a)] + [WriteFp(a)]));
    var t := OneCreates(m, a, k, WonRace, []);
    assert [WriteFp(a)] + [] == [WriteFp(a)];
    AfterNothing(t, []);
    assert t.rows == map[j := b, k := a];
    hide After;
  }

  /** A client in front of its commit takes its three steps. */
  lemma OneCreates(s: State, c: ClientId, j: JobId, why: Why, rest: seq<Step>) returns (t: State)
    requires c in s.clients && s.clients[c].pc == Creating(why) && j !in s.rows
    ensures After(s, [Insert(c, j)] + ([WriteKey(c)] + ([WriteFp(c)] + rest))) == After(t, rest)
    ensures t.rows == s.rows[j := c] && t.clients == s.clients[c := Client(s.clients[c].fp, Created(j, why))]
  {
    hide After;
    var s1 := Next(s, Insert(c, j));
    var s2 := Next(s1, WriteKey(c));
    t := Next(s2, WriteFp(c));
    OneStep(s, Insert(c, j));
    OneStep(s1, WriteKey(c));
    OneStep(s2, WriteFp(c));
    RunsCompose(s, [Insert(c, j)], [WriteKey(c)] + ([WriteFp(c)] + rest));
    RunsCompose(s1, [WriteKey(c)], [WriteFp(c)] + rest);
    RunsCompose(s2, [WriteFp(c)], rest);
  }

  lemma AfterNothing(s: State, steps: seq<Step>)
    requires |steps| == 0
    ensures After(s, steps) == s
  {
  }
}
