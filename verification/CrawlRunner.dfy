/** `run_job`: one claimed job from seeding to its final status, with every environment answer
    (cancellations, broker errors, unhandled exceptions, page contents) left open. */
module CrawlRunner {
  import opened Basics
  import opened Documents
  import opened CrawlFrontier
  import opened FrontierInvariants
  import opened DeltaFilter
  import opened JobStatus
  import opened PollLoop

  const FLUSH_EVERY := 10

  /** Where, outside the loop, an exception is raised. `BadConfig` is raised before the handler is entered. */
  datatype Fault = NoFault | BadConfig | BeforeSeeding | AfterSeeding | BeforeFinal

  class JobRow {
    var status: Status
    var progress: Progress
    ghost var history: seq<Status>

    /** A row just claimed by a runner. */
    constructor ()
      ensures status == FetchingSitemap && history == [Queued, FetchingSitemap]
    {
      status, progress, history := FetchingSitemap, Progress(0, 0, 0, 0), [Queued, FetchingSitemap];
    }

    ghost predicate Valid()
      reads this
    {
      history != [] && history[|history| - 1] == status
    }

    method SetStatus(s: Status)
      modifies this`status, this`history
      ensures Valid() && status == s && history == old(history) + [s]
    {
      status := s;
      history := history + [s];
    }

    /** Write the counters and a status; refused when a counter is negative. */
    method FlushProgress(p: Progress, s: Status) returns (ok: bool)
      modifies this
      ensures ok <==> ProgressAccepted(p)
      ensures ok ==> Valid() && status == s && progress == p && history == old(history) + [s]
      ensures !ok ==> status == old(status) && progress == old(progress) && history == old(history)
    {
      if p.discovered < 0 || p.fetched < 0 || p.pending < 0 || p.bytes < 0 {
        return false;
      }
      progress := p;
      SetStatus(s);
      return true;
    }
  }

  /** The documents that consuming `msgs` yields. */
  function DocsOf(site: Url -> Answer, msgs: seq<Msg>): seq<Doc> {
    if msgs == [] then []
    else
      var last := site(msgs[|msgs| - 1].url);
      DocsOf(site, msgs[..|msgs| - 1]) + (if last.Fetched? then [last.doc] else [])
  }

  /** The bytes that fetching `msgs` downloads. */
  function BytesOf(site: Url -> Answer, msgs: seq<Msg>): nat {
    if msgs == [] then 0
    else
      var last := site(msgs[|msgs| - 1].url);
      BytesOf(site, msgs[..|msgs| - 1]) + (if last.Fetched? then last.bytes else 0)
  }

  /** The webhook of a finished job. */
  datatype Event = Event(name: string, status: Status, documents: nat)

  function EventFor(terminal: Status, callback: bool, documents: nat): Option<Event> {
    if !callback || terminal == Cancelled then None
    else Some(Event(if terminal == Failed then "crawl.failed" else "crawl.completed", terminal, documents))
  }

  /** The known hashes and the rows. */
  type Kept = (set<string>, seq<Doc>)

  /** What holds between any two messages: draining from here ends where draining from the seeded state
      ends, and the rows written so far are those of the consumed messages. */
  ghost predicate OnCourse(c: Config, site: Url -> Answer, seedUrls: seq<Url>, seeds: nat, baseline: set<string>,
                           s: Store, kept: Kept) {
    && Inv(c, s, seeds)
    && Drain(c, site, s, seeds) == Crawl(c, site, seedUrls)
    && kept == PersistAll(baseline, DocsOf(site, s.published[..s.consumed]))
    && s.progress.bytes == BytesOf(site, s.published[..s.consumed])
  }

  lemma PersistOneMore(baseline: set<string>, docs: seq<Doc>, doc: Doc)
    ensures var (known, rows) := PersistAll(baseline, docs);
            PersistAll(baseline, docs + [doc]) == PersistStep(known, rows, doc)
  {
    var all := docs + [doc];
    assert all[..|all| - 1] == docs && all[|all| - 1] == doc;
  }

  lemma DocsOfOneMore(site: Url -> Answer, msgs: seq<Msg>, m: Msg)
    ensures DocsOf(site, msgs + [m])
         == if site(m.url).Fetched? then DocsOf(site, msgs) + [site(m.url).doc] else DocsOf(site, msgs)
  {
    var all := msgs + [m];
    assert all[..|all| - 1] == msgs && all[|all| - 1] == m;
    assert DocsOf(site, msgs) + [] == DocsOf(site, msgs);
  }

  lemma BytesOfOneMore(site: Url -> Answer, msgs: seq<Msg>, m: Msg)
    ensures BytesOf(site, msgs + [m]) == BytesOf(site, msgs) + (if site(m.url).Fetched? then site(m.url).bytes else 0)
  {
    var all := msgs + [m];
    assert all[..|all| - 1] == msgs && all[|all| - 1] == m;
  }

  /** Processing the head of the queue is one step of the drain. */
  lemma OneDrainStep(c: Config, site: Url -> Answer, seeds: nat, s: Store)
    requires Inv(c, s, seeds) && s.consumed < |s.published|
    ensures var m := s.published[s.consumed];
            var t := ProcessStep(c, s, m, site(m.url));
            && Inv(c, t, seeds) && Drain(c, site, s, seeds) == Drain(c, site, t, seeds)
            && t.consumed == s.consumed + 1 <= |t.published|
            && t.published[..t.consumed] == s.published[..s.consumed] + [m]
            && Measure(c, t) == Measure(c, s) - 1
            && t.progress.bytes == s.progress.bytes + (if site(m.url).Fetched? then site(m.url).bytes else 0)
  {
    var m := s.published[s.consumed];
    ProcessKeeps(c, s, site(m.url), seeds);
    hide NoNormTwice, EnqueueLinks, BudgetMatches;
  }

  lemma OneDocMore(site: Url -> Answer, baseline: set<string>, before: seq<Msg>, m: Msg)
    ensures var kept := PersistAll(baseline, DocsOf(site, before));
            PersistAll(baseline, DocsOf(site, before + [m]))
            == if site(m.url).Fetched? then PersistStep(kept.0, kept.1, site(m.url).doc) else kept
  {
    DocsOfOneMore(site, before, m);
    if site(m.url).Fetched? {
      PersistOneMore(baseline, DocsOf(site, before), site(m.url).doc);
    }
    hide PersistAll, DocsOf, PersistStep;
  }

  /** One message processed and its document persisted: still on course, one unit of the measure used up. */
  lemma MessageKeepsCourse(c: Config, site: Url -> Answer, seedUrls: seq<Url>, seeds: nat, baseline: set<string>,
                           s: Store, kept: Kept)
    requires OnCourse(c, site, seedUrls, seeds, baseline, s, kept) && s.consumed < |s.published|
    ensures var m := s.published[s.consumed];
            var t := ProcessStep(c, s, m, site(m.url));
            && OnCourse(c, site, seedUrls, seeds, baseline, t,
                        if site(m.url).Fetched? then PersistStep(kept.0, kept.1, site(m.url).doc) else kept)
            && t.consumed == s.consumed + 1 <= |t.published|
            && t.published[..t.consumed] == s.published[..s.consumed] + [m]
            && Measure(c, t) == Measure(c, s) - 1
  {
    hide Inv, PersistAll, DocsOf, BytesOf, PersistStep, Measure, Drain, Crawl, ProcessStep;
    OneDrainStep(c, site, seeds, s);
    BytesOfOneMore(site, s.published[..s.consumed], s.published[s.consumed]);
    OneDocMore(site, baseline, s.published[..s.consumed], s.published[s.consumed]);
  }

  lemma OnCourseCounters(c: Config, site: Url -> Answer, seedUrls: seq<Url>, seeds: nat, baseline: set<string>,
                         s: Store, kept: Kept)
    requires OnCourse(c, site, seedUrls, seeds, baseline, s, kept)
    ensures s.consumed <= |s.published| <= 2 * c.maxPages
    ensures ProgressAccepted(s.progress) && s.progress.discovered == s.progress.fetched + s.progress.pending
  {
    CountersAreConserved(s);
  }

  lemma OnCourseDrained(c: Config, site: Url -> Answer, seedUrls: seq<Url>, seeds: nat, baseline: set<string>,
                        s: Store, kept: Kept)
    requires OnCourse(c, site, seedUrls, seeds, baseline, s, kept) && s.consumed == |s.published|
    ensures s == Crawl(c, site, seedUrls) && kept == PersistAll(baseline, DocsOf(site, s.published))
  {
    assert s.published[..s.consumed] == s.published;
  }

  /** The state and rows after seeding and then handling `k` messages. */
  function Handled(c: Config, site: Url -> Answer, seedUrls: seq<Url>, baseline: set<string>, k: nat): (Store, Kept) {
    if k == 0 then (SeedAll(c, EMPTY_STORE, seedUrls, 0).0, (baseline, []))
    else
      var (t, kept) := Handled(c, site, seedUrls, baseline, k - 1);
      if t.consumed >= |t.published| then (t, kept)
      else
        var m := t.published[t.consumed];
        (ProcessStep(c, t, m, site(m.url)),
         if site(m.url).Fetched? then PersistStep(kept.0, kept.1, site(m.url).doc) else kept)
  }

  lemma HandledNone(c: Config, site: Url -> Answer, seedUrls: seq<Url>, baseline: set<string>)
    ensures Handled(c, site, seedUrls, baseline, 0) == (SeedAll(c, EMPTY_STORE, seedUrls, 0).0, (baseline, []))
    ensures Handled(c, site, seedUrls, baseline, 0).0 == Seeded(c, seedUrls).0
  {
  }

  lemma {:induction false} HandledIsOnCourse(c: Config, site: Url -> Answer, seedUrls: seq<Url>,
                                             baseline: set<string>, k: nat)
    ensures var (t, kept) := Handled(c, site, seedUrls, baseline, k);
            OnCourse(c, site, seedUrls, Seeded(c, seedUrls).1, baseline, t, kept)
  {
    if k == 0 {
      var (s, n) := Seeded(c, seedUrls);
      assert s.published[..s.consumed] == [];
    } else {
      HandledIsOnCourse(c, site, seedUrls, baseline, k - 1);
      var (t, kept) := Handled(c, site, seedUrls, baseline, k - 1);
      if t.consumed < |t.published| {
        MessageKeepsCourse(c, site, seedUrls, Seeded(c, seedUrls).1, baseline, t, kept);
      }
    }
  }

  /** Each message handled uses up one unit of the measure, so the loop can only end. */
  lemma HandlingUsesMeasure(c: Config, site: Url -> Answer, seedUrls: seq<Url>, baseline: set<string>, k: nat)
    ensures var t := Handled(c, site, seedUrls, baseline, k).0;
            var u := Handled(c, site, seedUrls, baseline, k + 1).0;
            t.consumed < |t.published| ==>
              && u.consumed == t.consumed + 1 <= |u.published|
              && u.published[..u.consumed] == t.published[..t.consumed] + [t.published[t.consumed]]
              && Measure(c, u) == Measure(c, t) - 1
  {
    HandledIsOnCourse(c, site, seedUrls, baseline, k);
    var (t, kept) := Handled(c, site, seedUrls, baseline, k);
    if t.consumed < |t.published| {
      MessageKeepsCourse(c, site, seedUrls, Seeded(c, seedUrls).1, baseline, t, kept);
      HandledIsOnCourse(c, site, seedUrls, baseline, k + 1);
    }
  }

  /** What the handled state means for the job's counters, and for its results once nothing is queued. */
  lemma HandledResults(c: Config, site: Url -> Answer, seedUrls: seq<Url>, baseline: set<string>, k: nat)
    ensures var (t, kept) := Handled(c, site, seedUrls, baseline, k);
            && t.consumed <= |t.published| <= 2 * c.maxPages
            && ProgressAccepted(t.progress) && t.progress.discovered == t.progress.fetched + t.progress.pending
            && t.progress.bytes == BytesOf(site, t.published[..t.consumed])
            && kept == PersistAll(baseline, DocsOf(site, t.published[..t.consumed]))
            && (t.consumed == |t.published| ==>
                  t == Crawl(c, site, seedUrls) && kept == PersistAll(baseline, DocsOf(site, t.published)))
  {
    HandledIsOnCourse(c, site, seedUrls, baseline, k);
    var (t, kept) := Handled(c, site, seedUrls, baseline, k);
    OnCourseCounters(c, site, seedUrls, Seeded(c, seedUrls).1, baseline, t, kept);
    if t.consumed == |t.published| {
      OnCourseDrained(c, site, seedUrls, Seeded(c, seedUrls).1, baseline, t, kept);
    }
  }

  lemma {:induction false} DrainPublishedGrows(c: Config, site: Url -> Answer, s: Store, seeds: nat)
    requires Inv(c, s, seeds)
    ensures |s.published| <= |Drain(c, site, s, seeds).published|
    decreases Measure(c, s)
  {
    if s.consumed == |s.published| {
    } else {
      var m := s.published[s.consumed];
      ProcessKeeps(c, s, site(m.url), seeds);
      DrainPublishedGrows(c, site, ProcessStep(c, s, m, site(m.url)), seeds);
    }
  }

  /** How many messages a crawl has in all. */
  ghost function Total(c: Config, site: Url -> Answer, seedUrls: seq<Url>): nat {
    |Crawl(c, site, seedUrls).published|
  }

  /** On course, the queue never runs empty before the whole crawl is through it. */
  lemma OnCourseTotal(c: Config, site: Url -> Answer, seedUrls: seq<Url>, seeds: nat, baseline: set<string>, s: Store,
                      kept: Kept)
    requires OnCourse(c, site, seedUrls, seeds, baseline, s, kept)
    ensures s.consumed <= |s.published| <= Total(c, site, seedUrls)
    ensures s.consumed < |s.published| <==> s.consumed < Total(c, site, seedUrls)
  {
    DrainPublishedGrows(c, site, s, seeds);
    hide Crawl, NoNormTwice, BudgetMatches, DocsOf, PersistAll;
  }

  /** After `k` handled messages exactly `k` are consumed, and one is queued exactly while `k` is short of
      the whole crawl. */
  lemma {:induction false} HandledCount(c: Config, site: Url -> Answer, seedUrls: seq<Url>, baseline: set<string>,
                                        k: nat)
    requires k <= Total(c, site, seedUrls)
    ensures var t := Handled(c, site, seedUrls, baseline, k).0;
            t.consumed == k <= |t.published| && (k < |t.published| <==> k < Total(c, site, seedUrls))
  {
    hide Handled, OnCourse, Total, Seeded;
    HandledIsOnCourse(c, site, seedUrls, baseline, k);
    var (t, kept) := Handled(c, site, seedUrls, baseline, k);
    OnCourseTotal(c, site, seedUrls, Seeded(c, seedUrls).1, baseline, t, kept);
    if k == 0 {
      HandledNone(c, site, seedUrls, baseline);
    } else {
      HandledCount(c, site, seedUrls, baseline, k - 1);
      HandlingUsesMeasure(c, site, seedUrls, baseline, k - 1);
    }
  }

  // ----- the method bodies

  /** `k` messages of the run seeded with `seedUrls` have been handled. */
  ghost predicate At(f: Frontier, store: DocumentStore, site: Url -> Answer, seedUrls: seq<Url>, baseline: set<string>,
                     k: nat)
    reads f, store
  {
    f.Valid() && (f.Model(), (store.known, store.rows)) == Handled(f.cfg, site, seedUrls, baseline, k)
  }

  /** Receive, process and persist one message. */
  method HandleMessage(f: Frontier, store: DocumentStore, site: Url -> Answer, ghost seedUrls: seq<Url>,
                       ghost baseline: set<string>, ghost k: nat)
    returns (saved: bool)
    requires At(f, store, site, seedUrls, baseline, k) && f.queue != []
    modifies f, store
    ensures At(f, store, site, seedUrls, baseline, k + 1)
    ensures saved <==> site(old(f.queue)[0].url).Fetched?
    ensures |DocsOf(site, f.published[..f.consumed])|
         == old(|DocsOf(site, f.published[..f.consumed])|) + (if saved then 1 else 0)
  {
    HandlingUsesMeasure(f.cfg, site, seedUrls, baseline, k);
    var m := f.Receive();
    var doc := f.ProcessMessage(m, site(m.url));
    saved := doc.Some?;
    DocsOfOneMore(site, old(f.published[..f.consumed]), m);
    if doc.Some? {
      store.Persist(doc.value);
    }
  }

  // ----- the status row while the loop runs

  /** A path from the claim through `Crawling`, possibly ended by a cancellation. */
  ghost predicate CrawlingSoFar(h: seq<Status>, status: Status) {
    && |h| >= 3 && h[..2] == [Queued, FetchingSitemap] && h[|h| - 1] == status && StutteringPath(h)
    && status in {Crawling, Cancelled}
    && (status == Crawling ==> Cancelled !in h)
    && Failed !in h
  }

  /** The look at the row before each poll, which a client may just have cancelled. */
  method CheckCancelled(job: JobRow, cancelled: bool) returns (stop: bool)
    requires CrawlingSoFar(job.history, job.status) && job.status == Crawling
    modifies job`status, job`history
    ensures CrawlingSoFar(job.history, job.status) && (stop <==> cancelled)
    ensures job.status == if cancelled then Cancelled else Crawling
  {
    if cancelled {
      job.SetStatus(Cancelled);
    }
    stop := job.status == Cancelled;
  }

  /** Count a saved document and flush the counters after every tenth. */
  method CountAndFlush(job: JobRow, p: Progress, docsSaved: nat) returns (total: nat, ok: bool)
    requires CrawlingSoFar(job.history, job.status) && job.status == Crawling
    modifies job
    ensures CrawlingSoFar(job.history, job.status) && job.status == Crawling
    ensures total == docsSaved + 1
    ensures ok <==> total % 10 != 0 || ProgressAccepted(p)
    ensures job.progress == if total % 10 == 0 && ok then p else old(job.progress)
  {
    total, ok := docsSaved + 1, true;
    if total % FLUSH_EVERY == 0 {
      ok := job.FlushProgress(p, Crawling);
    }
  }

  /** One iteration of the message loop. */
  method PollOnce(f: Frontier, store: DocumentStore, job: JobRow, site: Url -> Answer, ghost seedUrls: seq<Url>,
                  ghost baseline: set<string>, tick: Tick, emptyStreak: nat, docsSaved: nat, ghost k: nat)
    returns (verdict: Verdict, streak: nat, saved: nat, ghost k': nat)
    requires At(f, store, site, seedUrls, baseline, k) && emptyStreak < ERROR_POLLS
    requires docsSaved == |DocsOf(site, f.published[..f.consumed])|
    requires CrawlingSoFar(job.history, job.status) && job.status == Crawling
    modifies f, store, job
    ensures (verdict, streak) == React(tick, old(f.queue) != [], emptyStreak)
    ensures k' == if verdict == GoOn && streak == 0 then k + 1 else k
    ensures At(f, store, site, seedUrls, baseline, k')
    ensures CrawlingSoFar(job.history, job.status)
    ensures job.status == if tick.cancelled then Cancelled else Crawling
    // Every tenth document the counters are written to the row.
    ensures saved == |DocsOf(site, f.published[..f.consumed])|
    ensures job.progress == if saved != docsSaved && saved % 10 == 0 then f.progress else old(job.progress)
  {
    hide Handled, DocsOf;
    streak, saved, k' := emptyStreak, docsSaved, k;
    var stop := CheckCancelled(job, tick.cancelled);
    if stop {
      return Stop(Cancelled), streak, saved, k;
    }
    if tick.poll == Crash {
      return Crashed, streak, saved, k;
    }
    if tick.poll == BrokerError {
      streak := streak + 1;
      return if streak >= ERROR_POLLS then Stop(Partial) else GoOn, streak, saved, k;
    }
    if tick.poll == Timeout || f.queue == [] {
      streak := streak + 1;
      return if streak >= EMPTY_POLLS then Stop(Done) else GoOn, streak, saved, k;
    }
    streak := 0;
    var kept := HandleMessage(f, store, site, seedUrls, baseline, k);
    k' := k + 1;
    verdict := GoOn;
    if kept {
      var ok;
      HandledResults(f.cfg, site, seedUrls, baseline, k');
      saved, ok := CountAndFlush(job, f.progress, docsSaved);
      // The counters are conserved, so the flush is never refused.
      assert ok;
    }
  }

  /** The loop ends when, why and after as many messages as `Loop` says. */
  method MessageLoop(f: Frontier, store: DocumentStore, job: JobRow, site: Url -> Answer, ghost seedUrls: seq<Url>,
                     ghost baseline: set<string>, env: nat -> Tick)
    returns (verdict: Verdict, polls: nat, docsSaved: nat, ghost k: nat)
    requires At(f, store, site, seedUrls, baseline, 0)
    requires CrawlingSoFar(job.history, job.status) && job.status == Crawling
    modifies f, store, job
    ensures k <= Total(f.cfg, site, seedUrls)
    ensures End(verdict, polls, k) == Loop(env, Total(f.cfg, site, seedUrls), 0, 0, 0)
    ensures At(f, store, site, seedUrls, baseline, k)
    ensures docsSaved == |DocsOf(site, f.published[..f.consumed])|
    ensures CrawlingSoFar(job.history, job.status)
    ensures job.status == if verdict == Stop(Cancelled) then Cancelled else Crawling
  {
    hide Handled, Total, CrawlingSoFar, Loop, React;
    ghost var total := Total(f.cfg, site, seedUrls);
    HandledCount(f.cfg, site, seedUrls, baseline, 0);
    verdict, polls, docsSaved, k := GoOn, 0, 0, 0;
    var emptyStreak: nat := 0;
    while verdict == GoOn
      invariant k <= total && At(f, store, site, seedUrls, baseline, k)
      invariant docsSaved == |DocsOf(site, f.published[..f.consumed])|
      invariant CrawlingSoFar(job.history, job.status)
      invariant job.status == if verdict == Stop(Cancelled) then Cancelled else Crawling
      invariant verdict == GoOn ==> emptyStreak < ERROR_POLLS
      invariant Loop(env, total, 0, 0, 0)
             == if verdict == GoOn then Loop(env, total, polls, k, emptyStreak) else End(verdict, polls, k)
      decreases total - k, ERROR_POLLS - emptyStreak, verdict == GoOn
    {
      HandledCount(f.cfg, site, seedUrls, baseline, k);
      LoopStep(env, total, polls, k, emptyStreak);
      verdict, emptyStreak, docsSaved, k :=
        PollOnce(f, store, job, site, seedUrls, baseline, env(polls), emptyStreak, docsSaved, k);
      polls := polls + 1;
    }
  }

  /** The last write of a run that did not crash, or the failure write of one that did. */
  method Finalize(job: JobRow, p: Progress, verdict: Verdict) returns (terminal: Status)
    requires CrawlingSoFar(job.history, job.status) && ProgressAccepted(p)
    requires verdict.Stop? ==> verdict.status in {Done, Partial, Cancelled}
    requires verdict.Stop? ==> (verdict.status == Cancelled <==> job.status == Cancelled)
    requires verdict != GoOn
    modifies job
    ensures job.status == terminal && terminal == if verdict.Stop? then verdict.status else Failed
    ensures verdict.Stop? ==> job.progress == p
    ensures Cancelled in job.history <==> Cancelled == old(job.status)
    ensures StutteringPath(job.history) <==> !(old(job.status) == Cancelled && verdict == Crashed)
  {
    if verdict.Stop? {
      var ok := job.FlushProgress(p, verdict.status);
      assert ok;
      terminal := verdict.status;
    } else {
      job.SetStatus(Failed);
      assert old(job.status) == job.history[|job.history| - 2];
      terminal := Failed;
    }
  }

  /** What the message loop leaves behind: as many messages consumed as the environment lets through, the
      rows of exactly those, conserved counters, and after a loop that ended as done the drained crawl,
      unless a timeout cut it short. */
  ghost predicate LoopLeaves(c: Config, site: Url -> Answer, seedUrls: seq<Url>, baseline: set<string>,
                             env: nat -> Tick, t: Store, kept: Kept, polls: nat) {
    var total := Total(c, site, seedUrls);
    var end := Loop(env, total, 0, 0, 0);
    && polls == end.polls <= 3 * t.consumed + 3
    && t.consumed == end.handled <= |t.published| && t.consumed <= 2 * c.maxPages
    && kept == PersistAll(baseline, DocsOf(site, t.published[..t.consumed]))
    && ProgressAccepted(t.progress) && t.progress.discovered == t.progress.fetched + t.progress.pending
    && (end.verdict == Stop(Done) ==>
          && (t == Crawl(c, site, seedUrls) <==> !LosesMessages(env, total))
          && ((forall i :: env(i).poll != Timeout) ==> t == Crawl(c, site, seedUrls)))
  }

  lemma LoopResults(c: Config, site: Url -> Answer, seedUrls: seq<Url>, baseline: set<string>, env: nat -> Tick)
    ensures var end := Loop(env, Total(c, site, seedUrls), 0, 0, 0);
            var (t, kept) := Handled(c, site, seedUrls, baseline, end.handled);
            && LoopLeaves(c, site, seedUrls, baseline, env, t, kept, end.polls)
            && ProgressAccepted(t.progress)
            && (end.verdict == Crashed || end.verdict in {Stop(Done), Stop(Partial), Stop(Cancelled)})
            && (end.verdict == Stop(Cancelled) ==> exists i :: env(i).cancelled)
  {
    var total := Total(c, site, seedUrls);
    var end := Loop(env, total, 0, 0, 0);
    LoopFacts(env, total, 0, 0, 0);
    DoneEarlyIff(env, total);
    HandledCount(c, site, seedUrls, baseline, end.handled);
    HandledResults(c, site, seedUrls, baseline, end.handled);
    assert Crawl(c, site, seedUrls).consumed == total;
    hide Loop, LosesMessages, Handled, DocsOf, PersistAll;
  }

  /** A slow broker is enough to lose a whole crawl: after two timeouts the loop ends as done and the seed
      is still queued. */
  lemma DoneWithMessagesQueued(c: Config, site: Url -> Answer, seedUrls: seq<Url>, baseline: set<string>)
    requires seedUrls != [] && Allowed(c, seedUrls[0], true) && c.maxPages > 0
    ensures var slow := (i: nat) => Tick(false, Timeout);
            var end := Loop(slow, Total(c, site, seedUrls), 0, 0, 0);
            var (t, kept) := Handled(c, site, seedUrls, baseline, end.handled);
            && FinalStatus(NoFault, end.verdict) == Done
            && t.consumed == 0 && t.published != [] && kept == (baseline, [])
  {
    var (t, n) := Seeded(c, seedUrls);
    var s := Publish(EMPTY_STORE.(visited := {c.norm(seedUrls[0])}), Msg(seedUrls[0], 0));
    assert t.published != [] by {
      PublishKeepsNorms(c, EMPTY_STORE, Msg(seedUrls[0], 0));
      assert EMPTY_STORE.visited + {c.norm(seedUrls[0])} == {c.norm(seedUrls[0])};
      SeedKeeps(c, s, seedUrls[1..], 1);
    }
    HandledNone(c, site, seedUrls, baseline);
    HandledCount(c, site, seedUrls, baseline, 0);
    SlowBrokerLosesEverything((i: nat) => Tick(false, Timeout), Total(c, site, seedUrls));
  }

  /** The status a run leaves in the row, told from what goes wrong and from how the loop ends. */
  function FinalStatus(fault: Fault, verdict: Verdict): Status {
    if fault == BadConfig then FetchingSitemap
    else if fault == NoFault && verdict.Stop? then verdict.status
    else Failed
  }

  /** The final status of a run without faults, told from the poll its loop ended with. */
  ghost predicate TerminalTells(env: nat -> Tick, end: End, terminal: Status) {
    end.polls > 0 && var last := env(end.polls - 1);
    && (terminal == Cancelled <==> last.cancelled)
    && (terminal == Failed <==> !last.cancelled && last.poll == Crash)
    && (terminal == Partial <==> !last.cancelled && last.poll == BrokerError)
    && (terminal == Done <==> !last.cancelled && (last.poll == Timeout || last.poll == Reply))
  }

  lemma LoopEndTells(env: nat -> Tick, total: nat)
    ensures var end := Loop(env, total, 0, 0, 0); TerminalTells(env, end, FinalStatus(NoFault, end.verdict))
  {
    var end := Loop(env, total, 0, 0, 0);
    LoopEndsFirst(env, total, end.polls - 1);
    LoopFacts(env, total, 0, 0, 0);
    hide Loop;
  }

  lemma AnsweredLoop(env: nat -> Tick, total: nat)
    ensures (forall i: nat :: env(i) == Tick(false, Reply)) ==> Loop(env, total, 0, 0, 0) == End(Stop(Done), total + 2, total)
  {
    if forall i: nat :: env(i) == Tick(false, Reply) {
      AnsweredCrawlIsDone(env, total);
    }
  }

  /** Message loop and final write of a job whose seeds are published. */
  method CrawlAndFinalize(f: Frontier, store: DocumentStore, job: JobRow, site: Url -> Answer, ghost seedUrls: seq<Url>,
                          ghost baseline: set<string>, env: nat -> Tick, fault: Fault)
    returns (terminal: Status, polls: nat, docsSaved: nat)
    requires At(f, store, site, seedUrls, baseline, 0) && fault in {NoFault, BeforeFinal}
    requires job.status == FetchingSitemap && job.history == [Queued, FetchingSitemap, FetchingSitemap]
    modifies f, store, job
    ensures var end := Loop(env, Total(f.cfg, site, seedUrls), 0, 0, 0);
            && job.status == terminal == FinalStatus(fault, end.verdict) && Terminal(terminal)
            && (StutteringPath(job.history) <==> !(fault == BeforeFinal && end.verdict == Stop(Cancelled)))
            && polls == end.polls && (fault == NoFault ==> TerminalTells(env, end, terminal))
    ensures f.Valid() && docsSaved == |DocsOf(site, f.published[..f.consumed])|
    ensures LoopLeaves(f.cfg, site, seedUrls, baseline, env, f.Model(), (store.known, store.rows), polls)
    ensures Cancelled in job.history ==> exists i :: env(i).cancelled
    ensures terminal in {Done, Partial, Cancelled} ==> job.progress == f.progress
  {
    hide Loop, LoopLeaves, Handled, Total, DocsOf, TerminalTells;
    job.SetStatus(Crawling);
    assert CrawlingSoFar(job.history, job.status);
    var verdict, n, docs, k := MessageLoop(f, store, job, site, seedUrls, baseline, env);
    polls, docsSaved := n, docs;
    LoopEndTells(env, Total(f.cfg, site, seedUrls));
    LoopResults(f.cfg, site, seedUrls, baseline, env);
    terminal := Finalize(job, f.progress, if fault == BeforeFinal then Crashed else verdict);
  }

  method RunJob(f: Frontier, store: DocumentStore, job: JobRow, site: Url -> Answer, sitemapUrls: seq<Url>,
                configSeeds: seq<Url>, env: nat -> Tick, fault: Fault, callback: bool)
    returns (terminal: Status, event: Option<Event>, polls: nat)
    requires f.Valid() && f.Model() == EMPTY_STORE && store.rows == []
    requires job.status == FetchingSitemap && job.history == [Queued, FetchingSitemap]
    modifies f, store, job
    // The job ends in a terminal status unless its stored configuration no longer parses, and the status
    // writes follow the transition table unless a crash follows a client's cancellation.
    ensures var end := Loop(env, Total(f.cfg, site, sitemapUrls + configSeeds), 0, 0, 0);
            && job.status == terminal == FinalStatus(fault, end.verdict)
            && (Terminal(terminal) <==> fault != BadConfig)
            && (StutteringPath(job.history) <==> !(fault == BeforeFinal && end.verdict == Stop(Cancelled)))
    ensures (forall i :: !env(i).cancelled) ==> Cancelled !in job.history
    // Without faults the poll that ended the loop decides, and a broker that answers every poll makes it done.
    ensures fault == NoFault ==>
              TerminalTells(env, Loop(env, Total(f.cfg, site, sitemapUrls + configSeeds), 0, 0, 0), terminal)
    ensures fault == NoFault && (forall i: nat :: env(i) == Tick(false, Reply)) ==>
              terminal == Done && polls == Total(f.cfg, site, sitemapUrls + configSeeds) + 2
    ensures fault in {NoFault, BeforeFinal} ==>
              LoopLeaves(f.cfg, site, sitemapUrls + configSeeds, old(store.known), env,
                         f.Model(), (store.known, store.rows), polls)
    ensures terminal in {Done, Partial, Cancelled} ==> fault == NoFault && job.progress == f.progress
    // The tenant is told of every end but a cancellation, with the documents found so far.
    ensures event.Some? <==> callback && fault != BadConfig && terminal != Cancelled
    ensures event.Some? ==>
              && event.value.name == (if terminal == Failed then "crawl.failed" else "crawl.completed")
              && event.value.status == terminal && f.consumed <= |f.published|
              && event.value.documents == |DocsOf(site, f.published[..f.consumed])|
  {
    hide Loop, LoopLeaves, Handled, SeedAll, Total, TerminalTells;
    ghost var seedUrls := sitemapUrls + configSeeds;
    ghost var baseline := store.known;
    HandledNone(f.cfg, site, seedUrls, baseline);
    AnsweredLoop(env, Total(f.cfg, site, seedUrls));
    var docsSaved := 0;
    polls := 0;
    if fault == BadConfig {
      return job.status, None, 0;
    }
    job.SetStatus(FetchingSitemap);
    if fault != BeforeSeeding {
      var _ := f.Start(sitemapUrls, configSeeds);
    }
    if fault in {NoFault, BeforeFinal} {
      terminal, polls, docsSaved := CrawlAndFinalize(f, store, job, site, seedUrls, baseline, env, fault);
    } else {
      job.SetStatus(Failed);
      terminal := Failed;
    }
    event := EventFor(terminal, callback, docsSaved);
  }
}
