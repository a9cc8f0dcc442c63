/** The frontier under interleaving: any number of workers, each SADD, INCR and PUBLISH a step of its
    own, messages taken in any order, every page answering whatever it likes. */
module EnqueueProtocol {
  import opened Basics
  import opened Documents
  import opened CrawlFrontier
  import opened FrontierInvariants

  type WorkerId(==, !new)

  /** A message with its provenance: the position of the message whose page linked to it. */
  datatype Pub = Pub(url: Url, depth: nat, parent: Option<nat>)

  /** `Marked` is after SADD, `Counted` after an INCR within the cap. */
  datatype Worker =
    | Idle
    | Seeding(seeds: seq<Url>)
    | SeedMarked(url: Url, seeds: seq<Url>)
    | Walking(parent: nat, links: seq<Url>)
    | Marked(parent: nat, url: Url, depth: nat, links: seq<Url>)
    | Counted(parent: nat, url: Url, depth: nat, links: seq<Url>)

  /** `answers` records what the page of each message taken so far linked to; `enqueued` is the seed
      counter local to `start`. */
  datatype State = State(visited: set<Norm>, pages: nat, published: seq<Pub>, answers: map<nat, seq<Url>>,
                         workers: map<WorkerId, Worker>, seeder: WorkerId, seeds: seq<Url>, enqueued: nat)

  datatype Step =
    | Take(w: WorkerId, i: nat, html: bool, links: seq<Url>)
    | Sadd(w: WorkerId)
    | Incr(w: WorkerId)
    | PublishMessage(w: WorkerId)
    | Rest(w: WorkerId)

  ghost predicate Init(s: State) {
    && s.visited == {} && s.pages == 0 && s.published == [] && s.answers == map[] && s.enqueued == 0
    && s.seeder in s.workers && s.workers[s.seeder] == Seeding(s.seeds)
    && forall w | w in s.workers && w != s.seeder :: s.workers[w].Idle?
  }

  function Set(s: State, w: WorkerId, x: Worker): State {
    s.(workers := s.workers[w := x])
  }

  predicate MayWalk(c: Config, p: Pub, html: bool) {
    Walks(c, CrawlFrontier.Msg(p.url, p.depth), html)
  }

  function NextSadd(c: Config, s: State, w: WorkerId): State
    requires w in s.workers
  {
    match s.workers[w]
    case Seeding(seeds) =>
      if seeds == [] || s.enqueued >= c.maxPages then Set(s, w, Idle)
      else if !Allowed(c, seeds[0], true) || c.norm(seeds[0]) in s.visited then Set(s, w, Seeding(seeds[1..]))
      else Set(s, w, SeedMarked(seeds[0], seeds[1..])).(visited := s.visited + {c.norm(seeds[0])})
    case Walking(p, links) =>
      if links == [] || p >= |s.published| then s
      else
        var d := ChildDepth(c, s.published[p].depth, links[0]);
        if d > c.maxDepth || !Allowed(c, links[0], false) || c.norm(links[0]) in s.visited
        then Set(s, w, Walking(p, links[1..]))
        else Set(s, w, Marked(p, links[0], d, links[1..])).(visited := s.visited + {c.norm(links[0])})
    case _ => s
  }

  function NextIncr(c: Config, s: State, w: WorkerId): State
    requires w in s.workers
  {
    match s.workers[w]
    case Marked(p, url, d, links) =>
      if s.pages + 1 > c.maxPages then Set(s, w, Walking(p, links)).(pages := s.pages + 1)
      else Set(s, w, Counted(p, url, d, links)).(pages := s.pages + 1)
    case _ => s
  }

  function NextPublish(s: State, w: WorkerId): State
    requires w in s.workers
  {
    match s.workers[w]
    case SeedMarked(url, seeds) =>
      Set(s, w, Seeding(seeds)).(published := s.published + [Pub(url, 0, None)], enqueued := s.enqueued + 1)
    case Counted(p, url, d, links) =>
      Set(s, w, Walking(p, links)).(published := s.published + [Pub(url, d, Some(p))])
    case _ => s
  }

  /** A step whose worker is not at the right point changes nothing, so every list of steps is a run. */
  function Next(c: Config, s: State, step: Step): State {
    if step.w !in s.workers then s else
    match step
    case Take(w, i, html, links) =>
      if !s.workers[w].Idle? || i >= |s.published| || i in s.answers then s
      else if MayWalk(c, s.published[i], html) then Set(s, w, Walking(i, links)).(answers := s.answers[i := links])
      else s.(answers := s.answers[i := links])
    case Sadd(w) => NextSadd(c, s, w)
    case Incr(w) => NextIncr(c, s, w)
    case PublishMessage(w) => NextPublish(s, w)
    case Rest(w) => if s.workers[w].Walking? && s.workers[w].links == [] then Set(s, w, Idle) else s
  }

  function After(c: Config, s: State, steps: seq<Step>): State
    decreases |steps|
  {
    if steps == [] then s else After(c, Next(c, s, steps[0]), steps[1..])
  }

  // ----- which norms are spoken for

  predicate Holds(x: Worker) {
    x.SeedMarked? || x.Marked? || x.Counted?
  }

  ghost predicate NormsOk(c: Config, s: State) {
    && (forall i | 0 <= i < |s.published| :: c.norm(s.published[i].url) in s.visited)
    && (forall i, j | 0 <= i < j < |s.published| :: c.norm(s.published[i].url) != c.norm(s.published[j].url))
    && (forall w | w in s.workers && Holds(s.workers[w]) :: c.norm(s.workers[w].url) in s.visited)
    && (forall w, i | w in s.workers && Holds(s.workers[w]) && 0 <= i < |s.published| ::
          c.norm(s.workers[w].url) != c.norm(s.published[i].url))
    && (forall w, v | w in s.workers && v in s.workers && w != v && Holds(s.workers[w]) && Holds(s.workers[v]) ::
          c.norm(s.workers[w].url) != c.norm(s.workers[v].url))
  }

  lemma SaddKeepsNorms(c: Config, s: State, w: WorkerId)
    requires NormsOk(c, s) && w in s.workers
    ensures NormsOk(c, NextSadd(c, s, w))
  {
  }

  lemma IncrKeepsNorms(c: Config, s: State, w: WorkerId)
    requires NormsOk(c, s) && w in s.workers
    ensures NormsOk(c, NextIncr(c, s, w))
  {
  }

  lemma NormsKept(c: Config, s: State, step: Step)
    requires NormsOk(c, s)
    ensures NormsOk(c, Next(c, s, step))
  {
    if step.w in s.workers {
      match step
      case Take(_, _, _, _) =>
      case Sadd(w) => SaddKeepsNorms(c, s, w);
      case Incr(w) => IncrKeepsNorms(c, s, w);
      case PublishMessage(w) => PublishKeepsNorms(c, s, w);
      case Rest(_) =>
    }
  }

  lemma PublishKeepsNorms(c: Config, s: State, w: WorkerId)
    requires NormsOk(c, s) && w in s.workers
    ensures NormsOk(c, NextPublish(s, w))
  {
    var t := NextPublish(s, w);
    assert forall i | 0 <= i < |s.published| :: t.published[i] == s.published[i];
  }

  // ----- how many

  ghost function Holders(s: State): set<WorkerId> {
    set w | w in s.workers && Holds(s.workers[w])
  }

  ghost function BetweenIncrAndPublish(s: State): set<WorkerId> {
    set w | w in s.workers && s.workers[w].Counted?
  }

  function SeedCount(pub: seq<Pub>): nat {
    if pub == [] then 0
    else SeedCount(pub[..|pub| - 1]) + (if pub[|pub| - 1].parent.None? then 1 else 0)
  }

  lemma SeedCountStep(pub: seq<Pub>, p: Pub)
    ensures SeedCount(pub + [p]) == SeedCount(pub) + (if p.parent.None? then 1 else 0)
  {
    assert (pub + [p])[..|pub|] == pub;
  }

  /** Every marked norm is published, held by a worker, or was refused by the cap. */
  ghost predicate CountsOk(c: Config, s: State) {
    && (forall w | w in s.workers && (s.workers[w].Seeding? || s.workers[w].SeedMarked?) :: w == s.seeder)
    && (forall w | w in s.workers && s.workers[w].SeedMarked? :: s.enqueued < c.maxPages)
    && SeedCount(s.published) == s.enqueued <= c.maxPages
    && |s.published| + |BetweenIncrAndPublish(s)| == s.enqueued + Min(s.pages, c.maxPages)
    && |s.visited| == |s.published| + |Holders(s)| + (s.pages - Min(s.pages, c.maxPages))
  }

  /** Moving one worker changes the counts by what that worker holds before and after. */
  lemma HoldersChange(s: State, t: State, w: WorkerId, x: Worker)
    requires w in s.workers && t.workers == s.workers[w := x]
    ensures |Holders(t)| + One(Holds(s.workers[w])) == |Holders(s)| + One(Holds(x))
    ensures |BetweenIncrAndPublish(t)| + One(s.workers[w].Counted?) == |BetweenIncrAndPublish(s)| + One(x.Counted?)
  {
    DifferAt(Holders(s), Holders(t), w);
    DifferAt(BetweenIncrAndPublish(s), BetweenIncrAndPublish(t), w);
  }

  lemma SaddKeepsCounts(c: Config, s: State, w: WorkerId)
    requires CountsOk(c, s) && w in s.workers
    ensures CountsOk(c, NextSadd(c, s, w))
  {
    hide SeedCount, Holders, BetweenIncrAndPublish, Allowed, ChildDepth;
    var t := NextSadd(c, s, w);
    if t != s {
      HoldersChange(s, t, w, t.workers[w]);
    }
  }

  lemma IncrKeepsCounts(c: Config, s: State, w: WorkerId)
    requires CountsOk(c, s) && w in s.workers
    ensures CountsOk(c, NextIncr(c, s, w))
  {
    var t := NextIncr(c, s, w);
    if t != s {
      HoldersChange(s, t, w, t.workers[w]);
    }
  }

  lemma PublishKeepsCounts(c: Config, s: State, w: WorkerId)
    requires CountsOk(c, s) && w in s.workers
    ensures CountsOk(c, NextPublish(s, w))
  {
    var t := NextPublish(s, w);
    if t != s {
      HoldersChange(s, t, w, t.workers[w]);
      SeedCountStep(s.published, t.published[|s.published|]);
      hide SeedCount, Holders, BetweenIncrAndPublish;
    }
  }

  lemma OtherKeepsCounts(c: Config, s: State, step: Step)
    requires CountsOk(c, s) && step.w in s.workers && (step.Take? || step.Rest?)
    ensures CountsOk(c, Next(c, s, step))
  {
    var t := Next(c, s, step);
    HoldersChange(s, t, step.w, t.workers[step.w]);
  }

  lemma CountsKept(c: Config, s: State, step: Step)
    requires CountsOk(c, s)
    ensures CountsOk(c, Next(c, s, step))
  {
    if step.w in s.workers {
      match step
      case Take(w, _, _, _) => OtherKeepsCounts(c, s, step);
      case Sadd(w) => SaddKeepsCounts(c, s, w);
      case Incr(w) => IncrKeepsCounts(c, s, w);
      case PublishMessage(w) => PublishKeepsCounts(c, s, w);
      case Rest(w) => OtherKeepsCounts(c, s, step);
    }
  }

  // ----- where messages come from

  predicate PdfLeaf(c: Config, url: Url) {
    c.followPdfs && c.isPdf(url)
  }

  /** The page at position `p` was walked, linked to `url`, and put it at `depth`. */
  predicate FoundOn(c: Config, pub: seq<Pub>, answers: map<nat, seq<Url>>, p: nat, url: Url, depth: nat) {
    && p < |pub| && MayWalk(c, pub[p], true)
    && p in answers && url in answers[p] && Allowed(c, url, false)
    && depth == if PdfLeaf(c, url) then c.maxDepth else pub[p].depth + 1
  }

  predicate PubOk(c: Config, s: State, i: nat)
    requires i < |s.published|
  {
    match s.published[i].parent
    case None => s.published[i].depth == 0 && s.published[i].url in s.seeds && Allowed(c, s.published[i].url, true)
    case Some(p) => p < i && FoundOn(c, s.published, s.answers, p, s.published[i].url, s.published[i].depth)
  }

  predicate WorkerOk(c: Config, s: State, x: Worker) {
    match x
    case Idle => true
    case Seeding(seeds) => forall u | u in seeds :: u in s.seeds
    case SeedMarked(url, seeds) => url in s.seeds && Allowed(c, url, true) && forall u | u in seeds :: u in s.seeds
    case Walking(p, links) => LinksOk(c, s, p, links)
    case Marked(p, url, d, links) => LinksOk(c, s, p, links) && FoundOn(c, s.published, s.answers, p, url, d)
    case Counted(p, url, d, links) => LinksOk(c, s, p, links) && FoundOn(c, s.published, s.answers, p, url, d)
  }

  predicate LinksOk(c: Config, s: State, p: nat, links: seq<Url>) {
    p < |s.published| && MayWalk(c, s.published[p], true) && p in s.answers && forall u | u in links :: u in s.answers[p]
  }

  ghost predicate SourcesOk(c: Config, s: State) {
    && (forall i | 0 <= i < |s.published| :: PubOk(c, s, i))
    && (forall w | w in s.workers :: WorkerOk(c, s, s.workers[w]))
  }

  /** Nothing already known about messages and workers is lost when the store only grows. */
  lemma SourcesGrow(c: Config, s: State, t: State, w: WorkerId)
    requires SourcesOk(c, s) && s.published <= t.published && s.seeds == t.seeds
    requires forall i: nat | i in s.answers :: i in t.answers && t.answers[i] == s.answers[i]
    requires w in s.workers && w in t.workers && t.workers == s.workers[w := t.workers[w]]
    requires WorkerOk(c, t, t.workers[w])
    requires forall i | |s.published| <= i < |t.published| :: PubOk(c, t, i)
    ensures SourcesOk(c, t)
  {
    forall i | 0 <= i < |s.published|
      ensures PubOk(c, t, i)
    {
      assert PubOk(c, s, i) && t.published[i] == s.published[i];
    }
    forall v | v in t.workers && v != w
      ensures WorkerOk(c, t, t.workers[v])
    {
      assert WorkerOk(c, s, s.workers[v]);
    }
  }

  lemma SaddKeepsSources(c: Config, s: State, w: WorkerId)
    requires SourcesOk(c, s) && w in s.workers
    ensures SourcesOk(c, NextSadd(c, s, w))
  {
    assert WorkerOk(c, s, s.workers[w]);
    SourcesGrow(c, s, NextSadd(c, s, w), w);
  }

  lemma PublishKeepsSources(c: Config, s: State, w: WorkerId)
    requires SourcesOk(c, s) && w in s.workers
    ensures SourcesOk(c, NextPublish(s, w))
  {
    assert WorkerOk(c, s, s.workers[w]);
    SourcesGrow(c, s, NextPublish(s, w), w);
  }

  lemma SourcesKept(c: Config, s: State, step: Step)
    requires SourcesOk(c, s)
    ensures SourcesOk(c, Next(c, s, step))
  {
    if step.w in s.workers {
      match step
      case Sadd(w) => SaddKeepsSources(c, s, w);
      case PublishMessage(w) => PublishKeepsSources(c, s, w);
      case _ =>
        assert WorkerOk(c, s, s.workers[step.w]);
        SourcesGrow(c, s, Next(c, s, step), step.w);
    }
  }

  /** Links followed from a seed to message `i`. */
  function ChainLength(pub: seq<Pub>, i: nat): nat
    requires i < |pub|
    decreases i
  {
    match pub[i].parent
    case Some(p) => if p < i then 1 + ChainLength(pub, p) else 0
    case None => 0
  }

  lemma {:induction false} ChainFitsDepth(c: Config, s: State, i: nat)
    requires SourcesOk(c, s) && i < |s.published|
    ensures ChainLength(s.published, i) <= s.published[i].depth <= c.maxDepth
    ensures !PdfLeaf(c, s.published[i].url) ==> ChainLength(s.published, i) == s.published[i].depth
    decreases i
  {
    assert PubOk(c, s, i);
    if s.published[i].parent.None? {
    } else {
      ChainFitsDepth(c, s, s.published[i].parent.value);
    }
  }

  // ----- runs

  lemma InitOk(c: Config, s: State)
    requires Init(s)
    ensures NormsOk(c, s) && CountsOk(c, s) && SourcesOk(c, s)
  {
    assert Holders(s) == {} && BetweenIncrAndPublish(s) == {};
  }

  lemma {:induction false} RunKeeps(c: Config, s: State, steps: seq<Step>)
    requires NormsOk(c, s) && CountsOk(c, s) && SourcesOk(c, s)
    ensures var t := After(c, s, steps); NormsOk(c, t) && CountsOk(c, t) && SourcesOk(c, t)
    decreases |steps|
  {
    if steps == [] {
    } else {
      NormsKept(c, s, steps[0]);
      CountsKept(c, s, steps[0]);
      SourcesKept(c, s, steps[0]);
      RunKeeps(c, Next(c, s, steps[0]), steps[1..]);
    }
  }

  lemma NobodyBetween(s: State)
    ensures |BetweenIncrAndPublish(s)| == 0 <==> forall w | w in s.workers :: !s.workers[w].Counted?
  {
    if |BetweenIncrAndPublish(s)| == 0 {
      assert forall w | w in s.workers && s.workers[w].Counted? :: w in BetweenIncrAndPublish(s);
    } else {
      var w :| w in BetweenIncrAndPublish(s);
    }
  }

  /** In every run no URL is published twice; children never exceed the capped page counter and match it
      exactly when no worker is between INCR and PUBLISH; seeds stay within the limit, and so a whole run
      publishes at most twice the limit. */
  lemma PublishedAtMostOnce(c: Config, s: State, steps: seq<Step>)
    requires Init(s)
    ensures var t := After(c, s, steps); var children := |t.published| - SeedCount(t.published);
            && (forall i, j | 0 <= i < j < |t.published| :: c.norm(t.published[i].url) != c.norm(t.published[j].url))
            && children <= Min(t.pages, c.maxPages)
            && (children == Min(t.pages, c.maxPages) <==> forall w | w in t.workers :: !t.workers[w].Counted?)
            && SeedCount(t.published) <= c.maxPages
            && |t.published| <= 2 * c.maxPages
            && |t.visited| == |t.published| + |Holders(t)| + (t.pages - Min(t.pages, c.maxPages))
  {
    InitOk(c, s);
    RunKeeps(c, s, steps);
    NobodyBetween(After(c, s, steps));
  }

  /** In every run each message has a chain of links from a seed no longer than its recorded depth (and
      exactly that long unless it is a PDF leaf), depths respect the limit, every link of the chain was on
      its parent's page and passed the filter, and no PDF and no message at the limit is ever a parent. */
  lemma {:induction false} DepthsAreSound(c: Config, s: State, steps: seq<Step>, i: nat)
    requires Init(s) && i < |After(c, s, steps).published|
    ensures var t := After(c, s, steps); var pub := t.published;
            && ChainLength(pub, i) <= pub[i].depth <= c.maxDepth
            && (!PdfLeaf(c, pub[i].url) ==> ChainLength(pub, i) == pub[i].depth)
            && match pub[i].parent
               case None => pub[i].depth == 0 && pub[i].url in s.seeds && Allowed(c, pub[i].url, true)
               case Some(p) =>
                 && p < i && p in t.answers && pub[i].url in t.answers[p] && Allowed(c, pub[i].url, false)
                 && (PdfLeaf(c, pub[i].url) ==> pub[i].depth == c.maxDepth)
                 && !c.isPdf(pub[p].url) && pub[p].depth < c.maxDepth
  {
    InitOk(c, s);
    RunKeeps(c, s, steps);
    SeedsFixed(c, s, steps);
    var t := After(c, s, steps);
    ChainFitsDepth(c, t, i);
    assert PubOk(c, t, i);
  }

  lemma {:induction false} SeedsFixed(c: Config, s: State, steps: seq<Step>)
    ensures After(c, s, steps).seeds == s.seeds
    decreases |steps|
  {
    if steps == [] {
    } else {
      SeedsFixed(c, Next(c, s, steps[0]), steps[1..]);
    }
  }

  // ----- the steps are those of the sequential frontier

  /** Run without interruption, SADD, INCR and PUBLISH of one link do exactly what `EnqueueStep` does. */
  lemma EnqueueIsThreeSteps(c: Config, s: State, store: Store, w: WorkerId)
    requires w in s.workers && s.workers[w].Walking? && s.workers[w].links != []
    requires s.workers[w].parent < |s.published|
    requires store.visited == s.visited && store.pages == s.pages
    ensures var p, links := s.workers[w].parent, s.workers[w].links;
            var d := ChildDepth(c, s.published[p].depth, links[0]);
            var t := Next(c, Next(c, Next(c, s, Sadd(w)), Incr(w)), PublishMessage(w));
            var (u, ok) := EnqueueStep(c, store, links[0], d);
            && t.visited == u.visited && t.pages == u.pages
            && t.workers == s.workers[w := Walking(p, links[1..])]
            && t.published == s.published + (if ok then [Pub(links[0], d, Some(p))] else [])
            && u.published == store.published + (if ok then [Msg(links[0], d)] else [])
  {
    var p, links := s.workers[w].parent, s.workers[w].links;
    var d := ChildDepth(c, s.published[p].depth, links[0]);
    var a := Next(c, s, Sadd(w));
    var b := Next(c, a, Incr(w));
    if d > c.maxDepth || !Allowed(c, links[0], false) || c.norm(links[0]) in s.visited {
      assert a == Set(s, w, Walking(p, links[1..])) && b == a;
    } else {
      assert a.workers[w] == Marked(p, links[0], d, links[1..]);
    }
  }

  /** SADD and PUBLISH of one seed after the other, until seeding ends. */
  function SeedOnly(c: Config, s: State, w: WorkerId, n: nat): State
    decreases n
  {
    if n == 0 then Next(c, s, Sadd(w))
    else SeedOnly(c, Next(c, Next(c, s, Sadd(w)), PublishMessage(w)), w, n - 1)
  }

  /** Run without interruption, seeding does exactly what `SeedAll` does: the same marks, the same seeds in
      the same order, and the same count. */
  lemma {:induction false} SeedingIsSequential(c: Config, s: State, store: Store, w: WorkerId, seeds: seq<Url>)
    requires w in s.workers && s.workers[w] == Seeding(seeds)
    requires store.visited == s.visited && |store.published| == |s.published|
    ensures var t := SeedOnly(c, s, w, |seeds|); var (u, n) := SeedAll(c, store, seeds, s.enqueued);
            && t.workers == s.workers[w := Idle] && t.visited == u.visited && t.enqueued == n && t.pages == s.pages
            && s.published <= t.published && store.published <= u.published && |t.published| == |u.published|
            && forall k | |s.published| <= k < |t.published| ::
                 t.published[k] == Pub(u.published[k].url, 0, None) && u.published[k].depth == 0
    decreases |seeds|
  {
    hide Next, Allowed;
    OneSeedInTwoSteps(c, s, store, w, seeds);
    var a := Next(c, s, Sadd(w));
    var b := Next(c, a, PublishMessage(w));
    if seeds == [] {
    } else if s.enqueued >= c.maxPages {
      IdleSeederRests(c, b, w, |seeds| - 1);
    } else if !Allowed(c, seeds[0], true) || c.norm(seeds[0]) in s.visited {
      SeedingIsSequential(c, b, store, w, seeds[1..]);
    } else {
      var u := Publish(store.(visited := store.visited + {c.norm(seeds[0])}), CrawlFrontier.Msg(seeds[0], 0));
      SeedingIsSequential(c, b, u, w, seeds[1..]);
    }
  }

  lemma OneSeedInTwoSteps(c: Config, s: State, store: Store, w: WorkerId, seeds: seq<Url>)
    requires w in s.workers && s.workers[w] == Seeding(seeds) && store.visited == s.visited
    ensures var a := Next(c, s, Sadd(w)); var b := Next(c, a, PublishMessage(w));
            if seeds == [] || s.enqueued >= c.maxPages then a == b == Set(s, w, Idle)
            else if !Allowed(c, seeds[0], true) || c.norm(seeds[0]) in s.visited then b == Set(s, w, Seeding(seeds[1..]))
            else b == Set(s, w, Seeding(seeds[1..])).(visited := s.visited + {c.norm(seeds[0])}, enqueued := s.enqueued + 1,
                                                      published := s.published + [Pub(seeds[0], 0, None)])
  {
  }

  lemma {:induction false} IdleSeederRests(c: Config, s: State, w: WorkerId, n: nat)
    requires w in s.workers && s.workers[w] == Idle
    ensures SeedOnly(c, s, w, n) == s
  {
    if n == 0 {
    } else {
      IdleSeederRests(c, s, w, n - 1);
    }
  }
}
