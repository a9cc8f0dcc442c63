/** Breadth-first completeness: when the queue runs empty with the page cap not exceeded, the
    published URLs are exactly those reachable within `maxDepth` links, each at its shortest distance.
    The only assumption on the web is that the links followed from a page depend on its normalised
    URL; a page whose fetch fails simply has no links. */
module BfsCompleteness {
  import opened Basics
  import opened Documents
  import opened CrawlFrontier
  import opened FrontierInvariants

  /** Normalised targets that processing `url` above the depth limit tries to enqueue. */
  ghost function LinksOf(c: Config, site: Url -> Answer, url: Url): set<Norm> {
    if c.isPdf(url) then {} else
    match site(url)
    case Fetched(_, true, links, _) => set l | l in links && Allowed(c, l, false) :: c.norm(l)
    case _ => {}
  }

  /** `out` is the link graph on normalised URLs. */
  ghost predicate IsGraph(c: Config, site: Url -> Answer, out: Norm -> set<Norm>) {
    forall url :: LinksOf(c, site, url) == out(c.norm(url))
  }

  ghost function SeedNorms(c: Config, seeds: seq<Url>): set<Norm> {
    set u | u in seeds && Allowed(c, u, true) :: c.norm(u)
  }

  /** Reachable from `roots` over at most `k` links. */
  ghost predicate Within(out: Norm -> set<Norm>, roots: set<Norm>, n: Norm, k: nat)
    decreases k
  {
    if k == 0 then n in roots
    else Within(out, roots, n, k - 1) || exists p :: Within(out, roots, p, k - 1) && n in out(p)
  }

  lemma {:induction false} WithinGrows(out: Norm -> set<Norm>, roots: set<Norm>, n: Norm, k: nat, l: nat)
    requires Within(out, roots, n, k) && k <= l
    ensures Within(out, roots, n, l)
    decreases l
  {
    if k == l {
    } else {
      WithinGrows(out, roots, n, k, l - 1);
    }
  }

  /** Messages put at the depth limit because they are PDFs; their depth says nothing about distance. */
  predicate Leaf(c: Config, m: Msg) {
    c.followPdfs && c.isPdf(m.url)
  }

  ghost predicate Covered(c: Config, s: Store, n: Norm, k: nat) {
    exists i :: 0 <= i < |s.published| && c.norm(s.published[i].url) == n
                && (Leaf(c, s.published[i]) || s.published[i].depth <= k)
  }

  ghost predicate PublishedNorm(c: Config, s: Store, n: Norm) {
    exists i :: 0 <= i < |s.published| && c.norm(s.published[i].url) == n
  }

  /** Non-PDF messages are queued in depth order, and those queued from position `from` on span at
      most two consecutive depths. */
  ghost predicate TwoLayers(c: Config, pub: seq<Msg>, from: nat) {
    && (forall i, j | 0 <= i < j < |pub| && !Leaf(c, pub[i]) && !Leaf(c, pub[j]) :: pub[i].depth <= pub[j].depth)
    && (forall i, j | from <= i < j < |pub| && !Leaf(c, pub[i]) && !Leaf(c, pub[j]) :: pub[j].depth <= pub[i].depth + 1)
  }

  ghost predicate Sound(c: Config, out: Norm -> set<Norm>, roots: set<Norm>, s: Store) {
    && (forall n | n in s.visited :: PublishedNorm(c, s, n))
    && (forall i | 0 <= i < |s.published| ::
          Within(out, roots, c.norm(s.published[i].url), s.published[i].depth))
  }

  /** Every link of the first `done` messages above the depth limit has been taken up. */
  ghost predicate Closed(c: Config, out: Norm -> set<Norm>, s: Store, done: nat)
    requires done <= |s.published|
  {
    forall i, n | 0 <= i < done && s.published[i].depth < c.maxDepth && n in out(c.norm(s.published[i].url)) ::
      Covered(c, s, n, s.published[i].depth + 1)
  }

  ghost predicate Bfs(c: Config, out: Norm -> set<Norm>, roots: set<Norm>, s: Store) {
    && s.consumed <= |s.published|
    && Sound(c, out, roots, s)
    && TwoLayers(c, s.published, s.consumed)
    && (forall n | n in roots :: Covered(c, s, n, 0))
    && Closed(c, out, s, s.consumed)
  }

  lemma CoveredGrows(c: Config, s: Store, t: Store, n: Norm, k: nat)
    requires s.published <= t.published && Covered(c, s, n, k)
    ensures Covered(c, t, n, k)
  {
    var i :| 0 <= i < |s.published| && c.norm(s.published[i].url) == n
             && (Leaf(c, s.published[i]) || s.published[i].depth <= k);
    assert t.published[i] == s.published[i];
  }

  // ----- walking the links of message `at`

  /** The page at position `at` is being walked. */
  ghost predicate Walking(c: Config, out: Norm -> set<Norm>, roots: set<Norm>, s: Store, at: nat) {
    && at < |s.published|
    && s.published[at].depth < c.maxDepth
    && !Leaf(c, s.published[at])
    && Sound(c, out, roots, s)
    && TwoLayers(c, s.published, at)
  }

  /** A link not seen before is published; it joins the second of the two layers. */
  lemma NewLink(c: Config, out: Norm -> set<Norm>, roots: set<Norm>, s: Store, at: nat, link: Url, t: Store)
    requires Walking(c, out, roots, s, at) && c.norm(link) in out(c.norm(s.published[at].url))
    requires t.visited == s.visited + {c.norm(link)}
    requires t.published == s.published + [Msg(link, ChildDepth(c, s.published[at].depth, link))]
    ensures Walking(c, out, roots, t, at) && Covered(c, t, c.norm(link), s.published[at].depth + 1)
  {
    var d := s.published[at].depth;
    var n := c.norm(link);
    var k := |s.published|;
    assert t.published[k] == Msg(link, ChildDepth(c, d, link));
    assert Within(out, roots, n, d + 1);
    WithinGrows(out, roots, n, d + 1, t.published[k].depth);
    forall m | m in t.visited
      ensures PublishedNorm(c, t, m)
    {
      if m != n {
        var i :| 0 <= i < |s.published| && c.norm(s.published[i].url) == m;
        assert t.published[i] == s.published[i];
      }
    }
    NewLayer(c, s.published, at, t.published[k]);
  }

  lemma NewLayer(c: Config, pub: seq<Msg>, at: nat, m: Msg)
    requires at < |pub| && !Leaf(c, pub[at]) && TwoLayers(c, pub, at)
    requires Leaf(c, m) || m.depth == pub[at].depth + 1
    ensures TwoLayers(c, pub + [m], at)
  {
  }

  /** One link of the page: afterwards its target is covered, one level down. */
  lemma OneLink(c: Config, out: Norm -> set<Norm>, roots: set<Norm>, s: Store, at: nat, link: Url)
    requires Walking(c, out, roots, s, at)
    requires Allowed(c, link, false) ==> c.norm(link) in out(c.norm(s.published[at].url))
    requires EnqueueStep(c, s, link, ChildDepth(c, s.published[at].depth, link)).0.pages <= c.maxPages
    ensures var t := EnqueueStep(c, s, link, ChildDepth(c, s.published[at].depth, link)).0;
            && s.published <= t.published
            && Walking(c, out, roots, t, at)
            && (Allowed(c, link, false) ==> Covered(c, t, c.norm(link), s.published[at].depth + 1))
  {
    var d := s.published[at].depth;
    var n := c.norm(link);
    if !Allowed(c, link, false) {
    } else if n in s.visited {
      var i :| 0 <= i < |s.published| && c.norm(s.published[i].url) == n;
      assert Leaf(c, s.published[i]) || s.published[i].depth <= d + 1;
    } else {
      NewLink(c, out, roots, s, at, link, EnqueueStep(c, s, link, ChildDepth(c, d, link)).0);
    }
  }

  lemma PagesGrow(c: Config, s: Store, links: seq<Url>, depth: nat)
    ensures s.pages <= EnqueueLinks(c, s, links, depth).pages
    decreases |links|
  {
    if links == [] {
    } else {
      PagesGrow(c, EnqueueStep(c, s, links[0], ChildDepth(c, depth, links[0])).0, links[1..], depth);
    }
  }

  lemma {:induction false} AllLinks(c: Config, out: Norm -> set<Norm>, roots: set<Norm>, s: Store, at: nat, links: seq<Url>)
    requires Walking(c, out, roots, s, at)
    requires forall l | l in links && Allowed(c, l, false) :: c.norm(l) in out(c.norm(s.published[at].url))
    requires EnqueueLinks(c, s, links, s.published[at].depth).pages <= c.maxPages
    ensures var t := EnqueueLinks(c, s, links, s.published[at].depth);
            && s.published <= t.published
            && Walking(c, out, roots, t, at)
            && forall l | l in links && Allowed(c, l, false) :: Covered(c, t, c.norm(l), s.published[at].depth + 1)
    decreases |links|
  {
    if links == [] {
    } else {
      var d := s.published[at].depth;
      var u := EnqueueStep(c, s, links[0], ChildDepth(c, d, links[0])).0;
      PagesGrow(c, u, links[1..], d);
      OneLink(c, out, roots, s, at, links[0]);
      AllLinks(c, out, roots, u, at, links[1..]);
      var t := EnqueueLinks(c, u, links[1..], d);
      forall l | l in links && Allowed(c, l, false)
        ensures Covered(c, t, c.norm(l), d + 1)
      {
        if l == links[0] {
          CoveredGrows(c, u, t, c.norm(l), d + 1);
        } else {
          assert l in links[1..];
        }
      }
    }
  }

  // ----- one message, whole runs

  /** Walking the page at the head of the queue takes up all of its links. */
  lemma WalkedPage(c: Config, out: Norm -> set<Norm>, roots: set<Norm>, s: Store, answer: Answer)
    requires Bfs(c, out, roots, s) && s.consumed < |s.published| && answer.Fetched?
    requires Walks(c, s.published[s.consumed], answer.html)
    requires (set l | l in answer.links && Allowed(c, l, false) :: c.norm(l)) == out(c.norm(s.published[s.consumed].url))
    requires ProcessStep(c, s, s.published[s.consumed], answer).pages <= c.maxPages
    ensures var m := s.published[s.consumed];
            var t := ProcessStep(c, s, m, answer);
            && s.published <= t.published && t.consumed == s.consumed + 1
            && Walking(c, out, roots, t, s.consumed)
            && forall n | n in out(c.norm(m.url)) :: Covered(c, t, n, m.depth + 1)
  {
    var m := s.published[s.consumed];
    var t := ProcessStep(c, s, m, answer);
    var u := s.(consumed := s.consumed + 1, progress := s.progress.(bytes := s.progress.bytes + answer.bytes));
    AllLinks(c, out, roots, u, s.consumed, answer.links);
    ConsumedIsIndependent(c, u, answer.links, m.depth);
    var v := EnqueueLinks(c, u, answer.links, m.depth);
    assert t.published == v.published && t.visited == v.visited;
    forall n | n in out(c.norm(m.url))
      ensures Covered(c, t, n, m.depth + 1)
    {
      CoveredGrows(c, v, t, n, m.depth + 1);
    }
  }

  /** Whatever the head message answers, its links are taken up and nothing covered is lost. */
  lemma HeadPage(c: Config, site: Url -> Answer, out: Norm -> set<Norm>, roots: set<Norm>, s: Store)
    requires IsGraph(c, site, out) && Bfs(c, out, roots, s) && s.consumed < |s.published|
    requires ProcessStep(c, s, s.published[s.consumed], site(s.published[s.consumed].url)).pages <= c.maxPages
    ensures var m := s.published[s.consumed];
            var t := ProcessStep(c, s, m, site(m.url));
            && s.published <= t.published && t.consumed == s.consumed + 1
            && Sound(c, out, roots, t) && TwoLayers(c, t.published, t.consumed)
            && (m.depth < c.maxDepth ==> forall n | n in out(c.norm(m.url)) :: Covered(c, t, n, m.depth + 1))
  {
    var m := s.published[s.consumed];
    assert LinksOf(c, site, m.url) == out(c.norm(m.url));
    if site(m.url).Fetched? && Walks(c, m, site(m.url).html) {
      WalkedPage(c, out, roots, s, site(m.url));
    }
  }

  lemma StepKeepsBfs(c: Config, site: Url -> Answer, out: Norm -> set<Norm>, roots: set<Norm>, s: Store)
    requires IsGraph(c, site, out) && Bfs(c, out, roots, s) && s.consumed < |s.published|
    requires ProcessStep(c, s, s.published[s.consumed], site(s.published[s.consumed].url)).pages <= c.maxPages
    ensures Bfs(c, out, roots, ProcessStep(c, s, s.published[s.consumed], site(s.published[s.consumed].url)))
  {
    var t := ProcessStep(c, s, s.published[s.consumed], site(s.published[s.consumed].url));
    HeadPage(c, site, out, roots, s);
    forall n | n in roots
      ensures Covered(c, t, n, 0)
    {
      CoveredGrows(c, s, t, n, 0);
    }
    forall i, n | 0 <= i < t.consumed && t.published[i].depth < c.maxDepth && n in out(c.norm(t.published[i].url))
      ensures Covered(c, t, n, t.published[i].depth + 1)
    {
      assert t.published[i] == s.published[i];
      if i < s.consumed {
        CoveredGrows(c, s, t, n, s.published[i].depth + 1);
      }
    }
  }

  lemma {:induction false} DrainPagesGrow(c: Config, site: Url -> Answer, s: Store, seeds: nat)
    requires Inv(c, s, seeds)
    ensures s.pages <= Drain(c, site, s, seeds).pages
    decreases Measure(c, s)
  {
    if s.consumed == |s.published| {
    } else {
      var m := s.published[s.consumed];
      ProcessKeeps(c, s, site(m.url), seeds);
      DrainPagesGrow(c, site, ProcessStep(c, s, m, site(m.url)), seeds);
    }
  }

  lemma {:induction false} DrainKeepsBfs(c: Config, site: Url -> Answer, out: Norm -> set<Norm>, roots: set<Norm>,
                                         s: Store, seeds: nat)
    requires IsGraph(c, site, out) && Inv(c, s, seeds) && Bfs(c, out, roots, s)
    requires Drain(c, site, s, seeds).pages <= c.maxPages
    ensures Bfs(c, out, roots, Drain(c, site, s, seeds))
    decreases Measure(c, s)
  {
    if s.consumed == |s.published| {
    } else {
      var m := s.published[s.consumed];
      var t := ProcessStep(c, s, m, site(m.url));
      ProcessKeeps(c, s, site(m.url), seeds);
      DrainPagesGrow(c, site, t, seeds);
      StepKeepsBfs(c, site, out, roots, s);
      DrainKeepsBfs(c, site, out, roots, t, seeds);
    }
  }

  lemma SubsetOfSameSize<T>(a: set<T>, b: set<T>)
    requires a <= b && |b| <= |a|
    ensures a == b
  {
    assert |b - a| == |b| - |a|;
  }

  /** A store that only seeding has touched. */
  ghost predicate OnlySeeds(c: Config, roots: set<Norm>, s: Store, enqueued: nat) {
    && s.visited <= roots && |s.visited| == enqueued
    && (forall n | n in s.visited :: PublishedNorm(c, s, n))
    && (forall i | 0 <= i < |s.published| :: s.published[i].depth == 0 && c.norm(s.published[i].url) in s.visited)
  }

  lemma OneSeed(c: Config, roots: set<Norm>, s: Store, url: Url, enqueued: nat)
    requires OnlySeeds(c, roots, s, enqueued) && c.norm(url) in roots - s.visited
    ensures OnlySeeds(c, roots, Publish(s.(visited := s.visited + {c.norm(url)}), Msg(url, 0)), enqueued + 1)
  {
    var t := Publish(s.(visited := s.visited + {c.norm(url)}), Msg(url, 0));
    assert t.published[|s.published|] == Msg(url, 0);
    forall n | n in t.visited
      ensures PublishedNorm(c, t, n)
    {
      if n != c.norm(url) {
        var i :| 0 <= i < |s.published| && c.norm(s.published[i].url) == n;
        assert t.published[i] == s.published[i];
      }
    }
  }

  lemma SeedNormsStep(c: Config, seeds: seq<Url>)
    requires seeds != []
    ensures SeedNorms(c, seeds)
         == (if Allowed(c, seeds[0], true) then {c.norm(seeds[0])} else {}) + SeedNorms(c, seeds[1..])
  {
    assert forall u | u in seeds :: u == seeds[0] || u in seeds[1..];
  }

  lemma {:induction false} SeedingKeepsOnlySeeds(c: Config, roots: set<Norm>, s: Store, seeds: seq<Url>, enqueued: nat)
    requires SeedNorms(c, seeds) <= roots && OnlySeeds(c, roots, s, enqueued)
    ensures var (t, n) := SeedAll(c, s, seeds, enqueued);
            OnlySeeds(c, roots, t, n) && t.consumed == s.consumed
    decreases |seeds|
  {
    if seeds == [] || enqueued >= c.maxPages {
    } else {
      var n0 := c.norm(seeds[0]);
      SeedNormsStep(c, seeds);
      if Allowed(c, seeds[0], true) && n0 !in s.visited {
        OneSeed(c, roots, s, seeds[0], enqueued);
        SeedingKeepsOnlySeeds(c, roots, Publish(s.(visited := s.visited + {n0}), Msg(seeds[0], 0)), seeds[1..], enqueued + 1);
      } else {
        SeedingKeepsOnlySeeds(c, roots, s, seeds[1..], enqueued);
      }
    }
  }

  /** Seeding marks the allowed seeds of a prefix: of the whole list, or of as much of it as brings the
      number of messages to the limit. */
  lemma {:induction false} SeedingCovers(c: Config, s: Store, seeds: seq<Url>, enqueued: nat)
    ensures var (t, n) := SeedAll(c, s, seeds, enqueued);
            exists p :: 0 <= p <= |seeds| && t.visited == s.visited + SeedNorms(c, seeds[..p])
                        && (p == |seeds| || n >= c.maxPages)
    decreases |seeds|
  {
    var (t, n) := SeedAll(c, s, seeds, enqueued);
    if seeds == [] || enqueued >= c.maxPages {
      assert t.visited == s.visited + SeedNorms(c, seeds[..0]);
    } else {
      var n0 := c.norm(seeds[0]);
      var u, e := s, enqueued;
      if Allowed(c, seeds[0], true) && n0 !in s.visited {
        u, e := Publish(s.(visited := s.visited + {n0}), Msg(seeds[0], 0)), enqueued + 1;
      }
      assert (t, n) == SeedAll(c, u, seeds[1..], e);
      SeedingCovers(c, u, seeds[1..], e);
      hide SeedAll;
      var p :| 0 <= p <= |seeds| - 1 && t.visited == u.visited + SeedNorms(c, seeds[1..][..p])
               && (p == |seeds| - 1 || n >= c.maxPages);
      assert seeds[..p + 1][1..] == seeds[1..][..p];
      SeedNormsStep(c, seeds[..p + 1]);
      hide SeedNorms;
      assert t.visited == s.visited + SeedNorms(c, seeds[..p + 1]);
    }
  }

  /** With everything consumed, what is reachable within `k` links is covered at depth `k`. */
  lemma {:induction false} ReachableIsCovered(c: Config, out: Norm -> set<Norm>, roots: set<Norm>, s: Store, n: Norm, k: nat)
    requires Bfs(c, out, roots, s) && s.consumed == |s.published|
    requires forall i | 0 <= i < |s.published| && Leaf(c, s.published[i]) :: out(c.norm(s.published[i].url)) == {}
    requires Within(out, roots, n, k) && k <= c.maxDepth
    ensures Covered(c, s, n, k)
    decreases k
  {
    if k == 0 {
    } else if Within(out, roots, n, k - 1) {
      ReachableIsCovered(c, out, roots, s, n, k - 1);
    } else {
      var p :| Within(out, roots, p, k - 1) && n in out(p);
      ReachableIsCovered(c, out, roots, s, p, k - 1);
      var i :| 0 <= i < |s.published| && c.norm(s.published[i].url) == p
               && (Leaf(c, s.published[i]) || s.published[i].depth <= k - 1);
      assert Covered(c, s, n, s.published[i].depth + 1);
    }
  }

  /** Since no URL is published twice, a message at distance `k` or less was put at depth `k` or less. */
  lemma CoveredIsShallow(c: Config, s: Store, seeds: nat, i: nat, k: nat)
    requires Inv(c, s, seeds) && i < |s.published| && !Leaf(c, s.published[i])
    requires Covered(c, s, c.norm(s.published[i].url), k)
    ensures s.published[i].depth <= k
  {
    var j :| 0 <= j < |s.published| && c.norm(s.published[j].url) == c.norm(s.published[i].url)
             && (Leaf(c, s.published[j]) || s.published[j].depth <= k);
    assert i == j;
  }

  /** `n` was published exactly when it is reachable within the depth limit, and every message that
      is not a PDF leaf carries the length of a shortest link path. */
  ghost predicate Complete(c: Config, out: Norm -> set<Norm>, roots: set<Norm>, t: Store) {
    && (forall n :: PublishedNorm(c, t, n) <==> Within(out, roots, n, c.maxDepth))
    && (forall i, k: nat | 0 <= i < |t.published| && !Leaf(c, t.published[i]) ::
          Within(out, roots, c.norm(t.published[i].url), k) <==> t.published[i].depth <= k)
  }

  lemma DrainedIsComplete(c: Config, site: Url -> Answer, out: Norm -> set<Norm>, roots: set<Norm>, t: Store, seeds: nat)
    requires IsGraph(c, site, out) && Bfs(c, out, roots, t) && Inv(c, t, seeds) && t.consumed == |t.published|
    ensures Complete(c, out, roots, t)
  {
    forall i | 0 <= i < |t.published| && Leaf(c, t.published[i])
      ensures out(c.norm(t.published[i].url)) == {}
    {
      assert LinksOf(c, site, t.published[i].url) == {};
    }
    forall n
      ensures PublishedNorm(c, t, n) <==> Within(out, roots, n, c.maxDepth)
    {
      if PublishedNorm(c, t, n) {
        var i :| 0 <= i < |t.published| && c.norm(t.published[i].url) == n;
        WithinGrows(out, roots, n, t.published[i].depth, c.maxDepth);
      } else if Within(out, roots, n, c.maxDepth) {
        ReachableIsCovered(c, out, roots, t, n, c.maxDepth);
      }
    }
    forall i, k: nat | 0 <= i < |t.published| && !Leaf(c, t.published[i])
      ensures Within(out, roots, c.norm(t.published[i].url), k) <==> t.published[i].depth <= k
    {
      var n := c.norm(t.published[i].url);
      if t.published[i].depth <= k {
        WithinGrows(out, roots, n, t.published[i].depth, k);
      } else if Within(out, roots, n, k) {
        ReachableIsCovered(c, out, roots, t, n, k);
        CoveredIsShallow(c, t, seeds, i, k);
      }
    }
  }

  // ----- past the cap, something reachable is lost

  /** Holds with or without the cap: only reachable URLs are ever marked as visited or published. */
  ghost predicate OnlyReachable(c: Config, out: Norm -> set<Norm>, roots: set<Norm>, s: Store) {
    && (forall n | n in s.visited :: Within(out, roots, n, c.maxDepth))
    && (forall i | 0 <= i < |s.published| :: Within(out, roots, c.norm(s.published[i].url), s.published[i].depth))
  }

  lemma {:induction false} LinksStayReachable(c: Config, out: Norm -> set<Norm>, roots: set<Norm>, s: Store,
                                              page: Norm, depth: nat, links: seq<Url>)
    requires OnlyReachable(c, out, roots, s) && Within(out, roots, page, depth) && depth < c.maxDepth
    requires forall l | l in links && Allowed(c, l, false) :: c.norm(l) in out(page)
    ensures OnlyReachable(c, out, roots, EnqueueLinks(c, s, links, depth))
    decreases |links|
  {
    if links == [] {
    } else {
      var d := ChildDepth(c, depth, links[0]);
      var n := c.norm(links[0]);
      if Allowed(c, links[0], false) {
        assert Within(out, roots, n, depth + 1);
        WithinGrows(out, roots, n, depth + 1, d);
        WithinGrows(out, roots, n, depth + 1, c.maxDepth);
      }
      LinksStayReachable(c, out, roots, EnqueueStep(c, s, links[0], d).0, page, depth, links[1..]);
    }
  }

  lemma StepStaysReachable(c: Config, site: Url -> Answer, out: Norm -> set<Norm>, roots: set<Norm>, s: Store)
    requires IsGraph(c, site, out) && OnlyReachable(c, out, roots, s) && s.consumed < |s.published|
    ensures OnlyReachable(c, out, roots, ProcessStep(c, s, s.published[s.consumed], site(s.published[s.consumed].url)))
  {
    var m := s.published[s.consumed];
    if site(m.url).Fetched? && Walks(c, m, site(m.url).html) {
      assert LinksOf(c, site, m.url) == out(c.norm(m.url));
      var u := s.(consumed := s.consumed + 1, progress := s.progress.(bytes := s.progress.bytes + site(m.url).bytes));
      LinksStayReachable(c, out, roots, u, c.norm(m.url), m.depth, site(m.url).links);
    }
  }

  lemma {:induction false} DrainStaysReachable(c: Config, site: Url -> Answer, out: Norm -> set<Norm>, roots: set<Norm>,
                                               s: Store, seeds: nat)
    requires IsGraph(c, site, out) && Inv(c, s, seeds) && OnlyReachable(c, out, roots, s)
    ensures OnlyReachable(c, out, roots, Drain(c, site, s, seeds))
    decreases Measure(c, s)
  {
    if s.consumed == |s.published| {
    } else {
      var m := s.published[s.consumed];
      ProcessKeeps(c, s, site(m.url), seeds);
      StepStaysReachable(c, site, out, roots, s);
      DrainStaysReachable(c, site, out, roots, ProcessStep(c, s, m, site(m.url)), seeds);
    }
  }

  lemma FewerMessagesThanNorms(c: Config, pub: seq<Msg>, norms: set<Norm>)
    requires forall n | n in norms :: exists i :: 0 <= i < |pub| && c.norm(pub[i].url) == n
    ensures |norms| <= |pub|
    decreases |pub|
  {
    if pub == [] {
      assert norms == {};
    } else {
      var k := |pub| - 1;
      var last := c.norm(pub[k].url);
      forall n | n in norms - {last}
        ensures exists i :: 0 <= i < k && c.norm(pub[..k][i].url) == n
      {
        var i :| 0 <= i < |pub| && c.norm(pub[i].url) == n;
        assert pub[..k][i] == pub[i];
      }
      FewerMessagesThanNorms(c, pub[..k], norms - {last});
      assert |norms| <= |norms - {last}| + 1;
    }
  }

  /** Once an INCR has gone past the cap, a reachable URL was marked as visited and never published. */
  lemma PastCapIsIncomplete(c: Config, out: Norm -> set<Norm>, roots: set<Norm>, t: Store, seeds: nat)
    requires Inv(c, t, seeds) && OnlyReachable(c, out, roots, t) && t.pages > c.maxPages
    ensures !Complete(c, out, roots, t)
  {
    if forall n | n in t.visited :: PublishedNorm(c, t, n) {
      FewerMessagesThanNorms(c, t.published, t.visited);
    } else {
      var n :| n in t.visited && !PublishedNorm(c, t, n);
      assert Within(out, roots, n, c.maxDepth);
    }
  }

  // ----- from the seeds that were published

  lemma OnlySeedsIsBfs(c: Config, out: Norm -> set<Norm>, roots: set<Norm>, s: Store, enqueued: nat)
    requires OnlySeeds(c, roots, s, enqueued) && roots <= s.visited && s.consumed == 0
    ensures Bfs(c, out, roots, s) && OnlyReachable(c, out, roots, s)
  {
    forall n | n in roots
      ensures Covered(c, s, n, 0) && Within(out, roots, n, c.maxDepth)
    {
      var i :| 0 <= i < |s.published| && c.norm(s.published[i].url) == n;
      assert s.published[i].depth <= 0;
      WithinGrows(out, roots, n, 0, c.maxDepth);
    }
  }

  lemma DrainCompleteIff(c: Config, site: Url -> Answer, out: Norm -> set<Norm>, roots: set<Norm>, s: Store, seeds: nat)
    requires IsGraph(c, site, out) && Inv(c, s, seeds) && Bfs(c, out, roots, s) && OnlyReachable(c, out, roots, s)
    ensures Complete(c, out, roots, Drain(c, site, s, seeds)) <==> Drain(c, site, s, seeds).pages <= c.maxPages
  {
    var t := Drain(c, site, s, seeds);
    if t.pages <= c.maxPages {
      DrainKeepsBfs(c, site, out, roots, s, seeds);
      DrainedIsComplete(c, site, out, roots, t, seeds);
    } else {
      DrainStaysReachable(c, site, out, roots, s, seeds);
      PastCapIsIncomplete(c, out, roots, t, seeds);
    }
  }

  /** The seeds that seeding publishes: the first `maxPages` distinct allowed ones. */
  ghost function Started(c: Config, seedUrls: seq<Url>): (r: set<Norm>)
    ensures r <= SeedNorms(c, seedUrls) && |r| == Min(|SeedNorms(c, seedUrls)|, c.maxPages)
    ensures exists p :: 0 <= p <= |seedUrls| && r == SeedNorms(c, seedUrls[..p])
    ensures OnlySeeds(c, r, Seeded(c, seedUrls).0, Seeded(c, seedUrls).1)
  {
    StartedFacts(c, seedUrls);
    Seeded(c, seedUrls).0.visited
  }

  lemma StartedFacts(c: Config, seedUrls: seq<Url>)
    ensures var (s, n) := Seeded(c, seedUrls);
            && s.visited <= SeedNorms(c, seedUrls) && |s.visited| == Min(|SeedNorms(c, seedUrls)|, c.maxPages)
            && (exists p :: 0 <= p <= |seedUrls| && s.visited == SeedNorms(c, seedUrls[..p]))
            && OnlySeeds(c, s.visited, s, n)
  {
    hide SeedAll, SeedNorms, NoNormTwice, CountersMatch;
    var (s, n) := Seeded(c, seedUrls);
    var roots := SeedNorms(c, seedUrls);
    SeedingKeepsOnlySeeds(c, roots, EMPTY_STORE, seedUrls, 0);
    SeedingCovers(c, EMPTY_STORE, seedUrls, 0);
    var p :| 0 <= p <= |seedUrls| && s.visited == EMPTY_STORE.visited + SeedNorms(c, seedUrls[..p])
             && (p == |seedUrls| || n >= c.maxPages);
    assert s.visited == SeedNorms(c, seedUrls[..p]);
    assert seedUrls[..|seedUrls|] == seedUrls;
    SmallerSubset(s.visited, roots);
  }

  lemma SmallerSubset<T>(a: set<T>, b: set<T>)
    requires a <= b
    ensures |a| <= |b|
  {
    assert |b - a| == |b| - |a|;
  }

  lemma SomethingLeft<T>(a: set<T>, b: set<T>)
    requires |b| < |a|
    ensures exists x :: x in a && x !in b
  {
    if a <= b {
      SmallerSubset(a, b);
    }
  }

  ghost predicate IsReach(out: Norm -> set<Norm>, roots: set<Norm>, depth: nat, r: set<Norm>) {
    forall n :: n in r <==> Within(out, roots, n, depth)
  }

  /** No more than `limit` pages can be reached. */
  ghost predicate Fits(out: Norm -> set<Norm>, roots: set<Norm>, depth: nat, limit: nat) {
    exists r: set<Norm> :: IsReach(out, roots, depth, r) && |r| <= limit
  }

  /** From the seeds it started with, a crawl finds everything exactly when it all fits under the cap. */
  lemma StartedIsComplete(c: Config, site: Url -> Answer, out: Norm -> set<Norm>, seedUrls: seq<Url>)
    requires IsGraph(c, site, out)
    ensures var S := Started(c, seedUrls);
            && OnlyReachable(c, out, S, Crawl(c, site, seedUrls))
            && (Complete(c, out, S, Crawl(c, site, seedUrls)) <==> Fits(out, S, c.maxDepth, |S| + c.maxPages))
            && (Complete(c, out, S, Crawl(c, site, seedUrls)) <==> Crawl(c, site, seedUrls).pages <= c.maxPages)
  {
    var (s, n) := Seeded(c, seedUrls);
    var S := Started(c, seedUrls);
    var t := Crawl(c, site, seedUrls);
    OnlySeedsIsBfs(c, out, S, s, n);
    DrainCompleteIff(c, site, out, S, s, n);
    DrainStaysReachable(c, site, out, S, s, n);
    ReachableIsCounted(c, out, S, t, n);
  }

  lemma ReachableIsCounted(c: Config, out: Norm -> set<Norm>, roots: set<Norm>, t: Store, seeds: nat)
    requires Inv(c, t, seeds) && seeds == |roots| && OnlyReachable(c, out, roots, t)
    requires Complete(c, out, roots, t) <==> t.pages <= c.maxPages
    ensures Complete(c, out, roots, t) <==> Fits(out, roots, c.maxDepth, |roots| + c.maxPages)
  {
    if Complete(c, out, roots, t) {
      assert IsReach(out, roots, c.maxDepth, t.visited);
    } else if Fits(out, roots, c.maxDepth, |roots| + c.maxPages) {
      var r: set<Norm> :| IsReach(out, roots, c.maxDepth, r) && |r| <= |roots| + c.maxPages;
      SmallerSubset(t.visited, r);
    }
  }

  // ----- seeds past the limit

  ghost predicate PublishedAsLeaf(c: Config, t: Store, n: Norm) {
    exists i :: 0 <= i < |t.published| && c.norm(t.published[i].url) == n && Leaf(c, t.published[i])
  }

  lemma {:induction false} MoreRootsReachMore(out: Norm -> set<Norm>, S: set<Norm>, roots: set<Norm>, n: Norm, k: nat)
    requires S <= roots && Within(out, S, n, k)
    ensures Within(out, roots, n, k)
  {
    if k == 0 {
    } else if Within(out, S, n, k - 1) {
      MoreRootsReachMore(out, S, roots, n, k - 1);
    } else {
      var p :| Within(out, S, p, k - 1) && n in out(p);
      MoreRootsReachMore(out, S, roots, p, k - 1);
    }
  }

  /** Roots without links lead nowhere but to themselves. */
  lemma {:induction false} DeadEndsReachNothing(out: Norm -> set<Norm>, S: set<Norm>, roots: set<Norm>, n: Norm, k: nat)
    requires (forall o | o in roots - S :: out(o) == {}) && Within(out, roots, n, k)
    ensures Within(out, S, n, k) || n in roots - S
  {
    if k == 0 {
    } else if Within(out, roots, n, k - 1) {
      DeadEndsReachNothing(out, S, roots, n, k - 1);
    } else {
      var p :| Within(out, roots, p, k - 1) && n in out(p);
      DeadEndsReachNothing(out, S, roots, p, k - 1);
    }
  }

  lemma LateSeedsAsLeaves(c: Config, site: Url -> Answer, out: Norm -> set<Norm>, S: set<Norm>, roots: set<Norm>,
                          t: Store, seeds: nat)
    requires IsGraph(c, site, out) && Inv(c, t, seeds) && S <= roots && Complete(c, out, S, t)
    requires forall o | o in roots - S :: PublishedAsLeaf(c, t, o)
    ensures Complete(c, out, roots, t)
  {
    forall o | o in roots - S
      ensures out(o) == {} && PublishedNorm(c, t, o)
    {
      var i :| 0 <= i < |t.published| && c.norm(t.published[i].url) == o && Leaf(c, t.published[i]);
      assert LinksOf(c, site, t.published[i].url) == {};
    }
    forall n, k: nat | Within(out, roots, n, k)
      ensures Within(out, S, n, k) || (n in roots && n !in S)
    {
      DeadEndsReachNothing(out, S, roots, n, k);
    }
    forall n, k: nat | Within(out, S, n, k)
      ensures Within(out, roots, n, k)
    {
      MoreRootsReachMore(out, S, roots, n, k);
    }
    forall n
      ensures PublishedNorm(c, t, n) <==> Within(out, roots, n, c.maxDepth)
    {
      if n in roots - S {
        WithinGrows(out, roots, n, 0, c.maxDepth);
      }
    }
    forall i, k: nat | 0 <= i < |t.published| && !Leaf(c, t.published[i])
      ensures Within(out, roots, c.norm(t.published[i].url), k) <==> t.published[i].depth <= k
    {
      assert !PublishedAsLeaf(c, t, c.norm(t.published[i].url));
    }
  }

  lemma CompleteMeansLeaves(c: Config, out: Norm -> set<Norm>, S: set<Norm>, roots: set<Norm>, t: Store, seeds: nat)
    requires Inv(c, t, seeds) && S <= roots && OnlyReachable(c, out, S, t) && Complete(c, out, roots, t)
    ensures Complete(c, out, S, t) && forall o | o in roots - S :: PublishedAsLeaf(c, t, o)
  {
    forall n
      ensures PublishedNorm(c, t, n) <==> Within(out, S, n, c.maxDepth)
    {
      if PublishedNorm(c, t, n) {
        assert n in t.visited;
      } else if Within(out, S, n, c.maxDepth) {
        MoreRootsReachMore(out, S, roots, n, c.maxDepth);
      }
    }
    forall i, k: nat | 0 <= i < |t.published| && !Leaf(c, t.published[i])
      ensures Within(out, S, c.norm(t.published[i].url), k) <==> t.published[i].depth <= k
    {
      var n := c.norm(t.published[i].url);
      if t.published[i].depth <= k {
        WithinGrows(out, S, n, t.published[i].depth, k);
      } else if Within(out, S, n, k) {
        MoreRootsReachMore(out, S, roots, n, k);
      }
    }
    forall o | o in roots - S
      ensures PublishedAsLeaf(c, t, o)
    {
      assert Within(out, roots, o, 0);
      WithinGrows(out, roots, o, 0, c.maxDepth);
      assert PublishedNorm(c, t, o);
      var i :| 0 <= i < |t.published| && c.norm(t.published[i].url) == o;
      assert !Leaf(c, t.published[i]) ==> t.published[i].depth <= 0;
      assert t.published[i].depth == 0 ==> !Within(out, S, o, t.published[i].depth);
    }
  }

  // ----- the main theorems

  /** Seed, drain, and nothing reachable from any allowed seed is missed or reached late: exactly when what
      the first `maxPages` seeds reach is at most those seeds and `maxPages` more, and every later seed
      turned up as a PDF link. */
  lemma CrawlIsComplete(c: Config, site: Url -> Answer, out: Norm -> set<Norm>, seedUrls: seq<Url>)
    requires IsGraph(c, site, out)
    ensures var S := Started(c, seedUrls);
            var t := Crawl(c, site, seedUrls);
            Complete(c, out, SeedNorms(c, seedUrls), t)
            <==> Fits(out, S, c.maxDepth, |S| + c.maxPages)
                 && forall o | o in SeedNorms(c, seedUrls) - S :: PublishedAsLeaf(c, t, o)
  {
    hide Crawl, Complete, Fits, IsGraph, PublishedAsLeaf, Started;
    var S := Started(c, seedUrls);
    var roots := SeedNorms(c, seedUrls);
    var t := Crawl(c, site, seedUrls);
    var n := Seeded(c, seedUrls).1;
    CrawlKeepsInv(c, site, seedUrls);
    StartedIsComplete(c, site, out, seedUrls);
    if Complete(c, out, roots, t) {
      CompleteMeansLeaves(c, out, S, roots, t, n);
    } else if Complete(c, out, S, t) && forall o | o in roots - S :: PublishedAsLeaf(c, t, o) {
      LateSeedsAsLeaves(c, site, out, S, roots, t, n);
    }
  }

  lemma CrawlKeepsInv(c: Config, site: Url -> Answer, seedUrls: seq<Url>)
    ensures Inv(c, Crawl(c, site, seedUrls), Seeded(c, seedUrls).1)
  {
  }

  /** When the distinct allowed seeds fit under the limit, completeness is a property of the link graph: the
      pages reachable within the depth limit are no more than the seeds and `maxPages` more. */
  lemma CompleteIffItFits(c: Config, site: Url -> Answer, out: Norm -> set<Norm>, seedUrls: seq<Url>)
    requires IsGraph(c, site, out) && |SeedNorms(c, seedUrls)| <= c.maxPages
    ensures var roots := SeedNorms(c, seedUrls);
            Complete(c, out, roots, Crawl(c, site, seedUrls)) <==> Fits(out, roots, c.maxDepth, |roots| + c.maxPages)
  {
    hide Crawl, Complete, Fits, IsGraph, PublishedAsLeaf;
    CrawlIsComplete(c, site, out, seedUrls);
    SubsetOfSameSize(Started(c, seedUrls), SeedNorms(c, seedUrls));
  }

  // ----- where published URLs come from

  /** `u` is an allowed link on some page that is fetched and walked. */
  ghost predicate IsLink(c: Config, site: Url -> Answer, u: Url) {
    Allowed(c, u, false) &&
    exists page :: !c.isPdf(page) && site(page).Fetched? && site(page).html && u in site(page).links
  }

  predicate PdfLink(c: Config, u: Url) {
    c.followPdfs && c.isPdf(u)
  }

  /** Every published URL stands for a started seed or was found as a link, a PDF at the depth limit. */
  ghost predicate Origins(c: Config, site: Url -> Answer, S: set<Norm>, s: Store) {
    forall i | 0 <= i < |s.published| ::
      || (c.norm(s.published[i].url) in S && s.published[i].depth == 0)
      || (IsLink(c, site, s.published[i].url)
          && (PdfLink(c, s.published[i].url) ==> s.published[i].depth == c.maxDepth))
  }

  lemma {:induction false} LinksKeepOrigins(c: Config, site: Url -> Answer, S: set<Norm>, s: Store, links: seq<Url>,
                                            depth: nat)
    requires Origins(c, site, S, s) && forall l | l in links && Allowed(c, l, false) :: IsLink(c, site, l)
    ensures Origins(c, site, S, EnqueueLinks(c, s, links, depth))
    decreases |links|
  {
    hide IsLink;
    if links == [] {
    } else {
      var d := ChildDepth(c, depth, links[0]);
      LinksKeepOrigins(c, site, S, EnqueueStep(c, s, links[0], d).0, links[1..], depth);
    }
  }

  lemma StepKeepsOrigins(c: Config, site: Url -> Answer, S: set<Norm>, s: Store)
    requires Origins(c, site, S, s) && s.consumed < |s.published|
    ensures Origins(c, site, S, ProcessStep(c, s, s.published[s.consumed], site(s.published[s.consumed].url)))
  {
    var m := s.published[s.consumed];
    if site(m.url).Fetched? && Walks(c, m, site(m.url).html) {
      var u := s.(consumed := s.consumed + 1, progress := s.progress.(bytes := s.progress.bytes + site(m.url).bytes));
      LinksKeepOrigins(c, site, S, u, site(m.url).links, m.depth);
    }
  }

  lemma {:induction false} DrainKeepsOrigins(c: Config, site: Url -> Answer, S: set<Norm>, s: Store, seeds: nat)
    requires Inv(c, s, seeds) && Origins(c, site, S, s)
    ensures Origins(c, site, S, Drain(c, site, s, seeds))
    decreases Measure(c, s)
  {
    if s.consumed == |s.published| {
    } else {
      var m := s.published[s.consumed];
      ProcessKeeps(c, s, site(m.url), seeds);
      StepKeepsOrigins(c, site, S, s);
      DrainKeepsOrigins(c, site, S, ProcessStep(c, s, m, site(m.url)), seeds);
    }
  }

  lemma CrawlKeepsOrigins(c: Config, site: Url -> Answer, seedUrls: seq<Url>)
    ensures Origins(c, site, Started(c, seedUrls), Crawl(c, site, seedUrls))
  {
    var (s, n) := Seeded(c, seedUrls);
    assert OnlySeeds(c, Started(c, seedUrls), s, n);
    DrainKeepsOrigins(c, site, Started(c, seedUrls), s, n);
  }

  /** A PDF that is not one of the started seeds is put at the depth limit, however near it was found. */
  lemma FoundPdfsAreDeep(c: Config, site: Url -> Answer, seedUrls: seq<Url>, i: nat)
    requires i < |Crawl(c, site, seedUrls).published|
    ensures var m := Crawl(c, site, seedUrls).published[i];
            c.norm(m.url) !in Started(c, seedUrls) && c.followPdfs && c.isPdf(m.url) ==> m.depth == c.maxDepth
  {
    hide Crawl, Started, IsLink;
    CrawlKeepsOrigins(c, site, seedUrls);
  }

  ghost predicate SomePdfLink(c: Config, site: Url -> Answer, o: Norm) {
    exists u :: IsLink(c, site, u) && c.norm(u) == o && PdfLink(c, u)
  }

  ghost predicate OnlyPdfLinks(c: Config, site: Url -> Answer, o: Norm) {
    forall u | IsLink(c, site, u) && c.norm(u) == o :: PdfLink(c, u)
  }

  lemma LateSeedInCrawl(c: Config, site: Url -> Answer, out: Norm -> set<Norm>, S: set<Norm>, t: Store, o: Norm)
    requires Origins(c, site, S, t) && Complete(c, out, S, t) && o !in S
    ensures Within(out, S, o, c.maxDepth) && OnlyPdfLinks(c, site, o) ==> PublishedAsLeaf(c, t, o)
    ensures PublishedAsLeaf(c, t, o) ==> Within(out, S, o, c.maxDepth) && SomePdfLink(c, site, o)
  {
    hide IsLink, Within;
    assert PublishedNorm(c, t, o) <==> Within(out, S, o, c.maxDepth);
    if i :| 0 <= i < |t.published| && c.norm(t.published[i].url) == o {
      assert IsLink(c, site, t.published[i].url);
    }
    if i :| 0 <= i < |t.published| && c.norm(t.published[i].url) == o && Leaf(c, t.published[i]) {
      assert IsLink(c, site, t.published[i].url);
    }
  }

  /** For any number of seeds, on the link graph: a crawl is complete if what the started seeds reach fits and
      every later seed is reachable and linked to as a PDF only, and it is not complete unless every later
      seed is reachable and linked to as a PDF at least once. */
  lemma ManySeeds(c: Config, site: Url -> Answer, out: Norm -> set<Norm>, seedUrls: seq<Url>)
    requires IsGraph(c, site, out)
    ensures var S, roots := Started(c, seedUrls), SeedNorms(c, seedUrls);
            && (Fits(out, S, c.maxDepth, |S| + c.maxPages)
                && (forall o | o in roots - S :: Within(out, S, o, c.maxDepth) && OnlyPdfLinks(c, site, o))
                ==> Complete(c, out, roots, Crawl(c, site, seedUrls)))
            && (Complete(c, out, roots, Crawl(c, site, seedUrls)) ==>
                  && Fits(out, S, c.maxDepth, |S| + c.maxPages)
                  && forall o | o in roots - S :: Within(out, S, o, c.maxDepth) && SomePdfLink(c, site, o))
  {
    hide Crawl, IsGraph, Fits, Started, OnlyPdfLinks, SomePdfLink, Complete;
    var S := Started(c, seedUrls);
    var t := Crawl(c, site, seedUrls);
    CrawlIsComplete(c, site, out, seedUrls);
    StartedIsComplete(c, site, out, seedUrls);
    CrawlKeepsOrigins(c, site, seedUrls);
    if Complete(c, out, S, t) {
      forall o | o in SeedNorms(c, seedUrls) - S
        ensures Within(out, S, o, c.maxDepth) && OnlyPdfLinks(c, site, o) ==> PublishedAsLeaf(c, t, o)
        ensures PublishedAsLeaf(c, t, o) ==> Within(out, S, o, c.maxDepth) && SomePdfLink(c, site, o)
      {
        LateSeedInCrawl(c, site, out, S, t, o);
      }
    }
  }

  /** Hence the exact condition unless a later seed is linked to both as a PDF and not, in which case it
      depends on the link that is taken up first. */
  lemma CompleteWithManySeeds(c: Config, site: Url -> Answer, out: Norm -> set<Norm>, seedUrls: seq<Url>)
    requires IsGraph(c, site, out)
    requires forall o | o in SeedNorms(c, seedUrls) - Started(c, seedUrls) ::
               SomePdfLink(c, site, o) ==> OnlyPdfLinks(c, site, o)
    ensures var S := Started(c, seedUrls);
            Complete(c, out, SeedNorms(c, seedUrls), Crawl(c, site, seedUrls))
            <==> Fits(out, S, c.maxDepth, |S| + c.maxPages)
                 && forall o | o in SeedNorms(c, seedUrls) - S ::
                      Within(out, S, o, c.maxDepth) && SomePdfLink(c, site, o)
  {
    hide Crawl, IsGraph, Fits, Started, OnlyPdfLinks, SomePdfLink, Complete;
    ManySeeds(c, site, out, seedUrls);
  }

  /** A seed past the limit is lost, or only found again behind a link, unless some page links to it as a
      PDF. */
  lemma LateSeedIsLost(c: Config, site: Url -> Answer, out: Norm -> set<Norm>, seedUrls: seq<Url>, o: Norm)
    requires IsGraph(c, site, out) && o in SeedNorms(c, seedUrls) - Started(c, seedUrls)
    requires !SomePdfLink(c, site, o)
    ensures !Complete(c, out, SeedNorms(c, seedUrls), Crawl(c, site, seedUrls))
  {
    hide Crawl, Complete, IsGraph, Fits, Started, SomePdfLink;
    ManySeeds(c, site, out, seedUrls);
  }

  /** More distinct allowed seeds than the limit, and no page links to one of the later ones as a PDF: never
      complete. */
  lemma SeedsPastTheLimitAreLost(c: Config, site: Url -> Answer, out: Norm -> set<Norm>, seedUrls: seq<Url>)
    requires IsGraph(c, site, out) && |SeedNorms(c, seedUrls)| > c.maxPages
    requires forall o | o in SeedNorms(c, seedUrls) - Started(c, seedUrls) :: !SomePdfLink(c, site, o)
    ensures !Complete(c, out, SeedNorms(c, seedUrls), Crawl(c, site, seedUrls))
  {
    hide Crawl, Complete, IsGraph, SomePdfLink, SeedNorms;
    var S := Started(c, seedUrls);
    var roots := SeedNorms(c, seedUrls);
    SomethingLeft(roots, S);
    var o :| o in roots && o !in S;
    LateSeedIsLost(c, site, out, seedUrls, o);
  }

  /** How many messages a crawl has in all, told from the link graph: what the started seeds reach, cut at
      those seeds and `maxPages` more. */
  lemma CrawlSize(c: Config, site: Url -> Answer, out: Norm -> set<Norm>, seedUrls: seq<Url>)
    requires IsGraph(c, site, out)
    ensures var S, size := Started(c, seedUrls), |Crawl(c, site, seedUrls).published|;
            && (forall r | IsReach(out, S, c.maxDepth, r) :: size == Min(|r|, |S| + c.maxPages))
            && ((forall r :: !IsReach(out, S, c.maxDepth, r)) ==> size == |S| + c.maxPages)
  {
    var S := Started(c, seedUrls);
    var t := Crawl(c, site, seedUrls);
    StartedIsComplete(c, site, out, seedUrls);
    CrawlKeepsInv(c, site, seedUrls);
    hide Crawl, IsGraph, Started;
    forall r | IsReach(out, S, c.maxDepth, r)
      ensures |t.published| == Min(|r|, |S| + c.maxPages)
    {
      SmallerSubset(t.visited, r);
      if Complete(c, out, S, t) {
        assert t.visited == r;
      }
    }
  }
}
