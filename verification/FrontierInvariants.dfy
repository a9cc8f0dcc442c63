/** What every frontier step keeps: counter conservation, the page budget, at-most-once
    publication, and termination of the drain with an exact message count. */
module FrontierInvariants {
  import opened Basics
  import opened Documents
  import opened CrawlFrontier

  // ----- counters

  /** The Redis progress hash, told from the message history alone. */
  ghost predicate CountersMatch(s: Store) {
    && s.dropped <= s.consumed <= |s.published|
    && s.progress.discovered == |s.published|
    && s.progress.fetched == s.consumed - s.dropped
    && s.progress.pending == (|s.published| - s.consumed) + s.dropped
    && s.progress.bytes >= 0
  }

  /** The lower bounds `CrawlProgress` enforces when a flush validates the counters. */
  predicate ProgressAccepted(p: Progress) {
    p.discovered >= 0 && p.fetched >= 0 && p.pending >= 0 && p.bytes >= 0
  }

  lemma CountersAreConserved(s: Store)
    requires CountersMatch(s)
    ensures s.progress.discovered == s.progress.fetched + s.progress.pending
    ensures ProgressAccepted(s.progress)
  {
  }

  // ----- budget

  /** `seeds` messages came from `start`; the rest are exactly the INCRs that stayed within the cap. */
  ghost predicate BudgetMatches(c: Config, s: Store, seeds: nat) {
    && seeds <= c.maxPages
    && |s.published| == seeds + Min(s.pages, c.maxPages)
    && |s.visited| == seeds + s.pages
  }

  /** Queue length plus remaining child-page budget. */
  function Measure(c: Config, s: Store): nat
    requires s.consumed <= |s.published|
  {
    (|s.published| - s.consumed) + (c.maxPages - Min(s.pages, c.maxPages))
  }

  // ----- at most once

  ghost predicate NoNormTwice(c: Config, s: Store) {
    && (forall i | 0 <= i < |s.published| :: c.norm(s.published[i].url) in s.visited)
    && (forall i, j | 0 <= i < j < |s.published| :: c.norm(s.published[i].url) != c.norm(s.published[j].url))
    && (forall i | 0 <= i < |s.published| :: s.published[i].depth <= c.maxDepth)
  }

  ghost predicate Inv(c: Config, s: Store, seeds: nat) {
    CountersMatch(s) && BudgetMatches(c, s, seeds) && NoNormTwice(c, s)
  }

  lemma PublishKeepsNorms(c: Config, s: Store, m: Msg)
    requires NoNormTwice(c, s) && c.norm(m.url) !in s.visited && m.depth <= c.maxDepth
    ensures NoNormTwice(c, Publish(s.(visited := s.visited + {c.norm(m.url)}), m))
  {
  }

  lemma EnqueueKeeps(c: Config, s: Store, url: Url, depth: nat, seeds: nat)
    requires Inv(c, s, seeds)
    ensures var t := EnqueueStep(c, s, url, depth).0;
            Inv(c, t, seeds) && s.published <= t.published && s.pages <= t.pages
            && t.consumed == s.consumed && t.dropped == s.dropped && Measure(c, t) == Measure(c, s)
            && t.progress.bytes == s.progress.bytes
  {
    if depth <= c.maxDepth && c.norm(url) !in s.visited {
      PublishKeepsNorms(c, s, Msg(url, depth));
    }
  }

  lemma {:induction false} LinksKeep(c: Config, s: Store, links: seq<Url>, depth: nat, seeds: nat)
    requires Inv(c, s, seeds)
    ensures var t := EnqueueLinks(c, s, links, depth);
            Inv(c, t, seeds) && s.published <= t.published && s.pages <= t.pages
            && t.consumed == s.consumed && t.dropped == s.dropped && Measure(c, t) == Measure(c, s)
            && t.progress.bytes == s.progress.bytes
    decreases |links|
  {
    if links == [] {
    } else {
      var d := ChildDepth(c, depth, links[0]);
      EnqueueKeeps(c, s, links[0], d, seeds);
      LinksKeep(c, EnqueueStep(c, s, links[0], d).0, links[1..], depth, seeds);
    }
  }

  /** One message, whatever it answers, keeps the invariant and uses up exactly one unit of the measure. */
  lemma ProcessKeeps(c: Config, s: Store, answer: Answer, seeds: nat)
    requires Inv(c, s, seeds) && s.consumed < |s.published|
    ensures var t := ProcessStep(c, s, s.published[s.consumed], answer);
            Inv(c, t, seeds) && s.published <= t.published && s.pages <= t.pages
            && t.consumed == s.consumed + 1 && Measure(c, t) == Measure(c, s) - 1
            && t.progress.bytes == s.progress.bytes + (if answer.Fetched? then answer.bytes else 0)
  {
    var m := s.published[s.consumed];
    if answer.Fetched? && Walks(c, m, answer.html) {
      // The walk runs on a state whose counters lag by the message in hand; relate it to one that does not.
      var u := s.(progress := s.progress.(bytes := s.progress.bytes + answer.bytes));
      LinksKeep(c, u, answer.links, m.depth, seeds);
      ConsumedIsIndependent(c, u, answer.links, m.depth);
    }
  }

  /** Enqueueing neither reads nor writes the consumed count. */
  lemma {:induction false} ConsumedIsIndependent(c: Config, s: Store, links: seq<Url>, depth: nat)
    ensures EnqueueLinks(c, s.(consumed := s.consumed + 1), links, depth)
         == EnqueueLinks(c, s, links, depth).(consumed := s.consumed + 1)
    ensures EnqueueLinks(c, s, links, depth).consumed == s.consumed
    decreases |links|
  {
    if links == [] {
    } else {
      var d := ChildDepth(c, depth, links[0]);
      assert EnqueueStep(c, s.(consumed := s.consumed + 1), links[0], d).0
          == EnqueueStep(c, s, links[0], d).0.(consumed := s.consumed + 1);
      ConsumedIsIndependent(c, EnqueueStep(c, s, links[0], d).0, links[1..], depth);
    }
  }

  /** Seeding an empty store: one message per seed counted, none beyond the page limit, all at depth 0. */
  lemma {:induction false} SeedKeeps(c: Config, s: Store, seeds: seq<Url>, enqueued: nat)
    requires Inv(c, s, enqueued) && s.pages == 0
    ensures var r := SeedAll(c, s, seeds, enqueued);
            Inv(c, r.0, r.1) && r.0.pages == 0 && r.0.consumed == s.consumed && s.published <= r.0.published
            && r.0.progress.bytes == s.progress.bytes
    decreases |seeds|
  {
    if seeds == [] || enqueued >= c.maxPages {
    } else if !Allowed(c, seeds[0], true) || c.norm(seeds[0]) in s.visited {
      SeedKeeps(c, s, seeds[1..], enqueued);
    } else {
      PublishKeepsNorms(c, s, Msg(seeds[0], 0));
      var t := Publish(s.(visited := s.visited + {c.norm(seeds[0])}), Msg(seeds[0], 0));
      SeedKeeps(c, t, seeds[1..], enqueued + 1);
    }
  }

  // ----- whole runs

  /** Process messages in queue order until none is left.  Whatever the pages answer, that takes exactly
      as many messages as seeds were published plus INCRs stayed within the cap, hence at most twice the
      page limit; what is still pending then is what failed to fetch. */
  ghost function Drain(c: Config, site: Url -> Answer, s: Store, seeds: nat): (t: Store)
    requires Inv(c, s, seeds)
    ensures Inv(c, t, seeds)
    ensures t.consumed == |t.published| == seeds + Min(t.pages, c.maxPages) <= 2 * c.maxPages
    ensures t.progress.pending == t.dropped && t.progress.fetched + t.dropped == t.consumed
    decreases Measure(c, s)
  {
    if s.consumed == |s.published| then s
    else
      var m := s.published[s.consumed];
      ProcessKeeps(c, s, site(m.url), seeds);
      Drain(c, site, ProcessStep(c, s, m, site(m.url)), seeds)
  }

  /** The state after `start`, and how many seeds it published. */
  ghost function Seeded(c: Config, seedUrls: seq<Url>): (r: (Store, nat))
    ensures Inv(c, r.0, r.1) && r.0.pages == 0 && r.0.consumed == 0 && r.0.progress.bytes == 0
  {
    SeedKeeps(c, EMPTY_STORE, seedUrls, 0);
    SeedAll(c, EMPTY_STORE, seedUrls, 0)
  }

  ghost function Crawl(c: Config, site: Url -> Answer, seedUrls: seq<Url>): (t: Store)
    ensures |t.published| <= 2 * c.maxPages && NoNormTwice(c, t)
  {
    var (s, n) := Seeded(c, seedUrls);
    Drain(c, site, s, n)
  }
}
