/** What a finished crawl has to show: breadth-first completeness and the delta filter put together. */
module CrawlResults {
  import opened Basics
  import opened Documents
  import opened CrawlFrontier
  import opened FrontierInvariants
  import opened BfsCompleteness
  import opened DeltaFilter
  import opened JobStatus
  import opened PollLoop
  import opened CrawlRunner

  /** Nothing about this page is missing: it could not be fetched or read, or its content is in the
      baseline or among the rows. */
  ghost predicate AccountedFor(answer: Answer, baseline: set<string>, rows: seq<Doc>) {
    answer.Fetched? ==>
      && (HasHash(answer.doc) ==> answer.doc.extraction.value.hash in baseline + Hashes(rows))
      && (Hashless(answer.doc) ==> answer.doc in rows)
  }

  lemma {:induction false} ConsumedDocIsListed(site: Url -> Answer, msgs: seq<Msg>, i: nat)
    requires i < |msgs| && site(msgs[i].url).Fetched?
    ensures site(msgs[i].url).doc in DocsOf(site, msgs)
    decreases |msgs|
  {
    var n := |msgs| - 1;
    if i == n {
    } else {
      ConsumedDocIsListed(site, msgs[..n], i);
    }
  }

  lemma {:induction false} SurvivorIsRow(baseline: set<string>, docs: seq<Doc>, n: nat, i: nat)
    requires i < n <= |docs| && Survives(baseline, docs, i)
    ensures docs[i] in Survivors(baseline, docs, n)
  {
    if i == n - 1 {
    } else {
      SurvivorIsRow(baseline, docs, n - 1, i);
    }
  }

  lemma DocIsAccountedFor(baseline: set<string>, docs: seq<Doc>, d: Doc)
    requires d in docs
    ensures var rows := PersistAll(baseline, docs).1;
            && (HasHash(d) ==> d.extraction.value.hash in baseline + Hashes(rows))
            && (Hashless(d) ==> d in rows)
  {
    PersistAllMeetsSpec(baseline, docs);
    if HasHash(d) {
      assert d.extraction.value.hash in Hashes(docs);
    }
    if Hashless(d) {
      var i :| 0 <= i < |docs| && docs[i] == d;
      SurvivorIsRow(baseline, docs, |docs|, i);
    }
  }

  /** When seeds and reachable pages fit under the limits, the drained crawl accounts for every page reachable
      from its seeds within the depth limit. */
  lemma EveryReachablePageIsAccountedFor(c: Config, site: Url -> Answer, out: Norm -> set<Norm>, seedUrls: seq<Url>,
                                         baseline: set<string>, n: Norm)
    requires IsGraph(c, site, out) && |SeedNorms(c, seedUrls)| <= c.maxPages
    requires Fits(out, SeedNorms(c, seedUrls), c.maxDepth, |SeedNorms(c, seedUrls)| + c.maxPages)
    requires Within(out, SeedNorms(c, seedUrls), n, c.maxDepth)
    ensures var t := Crawl(c, site, seedUrls);
            var rows := PersistAll(baseline, DocsOf(site, t.published)).1;
            exists i :: 0 <= i < |t.published| && c.norm(t.published[i].url) == n
                        && AccountedFor(site(t.published[i].url), baseline, rows)
  {
    CompleteIffItFits(c, site, out, seedUrls);
    var t := Crawl(c, site, seedUrls);
    hide Crawl, IsGraph, Within, PersistAll, DocsOf;
    assert PublishedNorm(c, t, n);
    var i :| 0 <= i < |t.published| && c.norm(t.published[i].url) == n;
    if site(t.published[i].url).Fetched? {
      ConsumedDocIsListed(site, t.published, i);
      DocIsAccountedFor(baseline, DocsOf(site, t.published), site(t.published[i].url).doc);
    }
  }

  /** When a job is reported done with messages still queued, told from the link graph and the broker's
      answers: a timeout cuts the loop short before it has had as many replies as the started seeds reach,
      cut at those seeds and `maxPages` more. */
  lemma DoneEarlyOnGraph(c: Config, site: Url -> Answer, out: Norm -> set<Norm>, seedUrls: seq<Url>, env: nat -> Tick,
                         r: set<Norm>)
    requires IsGraph(c, site, out) && IsReach(out, Started(c, seedUrls), c.maxDepth, r)
    ensures var size := Min(|r|, |Started(c, seedUrls)| + c.maxPages);
            var end := Loop(env, Total(c, site, seedUrls), 0, 0, 0);
            && Total(c, site, seedUrls) == size
            && (end.verdict == Stop(Done) && end.handled < size <==> LosesMessages(env, size))
  {
    CrawlSize(c, site, out, seedUrls);
    DoneEarlyIff(env, Total(c, site, seedUrls));
    hide Crawl, IsGraph, IsReach, Loop, LosesMessages, Started;
  }
}
