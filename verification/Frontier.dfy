/** The crawl frontier: URL filter, sitemap seeding, and the operations that move a job's Redis
    counters, its visited set and its RabbitMQ queue.  `Store` is the abstract state; the class
    `Frontier` holds the real fields and every method is proved to take the `Store` step that the
    lemmas of `FrontierInvariants` and `BfsCompleteness` reason about. */
module CrawlFrontier {
  import opened Basics
  import opened Documents

  type Norm(==, !new)

  /** What `re.search` answers for a pattern; an invalid pattern is logged and skipped. */
  datatype Search = Hit | Miss | BadPattern

  datatype Config = Config(
    maxDepth: nat,
    maxPages: nat,
    followPdfs: bool,
    includePatterns: seq<string>,
    excludePatterns: seq<string>,
    norm: Url -> Norm,
    isPdf: Url -> bool,
    domainOk: Url -> bool,
    search: (string, Url) -> Search)

  datatype Msg = Msg(url: Url, depth: nat)

  /** What fetching, rendering, extracting and link extraction together yield for one URL. */
  datatype Answer =
    | FetchFailed
    | Fetched(bytes: nat, html: bool, links: seq<Url>, doc: Doc)

  datatype Progress = Progress(discovered: int, fetched: int, pending: int, bytes: int)

  /** `published` is every message ever put on the job's queue, oldest first; the first `consumed`
      of them have been taken off again, `dropped` of those because their fetch failed. */
  datatype Store = Store(
    visited: set<Norm>,
    pages: nat,
    published: seq<Msg>,
    consumed: nat,
    dropped: nat,
    progress: Progress)

  const EMPTY_STORE := Store({}, 0, [], 0, 0, Progress(0, 0, 0, 0))

  // ----- the URL filter

  /** The filtering rules as the module documentation lists them. */
  predicate Allowed(c: Config, url: Url, skipInclude: bool) {
    && c.domainOk(url)
    && (forall p | p in c.excludePatterns :: c.search(p, url) != Hit)
    && (skipInclude || c.includePatterns == [] || exists p | p in c.includePatterns :: c.search(p, url) == Hit)
  }

  method UrlAllowed(c: Config, url: Url, skipInclude: bool) returns (ok: bool)
    ensures ok <==> Allowed(c, url, skipInclude)
    ensures ok <==>
              && c.domainOk(url)
              && (forall p | p in c.excludePatterns :: c.search(p, url) != Hit)
              && (!skipInclude && c.includePatterns != [] ==> exists p | p in c.includePatterns :: c.search(p, url) == Hit)
  {
    if !c.domainOk(url) {
      return false;
    }
    for i := 0 to |c.excludePatterns|
      invariant forall k | 0 <= k < i :: c.search(c.excludePatterns[k], url) != Hit
    {
      if c.search(c.excludePatterns[i], url) == Hit {
        return false;
      }
    }
    if c.includePatterns != [] && !skipInclude {
      var matched := false;
      for i := 0 to |c.includePatterns|
        invariant !matched
        invariant forall k | 0 <= k < i :: c.search(c.includePatterns[k], url) != Hit
      {
        if c.search(c.includePatterns[i], url) == Hit {
          matched := true;
          break;
        }
      }
      if !matched {
        return false;
      }
    }
    return true;
  }

  // ----- sitemap seeding

  /** Every page URL a sitemap names, with nested sitemaps opened one level and nothing cut off. */
  function Flatten(locs: seq<Url>, nested: Url -> bool, fetchXml: Url -> Option<seq<Url>>): seq<Url> {
    if locs == [] then []
    else
      (if !nested(locs[0]) then [locs[0]]
       else if fetchXml(locs[0]).Some? then fetchXml(locs[0]).value else [])
      + Flatten(locs[1..], nested, fetchXml)
  }

  /** Entry by entry and in order: a page is itself, a nested sitemap its pages if it can be fetched. */
  lemma {:induction false} FlattenPieces(a: seq<Url>, b: seq<Url>, u: Url, nested: Url -> bool,
                                         fetchXml: Url -> Option<seq<Url>>)
    ensures Flatten(a + b, nested, fetchXml) == Flatten(a, nested, fetchXml) + Flatten(b, nested, fetchXml)
    ensures !nested(u) ==> Flatten([u], nested, fetchXml) == [u]
    ensures nested(u) ==>
              Flatten([u], nested, fetchXml) == match fetchXml(u) case None => [] case Some(pages) => pages
  {
    if a == [] {
      assert a + b == b;
    } else {
      assert (a + b)[1..] == a[1..] + b;
      FlattenPieces(a[1..], b, u, nested, fetchXml);
    }
  }

  function Take<T>(s: seq<T>, n: nat): (r: seq<T>)
    ensures r <= s && |r| == Min(|s|, n)
  {
    if |s| <= n then s else s[..n]
  }

  /** Cutting one page list down to the room that is left does not change the first `n` URLs overall. */
  lemma TakeOfTake<T>(a: seq<T>, b: seq<T>, rest: seq<T>, n: nat)
    requires |a| <= n
    ensures Take(a + (b + rest), n) == Take((a + Take(b, n - |a|)) + rest, n)
  {
    if |b| <= n - |a| {
      assert a + (b + rest) == (a + b) + rest;
    } else {
      var x, y := a + (b + rest), (a + b[..n - |a|]) + rest;
      assert x[..n] == a + b[..n - |a|] == y[..n];
    }
  }

  lemma FlattenStep(locs: seq<Url>, i: nat, nested: Url -> bool, fetchXml: Url -> Option<seq<Url>>)
    requires i < |locs|
    ensures Flatten(locs[i..], nested, fetchXml) ==
            (if !nested(locs[i]) then [locs[i]]
             else if fetchXml(locs[i]).Some? then fetchXml(locs[i]).value else [])
            + Flatten(locs[i + 1..], nested, fetchXml)
  {
    assert locs[i..][1..] == locs[i + 1..];
  }

  /** Stopping early loses nothing: the result is the first `maxPages` URLs of the full expansion. */
  method SeedFromSitemap(sitemap: Url, maxPages: nat, nested: Url -> bool, fetchXml: Url -> Option<seq<Url>>)
    returns (results: seq<Url>)
    ensures results == match fetchXml(sitemap)
                       case None => []
                       case Some(locs) => Take(Flatten(locs, nested, fetchXml), maxPages)
  {
    results := [];
    if fetchXml(sitemap).None? {
      return;
    }
    var locs := fetchXml(sitemap).value;
    ghost var all := Flatten(locs, nested, fetchXml);
    assert results + all == all;
    var i := 0;
    while i < |locs|
      invariant 0 <= i <= |locs| && |results| <= maxPages
      invariant Take(results + Flatten(locs[i..], nested, fetchXml), maxPages) == Take(all, maxPages)
    {
      if |results| >= maxPages {
        break;
      }
      FlattenStep(locs, i, nested, fetchXml);
      ghost var rest := Flatten(locs[i + 1..], nested, fetchXml);
      if nested(locs[i]) {
        var sub := fetchXml(locs[i]);
        if sub.Some? {
          TakeOfTake(results, sub.value, rest, maxPages);
          results := results + Take(sub.value, maxPages - |results|);
        } else {
          TakeOfTake(results, [], rest, maxPages);
          assert results + [] == results;
        }
      } else {
        TakeOfTake(results, [locs[i]], rest, maxPages);
        results := results + [locs[i]];
      }
      i := i + 1;
    }
    TakeOfTake([], results, Flatten(locs[i..], nested, fetchXml), maxPages);
    results := Take(results, maxPages);
  }

  // ----- one step of the abstract state

  function Publish(s: Store, m: Msg): Store {
    s.(published := s.published + [m],
       progress := s.progress.(discovered := s.progress.discovered + 1, pending := s.progress.pending + 1))
  }

  /** PDF links are put at the depth limit so that nothing below them is walked. */
  function ChildDepth(c: Config, parentDepth: nat, link: Url): nat {
    if c.followPdfs && c.isPdf(link) then c.maxDepth else parentDepth + 1
  }

  function EnqueueStep(c: Config, s: Store, url: Url, depth: nat): (Store, bool) {
    if depth > c.maxDepth || !Allowed(c, url, false) || c.norm(url) in s.visited then (s, false)
    else
      var t := s.(visited := s.visited + {c.norm(url)}, pages := s.pages + 1);
      if t.pages > c.maxPages then (t, false) else (Publish(t, Msg(url, depth)), true)
  }

  function EnqueueLinks(c: Config, s: Store, links: seq<Url>, parentDepth: nat): Store
    decreases |links|
  {
    if links == [] then s
    else EnqueueLinks(c, EnqueueStep(c, s, links[0], ChildDepth(c, parentDepth, links[0])).0, links[1..], parentDepth)
  }

  /** `enqueued` counts the seeds already published; the page counter is not touched by seeding. */
  function SeedAll(c: Config, s: Store, seeds: seq<Url>, enqueued: nat): (Store, nat)
    decreases |seeds|
  {
    if seeds == [] || enqueued >= c.maxPages then (s, enqueued)
    else if !Allowed(c, seeds[0], true) || c.norm(seeds[0]) in s.visited then SeedAll(c, s, seeds[1..], enqueued)
    else
      var t := s.(visited := s.visited + {c.norm(seeds[0])});
      SeedAll(c, Publish(t, Msg(seeds[0], 0)), seeds[1..], enqueued + 1)
  }

  predicate Walks(c: Config, m: Msg, html: bool) {
    !c.isPdf(m.url) && html && m.depth < c.maxDepth
  }

  /** Consume one message and do everything its answer asks for. */
  function ProcessStep(c: Config, s: Store, m: Msg, answer: Answer): Store {
    var t := s.(consumed := s.consumed + 1);
    match answer
    case FetchFailed => t.(dropped := t.dropped + 1)
    case Fetched(bytes, html, links, _) =>
      var u := t.(progress := t.progress.(bytes := t.progress.bytes + bytes));
      var v := if Walks(c, m, html) then EnqueueLinks(c, u, links, m.depth) else u;
      v.(progress := v.progress.(fetched := v.progress.fetched + 1, pending := v.progress.pending - 1))
  }

  // ----- the object

  class Frontier {
    const cfg: Config
    var visited: set<Norm>
    var pages: nat
    var queue: seq<Msg>
    var progress: Progress
    ghost var published: seq<Msg>
    ghost var consumed: nat
    ghost var dropped: nat

    ghost predicate Valid()
      reads this
    {
      consumed <= |published| && queue == published[consumed..]
    }

    ghost function Model(): Store
      reads this
    {
      Store(visited, pages, published, consumed, dropped, progress)
    }

    constructor (cfg: Config)
      ensures this.cfg == cfg && Valid() && Model() == EMPTY_STORE
    {
      this.cfg := cfg;
      visited, pages, queue, progress := {}, 0, [], Progress(0, 0, 0, 0);
      published, consumed, dropped := [], 0, 0;
    }

    method PublishMessage(m: Msg)
      requires Valid()
      modifies this`queue, this`progress, this`published
      ensures Valid() && Model() == Publish(old(Model()), m)
      ensures queue == old(queue) + [m]
    {
      queue := queue + [m];
      published := published + [m];
      progress := progress.(discovered := progress.discovered + 1);
      progress := progress.(pending := progress.pending + 1);
    }

    method Start(sitemapUrls: seq<Url>, seedUrls: seq<Url>) returns (enqueued: nat)
      requires Valid()
      modifies this
      ensures Valid() && (Model(), enqueued) == SeedAll(cfg, old(Model()), sitemapUrls + seedUrls, 0)
    {
      var allSeeds := sitemapUrls + seedUrls;
      enqueued := 0;
      var i := 0;
      while i < |allSeeds|
        invariant 0 <= i <= |allSeeds| && Valid()
        invariant SeedAll(cfg, Model(), allSeeds[i..], enqueued) == SeedAll(cfg, old(Model()), allSeeds, 0)
      {
        if enqueued >= cfg.maxPages {
          return;
        }
        var url := allSeeds[i];
        assert allSeeds[i..][1..] == allSeeds[i + 1..];
        i := i + 1;
        var norm := cfg.norm(url);
        var allowed := UrlAllowed(cfg, url, true);
        if !allowed || norm in visited {
          continue;
        }
        visited := visited + {norm};
        PublishMessage(Msg(url, 0));
        enqueued := enqueued + 1;
      }
    }

    method Enqueue(url: Url, depth: nat) returns (ok: bool)
      requires Valid()
      modifies this`visited, this`pages, this`queue, this`progress, this`published
      ensures Valid() && (Model(), ok) == EnqueueStep(cfg, old(Model()), url, depth)
    {
      if depth > cfg.maxDepth {
        return false;
      }
      var allowed := UrlAllowed(cfg, url, false);
      if !allowed {
        return false;
      }
      var norm := cfg.norm(url);
      if norm in visited {
        return false;
      }
      visited := visited + {norm};
      pages := pages + 1;
      if pages > cfg.maxPages {
        return false;
      }
      PublishMessage(Msg(url, depth));
      return true;
    }

    /** Take the oldest message off the queue. */
    method Receive() returns (m: Msg)
      requires Valid() && queue != []
      modifies this`queue, this`consumed
      ensures Valid() && m == old(queue)[0] && queue == old(queue)[1..]
      ensures old(consumed) < |published| && m == published[old(consumed)]
      ensures Model() == old(Model()).(consumed := old(consumed) + 1)
    {
      m := queue[0];
      queue := queue[1..];
      consumed := consumed + 1;
    }

    /** Handle a message just received; `None` stands for a raised `FetchError`. */
    method ProcessMessage(m: Msg, answer: Answer) returns (doc: Option<Doc>)
      requires Valid() && consumed > 0
      modifies this
      ensures Valid()
      ensures Model() == ProcessStep(cfg, old(Model()).(consumed := old(consumed) - 1), m, answer)
      ensures doc == if answer.FetchFailed? then None else Some(answer.doc)
    {
      if answer.FetchFailed? {
        dropped := dropped + 1;
        return None;
      }
      progress := progress.(bytes := progress.bytes + answer.bytes);
      if !cfg.isPdf(m.url) && answer.html && m.depth < cfg.maxDepth {
        ghost var before := Model();
        var links := answer.links;
        var i := 0;
        while i < |links|
          invariant 0 <= i <= |links| && Valid()
          invariant EnqueueLinks(cfg, Model(), links[i..], m.depth) == EnqueueLinks(cfg, before, links, m.depth)
        {
          assert links[i..][1..] == links[i + 1..];
          var link := links[i];
          if cfg.followPdfs && cfg.isPdf(link) {
            var _ := Enqueue(link, cfg.maxDepth);
          } else {
            var _ := Enqueue(link, m.depth + 1);
          }
          i := i + 1;
        }
      }
      progress := progress.(fetched := progress.fetched + 1);
      progress := progress.(pending := progress.pending - 1);
      return Some(answer.doc);
    }
  }
}
