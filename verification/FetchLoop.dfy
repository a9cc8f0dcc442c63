/** The redirect and streaming loop of `fetch`, for every behaviour of the network. */
module FetchLoop {
  import opened Basics
  import opened Documents

  type Bytes = seq<bv8>

  datatype ContentLength = NoLength | BadLength | Length(n: int)

  /** What one GET yields.  `location` is empty when the header is missing; `broken` says that the
      connection fails after the last chunk, or while a redirect's body is read. */
  datatype Response =
    | NetworkError
    | Response(status: int, location: string, mime: string, length: ContentLength, chunks: seq<Bytes>, broken: bool)

  /** Everything outside the loop: the address guard and the server at each hop, URL joining, and the caller's options. */
  datatype World = World(
    guard: (nat, Url) -> bool,
    serve: (nat, Url) -> Response,
    join: (Url, string) -> Url,
    pdfUrl: Url -> bool,
    followRedirects: bool,
    maxRedirects: nat,
    maxPdfBytes: int)

  datatype Error = Blocked | MissingLocation | Upstream | TooManyRedirects | BadHeader

  datatype Outcome =
    | Fetched(finalUrl: Url, status: int, chain: seq<Url>, content: Bytes, mime: string, warnings: seq<string>)
    | Failed(error: Error)

  const REDIRECT_STATUSES := {301, 302, 303, 307, 308}
  const PDF_TOO_LARGE := "pdf_too_large"

  predicate Redirects(w: World, r: Response) {
    r.Response? && r.status in REDIRECT_STATUSES && w.followRedirects
  }

  predicate IsPdf(w: World, r: Response, url: Url)
    requires r.Response?
  {
    r.mime == "application/pdf" || w.pdfUrl(url)
  }

  // ----- the body

  function Join(chunks: seq<Bytes>): Bytes {
    if chunks == [] then [] else Join(chunks[..|chunks| - 1]) + chunks[|chunks| - 1]
  }

  /** Joining is concatenation in order. */
  lemma {:induction false} JoinConcat(a: seq<Bytes>, b: seq<Bytes>)
    ensures Join(a + b) == Join(a) + Join(b)
    decreases |b|
  {
    if b == [] {
      assert a + b == a;
      assert Join(a) + [] == Join(a);
    } else {
      var n := |b| - 1;
      JoinConcat(a, b[..n]);
      assert (a + b)[..|a + b| - 1] == a + b[..n];
      assert Join(a + b) == Join(a + b[..n]) + b[n];
    }
  }

  lemma JoinOne(chunk: Bytes)
    ensures Join([chunk]) == chunk
  {
    assert [chunk][..0] == [];
  }

  /** The chunk loop; `None` is a connection that fails before the loop is left. */
  method ReadBody(chunks: seq<Bytes>, broken: bool, isPdf: bool, maxPdfBytes: int)
    returns (content: Option<Bytes>, warnings: seq<string>)
    ensures isPdf && |Join(chunks)| > maxPdfBytes && chunks != [] ==> content == Some([]) && warnings == [PDF_TOO_LARGE]
    ensures !(isPdf && |Join(chunks)| > maxPdfBytes && chunks != []) ==>
              warnings == [] && content == if broken then None else Some(Join(chunks))
  {
    var kept: seq<Bytes>, received := [], 0;
    warnings := [];
    var i := 0;
    while i < |chunks|
      invariant 0 <= i <= |chunks|
      invariant kept == chunks[..i] && received == |Join(chunks[..i])|
      invariant isPdf && i > 0 ==> received <= maxPdfBytes
    {
      assert chunks[..i + 1][..i] == chunks[..i];
      received := received + |chunks[i]|;
      if isPdf && received > maxPdfBytes {
        JoinGrows(chunks, i + 1);
        return Some([]), [PDF_TOO_LARGE];
      }
      kept := kept + [chunks[i]];
      i := i + 1;
    }
    assert chunks[..i] == chunks;
    content := if broken then None else Some(Join(kept));
  }

  lemma {:induction false} JoinGrows(chunks: seq<Bytes>, n: nat)
    requires n <= |chunks|
    ensures |Join(chunks[..n])| <= |Join(chunks)|
    decreases |chunks| - n
  {
    if n == |chunks| {
      assert chunks[..n] == chunks;
    } else {
      assert chunks[..n + 1][..n] == chunks[..n];
      JoinGrows(chunks, n + 1);
    }
  }

  /** What a response that is not followed becomes: a PDF over the limit has no content and a warning,
      anything else is all of its bytes. */
  function Final(w: World, r: Response, url: Url, chain: seq<Url>): Outcome
    requires r.Response?
  {
    var pdf := IsPdf(w, r, url);
    if pdf && r.length.BadLength? then Failed(BadHeader)
    else if pdf && ((r.length.Length? && r.length.n > w.maxPdfBytes) || (r.chunks != [] && |Join(r.chunks)| > w.maxPdfBytes))
    then Fetched(url, r.status, chain, [], r.mime, [PDF_TOO_LARGE])
    else if r.broken then Failed(Upstream)
    else Fetched(url, r.status, chain, Join(r.chunks), r.mime, [])
  }

  // ----- the hops, told without the loop

  /** The URL at hop `k` if every earlier hop redirected. */
  function UrlAt(w: World, url: Url, k: nat): Url {
    if k == 0 then url
    else
      var prev := UrlAt(w, url, k - 1);
      var r := w.serve(k - 1, prev);
      if r.Response? then w.join(prev, r.location) else prev
  }

  /** Hop `k` passes the guard and is redirected onwards. */
  predicate GoesOn(w: World, url: Url, k: nat) {
    var u := UrlAt(w, url, k);
    w.guard(k, u) && Redirects(w, w.serve(k, u)) && w.serve(k, u).location != "" && !w.serve(k, u).broken
  }

  function Prefix(w: World, url: Url, n: nat): seq<Url>
    ensures |Prefix(w, url, n)| == n
  {
    if n == 0 then [] else Prefix(w, url, n - 1) + [UrlAt(w, url, n - 1)]
  }

  /** What a fetch that stops at hop `n` returns. */
  function StopAt(w: World, url: Url, n: nat): Outcome {
    var u := UrlAt(w, url, n);
    var r := w.serve(n, u);
    if !w.guard(n, u) then Failed(Blocked)
    else if r.NetworkError? then Failed(Upstream)
    else if Redirects(w, r) then Failed(if r.location == "" then MissingLocation else Upstream)
    else Final(w, r, u, Prefix(w, url, n))
  }

  /** Hop `n` is the first that does not go on, and the fetch returns and has requested what belongs to it. */
  ghost predicate StopsFirstAt(w: World, url: Url, n: nat, outcome: Outcome, requested: seq<Url>) {
    && !GoesOn(w, url, n) && (forall k: nat | k < n :: GoesOn(w, url, k))
    && outcome == StopAt(w, url, n)
    && requested == if w.guard(n, UrlAt(w, url, n)) then Prefix(w, url, n + 1) else Prefix(w, url, n)
  }

  // ----- the same, told from the requests and their responses alone

  predicate RedirectedTo(w: World, k: nat, u: Url, next: Url) {
    var r := w.serve(k, u);
    && r.Response? && r.status in {301, 302, 303, 307, 308} && w.followRedirects && r.location != ""
    && next == w.join(u, r.location)
  }

  /** Each request but the last is redirected to the next, and there are no more than the budget allows. */
  ghost predicate RequestsFollow(w: World, url: Url, requested: seq<Url>) {
    && |requested| <= w.maxRedirects + 1 && (requested != [] ==> requested[0] == url)
    && forall k | 0 <= k < |requested| - 1 :: RedirectedTo(w, k, requested[k], requested[k + 1])
  }

  /** A fetch that succeeds hands over the last response: status, type and body as sent, or no body and the
      warning exactly for a PDF whose declared or received length exceeds the limit.  One that fails before
      any request is blocked, and otherwise the last response says why. */
  ghost predicate LastResponseTells(w: World, url: Url, o: Outcome, requested: seq<Url>) {
    if requested == [] then o == Failed(Blocked) && !w.guard(0, url)
    else
      var k := |requested| - 1;
      var r := w.serve(k, requested[k]);
      if r.NetworkError? then o == Failed(Upstream)
      else if r.status in {301, 302, 303, 307, 308} && w.followRedirects then
        if r.location == "" then o == Failed(MissingLocation)
        else if r.broken then o == Failed(Upstream)
        else if k == w.maxRedirects then o == Failed(TooManyRedirects)
        else o == Failed(Blocked) && !w.guard(k + 1, w.join(requested[k], r.location))
      else
        var pdf := r.mime == "application/pdf" || w.pdfUrl(requested[k]);
        var tooLarge := pdf && ((r.length.Length? && r.length.n > w.maxPdfBytes)
                                || (r.chunks != [] && |Join(r.chunks)| > w.maxPdfBytes));
        if pdf && r.length.BadLength? then o == Failed(BadHeader)
        else if r.broken && !tooLarge then o == Failed(Upstream)
        else
          && o.Fetched? && requested == o.chain + [o.finalUrl] && o.status == r.status && o.mime == r.mime
          && o.warnings == (if tooLarge then ["pdf_too_large"] else [])
          && o.content == (if tooLarge then [] else Join(r.chunks))
  }

  lemma {:induction false} PrefixAt(w: World, url: Url, n: nat, k: nat)
    requires k < n
    ensures Prefix(w, url, n)[k] == UrlAt(w, url, k)
  {
    if k == n - 1 {
    } else {
      PrefixAt(w, url, n - 1, k);
    }
  }

  lemma HopFollows(w: World, url: Url, k: nat)
    requires GoesOn(w, url, k)
    ensures RedirectedTo(w, k, UrlAt(w, url, k), UrlAt(w, url, k + 1))
  {
  }

  lemma PrefixFollows(w: World, url: Url, n: nat)
    requires n <= w.maxRedirects + 1 && forall k: nat | k < n - 1 :: GoesOn(w, url, k)
    ensures RequestsFollow(w, url, Prefix(w, url, n))
  {
    hide Prefix, GoesOn;
    var requested := Prefix(w, url, n);
    if n > 0 {
      PrefixAt(w, url, n, 0);
    }
    hide UrlAt;
    forall k | 0 <= k < |requested| - 1
      ensures RedirectedTo(w, k, requested[k], requested[k + 1])
    {
      PrefixAt(w, url, n, k);
      PrefixAt(w, url, n, k + 1);
      HopFollows(w, url, k);
    }
  }

  lemma StopTells(w: World, url: Url, n: nat, o: Outcome, requested: seq<Url>)
    requires StopsFirstAt(w, url, n, o, requested) && n <= w.maxRedirects
    ensures RequestsFollow(w, url, requested) && LastResponseTells(w, url, o, requested)
  {
    PrefixFollows(w, url, n);
    PrefixFollows(w, url, n + 1);
    if w.guard(n, UrlAt(w, url, n)) {
      PrefixAt(w, url, n + 1, n);
    } else if n > 0 {
      PrefixAt(w, url, n, n - 1);
      assert GoesOn(w, url, n - 1);
    }
    hide RequestsFollow;
  }

  lemma ExhaustionTells(w: World, url: Url)
    requires forall k: nat | k <= w.maxRedirects :: GoesOn(w, url, k)
    ensures var requested := Prefix(w, url, w.maxRedirects + 1);
            RequestsFollow(w, url, requested) && LastResponseTells(w, url, Failed(TooManyRedirects), requested)
  {
    PrefixFollows(w, url, w.maxRedirects + 1);
    PrefixAt(w, url, w.maxRedirects + 1, w.maxRedirects);
    assert GoesOn(w, url, w.maxRedirects);
    hide RequestsFollow;
  }

  // ----- the method

  /** The redirect loop.  With `n` the first hop that does not go on, the fetch stops there with the exact
      prefix of visited URLs as its chain; if the first maxRedirects + 1 hops all go on, and only then, the
      budget is exhausted.  The URL requested at a hop is one the guard has just passed, whatever it answers
      at other hops. */
  method Fetch(w: World, url: Url) returns (outcome: Outcome, requested: seq<Url>)
    ensures outcome == Failed(TooManyRedirects) <==> forall k: nat | k <= w.maxRedirects :: GoesOn(w, url, k)
    ensures outcome != Failed(TooManyRedirects) ==>
              exists n: nat :: n <= w.maxRedirects && StopsFirstAt(w, url, n, outcome, requested)
    ensures outcome.Fetched? ==>
              && |outcome.chain| <= w.maxRedirects && outcome.chain == Prefix(w, url, |outcome.chain|)
              && outcome.finalUrl == UrlAt(w, url, |outcome.chain|)
              && WholeOrEmpty(w, url, |outcome.chain|, outcome)
    ensures forall k | 0 <= k < |requested| :: w.guard(k, requested[k])
    ensures RequestsFollow(w, url, requested) && LastResponseTells(w, url, outcome, requested)
  {
    hide RequestsFollow, LastResponseTells;
    requested := [];
    var redirectChain: seq<Url>, currentUrl := [], url;
    var hop := 0;
    while hop < w.maxRedirects + 1
      invariant 0 <= hop <= w.maxRedirects + 1
      invariant currentUrl == UrlAt(w, url, hop) && redirectChain == Prefix(w, url, hop) == requested
      invariant forall k: nat | k < hop :: GoesOn(w, url, k)
      invariant forall k | 0 <= k < |requested| :: w.guard(k, requested[k])
    {
      if !w.guard(hop, currentUrl) {
        assert StopsFirstAt(w, url, hop, Failed(Blocked), requested);
        StopTells(w, url, hop, Failed(Blocked), requested);
        return Failed(Blocked), requested;
      }
      requested := requested + [currentUrl];
      assert requested == Prefix(w, url, hop + 1);
      var response := w.serve(hop, currentUrl);
      if response.NetworkError? {
        assert StopsFirstAt(w, url, hop, Failed(Upstream), requested);
        StopTells(w, url, hop, Failed(Upstream), requested);
        return Failed(Upstream), requested;
      }
      if response.status in REDIRECT_STATUSES && w.followRedirects {
        if response.location == "" {
          assert StopsFirstAt(w, url, hop, Failed(MissingLocation), requested);
          StopTells(w, url, hop, Failed(MissingLocation), requested);
          return Failed(MissingLocation), requested;
        }
        redirectChain := redirectChain + [currentUrl];
        currentUrl := w.join(currentUrl, response.location);
        if response.broken {
          assert StopsFirstAt(w, url, hop, Failed(Upstream), requested);
          StopTells(w, url, hop, Failed(Upstream), requested);
          return Failed(Upstream), requested;
        }
        assert GoesOn(w, url, hop);
        hop := hop + 1;
        continue;
      }
      outcome := Finish(w, response, currentUrl, redirectChain);
      assert StopsFirstAt(w, url, hop, outcome, requested);
      StopTells(w, url, hop, outcome, requested);
      if outcome.Fetched? {
        PdfIsWholeOrEmpty(w, url, hop, outcome, requested);
      }
      return;
    }
    ExhaustionTells(w, url);
    outcome := Failed(TooManyRedirects);
  }

  method Finish(w: World, response: Response, currentUrl: Url, redirectChain: seq<Url>) returns (outcome: Outcome)
    requires response.Response?
    ensures outcome == Final(w, response, currentUrl, redirectChain)
  {
    var isPdf := response.mime == "application/pdf" || w.pdfUrl(currentUrl);
    if isPdf && response.length.BadLength? {
      return Failed(BadHeader);
    }
    if isPdf && response.length.Length? && response.length.n > w.maxPdfBytes {
      return Fetched(currentUrl, response.status, redirectChain, [], response.mime, [PDF_TOO_LARGE]);
    }
    var content, warnings := ReadBody(response.chunks, response.broken, isPdf, w.maxPdfBytes);
    if content.None? {
      return Failed(Upstream);
    }
    return Fetched(currentUrl, response.status, redirectChain, content.value, response.mime, warnings);
  }

  /** What hop `n` may hand over: every byte the server sent and no warning, or for a PDF nothing and the
      warning; and never more of a PDF than the limit. */
  ghost predicate WholeOrEmpty(w: World, url: Url, n: nat, o: Outcome)
    requires o.Fetched?
  {
    var r := w.serve(n, UrlAt(w, url, n));
    && r.Response?
    && ((o.content == Join(r.chunks) && o.warnings == [])
        || (IsPdf(w, r, UrlAt(w, url, n)) && o.content == [] && o.warnings == [PDF_TOO_LARGE]))
    && (IsPdf(w, r, UrlAt(w, url, n)) && o.content != [] ==> |o.content| <= w.maxPdfBytes)
  }

  /** A PDF is delivered whole or not at all, and nothing but a PDF is ever cut. */
  lemma PdfIsWholeOrEmpty(w: World, url: Url, n: nat, o: Outcome, requested: seq<Url>)
    requires StopsFirstAt(w, url, n, o, requested) && o.Fetched?
    ensures n == |o.chain| && WholeOrEmpty(w, url, n, o)
  {
  }
}
