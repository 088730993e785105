/**
 * The website-crawl dialog of the dashboard (components/dashboard/CrawlWebsiteDialog.tsx):
 * a breadth-first crawl from one start address with a queue, a visited list and a
 * ten-page budget, an optional batch generation over the collected page texts, the
 * final success/failure decision, and the review step's selection handlers.
 *
 * The `/api/crawl` calls are oracles: `fetchPage` gives the response for one page
 * address and `generate` the response of the batch request. The stop flag is the
 * oracle `stopAt`: `stopAt(n)` is the value the crawl reads once `n` pages have been
 * processed.
 */
module CrawlWebsiteDialog {
  import opened Wrappers
  import opened Strings
  import opened Types

  /** At most this many pages are visited. */
  const MaxPages := 10

  const NoContentMessage := "No content could be extracted from the website."
  const NoQuestionsMessage := "No questions generated. Please try a different URL."
  const BatchFailedMessage := "Failed to generate FAQs"
  const InvalidBatchMessage := "Invalid response from AI service"
  const EmptyUrlMessage := "Please enter a URL"

  datatype Strategy = Single | Site

  datatype Step = Input | Crawling | Review

  /** The `metadata` of a page response. A missing or empty `content` is the empty
      string and a missing `links` list the empty list: the dialog treats them alike. */
  datatype Metadata = Metadata(url: string, title: string, content: string, links: seq<string>)

  /** The outcome of the request for one page. `PageFailed` covers a response that is
      not ok and a request or parse that throws: the per-page handler swallows both. */
  datatype PageResponse =
    | PageFailed
    | PageOk(metadata: Option<Metadata>, questions: Option<seq<QA>>)

  /** The outcome of the batch-generation request. */
  datatype BatchResponse =
    | BatchThrew(message: string)
    | BatchNotOk(error: string)
    | BatchOk(questions: Option<seq<QA>>)

  /** One entry of `collectedContent`. */
  datatype Page = Page(url: string, title: string, content: string)

  /** How a crawl ends: the review step with its questions and pre-selected indices,
      or back at the input step with an error message. */
  datatype Outcome =
    | Reviewing(questions: seq<QA>, selected: set<nat>)
    | Failed(message: string)

  /** Everything one crawl produces: the visited addresses in order, the collected page
      texts, the final `questions` state and the outcome. */
  datatype CrawlRun = CrawlRun(visited: seq<string>, collected: seq<Page>, questions: seq<QA>, outcome: Outcome)

  // ---------------------------------------------------------------------------
  // Start address
  // ---------------------------------------------------------------------------

  /** The trimmed address, with `https://` put in front unless it already starts with
      `http://` or `https://`. */
  function NormalizeStartUrl(url: string): (start: string)
    ensures StartsWith(start, "http://") || StartsWith(start, "https://")
  {
    var t := Trim(url);
    if StartsWith(t, "http://") || StartsWith(t, "https://") then t else "https://" + t
  }

  /** An address that already has a scheme is only trimmed. */
  lemma NormalizeKeepsScheme(url: string)
    requires StartsWith(Trim(url), "http://") || StartsWith(Trim(url), "https://")
    ensures NormalizeStartUrl(url) == Trim(url)
  {
  }

  /** Normalising a normalised address changes nothing. */
  lemma NormalizeStartUrlIdempotent(url: string)
    ensures NormalizeStartUrl(NormalizeStartUrl(url)) == NormalizeStartUrl(url)
  {
    var start := NormalizeStartUrl(url);
    var t := Trim(url);
    if !(StartsWith(t, "http://") || StartsWith(t, "https://")) {
      assert start == "https://" + t;
      assert start[0] == 'h';
      if t != [] {
        assert start[|start| - 1] == t[|t| - 1];
      }
      assert IsTrimmed(start);
    }
    TrimOfTrimmed(start);
  }

  // ---------------------------------------------------------------------------
  // Queue and page bookkeeping
  // ---------------------------------------------------------------------------

  predicate NoDuplicates(s: seq<string>) {
    forall i, j :: 0 <= i < j < |s| ==> s[i] != s[j]
  }

  predicate Disjoint(a: seq<string>, b: seq<string>) {
    forall i :: 0 <= i < |a| ==> a[i] !in b
  }

  /** The links a page response offers (none for a failed page or missing metadata). */
  function Links(response: PageResponse): seq<string> {
    if response.PageOk? && response.metadata.Some? then response.metadata.value.links else []
  }

  /** The queue after pushing, in order, each link that is neither visited nor queued
      at the moment it is looked at. */
  function Enqueue(queue: seq<string>, visited: seq<string>, links: seq<string>): (r: seq<string>)
    ensures |queue| <= |r| && r[..|queue|] == queue
    ensures forall l :: l in links ==> l in visited || l in r
    ensures forall k :: |queue| <= k < |r| ==> r[k] in links && r[k] !in visited
    ensures NoDuplicates(queue) ==> NoDuplicates(r)
    decreases |links|
  {
    if links == [] then queue
    else
      var q := Enqueue(queue, visited, links[..|links| - 1]);
      var link := links[|links| - 1];
      if link !in visited && link !in q then q + [link] else q
  }

  /** The `collectedContent` entry a page response contributes: one when its metadata
      carries content, none otherwise. */
  function ContentOf(response: PageResponse): (pages: seq<Page>)
    ensures |pages| <= 1
  {
    if response.PageOk? && response.metadata.Some? && response.metadata.value.content != [] then
      var m := response.metadata.value;
      [Page(m.url, m.title, m.content)]
    else []
  }

  /** The pages whose response carries content, in visiting order. */
  function ContentPages(urls: seq<string>, fetchPage: string -> PageResponse): (pages: seq<Page>)
    ensures |pages| <= |urls|
    decreases |urls|
  {
    if urls == [] then []
    else ContentPages(urls[..|urls| - 1], fetchPage) + ContentOf(fetchPage(urls[|urls| - 1]))
  }

  /** The questions of the last page whose response carries a `questions` list. */
  function LastQuestions(urls: seq<string>, fetchPage: string -> PageResponse): seq<QA>
    decreases |urls|
  {
    if urls == [] then []
    else
      var response := fetchPage(urls[|urls| - 1]);
      if response.PageOk? && response.questions.Some? then response.questions.value
      else LastQuestions(urls[..|urls| - 1], fetchPage)
  }

  /** The questions the crawl loop itself sets: only single-page crawls take them from
      the page responses. */
  function CrawledQuestions(strategy: Strategy, urls: seq<string>, fetchPage: string -> PageResponse): seq<QA> {
    if strategy.Single? then LastQuestions(urls, fetchPage) else []
  }

  /** Every link of every visited page has been visited. */
  ghost predicate Closed(visited: seq<string>, fetchPage: string -> PageResponse) {
    forall i, l :: 0 <= i < |visited| && l in Links(fetchPage(visited[i])) ==> l in visited
  }

  // ---------------------------------------------------------------------------
  // After the loop: batch generation and the final check
  // ---------------------------------------------------------------------------

  /** The indices `0 .. n-1`. */
  function Range(n: nat): (r: set<nat>)
    ensures forall i: nat :: i in r <==> i < n
    decreases n
  {
    if n == 0 then {} else Range(n - 1) + {n - 1}
  }

  /** The final check, with the questions found so far. */
  function FinalCheck(strategy: Strategy, collected: seq<Page>, questions: seq<QA>): Outcome {
    if |questions| == 0 && strategy.Site? && |collected| == 0 then Failed(NoContentMessage)
    else if |questions| == 0 && strategy.Single? then Failed(NoQuestionsMessage)
    else Reviewing(questions, Range(|questions|))
  }

  /** Whether the batch request is made: site crawls with collected content that were
      not stopped. */
  predicate RunsBatch(strategy: Strategy, collected: seq<Page>, stopped: bool) {
    strategy.Site? && |collected| > 0 && !stopped
  }

  /** The batch generation (when it runs) followed by the final check. `questions` are
      the ones the crawl loop set and `stopped` the stop flag as read after the loop. */
  function Finish(strategy: Strategy, collected: seq<Page>, questions: seq<QA>, stopped: bool,
                  generate: seq<Page> -> BatchResponse): Outcome
  {
    if RunsBatch(strategy, collected, stopped) then
      match generate(collected)
      case BatchThrew(message) => Failed(message)
      case BatchNotOk(error) => Failed(if error == [] then BatchFailedMessage else error)
      case BatchOk(None) => Failed(InvalidBatchMessage)
      case BatchOk(Some(generated)) => FinalCheck(strategy, collected, generated)
    else FinalCheck(strategy, collected, questions)
  }

  /** The `questions` state after the batch generation: replaced by the generated list
      when the batch request returns one, otherwise what the crawl loop left. */
  function QuestionsAfter(strategy: Strategy, collected: seq<Page>, questions: seq<QA>, stopped: bool,
                          generate: seq<Page> -> BatchResponse): seq<QA>
  {
    if RunsBatch(strategy, collected, stopped) && generate(collected).BatchOk? && generate(collected).questions.Some? then
      generate(collected).questions.value
    else questions
  }

  /** A crawl that reaches the review step pre-selects every question it shows; a crawl that
      fails leaves no questions behind (site crawls set none before the batch request). */
  lemma FinishOutcome(strategy: Strategy, collected: seq<Page>, questions: seq<QA>, stopped: bool,
                      generate: seq<Page> -> BatchResponse)
    requires strategy.Site? ==> questions == []
    ensures var outcome := Finish(strategy, collected, questions, stopped, generate);
            var after := QuestionsAfter(strategy, collected, questions, stopped, generate);
            && (outcome.Reviewing? ==> outcome.questions == after && outcome.selected == Range(|after|))
            && (outcome.Failed? ==> after == [])
  {
  }

  /** The batch request is consulted only for site crawls with collected content that were
      not stopped: otherwise any batch responder gives the same outcome. */
  lemma BatchOnlyWhenRun(strategy: Strategy, collected: seq<Page>, questions: seq<QA>, stopped: bool,
                         generate: seq<Page> -> BatchResponse, other: seq<Page> -> BatchResponse)
    requires !RunsBatch(strategy, collected, stopped)
    ensures Finish(strategy, collected, questions, stopped, generate) == Finish(strategy, collected, questions, stopped, other)
  {
  }

  /** A site crawl that collected nothing fails with the no-content message, whatever else
      happened. */
  lemma SiteWithoutContentFails(collected: seq<Page>, questions: seq<QA>, stopped: bool,
                                generate: seq<Page> -> BatchResponse)
    requires collected == [] && questions == []
    ensures Finish(Site, collected, questions, stopped, generate) == Failed(NoContentMessage)
  {
  }

  /** A single-page crawl whose page gave no questions fails with the no-questions message. */
  lemma SingleWithoutQuestionsFails(collected: seq<Page>, stopped: bool, generate: seq<Page> -> BatchResponse)
    ensures Finish(Single, collected, [], stopped, generate) == Failed(NoQuestionsMessage)
  {
  }

  /** A site crawl stopped after collecting content skips the batch request and still
      reaches the review step, with no questions to review. */
  lemma StoppedSiteCrawlReviewsNothing(collected: seq<Page>, generate: seq<Page> -> BatchResponse)
    requires collected != []
    ensures Finish(Site, collected, [], true, generate) == Reviewing([], {})
  {
    assert Range(0) == {};
  }

  /** A batch request that fails, throws or returns no list ends the crawl with its message. */
  lemma BatchFailureMessages(collected: seq<Page>, generate: seq<Page> -> BatchResponse)
    requires collected != []
    ensures var outcome := Finish(Site, collected, [], false, generate);
            match generate(collected)
            case BatchThrew(message) => outcome == Failed(message)
            case BatchNotOk(error) => outcome == Failed(if error == [] then BatchFailedMessage else error)
            case BatchOk(None) => outcome == Failed(InvalidBatchMessage)
            case BatchOk(Some(generated)) =>
              outcome == if generated == [] then Reviewing([], {}) else Reviewing(generated, Range(|generated|))
  {
    assert Range(0) == {};
  }

  /** No page carries content when every response lacks it. */
  lemma {:induction false} NoContentPages(urls: seq<string>, fetchPage: string -> PageResponse)
    requires forall u :: ContentOf(fetchPage(u)) == []
    ensures ContentPages(urls, fetchPage) == []
    decreases |urls|
  {
    if urls != [] {
      NoContentPages(urls[..|urls| - 1], fetchPage);
    }
  }

  /** Against responses shaped like those of `/api/crawl` (metadata without `content`), a
      site crawl never collects content and so always fails with the no-content message. */
  lemma RouteShapedSiteCrawlFails(visited: seq<string>, fetchPage: string -> PageResponse, stopped: bool,
                                  generate: seq<Page> -> BatchResponse)
    requires forall u :: fetchPage(u).PageFailed? || fetchPage(u).metadata.None? || fetchPage(u).metadata.value.content == []
    ensures Finish(Site, ContentPages(visited, fetchPage), [], stopped, generate) == Failed(NoContentMessage)
  {
    NoContentPages(visited, fetchPage);
  }

  // ---------------------------------------------------------------------------
  // The crawl
  // ---------------------------------------------------------------------------

  /** The `for (const link of links)` loop: pushes each link that is neither visited
      nor already queued. */
  method PushNewLinks(queue: seq<string>, visited: seq<string>, links: seq<string>) returns (q: seq<string>)
    ensures q == Enqueue(queue, visited, links)
  {
    q := queue;
    for j := 0 to |links|
      invariant q == Enqueue(queue, visited, links[..j])
    {
      assert links[..j + 1][..j] == links[..j];
      var link := links[j];
      if link !in visited && link !in q {
        q := q + [link];
      }
    }
    assert links[..|links|] == links;
  }

  /** Every link of every visited page has been visited or is waiting in the queue. */
  ghost predicate Explored(visited: seq<string>, queue: seq<string>, fetchPage: string -> PageResponse) {
    forall i, l :: 0 <= i < |visited| && l in Links(fetchPage(visited[i])) ==> l in visited || l in queue
  }

  /** Visiting the head of a duplicate-free queue that is disjoint from the visited list,
      and pushing the new links of that page, keeps both lists duplicate-free and
      disjoint. */
  lemma VisitKeepsQueueSound(queue: seq<string>, visited: seq<string>, links: seq<string>)
    requires |queue| > 0
    requires NoDuplicates(visited) && NoDuplicates(queue) && Disjoint(queue, visited)
    ensures queue[0] !in visited
    ensures var visited' := visited + [queue[0]];
            var queue' := Enqueue(queue[1..], visited', links);
            NoDuplicates(visited') && NoDuplicates(queue') && Disjoint(queue', visited')
  {
    var visited' := visited + [queue[0]];
    var rest := queue[1..];
    var queue' := Enqueue(rest, visited', links);
    forall i | 0 <= i < |queue'| ensures queue'[i] !in visited' {
      if i < |rest| {
        assert queue'[i] == queue[i + 1];
      }
    }
  }

  /** Visiting the head of the queue and pushing all its page's links keeps every link of
      every visited page visited or queued. */
  lemma VisitKeepsExplored(queue: seq<string>, visited: seq<string>, fetchPage: string -> PageResponse)
    requires |queue| > 0 && Explored(visited, queue, fetchPage)
    ensures var visited' := visited + [queue[0]];
            Explored(visited', Enqueue(queue[1..], visited', Links(fetchPage(queue[0]))), fetchPage)
  {
    var visited' := visited + [queue[0]];
    var queue' := Enqueue(queue[1..], visited', Links(fetchPage(queue[0])));
    forall i, l | 0 <= i < |visited'| && l in Links(fetchPage(visited'[i]))
      ensures l in visited' || l in queue'
    {
      if i < |visited| {
        assert visited'[i] == visited[i];
        if l in queue && l !in visited' {
          var k :| 0 <= k < |queue| && queue[k] == l;
          assert queue[1..][k - 1] == l;
          assert queue'[..|queue| - 1] == queue[1..];
          assert queue'[k - 1] == l;
        }
      }
    }
  }

  /** Pushing no links leaves the queue as it is. */
  lemma EnqueueNothing(queue: seq<string>, visited: seq<string>)
    ensures Enqueue(queue, visited, []) == queue
  {
  }

  /** Visiting one more page adds its content and questions, if any, at the end. */
  lemma VisitExtendsRecords(visited: seq<string>, url: string, fetchPage: string -> PageResponse)
    ensures ContentPages(visited + [url], fetchPage) == ContentPages(visited, fetchPage) + ContentOf(fetchPage(url))
    ensures LastQuestions(visited + [url], fetchPage)
              == if fetchPage(url).PageOk? && fetchPage(url).questions.Some? then fetchPage(url).questions.value
                 else LastQuestions(visited, fetchPage)
  {
    assert (visited + [url])[..|visited|] == visited;
  }

  /** The queue once `response` has been handled: site crawls push the page's new links
      behind the rest of the queue, single-page crawls push nothing. */
  function NextQueue(strategy: Strategy, rest: seq<string>, visited: seq<string>, response: PageResponse): seq<string> {
    if strategy.Site? then Enqueue(rest, visited, Links(response)) else rest
  }

  /** The crawl loop as a breadth-first definition: the addresses visited, in order, from
      the state with `queue` waiting and `visited` done. The loop stops on an empty queue,
      a full budget or the stop flag; an address already visited is skipped, as the
      `visited.has(currentLink)` check does. */
  function Visits(queue: seq<string>, visited: seq<string>, strategy: Strategy,
                  fetchPage: string -> PageResponse, stopAt: nat -> bool): seq<string>
    decreases MaxPages - |visited|, |queue|
  {
    if queue == [] || |visited| >= MaxPages || stopAt(|visited|) then visited
    else if queue[0] in visited then Visits(queue[1..], visited, strategy, fetchPage, stopAt)
    else
      var visited' := visited + [queue[0]];
      Visits(NextQueue(strategy, queue[1..], visited', fetchPage(queue[0])), visited', strategy, fetchPage, stopAt)
  }

  /** One round of the loop: visiting the unvisited head of the queue moves `Visits` on to
      the next queue and the longer visited list. */
  lemma VisitStep(queue: seq<string>, visited: seq<string>, strategy: Strategy,
                  fetchPage: string -> PageResponse, stopAt: nat -> bool)
    requires queue != [] && |visited| < MaxPages && !stopAt(|visited|) && queue[0] !in visited
    ensures var visited' := visited + [queue[0]];
            Visits(queue, visited, strategy, fetchPage, stopAt)
              == Visits(NextQueue(strategy, queue[1..], visited', fetchPage(queue[0])), visited', strategy, fetchPage, stopAt)
  {
  }

  /** `url` is a link offered by one of `pages`. */
  ghost predicate LinkedFrom(pages: seq<string>, url: string, fetchPage: string -> PageResponse) {
    exists j :: 0 <= j < |pages| && url in Links(fetchPage(pages[j]))
  }

  /** Every address after the first was reached through a link of a page visited before it. */
  ghost predicate FollowsLinks(visited: seq<string>, fetchPage: string -> PageResponse) {
    forall k :: 0 < k < |visited| ==> LinkedFrom(visited[..k], visited[k], fetchPage)
  }

  /** Visiting an address linked from the pages visited so far keeps every visited
      address reached through a link. */
  lemma FollowsLinksExtend(visited: seq<string>, url: string, fetchPage: string -> PageResponse)
    requires FollowsLinks(visited, fetchPage)
    requires visited != [] ==> LinkedFrom(visited, url, fetchPage)
    ensures FollowsLinks(visited + [url], fetchPage)
  {
    var visited' := visited + [url];
    forall k | 0 < k < |visited'| ensures LinkedFrom(visited'[..k], visited'[k], fetchPage) {
      if k < |visited| {
        assert visited'[..k] == visited[..k];
      } else {
        assert visited'[..k] == visited;
      }
    }
  }

  /** After a visit, every queued address is a link of a visited page: the rest of the
      queue already was, and the pushed links belong to the page just visited. */
  lemma NextQueueLinked(queue: seq<string>, visited: seq<string>, strategy: Strategy,
                        fetchPage: string -> PageResponse)
    requires queue != []
    requires visited == [] ==> |queue| <= 1
    requires visited != [] ==> forall q :: q in queue ==> LinkedFrom(visited, q, fetchPage)
    ensures var visited' := visited + [queue[0]];
            forall q :: q in NextQueue(strategy, queue[1..], visited', fetchPage(queue[0])) ==> LinkedFrom(visited', q, fetchPage)
  {
    var rest := queue[1..];
    var visited' := visited + [queue[0]];
    var queue' := NextQueue(strategy, rest, visited', fetchPage(queue[0]));
    forall q | q in queue' ensures LinkedFrom(visited', q, fetchPage) {
      var i :| 0 <= i < |queue'| && queue'[i] == q;
      if i < |rest| {
        assert queue'[..|rest|] == rest;
        assert q in queue;
        var j :| 0 <= j < |visited| && q in Links(fetchPage(visited[j]));
        assert visited'[j] == visited[j];
      } else {
        assert q in Links(fetchPage(visited'[|visited|]));
      }
    }
  }

  /** Starting from the start address alone, or from a state whose queued addresses are all
      links of visited pages, the crawl only ever visits addresses it reached through links. */
  lemma {:induction false} VisitsFollowLinks(queue: seq<string>, visited: seq<string>, strategy: Strategy,
                                             fetchPage: string -> PageResponse, stopAt: nat -> bool)
    requires FollowsLinks(visited, fetchPage)
    requires visited == [] ==> |queue| <= 1
    requires visited != [] ==> forall q :: q in queue ==> LinkedFrom(visited, q, fetchPage)
    ensures FollowsLinks(Visits(queue, visited, strategy, fetchPage, stopAt), fetchPage)
    decreases MaxPages - |visited|, |queue|
  {
    if queue == [] || |visited| >= MaxPages || stopAt(|visited|) {
    } else if queue[0] in visited {
      VisitsFollowLinks(queue[1..], visited, strategy, fetchPage, stopAt);
    } else {
      var visited' := visited + [queue[0]];
      FollowsLinksExtend(visited, queue[0], fetchPage);
      NextQueueLinked(queue, visited, strategy, fetchPage);
      VisitsFollowLinks(NextQueue(strategy, queue[1..], visited', fetchPage(queue[0])), visited', strategy, fetchPage, stopAt);
    }
  }

  /** A start page that offers no links is the only page the crawl visits. */
  lemma DeadEndStart(startUrl: string, strategy: Strategy, fetchPage: string -> PageResponse, stopAt: nat -> bool)
    requires Links(fetchPage(startUrl)) == []
    ensures Visits([startUrl], [], strategy, fetchPage, stopAt) == if stopAt(0) then [] else [startUrl]
  {
    if !stopAt(0) {
      EnqueueNothing([], [startUrl]);
      assert NextQueue(strategy, [], [startUrl], fetchPage(startUrl)) == [];
    }
  }

  /** What the crawl loop keeps about its queue and visited list: both duplicate-free and
      disjoint, the start address first, at most one page in single mode, every link of a
      visited page visited or queued in site mode, and the same breadth-first future
      as the crawl from the start address. */
  ghost predicate LoopInvariant(startUrl: string, strategy: Strategy, fetchPage: string -> PageResponse,
                                stopAt: nat -> bool, queue: seq<string>, visited: seq<string>)
  {
    && |visited| <= MaxPages
    && NoDuplicates(visited) && NoDuplicates(queue) && Disjoint(queue, visited)
    && (visited == [] ==> queue == [startUrl])
    && (visited != [] ==> visited[0] == startUrl && !stopAt(0))
    && (strategy.Single? && visited != [] ==> queue == [] && |visited| == 1)
    && (strategy.Site? ==> Explored(visited, queue, fetchPage))
    && Visits(queue, visited, strategy, fetchPage, stopAt) == Visits([startUrl], [], strategy, fetchPage, stopAt)
  }

  /** One round of the loop keeps `LoopInvariant`, and the head of the queue is never an
      address already visited. */
  lemma LoopStep(startUrl: string, strategy: Strategy, fetchPage: string -> PageResponse,
                 stopAt: nat -> bool, queue: seq<string>, visited: seq<string>)
    requires LoopInvariant(startUrl, strategy, fetchPage, stopAt, queue, visited)
    requires queue != [] && |visited| < MaxPages && !stopAt(|visited|)
    ensures queue[0] !in visited
    ensures var visited' := visited + [queue[0]];
            LoopInvariant(startUrl, strategy, fetchPage, stopAt,
                          NextQueue(strategy, queue[1..], visited', fetchPage(queue[0])), visited')
  {
    var visited' := visited + [queue[0]];
    var links := if strategy.Site? then Links(fetchPage(queue[0])) else [];
    EnqueueNothing(queue[1..], visited');
    assert NextQueue(strategy, queue[1..], visited', fetchPage(queue[0])) == Enqueue(queue[1..], visited', links);
    VisitKeepsQueueSound(queue, visited, links);
    if strategy.Site? {
      VisitKeepsExplored(queue, visited, fetchPage);
    }
    VisitStep(queue, visited, strategy, fetchPage, stopAt);
  }

  /** The addresses a crawl from `startUrl` visits: exactly those the breadth-first
      `Visits` gives, in its order, so each one after the start address is a link of a page
      visited before it; at most `MaxPages` of them, all distinct; the start address first,
      and none at all when the flag is raised before the first page; at most one page in
      single mode; and in site mode, unless the budget or the flag ended the crawl, every
      link of every visited page visited. */
  ghost predicate VisitSpec(startUrl: string, strategy: Strategy, fetchPage: string -> PageResponse,
                            stopAt: nat -> bool, visited: seq<string>)
  {
    && visited == Visits([startUrl], [], strategy, fetchPage, stopAt)
    && FollowsLinks(visited, fetchPage)
    && |visited| <= MaxPages
    && NoDuplicates(visited)
    && (stopAt(0) <==> visited == [])
    && (visited != [] ==> visited[0] == startUrl)
    && (strategy.Single? ==> |visited| <= 1)
    && (strategy.Site? && |visited| < MaxPages && !stopAt(|visited|) ==> Closed(visited, fetchPage))
  }

  /** When the loop stops, its visited list is the one `VisitSpec` describes. */
  lemma LoopExit(startUrl: string, strategy: Strategy, fetchPage: string -> PageResponse,
                 stopAt: nat -> bool, queue: seq<string>, visited: seq<string>)
    requires LoopInvariant(startUrl, strategy, fetchPage, stopAt, queue, visited)
    requires !(|queue| > 0 && |visited| < MaxPages && !stopAt(|visited|))
    ensures VisitSpec(startUrl, strategy, fetchPage, stopAt, visited)
  {
    VisitsFollowLinks([startUrl], [], strategy, fetchPage, stopAt);
  }

  /** What a crawl from `startUrl` produces: the visited addresses of `VisitSpec`, the
      content of the visited pages in visiting order, and the outcome and `questions`
      state that `Finish` and `QuestionsAfter` give. */
  ghost predicate CrawlSpec(startUrl: string, strategy: Strategy, fetchPage: string -> PageResponse,
                            generate: seq<Page> -> BatchResponse, stopAt: nat -> bool, run: CrawlRun)
  {
    && VisitSpec(startUrl, strategy, fetchPage, stopAt, run.visited)
    && run.collected == ContentPages(run.visited, fetchPage)
    && var found := CrawledQuestions(strategy, run.visited, fetchPage);
       && run.outcome == Finish(strategy, run.collected, found, stopAt(|run.visited|), generate)
       && run.questions == QuestionsAfter(strategy, run.collected, found, stopAt(|run.visited|), generate)
  }

  /** `handleCrawl` from the start address on: the crawl loop, then `Finish`. */
  method Crawl(startUrl: string, strategy: Strategy, fetchPage: string -> PageResponse,
               generate: seq<Page> -> BatchResponse, stopAt: nat -> bool)
    returns (run: CrawlRun)
    ensures CrawlSpec(startUrl, strategy, fetchPage, generate, stopAt, run)
    ensures run.outcome.Reviewing? ==> run.outcome.questions == run.questions
    ensures run.outcome.Failed? ==> run.questions == []
  {
    var queue := [startUrl];
    var visited: seq<string> := [];
    var collected: seq<Page> := [];
    var questions: seq<QA> := [];
    var questionsFound := 0;

    while |queue| > 0 && |visited| < MaxPages && !stopAt(|visited|)
      invariant LoopInvariant(startUrl, strategy, fetchPage, stopAt, queue, visited)
      invariant collected == ContentPages(visited, fetchPage)
      invariant questions == CrawledQuestions(strategy, visited, fetchPage) && questionsFound == |questions|
      decreases MaxPages - |visited|
    {
      ghost var queue0, visited0 := queue, visited;
      LoopStep(startUrl, strategy, fetchPage, stopAt, queue0, visited0);
      var currentLink := queue[0];
      queue := queue[1..];
      // The queue never holds a visited address, so the `visited.has` skip never fires.
      assert currentLink !in visited;
      visited := visited + [currentLink];

      var response := fetchPage(currentLink);
      if response.PageOk? {
        if response.metadata.Some? && response.metadata.value.content != [] {
          var m := response.metadata.value;
          collected := collected + [Page(m.url, m.title, m.content)];
        }
        if strategy.Single? && response.questions.Some? {
          questions := response.questions.value;
          questionsFound := |questions|;
        }
        if strategy.Site? && response.metadata.Some? {
          queue := PushNewLinks(queue, visited, response.metadata.value.links);
        }
      }
      EnqueueNothing(queue0[1..], visited);
      assert queue == NextQueue(strategy, queue0[1..], visited, response);
      VisitExtendsRecords(visited0, currentLink, fetchPage);
    }

    LoopExit(startUrl, strategy, fetchPage, stopAt, queue, visited);
    var stopped := stopAt(|visited|);
    var outcome := Finish(strategy, collected, questions, stopped, generate);
    FinishOutcome(strategy, collected, questions, stopped, generate);
    questions := QuestionsAfter(strategy, collected, questions, stopped, generate);
    run := CrawlRun(visited, collected, questions, outcome);
  }

  // ---------------------------------------------------------------------------
  // Review step
  // ---------------------------------------------------------------------------

  /** The selection after clicking question `idx`: deselected when selected, selected
      otherwise. */
  function Toggled(selected: set<nat>, idx: nat): set<nat> {
    if idx in selected then selected - {idx} else selected + {idx}
  }

  /** Clicking the same question twice restores the selection. */
  lemma ToggleTwice(selected: set<nat>, idx: nat)
    ensures Toggled(Toggled(selected, idx), idx) == selected
  {
  }

  /** Toggling changes the membership of `idx` and of nothing else. */
  lemma ToggleFlipsOnlyIdx(selected: set<nat>, idx: nat)
    ensures idx in Toggled(selected, idx) <==> idx !in selected
    ensures forall j :: j != idx ==> (j in Toggled(selected, idx) <==> j in selected)
  {
  }

  /** The selected indices below `n`, in increasing order. */
  function SelectedIndices(n: nat, selected: set<nat>): (indices: seq<nat>)
    ensures forall k :: 0 <= k < |indices| ==> indices[k] < n
    ensures forall i :: i in indices <==> i < n && i in selected
    ensures forall k, m :: 0 <= k < m < |indices| ==> indices[k] < indices[m]
    decreases n
  {
    if n == 0 then []
    else SelectedIndices(n - 1, selected) + if n - 1 in selected then [n - 1] else []
  }

  /** `questions.filter((_, idx) => selectedIds.has(idx))`. */
  function SelectedQuestions(questions: seq<QA>, selected: set<nat>): (kept: seq<QA>)
    decreases |questions|
  {
    if questions == [] then []
    else
      SelectedQuestions(questions[..|questions| - 1], selected)
      + if |questions| - 1 in selected then [questions[|questions| - 1]] else []
  }

  /** The kept questions are exactly those at the selected indices, in their original order. */
  lemma {:induction false} SelectedQuestionsInOrder(questions: seq<QA>, selected: set<nat>)
    ensures var indices := SelectedIndices(|questions|, selected);
            var kept := SelectedQuestions(questions, selected);
            |kept| == |indices| && forall k :: 0 <= k < |kept| ==> kept[k] == questions[indices[k]]
    decreases |questions|
  {
    if questions != [] {
      var n := |questions|;
      var init := questions[..n - 1];
      SelectedQuestionsInOrder(init, selected);
      var indices := SelectedIndices(n - 1, selected);
      forall k | 0 <= k < |indices| ensures questions[indices[k]] == init[indices[k]] {
      }
    }
  }

  /** Selecting every question keeps them all. */
  lemma {:induction false} SelectAllKeepsAll(questions: seq<QA>, selected: set<nat>)
    requires forall i: nat :: i < |questions| ==> i in selected
    ensures SelectedQuestions(questions, selected) == questions
    decreases |questions|
  {
    if questions != [] {
      var n := |questions|;
      SelectAllKeepsAll(questions[..n - 1], selected);
      assert questions[..n - 1] + [questions[n - 1]] == questions;
    }
  }

  /** Deselecting every question keeps none. */
  lemma {:induction false} DeselectAllKeepsNone(questions: seq<QA>)
    ensures SelectedQuestions(questions, {}) == []
    decreases |questions|
  {
    if questions != [] {
      DeselectAllKeepsNone(questions[..|questions| - 1]);
    }
  }

  // ---------------------------------------------------------------------------
  // The dialog's state
  // ---------------------------------------------------------------------------

  /** The dialog's React state, as fields its handlers update. */
  class CrawlDialog {
    var open: bool
    var strategy: Strategy
    var url: string
    var step: Step
    var error: string
    var questions: seq<QA>
    var selectedIds: set<nat>
    var loading: bool
    var isStopping: bool
    var processedCount: nat

    /** A freshly opened dialog. */
    constructor ()
      ensures open && strategy == Single && url == [] && step == Input && error == []
      ensures questions == [] && selectedIds == {} && !loading && !isStopping && processedCount == 0
    {
      open := true;
      strategy := Single;
      url := [];
      step := Input;
      error := [];
      questions := [];
      selectedIds := {};
      loading := false;
      isStopping := false;
      processedCount := 0;
    }

    /** Typing in the address field: the address becomes the field's text. */
    method TypeUrl(text: string)
      modifies this
      ensures url == text
      ensures open == old(open) && strategy == old(strategy) && step == old(step)
      ensures error == old(error) && questions == old(questions) && selectedIds == old(selectedIds)
      ensures loading == old(loading) && isStopping == old(isStopping) && processedCount == old(processedCount)
    {
      url := text;
    }

    /** Choosing "Single Page" or "Entire Website" in the radio group. */
    method ChooseStrategy(choice: Strategy)
      modifies this
      ensures strategy == choice
      ensures open == old(open) && url == old(url) && step == old(step)
      ensures error == old(error) && questions == old(questions) && selectedIds == old(selectedIds)
      ensures loading == old(loading) && isStopping == old(isStopping) && processedCount == old(processedCount)
    {
      strategy := choice;
    }

    /** `handleCrawl`. A blank address only sets the error. Otherwise the crawl runs from
        the normalised address and its outcome decides between the review step (every
        question pre-selected) and the input step with the error message; the previous
        selection survives a failure. */
    method HandleCrawl(fetchPage: string -> PageResponse, generate: seq<Page> -> BatchResponse,
                       stopAt: nat -> bool)
      returns (run: Option<CrawlRun>)
      modifies this
      ensures open == old(open) && strategy == old(strategy) && url == old(url)
      ensures Trim(old(url)) == [] ==>
                && run.None? && error == EmptyUrlMessage
                && step == old(step) && questions == old(questions) && selectedIds == old(selectedIds)
                && loading == old(loading) && isStopping == old(isStopping) && processedCount == old(processedCount)
      ensures Trim(old(url)) != [] ==>
                && run.Some? && CrawlSpec(NormalizeStartUrl(old(url)), strategy, fetchPage, generate, stopAt, run.value)
                && !loading && !isStopping && processedCount == |run.value.visited|
      ensures run.Some? && run.value.outcome.Reviewing? ==>
                step == Review && error == [] && questions == run.value.outcome.questions
                && selectedIds == run.value.outcome.selected
      ensures run.Some? && run.value.outcome.Failed? ==>
                step == Input && error == run.value.outcome.message && questions == []
                && selectedIds == old(selectedIds)
    {
      if Trim(url) == [] {
        error := EmptyUrlMessage;
        return None;
      }
      var startUrl := NormalizeStartUrl(url);
      // `loading`, `step`, `error`, `questions`, `processedCount` and `isStopping` are reset
      // here and overwritten below; only their final values are modelled.
      var crawl := Crawl(startUrl, strategy, fetchPage, generate, stopAt);
      ApplyRun(crawl);
      run := Some(crawl);
    }

    /** The state updates at the end of `handleCrawl`: the review step on success, the input step with the error otherwise. */
    method ApplyRun(crawl: CrawlRun)
      modifies this
      ensures open == old(open) && strategy == old(strategy) && url == old(url)
      ensures !loading && !isStopping && processedCount == |crawl.visited| && questions == crawl.questions
      ensures crawl.outcome.Reviewing? ==>
                step == Review && error == [] && selectedIds == crawl.outcome.selected
      ensures crawl.outcome.Failed? ==>
                step == Input && error == crawl.outcome.message && selectedIds == old(selectedIds)
    {
      match crawl.outcome {
        case Reviewing(_, selected) =>
          selectedIds := selected;
          step := Review;
          error := [];
        case Failed(message) =>
          step := Input;
          error := message;
      }
      questions := crawl.questions;
      processedCount := |crawl.visited|;
      loading := false;
      isStopping := false;
    }

    /** `handleStop`: raises the stop flag. */
    method HandleStop()
      modifies this
      ensures isStopping
      ensures open == old(open) && strategy == old(strategy) && url == old(url) && step == old(step)
      ensures error == old(error) && questions == old(questions) && selectedIds == old(selectedIds)
      ensures loading == old(loading) && processedCount == old(processedCount)
    {
      isStopping := true;
    }

    /** `handleToggleQuestion`. */
    method HandleToggleQuestion(idx: nat)
      modifies this
      ensures selectedIds == Toggled(old(selectedIds), idx)
      ensures open == old(open) && strategy == old(strategy) && url == old(url) && step == old(step)
      ensures error == old(error) && questions == old(questions)
      ensures loading == old(loading) && isStopping == old(isStopping) && processedCount == old(processedCount)
    {
      var newSelected := selectedIds;
      if idx in newSelected {
        newSelected := newSelected - {idx};
      } else {
        newSelected := newSelected + {idx};
      }
      selectedIds := newSelected;
    }

    /** The "Select All" button. */
    method SelectAll()
      modifies this
      ensures selectedIds == Range(|questions|)
      ensures open == old(open) && strategy == old(strategy) && url == old(url) && step == old(step)
      ensures error == old(error) && questions == old(questions)
      ensures loading == old(loading) && isStopping == old(isStopping) && processedCount == old(processedCount)
    {
      selectedIds := Range(|questions|);
    }

    /** The "Deselect All" button. */
    method DeselectAll()
      modifies this
      ensures selectedIds == {}
      ensures open == old(open) && strategy == old(strategy) && url == old(url) && step == old(step)
      ensures error == old(error) && questions == old(questions)
      ensures loading == old(loading) && isStopping == old(isStopping) && processedCount == old(processedCount)
    {
      selectedIds := {};
    }

    /** `handleClose`: clears the address, the questions, the selection and the error,
        returns to the input step and closes the dialog. */
    method HandleClose()
      modifies this
      ensures !open && url == [] && questions == [] && selectedIds == {} && step == Input && error == []
      ensures strategy == old(strategy) && loading == old(loading) && isStopping == old(isStopping)
      ensures processedCount == old(processedCount)
    {
      url := [];
      questions := [];
      selectedIds := {};
      step := Input;
      error := [];
      open := false;
    }

    /** `handleAddSelected`: hands the selected questions, in their original order, to the
        caller and closes the dialog. */
    method HandleAddSelected() returns (added: seq<QA>)
      modifies this
      ensures added == SelectedQuestions(old(questions), old(selectedIds))
      ensures !open && url == [] && questions == [] && selectedIds == {} && step == Input && error == []
      ensures strategy == old(strategy) && loading == old(loading) && isStopping == old(isStopping)
      ensures processedCount == old(processedCount)
    {
      added := SelectedQuestions(questions, selectedIds);
      HandleClose();
    }
  }
}
