# Chatbot builder core, modelled in Dafny

This project models the core of a no-code chatbot builder. A site owner builds a
knowledge base of question/answer entries by hand or by crawling their website. A
language model turns the crawled text into entries, and a chat route answers questions
against the crawled pages. An embeddable widget answers visitors with a keyword
matcher, and an analytics page lists past chat sessions. The model covers seven source
files, one Dafny module each:

- `ChatbotWidget` (`chatbot_widget.dfy`): the widget's `patternMatch` scorer and the
  blank-input guard of `handleSend`. The matcher's loops become methods proved equal to
  the scoring functions `Score`, `Scores`, `Scan` and `Reply`.
- `CrawlWebsiteDialog` (`crawl_website_dialog.dfy`): the dashboard's crawl dialog.
  - The crawl is a method with a queue, a visited list and a ten-page budget. Its loop
    is proved to visit exactly the pages of the breadth-first definition `Visits`, so
    every page after the start page is a link of a page visited before it. Its per-page
    request, batch-generation request and stop flag are parameters.
  - The dialog's state lives in the class `CrawlDialog`, whose handlers update it.
- `CrawlRoute` (`crawl_route.dfy`), the `POST /api/crawl` route:
  - input checks;
  - whitespace collapsing, truncation and the thinness check on the page text;
  - stripping Markdown code fences off the model's reply;
  - filtering, normalising and truncating the generated questions;
  - the error responses of its `catch` block.
- `ChatRoute` (`chat_route.dfy`), the `POST /api/chat` route:
  - the required-field check;
  - the knowledge-base text built from the crawled pages;
  - the system message with its fallback;
  - the empty-answer fallback;
  - the bot message it saves.
- `EditQuestionDialog` (`edit_question_dialog.dfy`): the edit dialog's schema and its
  keyword chips. The add, remove, submit and close handlers are methods of a class
  holding the dialog's state.
- `QAForm` (`qa_form.dfy`): the add-entry form's schema and the conversion of its
  comma-separated keyword field into a list.
- `SessionsList` (`sessions_list.dfy`), the analytics session list:
  - duration and status formatting;
  - twenty-per-page pagination, whose Previous/Next buttons are methods of a class
    holding the current page.

Shared modules:

- `Strings` (`strings.dfy`) models the JavaScript string built-ins the core uses:
  - `trim` and `\s` over the ASCII whitespace characters;
  - ASCII `toLowerCase`;
  - `includes`, `startsWith`, `substring`;
  - `split` and `join` on one character;
  - the decimal spelling of numbers in template literals.
- `Types` (`types.dfy`) holds the knowledge-base entry `QA`.
- `Wrappers` (`wrappers.dfy`) holds `Option`.

Everything outside the process is a parameter of the model:

- the network calls (the crawled site, the Gemini and GitHub Models APIs, the dialog's
  calls to `/api/crawl`);
- HTML extraction, `new URL` and `JSON.parse`;
- the database;
- the stop flag.

Each becomes a function-valued argument (`Services`, `ChatServices`, `fetchPage`,
`generate`, `stopAt`). The properties hold for every behaviour of these services.

Where the code and the design description of the system disagree, the model follows the
code:

- An empty keyword is contained in every message. `patternMatch` therefore answers even
  the empty message; since `handleSend` never passes a blank one, an entry with an empty
  keyword makes every sent message answered (`EmptyKeywordMatchesEverything`).
- A site crawl stopped after it collected pages skips the batch generation. It reaches
  the review step with no questions instead of failing (`StoppedSiteCrawlReviewsNothing`).
- The crawl route tests question and answer for truthiness before trimming them. A
  question of blanks passes and comes out empty (`BlankQuestionPasses`).
- The crawl route has no extract-only or batch mode, although the dialog asks for both.
  Against the route's responses, which carry no `content`, a site crawl always ends in
  "No content could be extracted from the website." (`RouteShapedSiteCrawlFails`).
- The crawl route reports a request body that is not JSON as "Failed to parse AI
  response" (`UnreadableBodyReportedAsParseFailure`). It reports a syntax error whose
  message mentions `fetch` as a connection failure (`SyntaxErrorMentioningFetch`).
- The chat route answers a request body that is not JSON, or the JSON body `null`, with
  status 500 and the parser's or the TypeError's message.

## Model

| member | source | states |
|---|---|---|
| ChatbotWidget.Normalize | public/widget/chatbot-widget.js:470 | the message the matcher compares against: the user message lower-cased, then trimmed |
| ChatbotWidget.LongWords | public/widget/chatbot-widget.js:485 | the `w.length > 3` filter keeps words in order and never lengthens the list |
| ChatbotWidget.QuestionWords | public/widget/chatbot-widget.js:485 | the question's words: the lower-cased question split at spaces, long words only |
| ChatbotWidget.Score | public/widget/chatbot-widget.js:475-496 | one entry's score: 3 per keyword the message contains, 1 per long question word it contains, and 10 when the message equals the lower-cased question |
| ChatbotWidget.Scores | public/widget/chatbot-widget.js:474-496 | one score per entry, in entry order |
| ChatbotWidget.Reply | public/widget/chatbot-widget.js:471-508 | the answer of the entry the strict-`>` scan selects when its score is at least 2, otherwise the apology |
| ChatbotWidget.LongWordsFilter | public/widget/chatbot-widget.js:485 | the question-word filter keeps exactly the words longer than three characters |
| ChatbotWidget.QuestionWordsShape | public/widget/chatbot-widget.js:485 | every question word is a lower-case piece of the question's space split, longer than three characters |
| ChatbotWidget.Hits | public/widget/chatbot-widget.js:478-490 | the number of hits is at most the number of words looked for |
| ChatbotWidget.ScoresAt | public/widget/chatbot-widget.js:474-496 | position i of the score list is the score of entry i |
| ChatbotWidget.Scan | public/widget/chatbot-widget.js:471-500 | the scan's selection is none with highest score 0, or an index whose score is the highest score |
| ChatbotWidget.ScanFindsFirstBest | public/widget/chatbot-widget.js:497-500 | with strict `>` from 0 the scan picks the first entry of maximal score; it picks none exactly when every score is 0 |
| ChatbotWidget.FirstBestUnique | public/widget/chatbot-widget.js:497-500 | among tied top scores only the earliest is the first best |
| ChatbotWidget.ReplyIsFirstBestAnswer | public/widget/chatbot-widget.js:503-508 | the reply is the first best entry's answer when its score is at least 2, and the apology when every score is below 2 |
| ChatbotWidget.ReplyIsAnswerOrApology | public/widget/chatbot-widget.js:505-508 | the reply is always the answer of some entry or the apology |
| ChatbotWidget.NoEntriesNoAnswer | public/widget/chatbot-widget.js:474-508 | with no entries the reply is the apology |
| ChatbotWidget.ExactQuestionIsAnswered | public/widget/chatbot-widget.js:493-505 | a message equal to an entry's lower-cased question gives it at least 10, so the best score reaches 10 and an answer is given |
| ChatbotWidget.NoHitsInEmptyMessage | public/widget/chatbot-widget.js:478-490 | the empty message contains no non-empty word |
| ChatbotWidget.AllWordsHit | public/widget/chatbot-widget.js:478-490 | when the message contains every word, each word is a hit |
| ChatbotWidget.EmptyMessageNoMatch | public/widget/chatbot-widget.js:469-509 | with non-empty questions and keywords the empty message gets the apology |
| ChatbotWidget.CountHits | public/widget/chatbot-widget.js:478-490 | the inner loops count exactly the words the message includes, repeats counted again |
| ChatbotWidget.ScoreEntry | public/widget/chatbot-widget.js:475-496 | one entry's score is 3 per keyword hit, 1 per long question-word hit and 10 for an exact match |
| ChatbotWidget.SelectBest | public/widget/chatbot-widget.js:471-501 | the outer loop returns the entry and score of the specification scan over all scores |
| ChatbotWidget.PatternMatch | public/widget/chatbot-widget.js:469-509 | the matcher's reply equals the specification reply for the lower-cased, trimmed message |
| ChatbotWidget.NormalizeTrimmed | public/widget/chatbot-widget.js:451-470 | trimming before normalising changes nothing |
| ChatbotWidget.HandleSend | public/widget/chatbot-widget.js:450-462 | nothing is sent exactly when the input is blank; otherwise the reply is the matcher's reply for the input |
| ChatbotWidget.ExactMatchCanLose | public/widget/chatbot-widget.js:493-500 | an exact question match can lose to a later entry with more keyword hits |
| ChatbotWidget.ExactMatchScore | public/widget/chatbot-widget.js:493-495 | an exact match without keywords or long words scores 10 |
| ChatbotWidget.KeywordsScore | public/widget/chatbot-widget.js:478-482 | four keyword hits, repeats included, score 12 |
| ChatbotWidget.EmptyKeywordMatchesEverything | public/widget/chatbot-widget.js:478-505 | an entry with an empty keyword is answered for every message |
| CrawlWebsiteDialog.NormalizeStartUrl | components/dashboard/CrawlWebsiteDialog.tsx:59-62 | the start address always starts with `http://` or `https://` |
| CrawlWebsiteDialog.NormalizeKeepsScheme | components/dashboard/CrawlWebsiteDialog.tsx:59-62 | an address that already has a scheme is only trimmed |
| CrawlWebsiteDialog.NormalizeStartUrlIdempotent | components/dashboard/CrawlWebsiteDialog.tsx:59-62 | normalising twice is normalising once |
| CrawlWebsiteDialog.Enqueue | components/dashboard/CrawlWebsiteDialog.tsx:129-135 | the queue grows only at its end, by links neither visited nor queued; every link ends up visited or queued; no duplicates appear |
| CrawlWebsiteDialog.ContentOf | components/dashboard/CrawlWebsiteDialog.tsx:114-120 | a page response contributes at most one content entry |
| CrawlWebsiteDialog.ContentPages | components/dashboard/CrawlWebsiteDialog.tsx:114-120 | at most one content entry per visited page |
| CrawlWebsiteDialog.LastQuestions | components/dashboard/CrawlWebsiteDialog.tsx:122-126 | the questions of the last visited page whose response carries a questions list; none when no page does |
| CrawlWebsiteDialog.CrawledQuestions | components/dashboard/CrawlWebsiteDialog.tsx:122-126 | single-page crawls take their questions from the page responses, site crawls take none |
| CrawlWebsiteDialog.Range | components/dashboard/CrawlWebsiteDialog.tsx:189 | the pre-selection holds exactly the indices below the question count |
| CrawlWebsiteDialog.FinalCheck | components/dashboard/CrawlWebsiteDialog.tsx:179-190 | without questions a site crawl without content fails with the no-content message and a single-page crawl with the no-questions message; otherwise the review step with every index selected |
| CrawlWebsiteDialog.RunsBatch | components/dashboard/CrawlWebsiteDialog.tsx:149 | the batch request runs only for site crawls that collected content and were not stopped |
| CrawlWebsiteDialog.Finish | components/dashboard/CrawlWebsiteDialog.tsx:148-190 | the batch request when it runs (its thrown message, its error or "Failed to generate FAQs", or "Invalid response from AI service" when no list comes back), then the final check |
| CrawlWebsiteDialog.QuestionsAfter | components/dashboard/CrawlWebsiteDialog.tsx:166-169 | the questions state becomes the batch list when the batch request returns one, and otherwise keeps what the loop set |
| CrawlWebsiteDialog.FinishOutcome | components/dashboard/CrawlWebsiteDialog.tsx:148-195 | the review step shows the final questions, all pre-selected; a failure leaves no questions |
| CrawlWebsiteDialog.BatchOnlyWhenRun | components/dashboard/CrawlWebsiteDialog.tsx:149 | the batch response matters only for site crawls with collected content that were not stopped |
| CrawlWebsiteDialog.SiteWithoutContentFails | components/dashboard/CrawlWebsiteDialog.tsx:180-182 | a site crawl without content fails with the no-content message |
| CrawlWebsiteDialog.SingleWithoutQuestionsFails | components/dashboard/CrawlWebsiteDialog.tsx:180-185 | a single-page crawl without questions fails with the no-questions message |
| CrawlWebsiteDialog.StoppedSiteCrawlReviewsNothing | components/dashboard/CrawlWebsiteDialog.tsx:149-190 | a stopped site crawl with content reaches the review step with no questions |
| CrawlWebsiteDialog.BatchFailureMessages | components/dashboard/CrawlWebsiteDialog.tsx:153-177 | a batch request that throws, is not ok or returns no list fails with its message; an empty list reviews nothing |
| CrawlWebsiteDialog.NoContentPages | components/dashboard/CrawlWebsiteDialog.tsx:114-120 | with no response carrying content nothing is collected |
| CrawlWebsiteDialog.RouteShapedSiteCrawlFails | components/dashboard/CrawlWebsiteDialog.tsx:114-182 | responses without `content` make every site crawl fail with the no-content message |
| CrawlWebsiteDialog.PushNewLinks | components/dashboard/CrawlWebsiteDialog.tsx:130-134 | the link loop computes `Enqueue` |
| CrawlWebsiteDialog.VisitKeepsQueueSound | components/dashboard/CrawlWebsiteDialog.tsx:78-135 | visiting the queue head keeps the visited list and the queue duplicate-free and disjoint |
| CrawlWebsiteDialog.VisitKeepsExplored | components/dashboard/CrawlWebsiteDialog.tsx:78-135 | every link of a visited page stays visited or queued |
| CrawlWebsiteDialog.EnqueueNothing | components/dashboard/CrawlWebsiteDialog.tsx:129 | a page without links leaves the queue unchanged |
| CrawlWebsiteDialog.VisitExtendsRecords | components/dashboard/CrawlWebsiteDialog.tsx:114-126 | a visit appends its page's content and replaces the questions only when the page has some |
| CrawlWebsiteDialog.NextQueue | components/dashboard/CrawlWebsiteDialog.tsx:129-135 | after a visit, site crawls push the page's new links behind the rest of the queue and single-page crawls push nothing |
| CrawlWebsiteDialog.Visits | components/dashboard/CrawlWebsiteDialog.tsx:78-135 | the breadth-first visiting order: stop on an empty queue, a full budget or the stop flag; skip a head already visited; otherwise visit the head and continue with `NextQueue` |
| CrawlWebsiteDialog.VisitStep | components/dashboard/CrawlWebsiteDialog.tsx:78-135 | visiting the unvisited head of the queue moves `Visits` on to the next queue and the longer visited list |
| CrawlWebsiteDialog.FollowsLinksExtend | components/dashboard/CrawlWebsiteDialog.tsx:78-81 | visiting an address linked from a visited page keeps every visited address reached through a link |
| CrawlWebsiteDialog.NextQueueLinked | components/dashboard/CrawlWebsiteDialog.tsx:129-135 | after a visit every queued address is a link of a visited page |
| CrawlWebsiteDialog.VisitsFollowLinks | components/dashboard/CrawlWebsiteDialog.tsx:78-135 | every address the crawl visits after the start address is a link of a page visited before it |
| CrawlWebsiteDialog.DeadEndStart | components/dashboard/CrawlWebsiteDialog.tsx:71-135 | a start page that offers no links is the only page visited, and none is when the flag is raised at once |
| CrawlWebsiteDialog.LoopStep | components/dashboard/CrawlWebsiteDialog.tsx:78-135 | one round never meets a visited head and keeps the queue and visited list duplicate-free, disjoint, explored and on the `Visits` path |
| CrawlWebsiteDialog.LoopExit | components/dashboard/CrawlWebsiteDialog.tsx:78-135 | when the loop stops, its visited list is the one `Visits` gives, follows links, and meets the budget, start, single-mode and closure rules |
| CrawlWebsiteDialog.Crawl | components/dashboard/CrawlWebsiteDialog.tsx:71-190 | the pages the breadth-first `Visits` gives, in its order, each after the start page a link of an earlier page; at most ten distinct pages, the start page first; one page in single mode; in site mode every link of every visited page is visited unless the budget or the flag stopped it; content in visiting order; the outcome of the final checks |
| CrawlWebsiteDialog.Toggled | components/dashboard/CrawlWebsiteDialog.tsx:208-216 | a selected index is deselected and an unselected one selected |
| CrawlWebsiteDialog.SelectedQuestions | components/dashboard/CrawlWebsiteDialog.tsx:219 | the questions whose index is selected, in their original order |
| CrawlWebsiteDialog.ToggleTwice | components/dashboard/CrawlWebsiteDialog.tsx:208-216 | toggling a question twice restores the selection |
| CrawlWebsiteDialog.ToggleFlipsOnlyIdx | components/dashboard/CrawlWebsiteDialog.tsx:208-216 | toggling flips the clicked index and no other |
| CrawlWebsiteDialog.SelectedIndices | components/dashboard/CrawlWebsiteDialog.tsx:219 | the selected indices below the count, in increasing order |
| CrawlWebsiteDialog.SelectedQuestionsInOrder | components/dashboard/CrawlWebsiteDialog.tsx:219 | the added questions are exactly those at the selected indices, in their original order |
| CrawlWebsiteDialog.SelectAllKeepsAll | components/dashboard/CrawlWebsiteDialog.tsx:219-378 | after Select All every question is added |
| CrawlWebsiteDialog.DeselectAllKeepsNone | components/dashboard/CrawlWebsiteDialog.tsx:219-385 | after Deselect All none is added |
| CrawlWebsiteDialog.CrawlDialog.constructor | components/dashboard/CrawlWebsiteDialog.tsx:38-51 | the initial state: single mode, input step, no questions, nothing selected |
| CrawlWebsiteDialog.CrawlDialog.TypeUrl | components/dashboard/CrawlWebsiteDialog.tsx:258 | typing sets the address to the field's text and changes nothing else |
| CrawlWebsiteDialog.CrawlDialog.ChooseStrategy | components/dashboard/CrawlWebsiteDialog.tsx:269-290 | choosing a radio button sets the strategy and changes nothing else |
| CrawlWebsiteDialog.CrawlDialog.HandleCrawl | components/dashboard/CrawlWebsiteDialog.tsx:53-201 | a blank address only sets the error; otherwise the crawl runs from the normalised address, visiting the pages `Visits` gives, and ends in the review step or the input step with the error |
| CrawlWebsiteDialog.CrawlDialog.ApplyRun | components/dashboard/CrawlWebsiteDialog.tsx:170-199 | the state after a crawl: loading and stopping cleared, the processed count, the review step with its selection or the input step with the message |
| CrawlWebsiteDialog.CrawlDialog.HandleStop | components/dashboard/CrawlWebsiteDialog.tsx:203-206 | raises the stop flag and changes nothing else |
| CrawlWebsiteDialog.CrawlDialog.HandleToggleQuestion | components/dashboard/CrawlWebsiteDialog.tsx:208-216 | the selection becomes the toggled one and nothing else changes |
| CrawlWebsiteDialog.CrawlDialog.SelectAll | components/dashboard/CrawlWebsiteDialog.tsx:378 | every question index is selected |
| CrawlWebsiteDialog.CrawlDialog.DeselectAll | components/dashboard/CrawlWebsiteDialog.tsx:385 | nothing is selected |
| CrawlWebsiteDialog.CrawlDialog.HandleClose | components/dashboard/CrawlWebsiteDialog.tsx:225-232 | address, questions, selection and error cleared, input step, dialog closed |
| CrawlWebsiteDialog.CrawlDialog.HandleAddSelected | components/dashboard/CrawlWebsiteDialog.tsx:218-223 | hands over the selected questions in order, then closes as `handleClose` does |
| CrawlRoute.Collapse | app/api/crawl/route.ts:74 | `replace(/\s+/g, ' ')`: every run of whitespace becomes one space |
| CrawlRoute.CollapseShape | app/api/crawl/route.ts:73-74 | collapsing leaves no two adjacent whitespace characters, only plain spaces, and the same non-whitespace characters in order |
| CrawlRoute.CollapseRuns | app/api/crawl/route.ts:74 | the collapsing scan emits no whitespace run and starts with no space inside a run |
| CrawlRoute.CollapseVisible | app/api/crawl/route.ts:74 | collapsing keeps the non-whitespace characters in order |
| CrawlRoute.VisibleAppend | app/api/crawl/route.ts:74 | the non-whitespace characters of a concatenation are those of its parts |
| CrawlRoute.CollapseOfCollapsed | app/api/crawl/route.ts:74 | an already collapsed text is left as it is |
| CrawlRoute.CollapseIdempotent | app/api/crawl/route.ts:74 | collapsing twice is collapsing once |
| CrawlRoute.CleanContent | app/api/crawl/route.ts:73-76 | the cleaned text has at most 6000 characters |
| CrawlRoute.CleanContentShape | app/api/crawl/route.ts:73-76 | the cleaned text is the first min(6000, length) characters of the collapsed, trimmed text, without leading or repeated whitespace, and trimmed when not cut |
| CrawlRoute.TrimmedCollapseShape | app/api/crawl/route.ts:73-75 | trimming the collapsed text keeps it free of whitespace runs |
| CrawlRoute.CleanContentIdempotent | app/api/crawl/route.ts:73-76 | cleaning a cleaned text that was not cut changes nothing |
| CrawlRoute.RemoveAll | app/api/crawl/route.ts:159-161 | removing fences never lengthens the text |
| CrawlRoute.RemoveAllAbsent | app/api/crawl/route.ts:159-161 | a text without the fence is unchanged |
| CrawlRoute.RemoveAllSkips | app/api/crawl/route.ts:159-161 | removal passes over a prefix that cannot start a fence |
| CrawlRoute.StripFences | app/api/crawl/route.ts:155-162 | the trimmed reply, with the `json` fences then the plain fences removed when it starts with a `json` fence, the plain fences removed when it starts with a plain one, and unchanged otherwise |
| CrawlRoute.StripFencesUnfenced | app/api/crawl/route.ts:155-162 | a reply that does not start with a fence is only trimmed |
| CrawlRoute.JsonFenceIsFence | app/api/crawl/route.ts:158-160 | a reply starting with the JSON fence also starts with the plain fence |
| CrawlRoute.RemoveFence | app/api/crawl/route.ts:159-161 | the plain-fence pass removes a plain fence; the JSON pass leaves it |
| CrawlRoute.StripJsonFence | app/api/crawl/route.ts:155-162 | a body fenced as JSON comes out bare, with the closing line break kept |
| CrawlRoute.StripPlainFence | app/api/crawl/route.ts:155-162 | a body in a plain fence comes out bare, with the closing line break kept |
| CrawlRoute.Keep | app/api/crawl/route.ts:176 | an element passes with a truthy question, a truthy answer and a keyword array |
| CrawlRoute.NormalizeItem | app/api/crawl/route.ts:177-181 | a kept element with its question and answer trimmed and each keyword trimmed and lower-cased |
| CrawlRoute.ValidQuestions | app/api/crawl/route.ts:175-182 | the first five kept elements, normalised, in input order |
| CrawlRoute.Kept | app/api/crawl/route.ts:176 | the filter keeps only elements with a truthy question, a truthy answer and a keyword array |
| CrawlRoute.KeptMembers | app/api/crawl/route.ts:176 | an element is kept exactly when it is in the input and passes the filter |
| CrawlRoute.KeptAppend | app/api/crawl/route.ts:176 | the filter keeps input order |
| CrawlRoute.ValidQuestionsShape | app/api/crawl/route.ts:175-182 | the first min(5, kept) kept elements, in order, question and answer trimmed, each keyword trimmed and lower-cased |
| CrawlRoute.BlankQuestionPasses | app/api/crawl/route.ts:176-178 | a question of blanks passes the filter and comes out empty |
| CrawlRoute.FromParsed | app/api/crawl/route.ts:164-194 | a parse that throws goes to the `catch` block; a `null` element makes the filter throw a TypeError into the `catch` block; a non-array or an empty array gives 500; otherwise success with the valid questions, the address, the title and the content length |
| CrawlRoute.Generate | app/api/crawl/route.ts:73-194 | after the fetch: clean the text, reject thin text with 400, ask the model, answer 500 for a failed call or an empty reply, then strip fences and parse |
| CrawlRoute.Post | app/api/crawl/route.ts:6-225 | the route: unreadable body to the `catch` block, a `null` body throws a TypeError into the `catch` block, missing address 400, rejected address 400, failed fetch with its status, otherwise `Generate` |
| CrawlRoute.NullBodyUnexpected | app/api/crawl/route.ts:6-225 | a `null` JSON body makes destructuring `url` throw, and the route answers 500 with the generic message whatever the services do |
| CrawlRoute.NullItemUnexpected | app/api/crawl/route.ts:164-219 | a `null` element in the parsed array makes the filter throw, and the route answers 500 with the generic message instead of the other elements' questions |
| CrawlRoute.Caught | app/api/crawl/route.ts:196-224 | the `catch` block always answers with an error |
| CrawlRoute.CaughtStatus | app/api/crawl/route.ts:200-224 | the `catch` block answers 408 exactly for an abort and 500 otherwise |
| CrawlRoute.MissingUrlRejected | app/api/crawl/route.ts:8-15 | a missing or empty address gives 400 "URL is required" |
| CrawlRoute.InvalidUrlRejected | app/api/crawl/route.ts:17-26 | an address `new URL` rejects gives 400 with the format message |
| CrawlRoute.FetchStatusPassedThrough | app/api/crawl/route.ts:43-48 | a failed fetch is answered with its own status and a message naming it |
| CrawlRoute.ThinContentRejected | app/api/crawl/route.ts:78-83 | fewer than 100 cleaned characters give 400 |
| CrawlRoute.EmptyGenerationRejected | app/api/crawl/route.ts:145-172 | an empty reply, a non-array or an empty array gives 500 with its message |
| CrawlRoute.HappyPath | app/api/crawl/route.ts:186-194 | a successful run answers with the validated questions, the parsed address, the title and the cleaned length |
| CrawlRoute.SuccessShape | app/api/crawl/route.ts:175-194 | every success has at most 5 normalised questions and a content length between 100 and 6000 |
| CrawlRoute.GenerateShape | app/api/crawl/route.ts:73-194 | after the fetch: successes as in `SuccessShape` with the given address and title; failures 400, 408 or 500 |
| CrawlRoute.FromParsedShape | app/api/crawl/route.ts:164-194 | after parsing: successes carry at most 5 normalised questions; failures are 500 |
| CrawlRoute.FilteredToNothingSucceeds | app/api/crawl/route.ts:167-194 | a non-empty array whose elements all fail the filter gives success with no questions |
| CrawlRoute.FailureStatuses | app/api/crawl/route.ts:10-224 | every failure is 400, 408, 500 or the failed fetch's own status |
| CrawlRoute.UnreadableBodyReportedAsParseFailure | app/api/crawl/route.ts:8-219 | a request body that is not JSON is reported as an unparsable model reply |
| CrawlRoute.SyntaxErrorMentioningFetch | app/api/crawl/route.ts:207-212 | a syntax error whose message mentions `fetch` is reported as a connection failure |
| ChatRoute.Entry | app/api/chat/route.ts:37 | one page's block: its source line, its title line, the content and the `---` separator |
| ChatRoute.SystemMessage | app/api/chat/route.ts:45-52 | the fixed instructions followed by the knowledge-base text, or the fallback text when that is empty |
| ChatRoute.Thrown | app/api/chat/route.ts:94-99 | a thrown error answers 500 with its message, or "Internal Server Error" when the message is empty, and writes nothing |
| ChatRoute.BotRow | app/api/chat/route.ts:78-83 | the saved row: the session id, the bot sender, the answer and no matched question |
| ChatRoute.Post | app/api/chat/route.ts:20-101 | the route: unreadable body and thrown errors to `Thrown`, missing fields 400, then load pages, check the token, ask the model and save the answer |
| ChatRoute.TitleOrDefault | app/api/chat/route.ts:37 | the title is the stored one when non-empty, otherwise "No Title" |
| ChatRoute.Entries | app/api/chat/route.ts:36-37 | one block per page |
| ChatRoute.ContextText | app/api/chat/route.ts:34-42 | the knowledge-base text has at most 30000 characters |
| ChatRoute.EntryShape | app/api/chat/route.ts:37 | each block starts with its source and title lines and ends with the separator line |
| ChatRoute.EntriesAppend | app/api/chat/route.ts:36-38 | one more page appends a line break and its block |
| ChatRoute.ContextOfPages | app/api/chat/route.ts:35-39 | with pages, the text is the first 30000 characters of the joined blocks, all of them when they fit, and starts with "SOURCE: " |
| ChatRoute.FallbackIffNoPages | app/api/chat/route.ts:45-52 | the system message carries the fallback text exactly when there are no pages |
| ChatRoute.AnswerText | app/api/chat/route.ts:73 | the answer is never empty |
| ChatRoute.MissingFieldsRejected | app/api/chat/route.ts:24-29 | a missing or empty field gives 400 and writes nothing |
| ChatRoute.AnsweredWithContext | app/api/chat/route.ts:45-73 | the model sees the built system message and the user's message; an empty completion becomes the apology |
| ChatRoute.WrittenRowShape | app/api/chat/route.ts:76-92 | a bot message of the session is written exactly on success, with no matched question and the returned answer as text |
| ChatRoute.FailureShape | app/api/chat/route.ts:24-100 | every failure is 400 or 500 with a non-empty error text |
| ChatRoute.MissingTokenFails | app/api/chat/route.ts:55-100 | without a token the route fails with 500 and the token message |
| EditQuestionDialog.ValidForm | components/dashboard/EditQuestionDialog.tsx:21-33 | the schema: question 10-200 characters, answer 10-500, at least one keyword, each 1-50 characters |
| EditQuestionDialog.Accepts | components/dashboard/EditQuestionDialog.tsx:74-77 | Enter adds a keyword when the input is not blank and its trimmed lower-case form is new and at most 50 characters |
| EditQuestionDialog.HasChanges | components/dashboard/EditQuestionDialog.tsx:96-99 | the form differs from the entry in its question, its answer or its keyword list |
| EditQuestionDialog.Without | components/dashboard/EditQuestionDialog.tsx:87 | removal never lengthens the list |
| EditQuestionDialog.AcceptedKeywordShape | components/dashboard/EditQuestionDialog.tsx:74-77 | an added keyword is 1-50 characters, trimmed, lower-case and new |
| EditQuestionDialog.AddKeepsNoDuplicates | components/dashboard/EditQuestionDialog.tsx:76-79 | adding keeps the keyword list free of duplicates |
| EditQuestionDialog.AddKeepsKeywordsValid | components/dashboard/EditQuestionDialog.tsx:30-79 | adding keeps every keyword valid for the schema |
| EditQuestionDialog.WithoutMembers | components/dashboard/EditQuestionDialog.tsx:87 | removal keeps exactly the other keywords |
| EditQuestionDialog.WithoutAbsent | components/dashboard/EditQuestionDialog.tsx:87 | removing an absent keyword changes nothing |
| EditQuestionDialog.WithoutAppend | components/dashboard/EditQuestionDialog.tsx:87 | removal keeps the order of the other keywords |
| EditQuestionDialog.RemoveUndoesAdd | components/dashboard/EditQuestionDialog.tsx:73-90 | removing the keyword just added restores the list |
| EditQuestionDialog.EditQuestionDialog.constructor | components/dashboard/EditQuestionDialog.tsx:50-51 | a closed dialog with an empty input and no keywords |
| EditQuestionDialog.EditQuestionDialog.Show | components/dashboard/EditQuestionDialog.tsx:64-71 | opening on an entry loads its keywords |
| EditQuestionDialog.EditQuestionDialog.TypeKeyword | components/dashboard/EditQuestionDialog.tsx:50 | typing sets the input and nothing else |
| EditQuestionDialog.EditQuestionDialog.HandleAddKeyword | components/dashboard/EditQuestionDialog.tsx:73-84 | Enter on an accepted input appends its trimmed lower-case form and clears the input; otherwise nothing changes |
| EditQuestionDialog.EditQuestionDialog.HandleRemoveKeyword | components/dashboard/EditQuestionDialog.tsx:86-90 | the keywords become the list without the removed one |
| EditQuestionDialog.EditQuestionDialog.HandleSubmit | components/dashboard/EditQuestionDialog.tsx:21-117 | an invalid form or no entry changes nothing; an unchanged entry only closes; otherwise the new values are submitted and the dialog is cleared and closed |
| EditQuestionDialog.EditQuestionDialog.HandleClose | components/dashboard/EditQuestionDialog.tsx:119-124 | clears the keywords and the input and closes |
| QAForm.ValidForm | components/dashboard/QAForm.tsx:27-37 | the schema: question 10-200 characters and answer 10-500; the keyword field is optional |
| QAForm.ParseKeywords | components/dashboard/QAForm.tsx:64-66 | a present, non-empty field is split at commas, each piece trimmed and the empty pieces dropped; otherwise no keywords |
| QAForm.TrimAll | components/dashboard/QAForm.tsx:65 | one trimmed piece per piece |
| QAForm.NonEmpty | components/dashboard/QAForm.tsx:65 | the filter never lengthens the list |
| QAForm.NonEmptyMembers | components/dashboard/QAForm.tsx:65 | the filter keeps exactly the non-empty pieces |
| QAForm.NonEmptyOfNonEmpty | components/dashboard/QAForm.tsx:65 | a list without empty pieces passes unchanged |
| QAForm.TrimKeepsAbsent | components/dashboard/QAForm.tsx:65 | trimming a piece adds no comma |
| QAForm.ParseKeywordsShape | components/dashboard/QAForm.tsx:64-66 | every parsed keyword is non-empty, trimmed and comma-free |
| QAForm.ParseJoined | components/dashboard/QAForm.tsx:64-66 | plain keywords joined by commas parse back to the same list |
| QAForm.ParseIdempotent | components/dashboard/QAForm.tsx:64-66 | writing the parsed list back and parsing again gives the same list |
| QAForm.KeywordsKeepCase | components/dashboard/QAForm.tsx:65 | keywords keep their letter case |
| QAForm.Submission | components/dashboard/QAForm.tsx:27-72 | a submission happens exactly for a valid form and carries the question and answer as typed |
| SessionsList.FormatDuration | components/analytics/SessionsList.tsx:31-37 | every shown duration has at least two characters |
| SessionsList.ParseDuration | components/analytics/SessionsList.tsx:31-37 | reads a shown duration back: `Ns` and `Mm Rs` give their seconds, any other text none |
| SessionsList.OngoingIffNoDuration | components/analytics/SessionsList.tsx:31-32 | "Ongoing" is shown exactly for a missing or zero duration |
| SessionsList.ShortDurationRoundTrip | components/analytics/SessionsList.tsx:33 | a duration below a minute reads back from its `Ns` text |
| SessionsList.ParseMinutes | components/analytics/SessionsList.tsx:34-36 | `Mm Rs` reads back as M * 60 + R seconds |
| SessionsList.LongDurationRoundTrip | components/analytics/SessionsList.tsx:34-36 | a duration of a minute or more shows as `Mm Rs` with `M * 60 + R` the duration and `R` below 60, and parsing that text gives the duration back |
| SessionsList.DurationRoundTrip | components/analytics/SessionsList.tsx:31-37 | every duration other than zero is read back from its text |
| SessionsList.DurationInjective | components/analytics/SessionsList.tsx:31-37 | different non-zero durations never show the same text |
| SessionsList.GetStatus | components/analytics/SessionsList.tsx:39-43 | active without an end time, brief when ended with at most two messages, completed otherwise |
| SessionsList.StatusOfEnded | components/analytics/SessionsList.tsx:39-43 | an ended session is never active; it is brief exactly with at most two messages, a missing count read as zero |
| SessionsList.StatusMonotone | components/analytics/SessionsList.tsx:41-42 | more messages never turn a completed session into a brief one |
| SessionsList.Slice | components/analytics/SessionsList.tsx:65 | a slice from a non-negative start is no longer than its bounds |
| SessionsList.PageSlice | components/analytics/SessionsList.tsx:63-65 | a page holds at most twenty sessions |
| SessionsList.TotalPages | components/analytics/SessionsList.tsx:66 | `Math.ceil(n / 20)` over whole numbers |
| SessionsList.ShowsControls | components/analytics/SessionsList.tsx:152 | the controls show when there is more than one page |
| SessionsList.ShownRange | components/analytics/SessionsList.tsx:155 | the "Showing a-b" numbers: one past the page start, and the page end capped at the list length |
| SessionsList.TotalPagesIsCeiling | components/analytics/SessionsList.tsx:66 | the page count is the least number of twenty-session pages holding every session |
| SessionsList.ShowsControlsIff | components/analytics/SessionsList.tsx:152 | the controls show exactly with more than twenty sessions |
| SessionsList.PageContents | components/analytics/SessionsList.tsx:63-66 | a page within the count is non-empty and holds the sessions from its start index on |
| SessionsList.EveryoneShownOnce | components/analytics/SessionsList.tsx:63-66 | every session is on exactly one page, which is within the count |
| SessionsList.ShownRangeMatchesPage | components/analytics/SessionsList.tsx:155 | the "Showing a-b" numbers lie within the list and count the sessions on the page |
| SessionsList.SessionsList.constructor | components/analytics/SessionsList.tsx:17 | the list opens on page 1 |
| SessionsList.SessionsList.Previous | components/analytics/SessionsList.tsx:158-165 | Previous moves back one page unless on page 1, keeping the page within the count and the shown page non-empty |
| SessionsList.SessionsList.Next | components/analytics/SessionsList.tsx:166-173 | Next moves on one page unless on the last, keeping the page within the count and the shown page non-empty |
| Strings.Trim | public/widget/chatbot-widget.js:470 | the trimmed string is the input without its leading and trailing whitespace and has none at either end |
| Strings.Lower | public/widget/chatbot-widget.js:470 | lower-casing keeps the length, maps each character by itself and keeps whitespace where it is |
| Strings.Includes | public/widget/chatbot-widget.js:479 | the string contains the word at some position |
| Strings.Prefix | app/api/crawl/route.ts:76 | `substring(0, n)`: the first n characters, or all of a shorter string |
| Strings.Split | components/dashboard/QAForm.tsx:65 | `split` on one character gives at least one piece, and no piece holds the separator |
| Strings.Join | app/api/chat/route.ts:38 | the pieces with the separator between each two |
| Strings.IntToString | components/analytics/SessionsList.tsx:33 | the decimal spelling of an integer is never empty |
| Strings.TrimEmptyIffBlank | public/widget/chatbot-widget.js:451-452 | a string trims to empty exactly when it is all whitespace |
| Strings.LowerTrimShape | components/dashboard/EditQuestionDialog.tsx:76 | a trimmed, lower-cased string is trimmed, lower-case and as long as the trimmed one |
| Strings.IncludesEmpty | public/widget/chatbot-widget.js:479 | every string includes the empty string |
| Strings.JoinSplit | components/dashboard/QAForm.tsx:65 | joining the pieces of a split with the separator restores the string |
| Strings.SplitJoin | components/dashboard/QAForm.tsx:65 | splitting a join of separator-free pieces restores the pieces |
| Strings.ParseIntToString | components/analytics/SessionsList.tsx:33 | the decimal spelling of an integer reads back as the integer |

## Left out

- Browser UI: DOM building, styles, toasts, focus handling and the widget's typing-indicator delay.
- The widget's loading of its entries from the network, local storage or built-in fallback data. The matcher takes the entries as a parameter.
- Network and foreign libraries: fetching the crawled site (with its 10-second abort and User-Agent), the Gemini and GitHub Models calls, Cheerio's HTML extraction, `new URL` and `JSON.parse`. All are oracle parameters. The prompt wording sent to Gemini is not modelled; only its title, description and content fields are.
- The rate-limit sleep between crawled pages. It is timing only.
- CrawlWebsiteDialog.Crawl: the source reads the stop flag through the closure of the running handler, which keeps the value from when the crawl started. The model lets `stopAt` return any value at each step, so its properties hold for the closure's behaviour as a special case.
- CrawlWebsiteDialog.CrawlDialog.HandleCrawl: the intermediate state shown while the crawl runs (the current address, the crawling step, the live page count) is not modelled. Only the final state is.
- CrawlRoute.ValidQuestionsShape: generated elements whose `question` or `answer` are not strings, or whose keywords are not strings, make the source throw inside `trim`. The model takes them as strings.
- String lengths count Unicode scalar values, where JavaScript's `length` counts UTF-16 code units. A character outside the Basic Multilingual Plane (an emoji, say) counts once in the model and twice in the source. So on such text the model's length rules can differ from the source's: the 6000-character cut and the 100-character thinness check of the crawl route, the 30000-character cut of the chat route, the widget's "longer than three characters" word filter, and the 10–200, 10–500 and 50-character limits of the edit and add forms.
- Whitespace is the ASCII set (space, tab, line feed, vertical tab, form feed, carriage return). The Unicode spaces that JavaScript's `trim` and `\s` also cover are not modelled, and neither is non-ASCII lower-casing.
- The chat route's CORS headers and its `OPTIONS` handler. They are constant.
- EditQuestionDialog.EditQuestionDialog.HandleSubmit: the entry's id passed to `onSubmit` and the form library's own reset are not modelled. The typed question and answer are parameters.
- QAForm.Submission: the simulated 300 ms delay, the `isSubmitting` flag and the form reset after submitting are not modelled.
- SessionsList: durations and message counts are integers, so fractional seconds are not modelled. The session list is fixed for the lifetime of a `SessionsList` object.
- SessionsList: the date formatting (`toLocaleString`), the status colours and the expand/collapse toggle are presentation only.
