/**
 * The `POST /api/chat` route (app/api/chat/route.ts): it checks the request
 * fields, assembles the chatbot's crawled pages into a knowledge-base text,
 * builds the system message, asks the chat model for an answer and records
 * the answer as a bot message of the session.
 *
 * The database reads and writes and the model call are parameters
 * (`ChatServices`); the route's own decisions are the functions here.
 */
module ChatRoute {
  import opened Wrappers
  import opened Strings

  /** The knowledge-base text is cut to this many characters. */
  const MaxContextLength: nat := 30000

  const MissingFieldsMessage := "Missing required fields"
  const NoTitle := "No Title"
  const NoKnowledge := "No website content available yet."
  const Apology := "I'm sorry, I couldn't generate a response."
  const TokenMissingMessage := "GITHUB_TOKEN is not set in environment variables"
  const InternalErrorMessage := "Internal Server Error"
  const BotSender := "bot"

  /** The fixed instructions in front of the knowledge base. */
  const SystemPreamble :=
    "You are a helpful customer support AI assistant for a website.\n"
    + "Use the following Knowledge Base to answer the user's question.\n"
    + "If the answer is found in the Knowledge Base, be concise and helpful.\n"
    + "If the answer is NOT in the Knowledge Base, you may answer using general knowledge but be polite and mention you don't have specific info on that from the website.\n"
    + "Always check the Knowledge Base first.\n"
    + "\n"
    + "Knowledge Base:\n"

  // ---------------------------------------------------------------------------
  // Knowledge-base context
  // ---------------------------------------------------------------------------

  /** One stored crawl of a page: its address, the extracted title if any, the text. */
  datatype CrawledPage = CrawledPage(url: string, title: Option<string>, rawText: string)

  /** `item.extracted_title || 'No Title'`. */
  function TitleOrDefault(title: Option<string>): (r: string)
    ensures r != []
    ensures title.Some? && title.value != [] ==> r == title.value
    ensures !(title.Some? && title.value != []) ==> r == NoTitle
  {
    if title.Some? && title.value != [] then title.value else NoTitle
  }

  /** The block one page contributes. */
  function Entry(page: CrawledPage): string {
    "SOURCE: " + page.url + "\nTITLE: " + TitleOrDefault(page.title)
      + "\nCONTENT:\n" + page.rawText + "\n---\n"
  }

  /** The `map` over the pages, in list order. */
  function Entries(pages: seq<CrawledPage>): (r: seq<string>)
    ensures |r| == |pages|
  {
    seq(|pages|, i requires 0 <= i < |pages| => Entry(pages[i]))
  }

  /** `contextText`: empty without pages, otherwise the entries joined by line feeds and
      cut to 30000 characters. A missing result (`null`) counts as no pages. */
  function ContextText(pages: Option<seq<CrawledPage>>): (r: string)
    ensures |r| <= MaxContextLength
  {
    if pages.Some? && |pages.value| > 0 then
      Prefix(Join(Entries(pages.value), "\n"), MaxContextLength)
    else []
  }

  /** The system message: the preamble, then the context or the fallback text. */
  function SystemMessage(context: string): string {
    SystemPreamble + (if context != [] then context else NoKnowledge)
  }

  /** Every entry starts with its source line and ends with the separator line. */
  lemma EntryShape(page: CrawledPage)
    ensures StartsWith(Entry(page), "SOURCE: " + page.url + "\nTITLE: ")
    ensures var e := Entry(page); |e| >= 5 && e[|e| - 5..] == "\n---\n"
  {
    var e := Entry(page);
    var head := "SOURCE: " + page.url + "\nTITLE: ";
    assert e == head + (TitleOrDefault(page.title) + "\nCONTENT:\n" + page.rawText + "\n---\n");
    assert e[..|head|] == head;
  }

  /** One more page appends a line feed and its entry to the full text. */
  lemma EntriesAppend(pages: seq<CrawledPage>, page: CrawledPage)
    requires pages != []
    ensures Join(Entries(pages + [page]), "\n") == Join(Entries(pages), "\n") + "\n" + Entry(page)
  {
    assert Entries(pages + [page]) == Entries(pages) + [Entry(page)];
    JoinAppend(Entries(pages), Entry(page), "\n");
  }

  /** With pages, the context is the first 30000 characters of the joined entries, it
      starts with the first page's source line, and it is the whole text when that fits. */
  lemma ContextOfPages(pages: seq<CrawledPage>)
    requires pages != []
    ensures var full := Join(Entries(pages), "\n");
      var r := ContextText(Some(pages));
      && r == full[..|r|]
      && |r| == (if |full| <= MaxContextLength then |full| else MaxContextLength)
      && (|full| <= MaxContextLength ==> r == full)
      && StartsWith(r, "SOURCE: ")
  {
    var full := Join(Entries(pages), "\n");
    JoinStartsWithFirst(Entries(pages), "\n");
    EntryShape(pages[0]);
    assert StartsWith(full, "SOURCE: ") by {
      assert full[..8] == Entries(pages)[0][..8];
    }
    var r := ContextText(Some(pages));
    assert r[..8] == full[..8];
  }

  /** The fallback text is in the system message exactly when there are no pages. */
  lemma FallbackIffNoPages(pages: Option<seq<CrawledPage>>)
    ensures SystemMessage(ContextText(pages)) == SystemPreamble + NoKnowledge
            <==> pages.None? || pages.value == []
  {
    if pages.Some? && pages.value != [] {
      ContextOfPages(pages.value);
      var c := ContextText(pages);
      assert c[0] == 'S' && NoKnowledge[0] == 'N';
      assert SystemMessage(c)[|SystemPreamble|] == c[0];
      assert (SystemPreamble + NoKnowledge)[|SystemPreamble|] == NoKnowledge[0];
    }
  }

  // ---------------------------------------------------------------------------
  // The route
  // ---------------------------------------------------------------------------

  /** The request: a body that is not JSON or is `null` (with the parser's error message,
      or the TypeError message destructuring `null` raises), or the three fields, each
      possibly missing. */
  datatype ChatRequest =
    | Unreadable(errorMessage: string)
    | ChatFields(chatbotId: Option<string>, message: Option<string>, sessionId: Option<string>)

  /** JavaScript truthiness of an optional string. */
  predicate Truthy(s: Option<string>) {
    s.Some? && s.value != []
  }

  /** Loading the crawled pages: it throws with a message, or yields a list or `null`. */
  datatype Load = LoadThrew(message: string) | Loaded(pages: Option<seq<CrawledPage>>)

  /** The model call: it throws with a message, or yields the first choice's content. */
  datatype Completion = CompletionThrew(message: string) | Completed(content: Option<string>)

  /** The row written to the messages table. */
  datatype BotMessage = BotMessage(sessionId: string, sender: string, text: string,
                                   matchedQuestionId: Option<string>)

  /** The database and model services, and whether the access token is configured. */
  datatype ChatServices = ChatServices(
    loadPages: string -> Load,
    tokenSet: bool,
    complete: (string, string) -> Completion,
    save: BotMessage -> Option<string>)

  /** The JSON response. */
  datatype ChatResponse =
    | ChatFailure(status: int, error: string)
    | ChatSuccess(answer: string, messageId: Option<string>)

  /** The response together with the row the route asked the database to write. */
  datatype ChatOutcome = ChatOutcome(response: ChatResponse, written: Option<BotMessage>)

  /** The `catch` block: status 500 with the error's message, or a generic text when
      the message is empty. */
  function Thrown(message: string): ChatOutcome {
    ChatOutcome(ChatFailure(500, if message != [] then message else InternalErrorMessage), None)
  }

  /** `response.choices[0].message.content || apology`. */
  function AnswerText(content: Option<string>): (r: string)
    ensures r != []
  {
    if content.Some? && content.value != [] then content.value else Apology
  }

  /** The bot message for an answer. */
  function BotRow(sessionId: string, answer: string): BotMessage {
    BotMessage(sessionId, BotSender, answer, None)
  }

  /** `POST`. A failed save is logged and ignored: the answer is still returned, without
      a message id. */
  function Post(request: ChatRequest, svc: ChatServices): ChatOutcome {
    match request
    case Unreadable(message) => Thrown(message)
    case ChatFields(chatbotId, message, sessionId) =>
      if !Truthy(chatbotId) || !Truthy(message) || !Truthy(sessionId) then
        ChatOutcome(ChatFailure(400, MissingFieldsMessage), None)
      else match svc.loadPages(chatbotId.value)
        case LoadThrew(e) => Thrown(e)
        case Loaded(pages) =>
          if !svc.tokenSet then Thrown(TokenMissingMessage)
          else match svc.complete(SystemMessage(ContextText(pages)), message.value)
            case CompletionThrew(e) => Thrown(e)
            case Completed(content) =>
              var answer := AnswerText(content);
              var row := BotRow(sessionId.value, answer);
              ChatOutcome(ChatSuccess(answer, svc.save(row)), Some(row))
  }

  // ---------------------------------------------------------------------------
  // Properties of the route
  // ---------------------------------------------------------------------------

  /** A missing or empty field gives 400 and writes nothing, whatever the services do. */
  lemma MissingFieldsRejected(chatbotId: Option<string>, message: Option<string>,
                              sessionId: Option<string>, svc: ChatServices)
    requires !Truthy(chatbotId) || !Truthy(message) || !Truthy(sessionId)
    ensures Post(ChatFields(chatbotId, message, sessionId), svc)
            == ChatOutcome(ChatFailure(400, MissingFieldsMessage), None)
  {
  }

  /** The model is asked with the system message built from the pages and with the
      user's message unchanged; an empty completion becomes the apology. */
  lemma AnsweredWithContext(chatbotId: string, message: string, sessionId: string,
                            pages: Option<seq<CrawledPage>>, content: Option<string>, svc: ChatServices)
    requires chatbotId != [] && message != [] && sessionId != []
    requires svc.loadPages(chatbotId) == Loaded(pages) && svc.tokenSet
    requires svc.complete(SystemMessage(ContextText(pages)), message) == Completed(content)
    ensures var r := Post(ChatFields(Some(chatbotId), Some(message), Some(sessionId)), svc).response;
      && r.ChatSuccess?
      && (content.None? || content.value == [] ==> r.answer == Apology)
      && (content.Some? && content.value != [] ==> r.answer == content.value)
  {
  }

  /** Whatever is written is a bot message of the request's session with no matched
      question, whose text is the returned answer; nothing is written on failure. */
  lemma WrittenRowShape(request: ChatRequest, svc: ChatServices)
    ensures var o := Post(request, svc);
      && (o.written.Some? <==> o.response.ChatSuccess?)
      && (o.written.Some? ==>
            && request.ChatFields?
            && o.written.value.sessionId == request.sessionId.value
            && o.written.value.sender == BotSender
            && o.written.value.matchedQuestionId.None?
            && o.written.value.text == o.response.answer
            && o.response.answer != [])
  {
  }

  /** Every failure is a 400 for missing fields or a 500 from the `catch` block, whose
      error text is never empty. */
  lemma FailureShape(request: ChatRequest, svc: ChatServices)
    ensures var r := Post(request, svc).response;
      r.ChatFailure? ==> (r.status == 400 || r.status == 500) && r.error != []
  {
  }

  /** Without a configured token the route fails with 500 after loading the pages. */
  lemma MissingTokenFails(chatbotId: string, message: string, sessionId: string,
                          pages: Option<seq<CrawledPage>>, svc: ChatServices)
    requires chatbotId != [] && message != [] && sessionId != []
    requires svc.loadPages(chatbotId) == Loaded(pages) && !svc.tokenSet
    ensures Post(ChatFields(Some(chatbotId), Some(message), Some(sessionId)), svc)
            == ChatOutcome(ChatFailure(500, TokenMissingMessage), None)
  {
  }
}
