/**
 * The `POST /api/crawl` route (app/api/crawl/route.ts): it validates the
 * requested address, fetches the page, cleans its text, asks a language
 * model for five FAQ entries and normalises what comes back.
 *
 * Everything outside the route's own logic is a parameter (`Services`):
 * `new URL`, the page fetch, the HTML extraction, the model call and
 * `JSON.parse`. The route's early returns become the branches of `Post`,
 * and its `catch` block becomes `Caught`.
 */
module CrawlRoute {
  import opened Wrappers
  import opened Strings
  import opened Types

  // ---------------------------------------------------------------------------
  // Constants and messages
  // ---------------------------------------------------------------------------

  /** Cleaned page text is cut to this many characters. */
  const MaxContentLength: nat := 6000
  /** Cleaned page text shorter than this is rejected before generation. */
  const MinContentLength: nat := 100
  /** At most this many generated questions are returned. */
  const MaxQuestions: nat := 5

  /** The failures the route reports; `Message` gives the `error` text of each. */
  datatype ErrorKind =
    | UrlRequired | InvalidUrl | FetchFailed(status: int) | ThinContent
    | AiService | NoContent | InvalidQuestions
    | Timeout | Connect | ParseFailed | Unexpected

  /** The `error` field of each failure response. */
  function Message(kind: ErrorKind): string {
    match kind
    case UrlRequired => "URL is required"
    case InvalidUrl => "Invalid URL format. Please include http:// or https://"
    case FetchFailed(status) =>
      "Failed to fetch website. Status: " + IntToString(status) + ". The site may be blocking automated access."
    case ThinContent =>
      "Could not extract enough content from the website. The site may use heavy JavaScript or block scraping."
    case AiService => "AI service error. Please try again."
    case NoContent => "No content generated. Please try again."
    case InvalidQuestions => "Failed to generate valid questions. Please try again."
    case Timeout => "Request timeout. The website took too long to respond."
    case Connect => "Could not connect to the website. It may be down or blocking automated access."
    case ParseFailed => "Failed to parse AI response. Please try again."
    case Unexpected => "An unexpected error occurred. Please try again or add questions manually."
  }

  // ---------------------------------------------------------------------------
  // Whitespace clean-up: `.replace(/\s+/g, ' ').trim().substring(0, 6000)`
  // ---------------------------------------------------------------------------

  /** `s.replace(/\s+/g, ' ')`: every maximal run of white space becomes one space. */
  function Collapse(s: string): string {
    CollapseFrom(s, false)
  }

  /** The replacement as a left-to-right scan; `inRun` says that the previous character
      was white space, already replaced by a space. */
  function CollapseFrom(s: string, inRun: bool): string
    decreases |s|
  {
    if s == [] then []
    else if IsSpace(s[0]) then (if inRun then [] else [' ']) + CollapseFrom(s[1..], true)
    else [s[0]] + CollapseFrom(s[1..], false)
  }

  /** No two white-space characters stand next to each other. */
  predicate NoSpaceRuns(s: string) {
    forall i, j :: 0 <= i < |s| && 0 <= j < |s| && j == i + 1 ==> !(IsSpace(s[i]) && IsSpace(s[j]))
  }

  /** The only white-space character is the plain space. */
  predicate PlainSpaces(s: string) {
    forall i :: 0 <= i < |s| && IsSpace(s[i]) ==> s[i] == ' '
  }

  /** The characters of `s` that are not white space, in order. */
  function Visible(s: string): (r: string)
    ensures |r| <= |s|
    decreases |s|
  {
    if s == [] then []
    else (if IsSpace(s[0]) then [] else [s[0]]) + Visible(s[1..])
  }

  /** Collapsing leaves no run of white space, only plain spaces, and the same visible
      characters in the same order. */
  lemma CollapseShape(s: string)
    ensures NoSpaceRuns(Collapse(s)) && PlainSpaces(Collapse(s))
    ensures Visible(Collapse(s)) == Visible(s)
  {
    CollapseRuns(s, false);
    CollapseVisible(s, false);
  }

  /** The scan leaves no run of white space and only plain spaces, and inside a run it
      does not start with white space. */
  lemma {:induction false} CollapseRuns(s: string, inRun: bool)
    ensures var r := CollapseFrom(s, inRun);
      NoSpaceRuns(r) && PlainSpaces(r) && (inRun ==> r == [] || !IsSpace(r[0]))
    decreases |s|
  {
    if s != [] {
      var c := CollapseFrom(s[1..], IsSpace(s[0]));
      CollapseRuns(s[1..], IsSpace(s[0]));
      if !IsSpace(s[0]) {
        ConsKeepsShape(s[0], c);
      } else if !inRun {
        ConsKeepsShape(' ', c);
      }
    }
  }

  /** Putting a character in front keeps the shape when it is a plain space followed by
      a visible character or by nothing, or is not white space at all. */
  lemma ConsKeepsShape(h: char, c: string)
    requires NoSpaceRuns(c) && PlainSpaces(c)
    requires IsSpace(h) ==> h == ' ' && (c == [] || !IsSpace(c[0]))
    ensures NoSpaceRuns([h] + c) && PlainSpaces([h] + c)
  {
    var s := [h] + c;
    forall i, j | 0 <= i < |s| && 0 <= j < |s| && j == i + 1 ensures !(IsSpace(s[i]) && IsSpace(s[j])) {
      if i > 0 {
        assert s[i] == c[i - 1] && s[j] == c[j - 1];
      }
    }
    forall i | 0 <= i < |s| && IsSpace(s[i]) ensures s[i] == ' ' {
      if i > 0 {
        assert s[i] == c[i - 1];
      }
    }
  }

  /** The scan keeps the visible characters in order. */
  lemma {:induction false} CollapseVisible(s: string, inRun: bool)
    ensures Visible(CollapseFrom(s, inRun)) == Visible(s)
    decreases |s|
  {
    if s != [] {
      var c := CollapseFrom(s[1..], IsSpace(s[0]));
      CollapseVisible(s[1..], IsSpace(s[0]));
      var h := if !IsSpace(s[0]) then [s[0]] else if inRun then [] else [' '];
      assert CollapseFrom(s, inRun) == h + c;
      VisibleAppend(h, c);
    }
  }

  /** `Visible` distributes over concatenation. */
  lemma {:induction false} VisibleAppend(a: string, b: string)
    ensures Visible(a + b) == Visible(a) + Visible(b)
    decreases |a|
  {
    if a == [] {
      assert a + b == b;
    } else {
      assert (a + b)[0] == a[0] && (a + b)[1..] == a[1..] + b;
      VisibleAppend(a[1..], b);
    }
  }

  /** A string that already has no white-space runs and only plain spaces is left as it
      is (inside a run it must also not start with white space). */
  lemma {:induction false} CollapseOfCollapsed(s: string, inRun: bool)
    requires NoSpaceRuns(s) && PlainSpaces(s)
    requires inRun ==> s == [] || !IsSpace(s[0])
    ensures CollapseFrom(s, inRun) == s
    decreases |s|
  {
    if s != [] {
      var t := s[1..];
      assert NoSpaceRuns(t) && PlainSpaces(t) by {
        forall i, j | 0 <= i < |t| && 0 <= j < |t| && j == i + 1 ensures !(IsSpace(t[i]) && IsSpace(t[j])) {
          assert t[i] == s[i + 1] && t[j] == s[j + 1];
        }
        forall i | 0 <= i < |t| && IsSpace(t[i]) ensures t[i] == ' ' {
          assert t[i] == s[i + 1];
        }
      }
      if IsSpace(s[0]) && t != [] {
        assert t[0] == s[1];
      }
      CollapseOfCollapsed(t, IsSpace(s[0]));
      assert [s[0]] + t == s;
    }
  }

  /** Collapsing twice is collapsing once. */
  lemma CollapseIdempotent(s: string)
    ensures Collapse(Collapse(s)) == Collapse(s)
  {
    CollapseShape(s);
    CollapseOfCollapsed(Collapse(s), false);
  }

  /** A slice of a string inherits both shape properties. */
  lemma SliceKeepsShape(s: string, i: nat, j: nat)
    requires i <= j <= |s| && NoSpaceRuns(s) && PlainSpaces(s)
    ensures NoSpaceRuns(s[i..j]) && PlainSpaces(s[i..j])
  {
    var t := s[i..j];
    forall k, l | 0 <= k < l < |t| && l == k + 1 ensures !(IsSpace(t[k]) && IsSpace(t[l])) {
      assert t[k] == s[i + k] && t[l] == s[i + l];
    }
    forall k | 0 <= k < |t| && IsSpace(t[k]) ensures t[k] == ' ' {
      assert t[k] == s[i + k];
    }
  }

  /** The cleaned page text (app/api/crawl/route.ts:73-76). */
  function CleanContent(text: string): (r: string)
    ensures |r| <= MaxContentLength
  {
    Prefix(Trim(Collapse(text)), MaxContentLength)
  }

  /** The cleaned text is at most 6000 characters long, starts with a visible character,
      has no white-space runs and only plain spaces; it is a prefix of the trimmed,
      collapsed text, and is itself trimmed unless it was cut (a cut may leave one
      trailing space). */
  lemma CleanContentShape(text: string)
    ensures var r := CleanContent(text);
      && |r| <= MaxContentLength
      && (r == [] || !IsSpace(r[0]))
      && NoSpaceRuns(r) && PlainSpaces(r)
      && r == Trim(Collapse(text))[..|r|]
      && |r| == (if |Trim(Collapse(text))| <= MaxContentLength then |Trim(Collapse(text))| else MaxContentLength)
      && (|Trim(Collapse(text))| <= MaxContentLength ==> IsTrimmed(r))
  {
    var t := Trim(Collapse(text));
    TrimmedCollapseShape(text);
    var r := CleanContent(text);
    assert t[..|r|] == t[0..|r|];
    SliceKeepsShape(t, 0, |r|);
  }

  /** Trimming keeps the shape that collapsing produced. */
  lemma TrimmedCollapseShape(text: string)
    ensures NoSpaceRuns(Trim(Collapse(text))) && PlainSpaces(Trim(Collapse(text)))
  {
    CollapseShape(text);
    TrimKeepsShape(Collapse(text));
  }

  /** Trimming a string keeps both shape properties. */
  lemma TrimKeepsShape(c: string)
    requires NoSpaceRuns(c) && PlainSpaces(c)
    ensures NoSpaceRuns(Trim(c)) && PlainSpaces(Trim(c))
  {
    var t := Trim(c);
    var a := LeadingSpaces(c);
    SliceKeepsShape(c, a, a + |t|);
  }

  /** Cleaning a text that was not cut changes nothing. */
  lemma CleanContentIdempotent(text: string)
    requires |Trim(Collapse(text))| <= MaxContentLength
    ensures CleanContent(CleanContent(text)) == CleanContent(text)
  {
    var r := CleanContent(text);
    CleanContentShape(text);
    CollapseOfCollapsed(r, false);
    TrimOfTrimmed(r);
  }

  // ---------------------------------------------------------------------------
  // Markdown fence stripping (app/api/crawl/route.ts:155-162)
  // ---------------------------------------------------------------------------

  const JsonFence := "```json"
  const Fence := "```"

  /** `s.replace(/<marker>\n?/g, '')`: every occurrence of `marker`, found left to right
      without overlap, is deleted together with one line feed right after it. */
  function RemoveAll(s: string, marker: string): (r: string)
    requires marker != []
    ensures |r| <= |s|
    decreases |s|
  {
    if s == [] then []
    else if StartsWith(s, marker) then
      var rest := s[|marker|..];
      RemoveAll(if rest != [] && rest[0] == '\n' then rest[1..] else rest, marker)
    else [s[0]] + RemoveAll(s[1..], marker)
  }

  /** Without an occurrence of the marker nothing is removed. */
  lemma {:induction false} RemoveAllAbsent(s: string, marker: string)
    requires marker != [] && !Includes(s, marker)
    ensures RemoveAll(s, marker) == s
    decreases |s|
  {
    if s != [] {
      RemoveAllAbsent(s[1..], marker);
      assert [s[0]] + s[1..] == s;
    }
  }

  /** A stretch that does not contain the marker's first character passes through unchanged. */
  lemma {:induction false} RemoveAllSkips(x: string, y: string, marker: string)
    requires marker != [] && marker[0] !in x
    ensures RemoveAll(x + y, marker) == x + RemoveAll(y, marker)
    decreases |x|
  {
    if x != [] {
      var s := x + y;
      assert s[0] == x[0];
      assert !StartsWith(s, marker) by {
        if |marker| <= |s| {
          assert s[..|marker|][0] == x[0];
        }
      }
      assert s[1..] == x[1..] + y;
      assert x == [x[0]] + x[1..];
      RemoveAllSkips(x[1..], y, marker);
      assert RemoveAll(s, marker) == [x[0]] + (x[1..] + RemoveAll(y, marker));
      assert [x[0]] + (x[1..] + RemoveAll(y, marker)) == x + RemoveAll(y, marker);
    } else {
      assert x + y == y;
    }
  }

  /** `jsonText` after fence stripping: the trimmed text, with `json` fences and plain
      fences removed when it starts with one. */
  function StripFences(generated: string): string {
    var t := Trim(generated);
    if StartsWith(t, JsonFence) then RemoveAll(RemoveAll(t, JsonFence), Fence)
    else if StartsWith(t, Fence) then RemoveAll(t, Fence)
    else t
  }

  /** Text that does not start with three backticks once trimmed is parsed as trimmed. */
  lemma StripFencesUnfenced(generated: string)
    requires !StartsWith(Trim(generated), Fence)
    ensures StripFences(generated) == Trim(generated)
  {
    JsonFenceIsFence(Trim(generated));
  }

  /** A `json` fence is in particular a fence. */
  lemma JsonFenceIsFence(t: string)
    ensures StartsWith(t, JsonFence) ==> StartsWith(t, Fence)
  {
    if StartsWith(t, JsonFence) {
      assert t[..3] == t[..7][..3];
    }
  }

  /** Three backticks are removed whole and nothing is left. */
  lemma RemoveFence()
    ensures RemoveAll(Fence, Fence) == []
    ensures RemoveAll(Fence, JsonFence) == Fence
  {
    assert StartsWith(Fence, Fence);
    assert !Includes(Fence, JsonFence);
    RemoveAllAbsent(Fence, JsonFence);
  }

  /** A body without backticks wrapped in a ```json fence comes back with only the line
      feed that preceded the closing fence. */
  lemma StripJsonFence(body: string)
    requires '`' !in body
    ensures StripFences(JsonFence + "\n" + body + "\n" + Fence) == body + "\n"
  {
    var f := JsonFence + "\n" + body + "\n" + Fence;
    assert f[0] == '`' && f[|f| - 1] == '`';
    TrimOfTrimmed(f);
    assert f[..|JsonFence|] == JsonFence;
    var rest := f[|JsonFence|..];
    assert rest == "\n" + body + "\n" + Fence;
    assert rest[1..] == (body + "\n") + Fence;
    assert RemoveAll(f, JsonFence) == RemoveAll((body + "\n") + Fence, JsonFence);
    RemoveAllSkips(body + "\n", Fence, JsonFence);
    RemoveFence();
    assert RemoveAll(f, JsonFence) == (body + "\n") + Fence;
    RemoveAllSkips(body + "\n", Fence, Fence);
  }

  /** A body without backticks wrapped in a plain fence comes back the same way. */
  lemma StripPlainFence(body: string)
    requires '`' !in body
    ensures StripFences(Fence + "\n" + body + "\n" + Fence) == body + "\n"
  {
    var f := Fence + "\n" + body + "\n" + Fence;
    assert f[0] == '`' && f[|f| - 1] == '`';
    TrimOfTrimmed(f);
    assert f[3] == '\n';
    assert !StartsWith(f, JsonFence);
    assert f[..|Fence|] == Fence;
    var rest := f[|Fence|..];
    assert rest[1..] == (body + "\n") + Fence;
    RemoveAllSkips(body + "\n", Fence, Fence);
    RemoveFence();
  }

  // ---------------------------------------------------------------------------
  // Generated question validation (app/api/crawl/route.ts:175-182)
  // ---------------------------------------------------------------------------

  /** One element of the parsed model output: `question` and `answer` as strings when
      present, `keywords` when it is an array of strings. */
  datatype RawItem = RawItem(question: Option<string>, answer: Option<string>, keywords: Option<seq<string>>)

  /** JavaScript truthiness of an optional string: present and non-empty. */
  predicate Truthy(s: Option<string>) {
    s.Some? && s.value != []
  }

  /** The filter: truthy question, truthy answer and an array of keywords. */
  predicate Keep(item: RawItem) {
    Truthy(item.question) && Truthy(item.answer) && item.keywords.Some?
  }

  /** The elements the filter keeps, in input order. */
  function Kept(items: seq<RawItem>): (r: seq<RawItem>)
    ensures |r| <= |items|
    ensures forall i :: 0 <= i < |r| ==> Keep(r[i])
    decreases |items|
  {
    if items == [] then []
    else (if Keep(items[0]) then [items[0]] else []) + Kept(items[1..])
  }

  /** The `map` step for one kept element. */
  function NormalizeItem(item: RawItem): QA
    requires Keep(item)
  {
    var ks := item.keywords.value;
    QA(Trim(item.question.value), Trim(item.answer.value),
       seq(|ks|, i requires 0 <= i < |ks| => LowerTrim(ks[i])))
  }

  /** `validQuestions`: filter, map, then keep the first five. */
  function ValidQuestions(items: seq<RawItem>): seq<QA> {
    var kept := Kept(items);
    var n := if |kept| <= MaxQuestions then |kept| else MaxQuestions;
    seq(n, i requires 0 <= i < n => NormalizeItem(kept[i]))
  }

  /** An element is kept exactly when it occurs in the input and passes the filter. */
  lemma {:induction false} KeptMembers(items: seq<RawItem>, x: RawItem)
    ensures x in Kept(items) <==> x in items && Keep(x)
    decreases |items|
  {
    if items != [] {
      KeptMembers(items[1..], x);
      assert items == [items[0]] + items[1..];
    }
  }

  /** The filter preserves order: it distributes over concatenation. */
  lemma {:induction false} KeptAppend(a: seq<RawItem>, b: seq<RawItem>)
    ensures Kept(a + b) == Kept(a) + Kept(b)
    decreases |a|
  {
    if a != [] {
      var head := if Keep(a[0]) then [a[0]] else [];
      assert (a + b)[0] == a[0];
      assert (a + b)[1..] == a[1..] + b;
      KeptAppend(a[1..], b);
      assert Kept(a + b) == head + (Kept(a[1..]) + Kept(b));
      assert head + (Kept(a[1..]) + Kept(b)) == (head + Kept(a[1..])) + Kept(b);
    } else {
      assert a + b == b;
    }
  }

  /** Output entries are all trimmed with trimmed lower-case keywords. */
  predicate NormalizedQA(q: QA) {
    && IsTrimmed(q.question) && IsTrimmed(q.answer)
    && forall j :: 0 <= j < |q.keywords| ==> IsTrimmed(q.keywords[j]) && IsLowerCase(q.keywords[j])
  }

  /** The validated list holds the first min(5, kept) kept elements, in order, each with
      question and answer trimmed and its keywords trimmed and lower-cased. */
  lemma ValidQuestionsShape(items: seq<RawItem>)
    ensures var r := ValidQuestions(items);
      var kept := Kept(items);
      && |r| == (if |kept| <= MaxQuestions then |kept| else MaxQuestions)
      && forall i :: 0 <= i < |r| ==>
           && NormalizedQA(r[i])
           && r[i].question == Trim(kept[i].question.value)
           && r[i].answer == Trim(kept[i].answer.value)
           && |r[i].keywords| == |kept[i].keywords.value|
           && forall j :: 0 <= j < |r[i].keywords| ==> r[i].keywords[j] == LowerTrim(kept[i].keywords.value[j])
  {
    var r := ValidQuestions(items);
    forall i | 0 <= i < |r| ensures NormalizedQA(r[i]) {
      var ks := r[i].keywords;
      forall j | 0 <= j < |ks| ensures IsTrimmed(ks[j]) && IsLowerCase(ks[j]) {
        LowerTrimShape(Kept(items)[i].keywords.value[j]);
      }
    }
  }

  /** The filter tests truthiness before trimming: a question of spaces passes and comes
      out empty. */
  lemma BlankQuestionPasses()
    ensures var item := RawItem(Some(" "), Some("a"), Some([]));
      Keep(item) && ValidQuestions([item]) == [QA("", "a", [])]
  {
    var item := RawItem(Some(" "), Some("a"), Some([]));
    assert [item][1..] == [];
    assert Kept([item]) == [item];
    TrimEmptyIffBlank(" ");
    TrimOfTrimmed("a");
    assert NormalizeItem(item) == QA("", "a", []);
    var r := ValidQuestions([item]);
    assert |r| == 1 && r[0] == NormalizeItem(item);
  }

  // ---------------------------------------------------------------------------
  // The route
  // ---------------------------------------------------------------------------

  /** The request: a body that is not JSON, with the parser's message; the JSON body
      `null`, on which destructuring `url` throws a TypeError with the engine's message;
      or the `url` field of any other JSON body. */
  datatype Request = Unreadable(parseError: string) | NullBody(typeError: string) | RequestBody(url: Option<string>)

  /** A thrown JavaScript error: its `name`, its `message` if any, and whether it is a
      `SyntaxError`. */
  datatype JsError = JsError(name: string, message: Option<string>, isSyntaxError: bool)

  /** The page fetch: it throws (network failure, abort after the time-out) or answers
      with a success flag, a status code and the HTML text. */
  datatype FetchResult = FetchThrew(error: JsError) | Fetched(ok: bool, status: int, html: string)

  /** What the HTML extraction yields: the title, the meta description and the text of
      the main content element, before clean-up. */
  datatype Extracted = Extracted(title: string, description: string, text: string)

  /** What the model is asked about. */
  datatype Prompt = Prompt(title: string, description: string, content: string)

  /** The model call: it throws (including when its body is not JSON), or answers with a
      success flag and the text of the first candidate part (empty when absent). */
  datatype AiReply = AiThrew(error: JsError) | AiReplied(ok: bool, text: string)

  /** `JSON.parse`: a syntax error, a value that is not an array, an array with at least
      one `null` element (the filter's `q.question` throws a TypeError with the engine's
      message on it, whatever the other elements are), or an array without `null`
      elements. */
  datatype JsonResult =
    | JsonThrew(parseError: string)
    | JsonNotArray
    | JsonArrayWithNull(typeError: string)
    | JsonArray(items: seq<RawItem>)

  /** The operations the route delegates to libraries and the network. */
  datatype Services = Services(
    parseUrl: string -> Option<string>,
    fetchSite: string -> FetchResult,
    extract: string -> Extracted,
    askAi: Prompt -> AiReply,
    parseJson: string -> JsonResult)

  /** The JSON response: an error with its HTTP status, or the questions with metadata. */
  datatype Response =
    | Failure(status: int, error: ErrorKind)
    | Success(questions: seq<QA>, url: string, title: string, contentLength: nat)

  function SyntaxError(message: string): JsError {
    JsError("SyntaxError", Some(message), true)
  }

  /** The error reading a property of `null` throws. */
  function TypeError(message: string): JsError {
    JsError("TypeError", Some(message), false)
  }

  /** The `catch` block: time-out first, then any message mentioning `fetch`, then syntax
      errors, then everything else. */
  function Caught(e: JsError): (r: Response)
    ensures r.Failure?
  {
    if e.name == "AbortError" then Failure(408, Timeout)
    else if e.message.Some? && Includes(e.message.value, "fetch") then Failure(500, Connect)
    else if e.isSyntaxError then Failure(500, ParseFailed)
    else Failure(500, Unexpected)
  }

  /** After `JSON.parse`. */
  function FromParsed(url: string, title: string, content: string, parsed: JsonResult): Response {
    match parsed
    case JsonThrew(message) => Caught(SyntaxError(message))
    case JsonNotArray => Failure(500, InvalidQuestions)
    case JsonArrayWithNull(message) => Caught(TypeError(message))
    case JsonArray(items) =>
      if items == [] then Failure(500, InvalidQuestions)
      else Success(ValidQuestions(items), url, title, |content|)
  }

  /** After the page text is cleaned: the thinness check and generation. */
  function Generate(url: string, page: Extracted, svc: Services): Response {
    var content := CleanContent(page.text);
    if |content| < MinContentLength then Failure(400, ThinContent)
    else match svc.askAi(Prompt(page.title, page.description, content))
      case AiThrew(e) => Caught(e)
      case AiReplied(ok, text) =>
        if !ok then Failure(500, AiService)
        else if text == [] then Failure(500, NoContent)
        else FromParsed(url, page.title, content, svc.parseJson(StripFences(text)))
  }

  /** `POST`. */
  function Post(request: Request, svc: Services): Response {
    match request
    case Unreadable(message) => Caught(SyntaxError(message))
    case NullBody(message) => Caught(TypeError(message))
    case RequestBody(url) =>
      if !Truthy(url) then Failure(400, UrlRequired)
      else match svc.parseUrl(url.value)
        case None => Failure(400, InvalidUrl)
        case Some(href) =>
          match svc.fetchSite(href)
          case FetchThrew(e) => Caught(e)
          case Fetched(ok, status, html) =>
            if !ok then Failure(status, FetchFailed(status))
            else Generate(href, svc.extract(html), svc)
  }

  // ---------------------------------------------------------------------------
  // Properties of the route
  // ---------------------------------------------------------------------------

  /** A missing or empty `url` is rejected with 400 whatever the services do. */
  lemma MissingUrlRejected(url: Option<string>, svc: Services)
    requires !Truthy(url)
    ensures Post(RequestBody(url), svc) == Failure(400, UrlRequired)
  {
  }

  /** An address `new URL` rejects is answered with 400 before any fetch. */
  lemma InvalidUrlRejected(url: string, svc: Services)
    requires url != [] && svc.parseUrl(url).None?
    ensures Post(RequestBody(Some(url)), svc) == Failure(400, InvalidUrl)
  {
  }

  /** A fetch answered without success is reported with the fetch's own status. */
  lemma FetchStatusPassedThrough(url: string, href: string, status: int, html: string, svc: Services)
    requires url != [] && svc.parseUrl(url) == Some(href)
    requires svc.fetchSite(href) == Fetched(false, status, html)
    ensures Post(RequestBody(Some(url)), svc) == Failure(status, FetchFailed(status))
  {
  }

  /** Cleaned text under 100 characters is rejected with 400, whatever the model would say. */
  lemma ThinContentRejected(url: string, href: string, status: int, html: string, svc: Services)
    requires url != [] && svc.parseUrl(url) == Some(href)
    requires svc.fetchSite(href) == Fetched(true, status, html)
    requires |CleanContent(svc.extract(html).text)| < MinContentLength
    ensures Post(RequestBody(Some(url)), svc) == Failure(400, ThinContent)
  {
  }

  /** The generation stage fails with 500 on an empty model text, a parsed value that is
      not an array, or an empty array. */
  lemma EmptyGenerationRejected(url: string, page: Extracted, svc: Services, text: string)
    requires |CleanContent(page.text)| >= MinContentLength
    requires svc.askAi(Prompt(page.title, page.description, CleanContent(page.text))) == AiReplied(true, text)
    requires text == [] || svc.parseJson(StripFences(text)) in {JsonNotArray, JsonArray([])}
    ensures Generate(url, page, svc).Failure? && Generate(url, page, svc).status == 500
    ensures Generate(url, page, svc).error ==
              if text == [] then NoContent else InvalidQuestions
  {
  }

  /** The happy path: a valid address, a successful fetch with enough text and a
      non-empty parsed array give the validated questions with the address, the title
      and the length of the cleaned text. */
  lemma HappyPath(url: string, href: string, status: int, html: string, text: string,
                  items: seq<RawItem>, svc: Services)
    requires url != [] && svc.parseUrl(url) == Some(href)
    requires svc.fetchSite(href) == Fetched(true, status, html)
    requires var page := svc.extract(html);
      var content := CleanContent(page.text);
      && |content| >= MinContentLength
      && svc.askAi(Prompt(page.title, page.description, content)) == AiReplied(true, text)
      && text != []
      && svc.parseJson(StripFences(text)) == JsonArray(items)
    requires items != []
    ensures Post(RequestBody(Some(url)), svc) ==
              Success(ValidQuestions(items), href, svc.extract(html).title,
                      |CleanContent(svc.extract(html).text)|)
  {
  }

  /** Every success carries at most five normalised questions and a cleaned-text length
      between 100 and 6000. */
  lemma SuccessShape(request: Request, svc: Services)
    ensures var r := Post(request, svc);
      r.Success? ==>
        && |r.questions| <= MaxQuestions
        && (forall i :: 0 <= i < |r.questions| ==> NormalizedQA(r.questions[i]))
        && MinContentLength <= r.contentLength <= MaxContentLength
  {
    var r := Post(request, svc);
    if request.RequestBody? && Truthy(request.url) && svc.parseUrl(request.url.value).Some? {
      var href := svc.parseUrl(request.url.value).value;
      var f := svc.fetchSite(href);
      if f.Fetched? && f.ok {
        assert r == Generate(href, svc.extract(f.html), svc);
        GenerateShape(href, svc.extract(f.html), svc);
      } else {
        assert r.Failure?;
      }
    } else {
      assert r.Failure?;
    }
  }

  /** What the generation stage answers: a success with at most five normalised
      questions, the given address and title and a cleaned-text length between 100 and
      6000, or a failure with status 400, 408 or 500. */
  lemma GenerateShape(url: string, page: Extracted, svc: Services)
    ensures var r := Generate(url, page, svc);
      && (r.Success? ==>
            && |r.questions| <= MaxQuestions
            && (forall i :: 0 <= i < |r.questions| ==> NormalizedQA(r.questions[i]))
            && r.url == url && r.title == page.title
            && r.contentLength == |CleanContent(page.text)|
            && MinContentLength <= r.contentLength <= MaxContentLength)
      && (r.Failure? ==> r.status in {400, 408, 500})
  {
    var content := CleanContent(page.text);
    if |content| >= MinContentLength {
      var reply := svc.askAi(Prompt(page.title, page.description, content));
      if reply.AiReplied? && reply.ok && reply.text != [] {
        FromParsedShape(url, page.title, content, svc.parseJson(StripFences(reply.text)));
      }
    }
  }

  /** After parsing: a success holds at most five normalised questions with the given
      address, title and text length; a failure has status 500. */
  lemma FromParsedShape(url: string, title: string, content: string, parsed: JsonResult)
    ensures var r := FromParsed(url, title, content, parsed);
      && (r.Success? ==>
            && |r.questions| <= MaxQuestions
            && (forall i :: 0 <= i < |r.questions| ==> NormalizedQA(r.questions[i]))
            && r.url == url && r.title == title && r.contentLength == |content|)
      && (r.Failure? ==> r.status == 500)
  {
    if parsed.JsonArray? {
      ValidQuestionsShape(parsed.items);
    }
  }

  /** A non-empty array whose elements all fail the filter still yields a success,
      with no questions. */
  lemma FilteredToNothingSucceeds(url: string, title: string, content: string, items: seq<RawItem>)
    requires items != [] && forall i :: 0 <= i < |items| ==> !Keep(items[i])
    ensures FromParsed(url, title, content, JsonArray(items)) == Success([], url, title, |content|)
  {
    if Kept(items) != [] {
      KeptMembers(items, Kept(items)[0]);
    }
  }

  /** Every failure status is 400, 408, 500 or the status of the failed fetch. */
  lemma FailureStatuses(request: Request, svc: Services)
    ensures var r := Post(request, svc);
      r.Failure? ==>
        || r.status in {400, 408, 500}
        || (&& request.RequestBody? && Truthy(request.url) && svc.parseUrl(request.url.value).Some?
            && var f := svc.fetchSite(svc.parseUrl(request.url.value).value);
               f.Fetched? && !f.ok && f.status == r.status)
  {
    if request.RequestBody? && Truthy(request.url) && svc.parseUrl(request.url.value).Some? {
      var href := svc.parseUrl(request.url.value).value;
      var f := svc.fetchSite(href);
      if f.Fetched? && f.ok {
        GenerateShape(href, svc.extract(f.html), svc);
      }
    }
  }

  /** The `catch` block answers 408 exactly for an abort and 500 otherwise. */
  lemma CaughtStatus(e: JsError)
    ensures Caught(e).status == (if e.name == "AbortError" then 408 else 500)
  {
  }

  /** A body that is not JSON is reported as a failure to parse the model's answer. */
  lemma UnreadableBodyReportedAsParseFailure(message: string, svc: Services)
    requires !Includes(message, "fetch")
    ensures Post(Unreadable(message), svc) == Failure(500, ParseFailed)
  {
  }

  /** A `null` request body makes destructuring throw a TypeError, which the `catch`
      block answers with 500 and, unless its message mentions `fetch`, the generic
      message, whatever the services do. */
  lemma NullBodyUnexpected(message: string, svc: Services)
    requires !Includes(message, "fetch")
    ensures Post(NullBody(message), svc) == Failure(500, Unexpected)
  {
  }

  /** A `null` element of the parsed array makes the filter throw a TypeError: the route
      answers 500 with the generic message, not with the other elements' questions. */
  lemma NullItemUnexpected(url: string, title: string, content: string, message: string)
    requires !Includes(message, "fetch")
    ensures FromParsed(url, title, content, JsonArrayWithNull(message)) == Failure(500, Unexpected)
  {
  }

  /** A syntax error whose message happens to mention `fetch` is reported as a
      connection failure, since the message test comes before the syntax-error test. */
  lemma SyntaxErrorMentioningFetch(message: string)
    requires Includes(message, "fetch")
    ensures Caught(SyntaxError(message)) == Failure(500, Connect)
  {
  }
}
