/**
 * The dialog that edits one knowledge-base entry
 * (components/dashboard/EditQuestionDialog.tsx): the form schema, the keyword
 * chip list with its add and remove handlers, and the submit handler that
 * skips unchanged entries.
 *
 * The component's state (`keywordInput`, `keywords`) and the `open` property
 * that it closes through `onOpenChange(false)` are the fields of
 * `EditQuestionDialog`. The typed question and answer live in the form
 * library; they reach the submit handler as parameters.
 */
module EditQuestionDialog {
  import opened Wrappers
  import opened Strings
  import opened Types

  const QuestionMin: nat := 10
  const QuestionMax: nat := 200
  const AnswerMin: nat := 10
  const AnswerMax: nat := 500
  const KeywordMax: nat := 50

  // ---------------------------------------------------------------------------
  // Schema
  // ---------------------------------------------------------------------------

  /** One keyword of the schema: 1 to 50 characters. */
  predicate ValidKeyword(k: string) {
    1 <= |k| <= KeywordMax
  }

  /** `questionSchema`: question 10-200 characters, answer 10-500, at least one keyword,
      every keyword valid. */
  predicate ValidForm(question: string, answer: string, keywords: seq<string>) {
    && QuestionMin <= |question| <= QuestionMax
    && AnswerMin <= |answer| <= AnswerMax
    && |keywords| >= 1
    && forall i :: 0 <= i < |keywords| ==> ValidKeyword(keywords[i])
  }

  // ---------------------------------------------------------------------------
  // Keyword list
  // ---------------------------------------------------------------------------

  /** No keyword appears twice. */
  predicate NoDuplicates(ks: seq<string>) {
    forall i, j :: 0 <= i < j < |ks| ==> ks[i] != ks[j]
  }

  /** Whether Enter adds the typed keyword: the input is not blank, and its normal form
      is new and at most 50 characters long. */
  predicate Accepts(keywords: seq<string>, input: string) {
    Trim(input) != [] && LowerTrim(input) !in keywords && |LowerTrim(input)| <= KeywordMax
  }

  /** `keywords.filter(k => k !== keyword)`. */
  function Without(keywords: seq<string>, keyword: string): (r: seq<string>)
    ensures |r| <= |keywords|
    decreases |keywords|
  {
    if keywords == [] then []
    else (if keywords[0] == keyword then [] else [keywords[0]]) + Without(keywords[1..], keyword)
  }

  /** An accepted keyword is valid for the schema, trimmed and lower-case. */
  lemma AcceptedKeywordShape(keywords: seq<string>, input: string)
    requires Accepts(keywords, input)
    ensures var k := LowerTrim(input);
      ValidKeyword(k) && IsTrimmed(k) && IsLowerCase(k) && k !in keywords
  {
    LowerTrimShape(input);
  }

  /** Adding an accepted keyword keeps the list free of duplicates. */
  lemma AddKeepsNoDuplicates(keywords: seq<string>, input: string)
    requires NoDuplicates(keywords) && Accepts(keywords, input)
    ensures NoDuplicates(keywords + [LowerTrim(input)])
  {
    var r := keywords + [LowerTrim(input)];
    forall i, j | 0 <= i < j < |r| ensures r[i] != r[j] {
      if j == |keywords| {
        assert r[i] == keywords[i];
      }
    }
  }

  /** Adding an accepted keyword keeps every keyword valid for the schema. */
  lemma AddKeepsKeywordsValid(keywords: seq<string>, input: string)
    requires Accepts(keywords, input)
    requires forall i :: 0 <= i < |keywords| ==> ValidKeyword(keywords[i])
    ensures var r := keywords + [LowerTrim(input)];
      forall i :: 0 <= i < |r| ==> ValidKeyword(r[i])
  {
    AcceptedKeywordShape(keywords, input);
  }

  /** Removal keeps exactly the other keywords. */
  lemma {:induction false} WithoutMembers(keywords: seq<string>, keyword: string, x: string)
    ensures x in Without(keywords, keyword) <==> x in keywords && x != keyword
    decreases |keywords|
  {
    if keywords != [] {
      WithoutMembers(keywords[1..], keyword, x);
      assert keywords == [keywords[0]] + keywords[1..];
    }
  }

  /** Removing a keyword that is not there changes nothing. */
  lemma {:induction false} WithoutAbsent(keywords: seq<string>, keyword: string)
    requires keyword !in keywords
    ensures Without(keywords, keyword) == keywords
    decreases |keywords|
  {
    if keywords != [] {
      WithoutAbsent(keywords[1..], keyword);
      assert keywords == [keywords[0]] + keywords[1..];
    }
  }

  /** Removal distributes over concatenation, so the kept keywords stay in order. */
  lemma {:induction false} WithoutAppend(a: seq<string>, b: seq<string>, keyword: string)
    ensures Without(a + b, keyword) == Without(a, keyword) + Without(b, keyword)
    decreases |a|
  {
    if a == [] {
      assert a + b == b;
    } else {
      var head := if a[0] == keyword then [] else [a[0]];
      assert (a + b)[0] == a[0] && (a + b)[1..] == a[1..] + b;
      WithoutAppend(a[1..], b, keyword);
      assert head + (Without(a[1..], keyword) + Without(b, keyword))
          == (head + Without(a[1..], keyword)) + Without(b, keyword);
    }
  }

  /** Removing the keyword just added gives back the list before the addition. */
  lemma RemoveUndoesAdd(keywords: seq<string>, input: string)
    requires Accepts(keywords, input)
    ensures Without(keywords + [LowerTrim(input)], LowerTrim(input)) == keywords
  {
    var k := LowerTrim(input);
    WithoutAppend(keywords, [k], k);
    WithoutAbsent(keywords, k);
    assert [k][1..] == [];
  }

  /** `hasChanges`: question, answer or keyword list differ from the stored entry
      (comparing the keyword lists as JSON texts compares them element by element). */
  predicate HasChanges(question: string, answer: string, keywords: seq<string>, original: QA) {
    question != original.question || answer != original.answer || keywords != original.keywords
  }

  // ---------------------------------------------------------------------------
  // The component
  // ---------------------------------------------------------------------------

  class EditQuestionDialog {
    var open: bool
    var keywordInput: string
    var keywords: seq<string>

    /** A closed dialog with no keywords. */
    constructor()
      ensures !open && keywordInput == [] && keywords == []
    {
      open := false;
      keywordInput := [];
      keywords := [];
    }

    /** The effect that runs when the dialog opens on an entry: it loads the entry's
        keywords. */
    method Show(entry: QA)
      modifies this
      ensures open && keywords == entry.keywords && keywordInput == old(keywordInput)
    {
      open := true;
      keywords := entry.keywords;
    }

    /** Typing into the keyword field. */
    method TypeKeyword(value: string)
      modifies this
      ensures keywordInput == value && keywords == old(keywords) && open == old(open)
    {
      keywordInput := value;
    }

    /** `handleAddKeyword`: on Enter, an accepted keyword is appended in normal form and
        the field is cleared; otherwise nothing changes. */
    method HandleAddKeyword(isEnter: bool)
      modifies this
      ensures open == old(open)
      ensures isEnter && Accepts(old(keywords), old(keywordInput)) ==>
                keywords == old(keywords) + [LowerTrim(old(keywordInput))] && keywordInput == []
      ensures !(isEnter && Accepts(old(keywords), old(keywordInput))) ==>
                keywords == old(keywords) && keywordInput == old(keywordInput)
    {
      if isEnter && Trim(keywordInput) != [] {
        var newKeyword := Lower(Trim(keywordInput));
        if newKeyword !in keywords && |newKeyword| <= KeywordMax {
          keywords := keywords + [newKeyword];
          keywordInput := [];
        }
      }
    }

    /** `handleRemoveKeyword`. */
    method HandleRemoveKeyword(keyword: string)
      modifies this
      ensures keywords == Without(old(keywords), keyword)
      ensures keywordInput == old(keywordInput) && open == old(open)
    {
      keywords := Without(keywords, keyword);
    }

    /** Submitting the form: invalid input is held back by the schema; without an entry
        nothing happens; an unchanged entry only closes the dialog; otherwise the
        changes are submitted and the dialog is cleared and closed. */
    method HandleSubmit(question: string, answer: string, entry: Option<QA>)
      returns (submitted: Option<QA>)
      modifies this
      ensures !ValidForm(question, answer, old(keywords)) || entry.None? ==>
                submitted.None? && open == old(open)
                && keywords == old(keywords) && keywordInput == old(keywordInput)
      ensures ValidForm(question, answer, old(keywords)) && entry.Some?
              && !HasChanges(question, answer, old(keywords), entry.value) ==>
                submitted.None? && !open
                && keywords == old(keywords) && keywordInput == old(keywordInput)
      ensures ValidForm(question, answer, old(keywords)) && entry.Some?
              && HasChanges(question, answer, old(keywords), entry.value) ==>
                submitted == Some(QA(question, answer, old(keywords)))
                && !open && keywords == [] && keywordInput == []
    {
      if !ValidForm(question, answer, keywords) || entry.None? {
        return None;
      }
      var original := entry.value;
      var hasChanges := question != original.question || answer != original.answer
                        || keywords != original.keywords;
      if !hasChanges {
        open := false;
        return None;
      }
      submitted := Some(QA(question, answer, keywords));
      keywords := [];
      keywordInput := [];
      open := false;
    }

    /** `handleClose`. */
    method HandleClose()
      modifies this
      ensures !open && keywords == [] && keywordInput == []
    {
      keywords := [];
      keywordInput := [];
      open := false;
    }
  }
}
