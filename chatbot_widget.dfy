/**
 * The embeddable chat widget's keyword answer matcher (`ChatWidget.patternMatch`)
 * and the blank-input guard in front of it (`ChatWidget.handleSend`).
 *
 * Every stored entry gets a score against the lower-cased, trimmed message:
 * 3 per keyword contained in the message, 1 per question word longer than
 * 3 characters contained in the message, and 10 more when the message is the
 * lower-cased question itself. The first entry with the strictly highest score
 * wins, and its answer is given only when that score reaches 2.
 */
module ChatbotWidget {
  import opened Wrappers
  import opened Strings
  import opened Types

  /** What the widget says when no entry scores high enough. */
  const Apology := "I'm sorry, I don't have an answer for that. Please contact our support team for assistance."

  const KeywordWeight := 3
  const WordWeight := 1
  const ExactMatchBonus := 10
  const MinScore := 2
  /** Question words must be longer than this to count. */
  const ShortWordLength := 3

  // ---------------------------------------------------------------------------
  // Scoring
  // ---------------------------------------------------------------------------

  /** `userMessage.toLowerCase().trim()`. */
  function Normalize(userMessage: string): string {
    Trim(Lower(userMessage))
  }

  /** Every keyword lower-cased, in order. */
  function LowerAll(keywords: seq<string>): (r: seq<string>)
    ensures |r| == |keywords|
  {
    seq(|keywords|, k requires 0 <= k < |keywords| => Lower(keywords[k]))
  }

  /** The words of a split that are longer than `ShortWordLength`, in order, repeats kept. */
  function LongWords(words: seq<string>): (r: seq<string>)
    ensures |r| <= |words|
    decreases |words|
  {
    if words == [] then []
    else (if |words[0]| > ShortWordLength then [words[0]] else []) + LongWords(words[1..])
  }

  /** `LongWords` keeps exactly the words longer than `ShortWordLength`. */
  lemma {:induction false} LongWordsFilter(words: seq<string>)
    ensures forall w :: w in LongWords(words) <==> w in words && |w| > ShortWordLength
    decreases |words|
  {
    if words != [] {
      LongWordsFilter(words[1..]);
      assert words == [words[0]] + words[1..];
    }
  }

  /** `question.toLowerCase().split(' ').filter(w => w.length > 3)`. */
  function QuestionWords(question: string): (words: seq<string>)
  {
    LongWords(Split(Lower(question), ' '))
  }

  /** The question words are lower-case pieces of the question, longer than `ShortWordLength`
      and free of spaces; every such piece is one of them. */
  lemma QuestionWordsShape(question: string)
    ensures var words := QuestionWords(question);
            && (forall w :: w in words <==> w in Split(Lower(question), ' ') && |w| > ShortWordLength)
            && (forall w :: w in words ==> ' ' !in w)
  {
    LongWordsFilter(Split(Lower(question), ' '));
  }

  /** How many entries of `words` the message includes; an entry listed twice counts twice. */
  function Hits(message: string, words: seq<string>): (n: nat)
    ensures n <= |words|
    decreases |words|
  {
    if words == [] then 0
    else Hits(message, words[..|words| - 1]) + (if Includes(message, words[|words| - 1]) then 1 else 0)
  }

  /** The score the matcher gives one entry for an already normalised message. */
  function Score(message: string, qa: QA): nat {
    KeywordWeight * Hits(message, LowerAll(qa.keywords))
    + WordWeight * Hits(message, QuestionWords(qa.question))
    + (if message == Lower(qa.question) then ExactMatchBonus else 0)
  }

  // ---------------------------------------------------------------------------
  // Selection
  // ---------------------------------------------------------------------------

  /** Every entry's score, in order. */
  function Scores(message: string, qs: seq<QA>): (scores: seq<nat>)
    ensures |scores| == |qs|
    decreases |qs|
  {
    if qs == [] then [] else Scores(message, qs[..|qs| - 1]) + [Score(message, qs[|qs| - 1])]
  }

  /** Position `i` of `Scores` is the score of entry `i`. */
  lemma {:induction false} ScoresAt(message: string, qs: seq<QA>, i: nat)
    requires i < |qs|
    ensures Scores(message, qs)[i] == Score(message, qs[i])
    decreases |qs|
  {
    if i < |qs| - 1 {
      ScoresAt(message, qs[..|qs| - 1], i);
    }
  }

  /** `bestMatch` (as an index into the entries) and `highestScore`. */
  datatype Selection = Selection(best: Option<nat>, highest: nat)

  /** The state of the matcher's scan after the scores `scores`, starting from no match and a
      highest score of 0 and replacing the best match only on a strictly higher score. */
  function Scan(scores: seq<nat>): (sel: Selection)
    ensures sel.best.None? ==> sel.highest == 0
    ensures sel.best.Some? ==> sel.best.value < |scores| && sel.highest == scores[sel.best.value]
    decreases |scores|
  {
    if scores == [] then Selection(None, 0)
    else
      var prev := Scan(scores[..|scores| - 1]);
      var score := scores[|scores| - 1];
      if score > prev.highest then Selection(Some(|scores| - 1), score) else prev
  }

  /** What `patternMatch` answers for an already normalised message. */
  function Reply(message: string, qs: seq<QA>): string {
    var sel := Scan(Scores(message, qs));
    if sel.best.Some? && sel.highest >= MinScore then qs[sel.best.value].answer else Apology
  }

  /** Position `k` holds the highest score, and every earlier position a strictly lower one:
      the first of the best entries. */
  ghost predicate IsFirstBest(scores: seq<nat>, k: int) {
    && 0 <= k < |scores|
    && (forall i :: 0 <= i < |scores| ==> scores[i] <= scores[k])
    && (forall i :: 0 <= i < k ==> scores[i] < scores[k])
  }

  /** The scan picks the first entry of highest score, and picks none exactly when every entry
      scores 0; so an entry scoring 0 is never chosen. */
  lemma {:induction false} ScanFindsFirstBest(scores: seq<nat>)
    ensures Scan(scores).best.None? <==> forall i :: 0 <= i < |scores| ==> scores[i] == 0
    ensures Scan(scores).best.Some? ==> IsFirstBest(scores, Scan(scores).best.value) && Scan(scores).highest > 0
    decreases |scores|
  {
    if scores != [] {
      var init := scores[..|scores| - 1];
      ScanFindsFirstBest(init);
      assert forall i :: 0 <= i < |init| ==> init[i] == scores[i];
    }
  }

  /** The first best position is unique. */
  lemma FirstBestUnique(scores: seq<nat>, j: int, k: int)
    requires IsFirstBest(scores, j) && IsFirstBest(scores, k)
    ensures j == k
  {
    assert scores[j] == scores[k];
  }

  /** The reply is the answer of the first best entry when its score reaches `MinScore`,
      and the apology when no entry reaches it. */
  lemma ReplyIsFirstBestAnswer(message: string, qs: seq<QA>)
    ensures (forall i :: 0 <= i < |qs| ==> Score(message, qs[i]) < MinScore) ==> Reply(message, qs) == Apology
    ensures forall k :: IsFirstBest(Scores(message, qs), k) && Score(message, qs[k]) >= MinScore ==>
              Reply(message, qs) == qs[k].answer
  {
    var scores := Scores(message, qs);
    ScanFindsFirstBest(scores);
    forall i | 0 <= i < |qs| ensures scores[i] == Score(message, qs[i]) {
      ScoresAt(message, qs, i);
    }
    forall k | IsFirstBest(scores, k) && Score(message, qs[k]) >= MinScore
      ensures Reply(message, qs) == qs[k].answer
    {
      FirstBestUnique(scores, Scan(scores).best.value, k);
    }
  }

  /** The reply is always the answer of one of the entries or the apology. */
  lemma ReplyIsAnswerOrApology(message: string, qs: seq<QA>)
    ensures Reply(message, qs) == Apology || exists k :: 0 <= k < |qs| && Reply(message, qs) == qs[k].answer
  {
  }

  /** With no stored entries the reply is always the apology. */
  lemma NoEntriesNoAnswer(message: string)
    ensures Reply(message, []) == Apology
  {
  }

  /** A message equal to an entry's lower-cased question gives that entry a score of at least 10,
      so some entry (the first best one, not necessarily that one) is answered with. */
  lemma ExactQuestionIsAnswered(message: string, qs: seq<QA>, i: nat)
    requires i < |qs| && message == Lower(qs[i].question)
    ensures Score(message, qs[i]) >= ExactMatchBonus
    ensures exists k :: IsFirstBest(Scores(message, qs), k) && Score(message, qs[k]) >= ExactMatchBonus
                        && Reply(message, qs) == qs[k].answer
  {
    var scores := Scores(message, qs);
    ScanFindsFirstBest(scores);
    ReplyIsFirstBestAnswer(message, qs);
    ScoresAt(message, qs, i);
    var k := Scan(scores).best.value;
    ScoresAt(message, qs, k);
    assert IsFirstBest(scores, k);
  }

  /** Nothing is contained in the empty message except the empty word. */
  lemma {:induction false} NoHitsInEmptyMessage(words: seq<string>)
    requires forall k :: 0 <= k < |words| ==> words[k] != []
    ensures Hits([], words) == 0
    decreases |words|
  {
    if words != [] {
      NoHitsInEmptyMessage(words[..|words| - 1]);
      IncludesEmpty([], words[|words| - 1]);
    }
  }

  /** When the message includes every word, each of them is a hit. */
  lemma {:induction false} AllWordsHit(message: string, words: seq<string>)
    requires forall k :: 0 <= k < |words| ==> Includes(message, words[k])
    ensures Hits(message, words) == |words|
    decreases |words|
  {
    if words != [] {
      AllWordsHit(message, words[..|words| - 1]);
    }
  }

  /** When every keyword and every question is non-empty, the empty message gets the apology. */
  lemma EmptyMessageNoMatch(qs: seq<QA>)
    requires forall i :: 0 <= i < |qs| ==> qs[i].question != []
    requires forall i, k :: 0 <= i < |qs| && 0 <= k < |qs[i].keywords| ==> qs[i].keywords[k] != []
    ensures Reply([], qs) == Apology
  {
    forall i | 0 <= i < |qs| ensures Score([], qs[i]) == 0 {
      NoHitsInEmptyMessage(LowerAll(qs[i].keywords));
      QuestionWordsShape(qs[i].question);
      NoHitsInEmptyMessage(QuestionWords(qs[i].question));
    }
    ReplyIsFirstBestAnswer([], qs);
  }

  // ---------------------------------------------------------------------------
  // The matcher as the widget runs it
  // ---------------------------------------------------------------------------

  /** One of `patternMatch`'s inner loops: counts the words the message includes. */
  method CountHits(message: string, words: seq<string>) returns (n: nat)
    ensures n == Hits(message, words)
  {
    n := 0;
    for j := 0 to |words|
      invariant n == Hits(message, words[..j])
    {
      assert words[..j + 1][..j] == words[..j];
      if Includes(message, words[j]) {
        n := n + 1;
      }
    }
    assert words[..|words|] == words;
  }

  /** The body of `patternMatch`'s outer loop for one entry: 3 per included keyword, 1 per
      included long question word, then the exact-match bonus. */
  method ScoreEntry(message: string, qa: QA) returns (score: nat)
    ensures score == Score(message, qa)
  {
    var keywordHits := CountHits(message, LowerAll(qa.keywords));
    var wordHits := CountHits(message, QuestionWords(qa.question));
    score := KeywordWeight * keywordHits + WordWeight * wordHits;
    if message == Lower(qa.question) {
      score := score + ExactMatchBonus;
    }
  }

  /** Scoring one more entry appends its score. */
  lemma ScoresStep(message: string, qs: seq<QA>, i: nat)
    requires i < |qs|
    ensures Scores(message, qs[..i + 1]) == Scores(message, qs[..i]) + [Score(message, qs[i])]
  {
    assert qs[..i + 1][..i] == qs[..i];
  }

  /** One step of the scan: the new score replaces the selection so far exactly when it is
      strictly higher. */
  lemma ScanStep(scores: seq<nat>, score: nat)
    ensures Scan(scores + [score])
              == if score > Scan(scores).highest then Selection(Some(|scores|), score) else Scan(scores)
  {
    assert (scores + [score])[..|scores|] == scores;
  }

  /** `patternMatch`'s outer loop: scores every entry in order and keeps the first one with
      the strictly highest score, as the scan does. */
  method SelectBest(message: string, questions: seq<QA>) returns (bestMatch: Option<QA>, highestScore: nat)
    ensures var sel := Scan(Scores(message, questions));
            && highestScore == sel.highest
            && (sel.best.None? ==> bestMatch.None?)
            && (sel.best.Some? ==> bestMatch == Some(questions[sel.best.value]))
  {
    bestMatch := None;
    highestScore := 0;
    ghost var bestIndex: Option<nat> := None;
    ghost var scores: seq<nat> := [];

    for i := 0 to |questions|
      invariant scores == Scores(message, questions[..i])
      invariant Scan(scores) == Selection(bestIndex, highestScore)
      invariant bestIndex.None? ==> bestMatch.None?
      invariant bestIndex.Some? ==> bestIndex.value < i && bestMatch == Some(questions[bestIndex.value])
    {
      var qa := questions[i];
      var score := ScoreEntry(message, qa);
      ScoresStep(message, questions, i);
      ScanStep(scores, score);
      scores := scores + [score];
      if score > highestScore {
        highestScore := score;
        bestMatch := Some(qa);
        bestIndex := Some(i);
      }
    }
    assert questions[..|questions|] == questions;
  }

  /** `patternMatch`: answers with the best entry only when its score reaches `MinScore`. */
  method PatternMatch(userMessage: string, questions: seq<QA>) returns (reply: string)
    ensures reply == Reply(Normalize(userMessage), questions)
  {
    var message := Trim(Lower(userMessage));
    var bestMatch, highestScore := SelectBest(message, questions);
    if bestMatch.Some? && highestScore >= MinScore {
      reply := bestMatch.value.answer;
    } else {
      reply := Apology;
    }
  }

  /** Normalising an already trimmed message gives the same as normalising the raw one. */
  lemma NormalizeTrimmed(input: string)
    ensures Normalize(Trim(input)) == Normalize(input)
  {
    TrimLower(Trim(input));
    TrimOfTrimmed(Trim(input));
    TrimLower(input);
  }

  /** `handleSend`: a blank input sends nothing; any other input is trimmed and answered by the
      matcher. `None` stands for the early return. */
  method HandleSend(input: string, questions: seq<QA>) returns (botReply: Option<string>)
    ensures botReply.None? <==> Trim(input) == []
    ensures botReply.Some? ==> botReply.value == Reply(Normalize(input), questions)
  {
    var userMessage := Trim(input);
    if userMessage == [] {
      return None;
    }
    var response := PatternMatch(userMessage, questions);
    NormalizeTrimmed(input);
    botReply := Some(response);
  }

  // ---------------------------------------------------------------------------
  // Worked examples
  // ---------------------------------------------------------------------------

  /** An exact question match does not always win: a later entry whose keywords occur in the
      message more often can outscore it. */
  lemma ExactMatchCanLose()
    ensures var qs := [QA("ab", "first", []), QA("x", "second", ["a", "b", "a", "b"])];
            Score("ab", qs[0]) == 10 && Score("ab", qs[1]) == 12 && Reply("ab", qs) == "second"
  {
    var qs := [QA("ab", "first", []), QA("x", "second", ["a", "b", "a", "b"])];
    ExactMatchScore();
    KeywordsScore();
    ScoresAt("ab", qs, 0);
    ScoresAt("ab", qs, 1);
    var scores := Scores("ab", qs);
    assert |scores| == 2 && scores[0] == 10 && scores[1] == 12;
    SecondOfTwoIsBest(scores);
    ReplyIsFirstBestAnswer("ab", qs);
  }

  lemma SecondOfTwoIsBest(scores: seq<nat>)
    requires |scores| == 2 && scores[0] < scores[1]
    ensures IsFirstBest(scores, 1)
  {
  }

  lemma ExactMatchScore()
    ensures Score("ab", QA("ab", "first", [])) == 10
  {
    assert Lower("ab") == "ab";
    SplitWithoutSeparator("ab", ' ');
    assert QuestionWords("ab") == [];
  }

  lemma KeywordsScore()
    ensures Score("ab", QA("x", "second", ["a", "b", "a", "b"])) == 12
  {
    var keywords := ["a", "b", "a", "b"];
    assert Lower("a") == "a" && Lower("b") == "b" && Lower("x") == "x";
    assert LowerAll(keywords) == keywords;
    assert StartsWith("ab", "a") && StartsWith("ab"[1..], "b");
    AllWordsHit("ab", keywords);
    SplitWithoutSeparator("x", ' ');
    assert QuestionWords("x") == [];
  }

  /** An empty keyword is included in every message, so even the empty message can be answered:
      the empty-message guard in `handleSend` is what keeps it from reaching the matcher. */
  lemma EmptyKeywordMatchesEverything(message: string)
    ensures Reply(message, [QA("?", "answer", [""])]) == "answer"
  {
    var qa := QA("?", "answer", [""]);
    IncludesEmpty(message, []);
    assert LowerAll([""]) == [[]];
    assert Hits(message, [[]]) == 1;
  }
}
