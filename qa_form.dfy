/**
 * The form that adds a knowledge-base entry (components/dashboard/QAForm.tsx):
 * its schema and the conversion of the comma-separated keyword field into a
 * keyword list when the form is submitted.
 */
module QAForm {
  import opened Wrappers
  import opened Strings
  import opened Types

  const QuestionMin: nat := 10
  const QuestionMax: nat := 200
  const AnswerMin: nat := 10
  const AnswerMax: nat := 500

  /** `qaSchema`: question 10-200 characters, answer 10-500; the keyword field is free. */
  predicate ValidForm(question: string, answer: string) {
    QuestionMin <= |question| <= QuestionMax && AnswerMin <= |answer| <= AnswerMax
  }

  /** `.map(k => k.trim())`. */
  function TrimAll(pieces: seq<string>): (r: seq<string>)
    ensures |r| == |pieces|
  {
    seq(|pieces|, i requires 0 <= i < |pieces| => Trim(pieces[i]))
  }

  /** `.filter(k => k.length > 0)`. */
  function NonEmpty(ks: seq<string>): (r: seq<string>)
    ensures |r| <= |ks|
    decreases |ks|
  {
    if ks == [] then []
    else (if ks[0] == [] then [] else [ks[0]]) + NonEmpty(ks[1..])
  }

  /** The keyword list of `handleSubmit`: empty for an absent or empty field, otherwise
      the comma-separated pieces, trimmed, without the empty ones. */
  function ParseKeywords(field: Option<string>): seq<string> {
    if field.Some? && field.value != [] then NonEmpty(TrimAll(Split(field.value, ','))) else []
  }

  /** A keyword fit to be written into the field and read back: non-empty, trimmed, no comma. */
  predicate PlainKeyword(k: string) {
    k != [] && IsTrimmed(k) && ',' !in k
  }

  /** Trimming keeps a string free of a character it did not contain. */
  lemma TrimKeepsAbsent(s: string, c: char)
    requires c !in s
    ensures c !in Trim(s)
  {
    var a := LeadingSpaces(s);
    var t := Trim(s);
    forall i | 0 <= i < |t| ensures t[i] != c {
      assert t[i] == s[a + i];
    }
  }

  /** The filter keeps exactly the non-empty elements, in order. */
  lemma {:induction false} NonEmptyMembers(ks: seq<string>, x: string)
    ensures x in NonEmpty(ks) <==> x in ks && x != []
    decreases |ks|
  {
    if ks != [] {
      NonEmptyMembers(ks[1..], x);
      assert ks == [ks[0]] + ks[1..];
    }
  }

  /** A list without empty elements passes the filter unchanged. */
  lemma {:induction false} NonEmptyOfNonEmpty(ks: seq<string>)
    requires forall i :: 0 <= i < |ks| ==> ks[i] != []
    ensures NonEmpty(ks) == ks
    decreases |ks|
  {
    if ks != [] {
      NonEmptyOfNonEmpty(ks[1..]);
      assert ks == [ks[0]] + ks[1..];
    }
  }

  /** Parsed keywords are non-empty, trimmed and comma-free, whatever the field holds. */
  lemma ParseKeywordsShape(field: Option<string>)
    ensures var r := ParseKeywords(field);
      forall i :: 0 <= i < |r| ==> PlainKeyword(r[i])
  {
    if field.Some? && field.value != [] {
      var pieces := Split(field.value, ',');
      var trimmed := TrimAll(pieces);
      var r := NonEmpty(trimmed);
      forall i | 0 <= i < |r| ensures PlainKeyword(r[i]) {
        NonEmptyMembers(trimmed, r[i]);
        var j :| 0 <= j < |trimmed| && trimmed[j] == r[i];
        TrimKeepsAbsent(pieces[j], ',');
      }
    }
  }

  /** Round trip: plain keywords written comma-separated are read back as the same list,
      in the same order. */
  lemma ParseJoined(ks: seq<string>)
    requires forall i :: 0 <= i < |ks| ==> PlainKeyword(ks[i])
    ensures ParseKeywords(Some(Join(ks, ","))) == ks
  {
    if ks != [] {
      assert ks[0] != [];
      JoinStartsWithFirst(ks, ",");
      SplitJoin(ks, ',');
      forall i | 0 <= i < |ks| ensures Trim(ks[i]) == ks[i] {
        TrimOfTrimmed(ks[i]);
      }
      assert TrimAll(ks) == ks;
      NonEmptyOfNonEmpty(ks);
    }
  }

  /** Parsing is a projection: writing the parsed list back and parsing again gives the
      same list. */
  lemma ParseIdempotent(field: Option<string>)
    ensures ParseKeywords(Some(Join(ParseKeywords(field), ","))) == ParseKeywords(field)
  {
    ParseKeywordsShape(field);
    ParseJoined(ParseKeywords(field));
  }

  /** Unlike the edit dialog, this form keeps the keywords' case. */
  lemma KeywordsKeepCase()
    ensures ParseKeywords(Some("Price")) == ["Price"]
  {
    assert IsTrimmed("Price");
    ParseJoined(["Price"]);
    assert Join(["Price"], ",") == "Price";
  }

  /** `handleSubmit` behind the schema: nothing is submitted for an invalid form, and a
      valid one is submitted with its question and answer as typed and the parsed
      keywords. */
  function Submission(question: string, answer: string, keywords: Option<string>): (r: Option<QA>)
    ensures r.Some? <==> ValidForm(question, answer)
    ensures r.Some? ==> r.value.question == question && r.value.answer == answer
  {
    if ValidForm(question, answer) then Some(QA(question, answer, ParseKeywords(keywords))) else None
  }
}
