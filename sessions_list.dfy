/**
 * The list of chat sessions on the analytics page
 * (components/analytics/SessionsList.tsx): how a session's duration and status
 * are shown, and how the list is cut into pages of twenty with Previous and
 * Next buttons.
 *
 * The formatting helpers are functions; the page number, the component's one
 * piece of state that the buttons change, is the field of `SessionsList`.
 */
module SessionsList {
  import opened Wrappers
  import opened Strings

  const SessionsPerPage: nat := 20
  const Ongoing := "Ongoing"

  /** The fields of a chat session row that the list reads. */
  datatype Session = Session(
    id: string,
    endedAt: Option<string>,
    durationSeconds: Option<int>,
    messageCount: Option<int>)

  // ---------------------------------------------------------------------------
  // Duration
  // ---------------------------------------------------------------------------

  /** `formatDuration`: "Ongoing" for a missing or zero duration, whole seconds below a
      minute, otherwise minutes and the remaining seconds. */
  function FormatDuration(seconds: Option<int>): (r: string)
    ensures |r| >= 2
  {
    if seconds.None? || seconds.value == 0 then Ongoing
    else if seconds.value < 60 then IntToString(seconds.value) + "s"
    else NatToString(seconds.value / 60) + "m " + NatToString(seconds.value % 60) + "s"
  }

  /** A string that `ParseInt` can read. */
  predicate IsIntText(s: string) {
    s != [] && (if s[0] == '-' then IsDigits(s[1..]) else IsDigits(s))
  }

  /** Reads a shown duration back: `Ns` or `Mm Rs` give the number of seconds; anything
      else, "Ongoing" included, gives no duration. */
  function ParseDuration(text: string): Option<int> {
    if |text| < 2 || text[|text| - 1] != 's' then None
    else
      var parts := Split(text[..|text| - 1], ' ');
      if |parts| == 1 then
        if IsIntText(parts[0]) then Some(ParseInt(parts[0])) else None
      else if |parts| == 2 && |parts[0]| >= 2 && parts[0][|parts[0]| - 1] == 'm'
              && IsDigits(parts[0][..|parts[0]| - 1]) && IsDigits(parts[1]) then
        Some(ParseNat(parts[0][..|parts[0]| - 1]) * 60 + ParseNat(parts[1]))
      else None
  }

  /** Decimal numbers contain no space. */
  lemma NoSpaceInNumber(i: int)
    ensures ' ' !in IntToString(i)
  {
    var r := IntToString(i);
    if i < 0 {
      assert r == "-" + NatToString(-i);
      forall k | 0 <= k < |r| ensures r[k] != ' ' {
        if k > 0 {
          assert r[k] == NatToString(-i)[k - 1];
        }
      }
    }
  }

  /** Below a minute, the shown duration is the number followed by `s`. */
  lemma ShortDurationRoundTrip(s: int)
    requires s != 0 && s < 60
    ensures ParseDuration(FormatDuration(Some(s))) == Some(s)
  {
    var text := FormatDuration(Some(s));
    var body := IntToString(s);
    assert text[..|text| - 1] == body;
    NoSpaceInNumber(s);
    SplitWithoutSeparator(body, ' ');
    ParseIntToString(s);
  }

  /** The text before the final `s` of `Mm Rs` splits at its one space. */
  lemma SplitMinutes(m: nat, r: nat)
    ensures Split(NatToString(m) + "m " + NatToString(r), ' ') == [NatToString(m) + "m", NatToString(r)]
  {
    var minutes := NatToString(m) + "m";
    var rest := NatToString(r);
    NoSpaceInNumber(m);
    NoSpaceInNumber(r);
    assert ' ' !in minutes;
    SplitJoin([minutes, rest], ' ');
    assert Join([minutes, rest], " ") == NatToString(m) + "m " + NatToString(r);
  }

  /** `Mm Rs` reads back as `M * 60 + R` seconds. */
  lemma ParseMinutes(m: nat, r: nat)
    ensures ParseDuration(NatToString(m) + "m " + NatToString(r) + "s") == Some(m * 60 + r)
  {
    var minutes := NatToString(m) + "m";
    var text := NatToString(m) + "m " + NatToString(r) + "s";
    assert text[..|text| - 1] == NatToString(m) + "m " + NatToString(r);
    SplitMinutes(m, r);
    assert minutes[..|minutes| - 1] == NatToString(m);
    ParseNatToString(m);
    ParseNatToString(r);
  }

  /** From a minute on, the shown duration is `Mm Rs` with `M * 60 + R` the duration and
      `R` below 60. */
  lemma LongDurationRoundTrip(s: int)
    requires s >= 60
    ensures exists m: nat, r: nat ::
              r < 60 && m * 60 + r == s &&
              FormatDuration(Some(s)) == NatToString(m) + "m " + NatToString(r) + "s"
    ensures ParseDuration(FormatDuration(Some(s))) == Some(s)
  {
    var m, r := s / 60, s % 60;
    assert FormatDuration(Some(s)) == NatToString(m) + "m " + NatToString(r) + "s";
    ParseMinutes(m, r);
  }

  /** "Ongoing" is shown exactly for a missing or zero duration; every other text ends
      in `s`. */
  lemma OngoingIffNoDuration(d: Option<int>)
    ensures FormatDuration(d) == Ongoing <==> d.None? || d.value == 0
  {
    var text := FormatDuration(d);
    if d.Some? && d.value != 0 {
      assert text[|text| - 1] == 's';
      assert Ongoing[|Ongoing| - 1] == 'g';
    }
  }

  /** Round trip: every duration except zero is read back from its text; zero and a
      missing duration both show as "Ongoing". */
  lemma DurationRoundTrip(d: Option<int>)
    ensures ParseDuration(FormatDuration(d)) == if d == Some(0) then None else d
  {
    if d.Some? && d.value != 0 {
      if d.value < 60 {
        ShortDurationRoundTrip(d.value);
      } else {
        LongDurationRoundTrip(d.value);
      }
    }
  }

  /** Two different non-zero durations never show the same text. */
  lemma DurationInjective(a: int, b: int)
    requires a != 0 && b != 0 && FormatDuration(Some(a)) == FormatDuration(Some(b))
    ensures a == b
  {
    DurationRoundTrip(Some(a));
    DurationRoundTrip(Some(b));
  }

  // ---------------------------------------------------------------------------
  // Status
  // ---------------------------------------------------------------------------

  datatype Status = Active | Brief | Completed

  /** `session.message_count || 0`. */
  function MessageCount(count: Option<int>): int {
    if count.Some? then count.value else 0
  }

  /** `getStatus`: a session without an end time is active; an ended one is brief with at
      most two messages and completed otherwise. */
  function GetStatus(session: Session): Status {
    if session.endedAt.None? || session.endedAt.value == [] then Active
    else if MessageCount(session.messageCount) <= 2 then Brief
    else Completed
  }

  /** The status of an ended session depends only on its message count: brief up to two
      messages, completed from three; a missing count is read as zero. */
  lemma StatusOfEnded(session: Session)
    requires session.endedAt.Some? && session.endedAt.value != []
    ensures GetStatus(session) != Active
    ensures GetStatus(session) == Brief <==> session.messageCount.None? || session.messageCount.value <= 2
  {
  }

  /** More messages never turn a completed session back into a brief one. */
  lemma StatusMonotone(a: Session, b: Session)
    requires a.endedAt == b.endedAt
    requires MessageCount(a.messageCount) <= MessageCount(b.messageCount)
    ensures GetStatus(a) == Completed ==> GetStatus(b) == Completed
    ensures GetStatus(b) == Brief ==> GetStatus(a) == Brief
  {
  }

  // ---------------------------------------------------------------------------
  // Pagination
  // ---------------------------------------------------------------------------

  function StartIndex(page: int): int {
    (page - 1) * SessionsPerPage
  }

  function EndIndex(page: int): int {
    StartIndex(page) + SessionsPerPage
  }

  /** How `slice` reads an index: a negative one counts from the end, and both ends are
      clamped to the list. */
  function ClampIndex(i: int, n: nat): (r: nat)
    ensures r <= n
    ensures 0 <= i ==> r == if i <= n then i else n
  {
    if i < 0 then (if n + i < 0 then 0 else n + i) else if i <= n then i else n
  }

  /** `s.slice(start, end)`. */
  function Slice<T>(s: seq<T>, start: int, end: int): (r: seq<T>)
    ensures 0 <= start <= end ==> |r| <= end - start
  {
    var a := ClampIndex(start, |s|);
    var b := ClampIndex(end, |s|);
    if a < b then s[a..b] else []
  }

  /** The sessions shown on a page. */
  function PageSlice(sessions: seq<Session>, page: int): (r: seq<Session>)
    ensures page >= 1 ==> |r| <= SessionsPerPage
  {
    Slice(sessions, StartIndex(page), EndIndex(page))
  }

  /** `Math.ceil(n / 20)`. */
  function TotalPages(n: nat): nat {
    if n % SessionsPerPage == 0 then n / SessionsPerPage else n / SessionsPerPage + 1
  }

  /** The pagination controls are shown only with more than one page. */
  predicate ShowsControls(n: nat) {
    TotalPages(n) > 1
  }

  /** The numbers of "Showing a-b of n conversations". */
  function ShownRange(n: nat, page: int): (int, int) {
    (StartIndex(page) + 1, if EndIndex(page) <= n then EndIndex(page) else n)
  }

  /** The page count is the least number of twenty-session pages that hold every session. */
  lemma TotalPagesIsCeiling(n: nat)
    ensures var t := TotalPages(n);
      && n <= t * SessionsPerPage
      && (t > 0 ==> (t - 1) * SessionsPerPage < n)
      && (t == 0 <==> n == 0)
  {
  }

  /** The controls appear exactly when there are more than twenty sessions. */
  lemma ShowsControlsIff(n: nat)
    ensures ShowsControls(n) <==> n > SessionsPerPage
  {
  }

  /** A page within the page count holds the sessions from its start index on, at least
      one of them. */
  lemma PageContents(sessions: seq<Session>, page: int)
    requires 1 <= page <= TotalPages(|sessions|)
    ensures var r := PageSlice(sessions, page);
      && r != []
      && StartIndex(page) + |r| <= |sessions|
      && (forall k :: 0 <= k < |r| ==> r[k] == sessions[StartIndex(page) + k])
  {
    TotalPagesIsCeiling(|sessions|);
    assert StartIndex(page) < |sessions|;
  }

  /** Every session is shown on exactly the page `i / 20 + 1`, which is within the page
      count. */
  lemma EveryoneShownOnce(sessions: seq<Session>, i: int)
    requires 0 <= i < |sessions|
    ensures var page := i / SessionsPerPage + 1;
      && 1 <= page <= TotalPages(|sessions|)
      && PageSlice(sessions, page)[i - StartIndex(page)] == sessions[i]
      && (forall p :: 1 <= p && p != page ==> !(StartIndex(p) <= i < EndIndex(p)))
  {
    var page := i / SessionsPerPage + 1;
    TotalPagesIsCeiling(|sessions|);
    PageContents(sessions, page);
    forall p | 1 <= p && p != page ensures !(StartIndex(p) <= i < EndIndex(p)) {
      if p < page {
        assert EndIndex(p) <= StartIndex(page);
      } else {
        assert StartIndex(p) >= EndIndex(page);
      }
    }
  }

  /** The range line agrees with the page: it counts its sessions from one after the
      start index and never goes past the list. */
  lemma ShownRangeMatchesPage(sessions: seq<Session>, page: int)
    requires 1 <= page <= TotalPages(|sessions|)
    ensures var (a, b) := ShownRange(|sessions|, page);
      && 1 <= a <= b <= |sessions|
      && b - a + 1 == |PageSlice(sessions, page)|
  {
    PageContents(sessions, page);
  }

  /** The `currentPage` state with the sessions it pages through. */
  class SessionsList {
    const sessions: seq<Session>
    var currentPage: int

    /** The page stays between the first and the last one (page 1 when there are none). */
    predicate Valid()
      reads this
    {
      1 <= currentPage && (currentPage == 1 || currentPage <= TotalPages(|sessions|))
    }

    /** The shown sessions. */
    function Visible(): seq<Session>
      reads this
    {
      PageSlice(sessions, currentPage)
    }

    /** The list opens on the first page. */
    constructor(sessions: seq<Session>)
      ensures this.sessions == sessions && currentPage == 1 && Valid()
    {
      this.sessions := sessions;
      currentPage := 1;
    }

    /** The Previous button: shown with more than one page and disabled on page 1. */
    method Previous()
      requires Valid()
      modifies this
      ensures Valid()
      ensures currentPage == if ShowsControls(|sessions|) && old(currentPage) != 1
                             then old(currentPage) - 1 else old(currentPage)
      ensures sessions != [] ==> Visible() != []
    {
      if ShowsControls(|sessions|) && currentPage != 1 {
        currentPage := currentPage - 1;
      }
      if sessions != [] {
        TotalPagesIsCeiling(|sessions|);
        PageContents(sessions, currentPage);
      }
    }

    /** The Next button: shown with more than one page and disabled on the last one. */
    method Next()
      requires Valid()
      modifies this
      ensures Valid()
      ensures currentPage == if ShowsControls(|sessions|) && old(currentPage) != TotalPages(|sessions|)
                             then old(currentPage) + 1 else old(currentPage)
      ensures sessions != [] ==> Visible() != []
    {
      if ShowsControls(|sessions|) && currentPage != TotalPages(|sessions|) {
        currentPage := currentPage + 1;
      }
      if sessions != [] {
        TotalPagesIsCeiling(|sessions|);
        PageContents(sessions, currentPage);
      }
    }
  }
}
