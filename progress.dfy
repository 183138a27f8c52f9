/** The dashboard metrics of the progress controller.

    Timestamps are integers counting milliseconds of local time since
    1970-01-01 00:00 (a Thursday); the current instant `now` is a parameter.
    `Day(t)` is the local day number of an instant, so `Day(t) * MsPerDay`
    is what `setHours(0, 0, 0, 0)` produces. Because day starts are whole
    multiples of a day, the source's `Math.floor` of their difference over
    a day is exactly the difference of day numbers. */
module Progress {
  import opened Wrappers
  import opened JsMath
  import opened Text

  const MsPerDay: int := 1000 * 60 * 60 * 24

  /** The local day number of an instant. */
  function Day(t: int): int {
    t / MsPerDay
  }

  /** `getDay()`: 0 is Sunday, 6 is Saturday; day 0 was a Thursday. */
  function Weekday(t: int): (w: nat)
    ensures w < 7
  {
    (Day(t) + 4) % 7
  }

  function DaysOf(dates: seq<int>): (r: seq<int>)
    ensures |r| == |dates|
    ensures forall i :: 0 <= i < |dates| ==> r[i] == Day(dates[i])
  {
    if dates == [] then [] else DaysOf(dates[..|dates| - 1]) + [Day(dates[|dates| - 1])]
  }

  // ---------------------------------------------------------------------
  // Distinct days, most recent first (`[...new Set(...)].sort((a, b) => b - a)`)

  predicate StrictlyDescending(s: seq<int>) {
    forall i, j :: 0 <= i < j < |s| ==> s[i] > s[j]
  }

  /** Insert `x` into a strictly descending sequence, unless it is there. */
  function InsertDesc(s: seq<int>, x: int): (r: seq<int>)
    ensures |r| >= 1
  {
    if s == [] then [x]
    else if x == s[0] then s
    else if x > s[0] then [x] + s
    else [s[0]] + InsertDesc(s[1..], x)
  }

  lemma {:induction false} InsertDescSpec(s: seq<int>, x: int)
    requires StrictlyDescending(s)
    ensures StrictlyDescending(InsertDesc(s, x))
    ensures forall y :: y in InsertDesc(s, x) <==> y in s || y == x
  {
    if s != [] {
      assert s == [s[0]] + s[1..];
      HeadGreatest(s);
      if x < s[0] {
        var t := InsertDesc(s[1..], x);
        TailDescending(s);
        InsertDescSpec(s[1..], x);
        assert InsertDesc(s, x) == [s[0]] + t;
        ConsDescending(s[0], t);
      } else if x > s[0] {
        ConsDescending(x, s);
      }
    }
  }

  /** The head of a strictly descending sequence exceeds everything after it. */
  lemma HeadGreatest(s: seq<int>)
    requires s != [] && StrictlyDescending(s)
    ensures forall y :: y in s[1..] ==> y < s[0]
  {
    forall y | y in s[1..]
      ensures y < s[0]
    {
      var k :| 0 <= k < |s[1..]| && s[1..][k] == y;
      assert s[k + 1] == y;
    }
  }

  lemma TailDescending(s: seq<int>)
    requires s != [] && StrictlyDescending(s)
    ensures StrictlyDescending(s[1..])
  {
    forall i, j | 0 <= i < j < |s| - 1
      ensures s[1..][i] > s[1..][j]
    {
      assert s[1..][i] == s[i + 1] && s[1..][j] == s[j + 1];
    }
  }

  /** A value above every element of a strictly descending sequence can go
      in front of it. */
  lemma ConsDescending(h: int, t: seq<int>)
    requires StrictlyDescending(t)
    requires forall y :: y in t ==> y < h
    ensures StrictlyDescending([h] + t)
  {
    var r := [h] + t;
    forall i, j | 0 <= i < j < |r|
      ensures r[i] > r[j]
    {
      assert r[j] == t[j - 1] && t[j - 1] in t;
      if i > 0 {
        assert r[i] == t[i - 1];
      }
    }
  }

  /** The distinct values of `days`, in strictly descending order. */
  function UniqueDesc(days: seq<int>): seq<int> {
    if days == [] then [] else InsertDesc(UniqueDesc(days[..|days| - 1]), days[|days| - 1])
  }

  lemma {:induction false} UniqueDescSpec(days: seq<int>)
    ensures StrictlyDescending(UniqueDesc(days))
    ensures forall y :: y in UniqueDesc(days) <==> y in days
    ensures days != [] ==> UniqueDesc(days) != []
  {
    if days != [] {
      var init := days[..|days| - 1];
      UniqueDescSpec(init);
      InsertDescSpec(UniqueDesc(init), days[|days| - 1]);
      assert days == init + [days[|days| - 1]];
    }
  }

  /** A strictly descending sequence has as many elements as values. */
  lemma {:induction false} DescendingCard(s: seq<int>)
    requires StrictlyDescending(s)
    ensures |set x | x in s| == |s|
  {
    if s != [] {
      DescendingCard(s[1..]);
      var tail := set x | x in s[1..];
      assert (set x | x in s) == {s[0]} + tail;
      assert forall k :: 0 <= k < |s[1..]| ==> s[1..][k] < s[0] by {
        forall k | 0 <= k < |s[1..]|
          ensures s[1..][k] < s[0]
        {
          assert s[1..][k] == s[k + 1];
        }
      }
      assert s[0] !in s[1..];
    }
  }

  // ---------------------------------------------------------------------
  // Study streak (`calculateStudyStreak`)

  /** The walk over the distinct days starting with `expected`: a day equal
      to the expected one counts and moves the expectation to the day
      before it; a day one earlier than expected moves the expectation
      without counting; any other gap stops the walk. */
  function Walk(days: seq<int>, expected: int): nat {
    if days == [] then 0
    else if expected - days[0] == 0 then 1 + Walk(days[1..], days[0] - 1)
    else if expected - days[0] == 1 then Walk(days[1..], days[0] - 1)
    else 0
  }

  /** The streak for a list of activity instants. */
  function Streak(activities: seq<int>, now: int): nat {
    if |activities| == 0 then 0
    else
      var u := UniqueDesc(DaysOf(activities));
      if u == [] || Day(now) - u[0] > 1 then 0 else Walk(u, Day(now))
  }

  method CalculateStudyStreak(activities: seq<int>, now: int) returns (streak: nat)
    ensures streak == Streak(activities, now)
    ensures activities == [] ==> streak == 0
  {
    if |activities| == 0 {
      return 0;
    }
    var uniqueDates := UniqueDesc(DaysOf(activities));
    UniqueDescSpec(DaysOf(activities));
    var today := Day(now);
    var daysSinceLastActivity := today - uniqueDates[0];
    if daysSinceLastActivity > 1 {
      return 0;
    }
    streak := CountConsecutive(uniqueDates, today);
  }

  /** The counting loop of `calculateStudyStreak`, from `expectedDate = today`. */
  method CountConsecutive(uniqueDates: seq<int>, today: int) returns (streak: nat)
    ensures streak == Walk(uniqueDates, today)
  {
    streak := 0;
    var expectedDate := today;
    var i := 0;
    while i < |uniqueDates|
      invariant 0 <= i <= |uniqueDates|
      invariant streak + Walk(uniqueDates[i..], expectedDate) == Walk(uniqueDates, today)
    {
      var activityDate := uniqueDates[i];
      var dayDiff := expectedDate - activityDate;
      assert uniqueDates[i..][1..] == uniqueDates[i + 1..];
      if dayDiff == 0 {
        streak := streak + 1;
        expectedDate := activityDate - 1;
      } else if dayDiff == 1 {
        expectedDate := activityDate - 1;
      } else {
        break;
      }
      i := i + 1;
    }
  }

  lemma {:induction false} WalkBound(days: seq<int>, expected: int)
    ensures Walk(days, expected) <= |days|
  {
    if days != [] {
      WalkBound(days[1..], days[0] - 1);
    }
  }

  /** The streak is zero without activity or when the most recent active
      day is before yesterday, and it never exceeds the number of distinct
      active days. */
  lemma StreakBounds(activities: seq<int>, now: int)
    ensures activities == [] ==> Streak(activities, now) == 0
    ensures (forall t :: t in activities ==> Day(t) < Day(now) - 1) ==> Streak(activities, now) == 0
    ensures Streak(activities, now) <= |set t | t in activities :: Day(t)|
  {
    if activities != [] {
      var days := DaysOf(activities);
      var u := UniqueDesc(days);
      UniqueDescSpec(days);
      if forall t :: t in activities ==> Day(t) < Day(now) - 1 {
        assert u[0] in days;
        var k :| 0 <= k < |days| && days[k] == u[0];
        assert activities[k] in activities;
      }
      WalkBound(u, Day(now));
      DescendingCard(u);
      assert (set x | x in u) == set t | t in activities :: Day(t) by {
        forall y | y in days
          ensures y in set t | t in activities :: Day(t)
        {
          var k :| 0 <= k < |days| && days[k] == y;
          assert activities[k] in activities;
        }
      }
    }
  }

  /** A run of `k` distinct days counting back from the expected day is all
      counted. */
  lemma {:induction false} WalkRun(days: seq<int>, expected: int, k: nat)
    requires k <= |days|
    requires forall j :: 0 <= j < k ==> days[j] == expected - j
    ensures Walk(days, expected) >= k
  {
    if k > 0 {
      WalkRun(days[1..], days[0] - 1, k - 1);
    }
  }

  /** Activity on each of the last `k` days, today included, and none in
      the future, gives a streak of at least `k`. */
  lemma StreakCountsConsecutiveDays(activities: seq<int>, now: int, k: nat)
    requires forall t :: t in activities ==> Day(t) <= Day(now)
    requires forall d :: Day(now) - k < d <= Day(now) ==> d in DaysOf(activities)
    ensures Streak(activities, now) >= k
  {
    if k > 0 {
      var days := DaysOf(activities);
      var u := UniqueDesc(days);
      UniqueDescSpec(days);
      forall i | 0 <= i < |u|
        ensures u[i] <= Day(now)
      {
        assert u[i] in days;
        var m :| 0 <= m < |days| && days[m] == u[i];
        assert activities[m] in activities;
      }
      DescendingRun(u, Day(now), k);
      WalkRun(u, Day(now), k);
    }
  }

  /** In a strictly descending sequence bounded by `top` that holds each of
      `top`, `top - 1`, ..., `top - k + 1`, these come first. */
  lemma {:induction false} DescendingRun(u: seq<int>, top: int, k: nat)
    requires StrictlyDescending(u)
    requires forall i :: 0 <= i < |u| ==> u[i] <= top
    requires forall d :: top - k < d <= top ==> d in u
    ensures k <= |u|
    ensures forall j :: 0 <= j < k ==> u[j] == top - j
  {
    if k > 0 {
      DescendingRun(u, top, k - 1);
      var v := top - (k - 1);
      assert v in u;
      var m :| 0 <= m < |u| && u[m] == v;
      assert forall j :: 0 <= j < k - 1 ==> u[j] != v;
      assert m >= k - 1;
      assert u[k - 1] >= u[m];
      assert u[k - 1] <= v by {
        if k - 1 > 0 {
          assert u[k - 2] == top - (k - 2);
          assert u[k - 2] > u[k - 1];
        } else {
          assert u[0] <= top;
        }
      }
    }
  }

  /** A streak needs activity today or yesterday: the yesterday-only run is
      walked past without being counted, so activity on exactly the two
      days before today gives a streak of one. */
  lemma YesterdayNotCounted(now: int)
    ensures Streak([now - MsPerDay, now - 2 * MsPerDay], now) == 1
  {
    var acts := [now - MsPerDay, now - 2 * MsPerDay];
    var today := Day(now);
    assert Day(now - MsPerDay) == today - 1;
    assert Day(now - 2 * MsPerDay) == today - 2;
    var days := DaysOf(acts);
    assert days == [today - 1, today - 2];
    assert days[..1] == [today - 1];
    assert [today - 1][..0] == [];
    assert UniqueDesc([today - 1]) == [today - 1];
    assert [today - 1][1..] == [];
    assert InsertDesc([today - 1], today - 2) == [today - 1] + InsertDesc([], today - 2);
    assert UniqueDesc(days) == InsertDesc(UniqueDesc(days[..1]), days[1]);
    assert UniqueDesc(days) == [today - 1, today - 2];
    var u := [today - 1, today - 2];
    assert u[1..] == [today - 2];
    assert u[1..][1..] == [];
    assert Walk([today - 2], today - 2) == 1;
  }

  // ---------------------------------------------------------------------
  // Total study time (`calculateTotalStudyTime`)

  datatype Document = Document(status: string)

  /** A quiz as the dashboard sees it; a missing `totalQuestions` is None. */
  datatype QuizSummary = QuizSummary(completedAt: Option<int>, score: Option<int>, totalQuestions: Option<nat>)

  predicate DocumentDone(d: Document) {
    d.status == "completed" || d.status == "processed"
  }

  function CompletedDocs(docs: seq<Document>): (r: nat)
    ensures r <= |docs|
  {
    if docs == [] then 0
    else CompletedDocs(docs[..|docs| - 1]) + (if DocumentDone(docs[|docs| - 1]) then 1 else 0)
  }

  /** `quiz.totalQuestions || 5`: missing or zero counts as five. */
  function QuestionsOrFive(q: QuizSummary): nat {
    match q.totalQuestions
    case Some(n) => if n == 0 then 5 else n
    case None => 5
  }

  function QuizMinutes(quizzes: seq<QuizSummary>): nat {
    if quizzes == [] then 0
    else QuizMinutes(quizzes[..|quizzes| - 1]) + 2 * QuestionsOrFive(quizzes[|quizzes| - 1])
  }

  /** Estimated minutes: fifteen per finished document, two per question. */
  function TotalMinutes(docs: seq<Document>, quizzes: seq<QuizSummary>): nat {
    15 * CompletedDocs(docs) + QuizMinutes(quizzes)
  }

  /** `${hours}h ${minutes}m`. */
  function StudyTimeText(minutes: nat): string {
    NatToString(minutes / 60) + ("h " + NatToString(minutes % 60) + "m")
  }

  method CalculateTotalStudyTime(documents: seq<Document>, quizzes: seq<QuizSummary>) returns (text: string)
    ensures text == StudyTimeText(TotalMinutes(documents, quizzes))
  {
    var completedDocs := CountCompletedDocs(documents);
    assert completedDocs * 15 == 15 * CompletedDocs(documents);
    var totalMinutes := AddQuizMinutes(completedDocs * 15, quizzes);
    assert totalMinutes == TotalMinutes(documents, quizzes);
    var hours := totalMinutes / 60;
    var minutes := totalMinutes % 60;
    text := NatToString(hours) + ("h " + NatToString(minutes) + "m");
  }

  /** `documents.filter(doc => doc.status === 'completed' || doc.status === 'processed').length`. */
  method CountCompletedDocs(documents: seq<Document>) returns (completedDocs: nat)
    ensures completedDocs == CompletedDocs(documents)
  {
    completedDocs := 0;
    var i := 0;
    while i < |documents|
      invariant 0 <= i <= |documents|
      invariant completedDocs == CompletedDocs(documents[..i])
    {
      assert documents[..i + 1][..i] == documents[..i];
      if DocumentDone(documents[i]) {
        completedDocs := completedDocs + 1;
      }
      i := i + 1;
    }
    assert documents[..i] == documents;
  }

  /** The `quizzes.forEach` accumulation onto `totalMinutes`. */
  method AddQuizMinutes(start: nat, quizzes: seq<QuizSummary>) returns (totalMinutes: nat)
    ensures totalMinutes == start + QuizMinutes(quizzes)
  {
    totalMinutes := start;
    var j := 0;
    while j < |quizzes|
      invariant 0 <= j <= |quizzes|
      invariant totalMinutes == start + QuizMinutes(quizzes[..j])
    {
      assert quizzes[..j + 1][..j] == quizzes[..j];
      totalMinutes := totalMinutes + 2 * QuestionsOrFive(quizzes[j]);
      j := j + 1;
    }
    assert quizzes[..j] == quizzes;
  }

  /** Each quiz adds an even number of minutes, at least two. */
  lemma {:induction false} QuizMinutesBounds(quizzes: seq<QuizSummary>)
    ensures QuizMinutes(quizzes) >= 2 * |quizzes| && QuizMinutes(quizzes) % 2 == 0
  {
    if quizzes != [] {
      QuizMinutesBounds(quizzes[..|quizzes| - 1]);
    }
  }

  /** The longest prefix of decimal digits. */
  function DigitPrefix(s: string): (r: nat)
    ensures r <= |s|
    ensures forall i :: 0 <= i < r ==> IsDigit(s[i])
    ensures r < |s| ==> !IsDigit(s[r])
  {
    if s == [] || !IsDigit(s[0]) then 0 else 1 + DigitPrefix(s[1..])
  }

  /** Reads `<hours>h <minutes>m` back into a number of minutes. */
  function ParseStudyTime(s: string): Option<nat> {
    var h := DigitPrefix(s);
    if h == 0 then None else ParseMinutesPart(ParseNat(s[..h]), s[h..])
  }

  /** Reads `h <minutes>m` after the hours. */
  function ParseMinutesPart(hours: nat, t: string): Option<nat> {
    if |t| >= 2 && t[..2] == "h " then ParseMinutes(hours, t[2..]) else None
  }

  /** Reads `<minutes>m`; the minutes must be below sixty. */
  function ParseMinutes(hours: nat, rest: string): Option<nat> {
    var m := DigitPrefix(rest);
    if m > 0 && rest[m..] == "m" && ParseNat(rest[..m]) < 60 then Some(60 * hours + ParseNat(rest[..m])) else None
  }

  lemma {:induction false} DigitPrefixAt(d: string, rest: string)
    requires forall i :: 0 <= i < |d| ==> IsDigit(d[i])
    requires rest == [] || !IsDigit(rest[0])
    ensures DigitPrefix(d + rest) == |d|
  {
    if d == [] {
      assert d + rest == rest;
    } else {
      assert (d + rest)[1..] == d[1..] + rest;
      DigitPrefixAt(d[1..], rest);
    }
  }

  /** The hours are the leading digits; the rest is read after them. */
  lemma HoursPart(hs: string, tail: string)
    requires hs != [] && forall i :: 0 <= i < |hs| ==> IsDigit(hs[i])
    requires tail != [] && !IsDigit(tail[0])
    ensures ParseStudyTime(hs + tail) == ParseMinutesPart(ParseNat(hs), tail)
  {
    var s := hs + tail;
    assert s[..|hs|] == hs && s[|hs|..] == tail;
    DigitPrefixAt(hs, tail);
  }

  lemma MinutesPartDigits(hours: nat, ms: string)
    requires ms != [] && forall i :: 0 <= i < |ms| ==> IsDigit(ms[i])
    ensures ParseNat(ms) < 60 ==> ParseMinutesPart(hours, "h " + ms + "m") == Some(60 * hours + ParseNat(ms))
  {
    var rest := ms + "m";
    var t := "h " + ms + "m";
    assert t == "h " + rest;
    assert t[..2] == "h " && t[2..] == rest;
    MinutesDigits(hours, ms);
  }

  lemma MinutesDigits(hours: nat, ms: string)
    requires ms != [] && forall i :: 0 <= i < |ms| ==> IsDigit(ms[i])
    ensures ParseNat(ms) < 60 ==> ParseMinutes(hours, ms + "m") == Some(60 * hours + ParseNat(ms))
  {
    var rest := ms + "m";
    assert rest[..|ms|] == ms && rest[|ms|..] == "m";
    DigitPrefixAt(ms, "m");
  }

  /** The rendered study time reads back as the same number of minutes. */
  lemma StudyTimeRoundTrip(minutes: nat)
    ensures ParseStudyTime(StudyTimeText(minutes)) == Some(minutes)
  {
    DivMod60(minutes);
    StudyTimeParts(minutes / 60, minutes % 60);
  }

  lemma StudyTimeParts(h: nat, m: nat)
    requires m < 60
    ensures ParseStudyTime(NatToString(h) + ("h " + NatToString(m) + "m")) == Some(60 * h + m)
  {
    var hs := NatToString(h);
    ParseNatToString(h);
    HoursPart(hs, "h " + NatToString(m) + "m");
    MinutesTail(h, m);
  }

  /** The text after the hours reads back as the minutes. */
  lemma MinutesTail(h: nat, m: nat)
    requires m < 60
    ensures ParseMinutesPart(h, "h " + NatToString(m) + "m") == Some(60 * h + m)
  {
    ParseNatToString(m);
    MinutesPartDigits(h, NatToString(m));
  }

  lemma DivMod60(minutes: nat)
    ensures 60 * (minutes / 60) + minutes % 60 == minutes && minutes % 60 < 60
  {
  }

  // ---------------------------------------------------------------------
  // Most productive day (`getMostProductiveDay`)

  const DayNames: seq<string> := ["Sunday", "Monday", "Tuesday", "Wednesday", "Thursday", "Friday", "Saturday"]

  /** How many instants of `dates` fall on each weekday. */
  function WeekdayCounts(dates: seq<int>): (r: seq<nat>)
    ensures |r| == 7
  {
    if dates == [] then [0, 0, 0, 0, 0, 0, 0]
    else
      var c := WeekdayCounts(dates[..|dates| - 1]);
      var w := Weekday(dates[|dates| - 1]);
      c[w := c[w] + 1]
  }

  /** The counts add up to the number of instants. */
  lemma {:induction false} WeekdayCountsSum(dates: seq<int>)
    ensures Sum7(WeekdayCounts(dates)) == |dates|
  {
    if dates != [] {
      WeekdayCountsSum(dates[..|dates| - 1]);
    }
  }

  function Sum7(c: seq<nat>): nat
    requires |c| == 7
  {
    c[0] + c[1] + c[2] + c[3] + c[4] + c[5] + c[6]
  }

  /** `w` has the largest count, and every later weekday has a smaller one. */
  predicate LastMaximum(c: seq<nat>, w: nat)
    requires |c| == 7
  {
    w < 7 && (forall j :: 0 <= j < 7 ==> c[j] <= c[w]) && (forall j :: w < j < 7 ==> c[j] < c[w])
  }

  /** The weekday with the most activity, ties going to the later day, or
      Monday without activity. */
  method GetMostProductiveDay(activityDates: seq<int>) returns (name: string)
    ensures activityDates == [] ==> name == "Monday"
    ensures activityDates != [] ==>
              exists w :: 0 <= w < 7 && LastMaximum(WeekdayCounts(activityDates), w) && name == DayNames[w]
  {
    if |activityDates| == 0 {
      return "Monday";
    }
    var dayCounts: seq<nat> := [0, 0, 0, 0, 0, 0, 0];
    var i := 0;
    while i < |activityDates|
      invariant 0 <= i <= |activityDates|
      invariant dayCounts == WeekdayCounts(activityDates[..i])
    {
      assert activityDates[..i + 1][..i] == activityDates[..i];
      var day := Weekday(activityDates[i]);
      dayCounts := dayCounts[day := dayCounts[day] + 1];
      i := i + 1;
    }
    assert activityDates[..i] == activityDates;
    var maxDay := ReduceMax(dayCounts);
    name := DayNames[maxDay];
  }

  /** `Object.keys(dayCounts).reduce((a, b) => dayCounts[a] > dayCounts[b] ? a : b)`. */
  method ReduceMax(dayCounts: seq<nat>) returns (a: nat)
    requires |dayCounts| == 7
    ensures LastMaximum(dayCounts, a)
  {
    a := 0;
    var b := 1;
    while b < 7
      invariant 1 <= b <= 7 && a < b
      invariant forall j :: 0 <= j < b ==> dayCounts[j] <= dayCounts[a]
      invariant forall j :: a < j < b ==> dayCounts[j] < dayCounts[a]
    {
      if !(dayCounts[a] > dayCounts[b]) {
        a := b;
      }
      b := b + 1;
    }
  }

  // ---------------------------------------------------------------------
  // Consistency, studied-today and weekly activity

  /** The distinct days with activity at or after `since`. */
  function DaysSince(dates: seq<int>, since: int): set<int> {
    set t | t in dates && t >= since :: Day(t)
  }

  /** `calculateConsistency`: the share of distinct days with activity in
      the last thirty days, in percent and capped at 100. */
  function Consistency(dates: seq<int>, now: int): (r: int)
    ensures 0 <= r <= 100
  {
    if |dates| == 0 then 0
    else
      var k := |DaysSince(dates, now - 30 * MsPerDay)|;
      RoundDivNonNegative(k * 100, 30);
      Min(100, RoundDiv(k * 100, 30))
  }

  /** Consistency reaches 100 exactly when there are at least thirty active
      days in the window. */
  lemma ConsistencyFull(dates: seq<int>, now: int)
    requires dates != []
    ensures Consistency(dates, now) == 100 <==> |DaysSince(dates, now - 30 * MsPerDay)| >= 30
  {
    var k := |DaysSince(dates, now - 30 * MsPerDay)|;
    if k >= 30 {
      RoundDivMonotone(3000, k * 100, 30);
      RoundDivExact(100, 30);
    } else {
      RoundDivMonotone(k * 100, 2900, 30);
      assert RoundDiv(2900, 30) == 97;
    }
  }

  /** `checkStudiedToday`. */
  predicate StudiedToday(dates: seq<int>, now: int) {
    |dates| > 0 && exists i :: 0 <= i < |dates| && Day(dates[i]) == Day(now)
  }

  /** `getWeeklyActivities`: how many instants fall on or after the start
      of the day a week before today. */
  function WeeklyActivities(dates: seq<int>, now: int): (r: nat)
    ensures r <= |dates|
  {
    if |dates| == 0 then 0 else CountSince(dates, (Day(now) - 7) * MsPerDay)
  }

  function CountSince(dates: seq<int>, since: int): (r: nat)
    ensures r <= |dates|
  {
    if dates == [] then 0
    else CountSince(dates[..|dates| - 1], since) + (if dates[|dates| - 1] >= since then 1 else 0)
  }

  lemma {:induction false} CountSinceIncludes(dates: seq<int>, since: int, i: nat)
    requires i < |dates| && dates[i] >= since
    ensures CountSince(dates, since) >= 1
  {
    if i < |dates| - 1 {
      CountSinceIncludes(dates[..|dates| - 1], since, i);
    }
  }

  /** The start of day `d` in milliseconds is at most any instant on it. */
  lemma DayStartBelow(t: int)
    ensures Day(t) * MsPerDay <= t < (Day(t) + 1) * MsPerDay
  {
  }

  /** Activity today is counted in the weekly activity, and, without future
      instants, keeps the streak alive. */
  lemma StudiedTodayCounts(dates: seq<int>, now: int)
    requires StudiedToday(dates, now)
    ensures WeeklyActivities(dates, now) >= 1
    ensures (forall t :: t in dates ==> Day(t) <= Day(now)) ==> Streak(dates, now) >= 1
  {
    var i :| 0 <= i < |dates| && Day(dates[i]) == Day(now);
    DayStartBelow(dates[i]);
    assert (Day(now) - 7) * MsPerDay <= Day(now) * MsPerDay;
    CountSinceIncludes(dates, (Day(now) - 7) * MsPerDay, i);
    if forall t :: t in dates ==> Day(t) <= Day(now) {
      assert dates[i] in dates;
      StreakCountsConsecutiveDays(dates, now, 1);
    }
  }

  // ---------------------------------------------------------------------
  // Rates in `getDashboard`

  function CompletedQuizzes(quizzes: seq<QuizSummary>): (r: seq<QuizSummary>)
    ensures |r| <= |quizzes|
    ensures forall q :: q in r <==> q in quizzes && q.completedAt.Some?
  {
    if quizzes == [] then []
    else
      var init := CompletedQuizzes(quizzes[..|quizzes| - 1]);
      var last := quizzes[|quizzes| - 1];
      assert quizzes == quizzes[..|quizzes| - 1] + [last];
      if last.completedAt.Some? then init + [last] else init
  }

  /** The sum of `quiz.score || 0`. */
  function ScoreSum(quizzes: seq<QuizSummary>): int {
    if quizzes == [] then 0
    else ScoreSum(quizzes[..|quizzes| - 1]) + quizzes[|quizzes| - 1].score.GetOr(0)
  }

  /** The rounded mean score of the completed quizzes, or 0 without any. */
  function AverageScore(quizzes: seq<QuizSummary>): int {
    var done := CompletedQuizzes(quizzes);
    if |done| > 0 then RoundDiv(ScoreSum(done), |done|) else 0
  }

  /** The rounded percentage of completed quizzes, or 0 without quizzes. */
  function CompletionRate(quizzes: seq<QuizSummary>): int {
    if |quizzes| > 0 then RoundDiv(|CompletedQuizzes(quizzes)| * 100, |quizzes|) else 0
  }

  lemma {:induction false} ScoreSumBounds(quizzes: seq<QuizSummary>)
    requires forall i :: 0 <= i < |quizzes| ==> 0 <= quizzes[i].score.GetOr(0) <= 100
    ensures 0 <= ScoreSum(quizzes) <= 100 * |quizzes|
  {
    if quizzes != [] {
      ScoreSumBounds(quizzes[..|quizzes| - 1]);
    }
  }

  /** Scores between 0 and 100 average to a score between 0 and 100, and
      the completion rate is a percentage. */
  lemma RatesInRange(quizzes: seq<QuizSummary>)
    requires forall i :: 0 <= i < |quizzes| ==> 0 <= quizzes[i].score.GetOr(0) <= 100
    ensures 0 <= AverageScore(quizzes) <= 100
    ensures 0 <= CompletionRate(quizzes) <= 100
  {
    var done := CompletedQuizzes(quizzes);
    if |done| > 0 {
      forall i | 0 <= i < |done|
        ensures 0 <= done[i].score.GetOr(0) <= 100
      {
        assert done[i] in quizzes;
        var k :| 0 <= k < |quizzes| && quizzes[k] == done[i];
      }
      ScoreSumBounds(done);
      RoundDivBounds(ScoreSum(done), |done|, 100);
    }
    if |quizzes| > 0 {
      RoundDivBounds(|done| * 100, |quizzes|, 100);
    }
  }

  /** All quizzes completed gives a completion rate of 100. */
  lemma AllCompleted(quizzes: seq<QuizSummary>)
    requires quizzes != [] && forall i :: 0 <= i < |quizzes| ==> quizzes[i].completedAt.Some?
    ensures CompletionRate(quizzes) == 100
  {
    AllKept(quizzes);
    RoundDivExact(100, |quizzes|);
  }

  lemma {:induction false} AllKept(quizzes: seq<QuizSummary>)
    requires forall i :: 0 <= i < |quizzes| ==> quizzes[i].completedAt.Some?
    ensures CompletedQuizzes(quizzes) == quizzes
  {
    if quizzes != [] {
      var init := quizzes[..|quizzes| - 1];
      assert forall i :: 0 <= i < |init| ==> init[i] == quizzes[i];
      AllKept(init);
      assert quizzes == init + [quizzes[|quizzes| - 1]];
    }
  }
}
