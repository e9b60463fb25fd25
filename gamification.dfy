/** Points, streaks and badges. Each source function returns a one-entry
    dictionary ({"points": ...}, {"streak": ...}, {"badge": ...}); the model
    returns the entry's value. Dates are day numbers: parsing the ISO
    strings is not modelled. */
module Gamification {
  import opened Strings
  import opened Optional

  function Max(a: int, b: int): int {
    if a >= b then a else b
  }

  // ---------------------------------------------------------------------------
  // award_points
  // ---------------------------------------------------------------------------

  /** Python's `int(x)` on a finite float: truncation toward zero. */
  function Truncate(x: real): (n: int)
    ensures x >= 0.0 ==> n as real <= x < n as real + 1.0
    ensures x < 0.0 ==> n as real - 1.0 < x <= n as real
  {
    if x >= 0.0 then x.Floor else -((-x).Floor)
  }

  /** Bonus for reading in under twenty minutes. */
  const FastBonus: nat := 10
  /** Bonus for reading for twenty minutes or more. */
  const SteadyBonus: nat := 5
  const FastReading: real := 20.0

  /** What `award_points` adds for the reading time, in minutes: nothing for
      a time that is not positive. */
  function ReadingBonus(readingTime: real): (b: nat)
    ensures b == FastBonus <==> 0.0 < readingTime < FastReading
    ensures b == SteadyBonus <==> readingTime >= FastReading
    ensures b == 0 <==> readingTime <= 0.0
  {
    if 0.0 < readingTime < FastReading then FastBonus
    else if readingTime >= FastReading then SteadyBonus
    else 0
  }

  /** The points `award_points` grants: the score cut to a whole number,
      never below zero, plus the reading bonus. */
  function Points(score: real, readingTime: real): int {
    Max(Truncate(score), 0) + ReadingBonus(readingTime)
  }

  /** `award_points`. */
  method AwardPoints(score: real, readingTime: real) returns (points: int)
    ensures points == Points(score, readingTime)
    ensures points >= 0
  {
    points := Truncate(score);
    if points < 0 {
      points := 0;
    }
    if 0.0 < readingTime && readingTime < FastReading {
      points := points + FastBonus;
    } else if readingTime >= FastReading {
      points := points + SteadyBonus;
    }
  }

  /** Apart from the bonus, the points are the whole part of a non-negative
      score, and nothing for a score below one. */
  lemma PointsOfScore(score: real, readingTime: real)
    ensures var base := Points(score, readingTime) - ReadingBonus(readingTime);
      && base >= 0
      && (score < 1.0 ==> base == 0)
      && (score >= 0.0 ==> base as real <= score < base as real + 1.0)
  {
  }

  /** A higher score never earns fewer points. */
  lemma PointsMonotone(score1: real, score2: real, readingTime: real)
    requires score1 <= score2
    ensures Points(score1, readingTime) <= Points(score2, readingTime)
  {
    if score1 >= 0.0 {
      assert Truncate(score1) as real <= score2 < Truncate(score2) as real + 1.0;
    }
  }

  // ---------------------------------------------------------------------------
  // calculate_streak
  // ---------------------------------------------------------------------------

  predicate StrictlyIncreasing(s: seq<int>) {
    forall i, j :: 0 <= i < j < |s| ==> s[i] < s[j]
  }

  /** `d` added to an increasing sequence of distinct days. */
  function Insert(d: int, sorted: seq<int>): (r: seq<int>)
    requires StrictlyIncreasing(sorted)
    ensures StrictlyIncreasing(r)
    ensures forall x :: x in r <==> x in sorted || x == d
    ensures |r| <= |sorted| + 1
  {
    if sorted == [] then [d]
    else if d < sorted[0] then [d] + sorted
    else if d == sorted[0] then sorted
    else
      var rest := Insert(d, sorted[1..]);
      assert forall x :: x in rest ==> sorted[0] < x by {
        forall x | x in rest ensures sorted[0] < x {
          if x != d {
            var i :| 0 <= i < |sorted[1..]| && sorted[1..][i] == x;
            assert sorted[i + 1] == x;
          }
        }
      }
      ConsIncreasing(sorted[0], rest);
      assert sorted == [sorted[0]] + sorted[1..];
      [sorted[0]] + rest
  }

  lemma ConsIncreasing(x: int, s: seq<int>)
    requires StrictlyIncreasing(s) && forall y :: y in s ==> x < y
    ensures StrictlyIncreasing([x] + s)
  {
    forall i, j | 0 <= i < j < |s| + 1
      ensures ([x] + s)[i] < ([x] + s)[j]
    {
      assert s[j - 1] in s;
      if i > 0 {
        assert ([x] + s)[i] == s[i - 1];
      }
    }
  }

  /** `sorted({...})`: the distinct days in increasing order. */
  function SortedDays(days: seq<int>): (r: seq<int>)
    ensures StrictlyIncreasing(r)
    ensures forall x :: x in r <==> x in days
    ensures |r| <= |days|
  {
    if days == [] then []
    else Insert(days[|days| - 1], SortedDays(days[..|days| - 1]))
  }

  /** An increasing sequence of distinct days is determined by its days. */
  lemma {:induction false} IncreasingUnique(a: seq<int>, b: seq<int>)
    requires StrictlyIncreasing(a) && StrictlyIncreasing(b)
    requires forall x :: x in a <==> x in b
    ensures a == b
  {
    assert a != [] ==> a[0] in a && a[0] in b;
    assert b != [] ==> b[0] in b && b[0] in a;
    if a != [] && b != [] {
      assert a[0] == b[0];
      forall x ensures x in a[1..] <==> x in b[1..] {
        assert x in a[1..] <==> x in a && x != a[0];
        assert x in b[1..] <==> x in b && x != b[0];
      }
      IncreasingUnique(a[1..], b[1..]);
      assert a == [a[0]] + a[1..] && b == [b[0]] + b[1..];
    }
  }

  /** Days `a` to `b - 1` of `d` follow one another on the calendar. */
  predicate Consecutive(d: seq<int>, a: nat, b: nat)
    requires a < b <= |d|
  {
    forall k :: a < k < b ==> d[k] == d[k - 1] + 1
  }

  /** Length of the run of consecutive days that ends at index `i`. */
  function RunEndingAt(d: seq<int>, i: nat): (n: nat)
    requires i < |d|
    ensures 1 <= n <= i + 1
  {
    if i == 0 || d[i] != d[i - 1] + 1 then 1 else RunEndingAt(d, i - 1) + 1
  }

  /** The longest run among those ending before index `n`. */
  function LongestRun(d: seq<int>, n: nat): (m: nat)
    requires 1 <= n <= |d|
    ensures 1 <= m <= n
  {
    if n == 1 then 1 else Max(LongestRun(d, n - 1), RunEndingAt(d, n - 1))
  }

  /** What `calculate_streak` returns: 0 for no dates, otherwise the longest
      run of consecutive days among the distinct dates. */
  function Streak(days: seq<int>): nat {
    if days == [] then 0
    else
      var d := SortedDays(days);
      assert days[0] in d;
      LongestRun(d, |d|)
  }

  /** `calculate_streak`. */
  method CalculateStreak(days: seq<int>) returns (longest: nat)
    ensures longest == Streak(days)
  {
    if days == [] {
      return 0;
    }
    var dates := SortedDays(days);
    assert days[0] in dates;
    var streak := 1;
    longest := 1;
    var i := 1;
    // the pairs (dates[i - 1], dates[i]) of `zip(dates, dates[1:])`
    while i < |dates|
      invariant 1 <= i <= |dates|
      invariant longest >= 1
      invariant streak == RunEndingAt(dates, i - 1)
      invariant Max(longest, streak) == LongestRun(dates, i)
    {
      if dates[i] - dates[i - 1] == 1 {
        streak := streak + 1;
      } else {
        longest := Max(longest, streak);
        streak := 1;
      }
      i := i + 1;
    }
    longest := Max(longest, streak);
  }

  /** The streak is 0 without dates, and otherwise between 1 and the number
      of distinct dates. */
  lemma StreakBounds(days: seq<int>)
    ensures days == [] ==> Streak(days) == 0
    ensures days != [] ==> 1 <= Streak(days) <= |SortedDays(days)|
  {
  }

  /** The order of the dates and repeated dates do not change the streak. */
  lemma SameDaysSameStreak(days1: seq<int>, days2: seq<int>)
    requires forall x :: x in days1 <==> x in days2
    ensures Streak(days1) == Streak(days2)
  {
    IncreasingUnique(SortedDays(days1), SortedDays(days2));
    if days1 != [] {
      assert days1[0] in days2;
    }
    if days2 != [] {
      assert days2[0] in days1;
    }
  }

  /** Every day from `x` to `x + len - 1` has a date. */
  predicate DaysRun(days: seq<int>, x: int, len: nat) {
    forall y :: x <= y < x + len ==> y in days
  }

  lemma {:induction false} ConsecutiveValues(d: seq<int>, a: nat, b: nat, k: nat)
    requires a < b <= |d| && Consecutive(d, a, b) && a <= k < b
    ensures d[k] == d[a] + (k - a)
  {
    if k > a {
      ConsecutiveValues(d, a, b, k - 1);
    }
  }

  lemma {:induction false} RunEndingAtIsRun(d: seq<int>, i: nat)
    requires i < |d|
    ensures Consecutive(d, i + 1 - RunEndingAt(d, i), i + 1)
  {
    if i > 0 && d[i] == d[i - 1] + 1 {
      RunEndingAtIsRun(d, i - 1);
    }
  }

  /** A run ending at index `b - 1` is no longer than the run found there. */
  lemma {:induction false} RunWithin(d: seq<int>, a: nat, b: nat)
    requires a < b <= |d| && Consecutive(d, a, b)
    ensures b - a <= RunEndingAt(d, b - 1)
  {
    if a < b - 1 {
      assert Consecutive(d, a, b - 1);
      RunWithin(d, a, b - 1);
    }
  }

  /** The longest run is a run, and every run ending before `n` is at most
      as long. */
  lemma {:induction false} LongestRunIsLongest(d: seq<int>, n: nat)
    requires 1 <= n <= |d|
    ensures exists a: nat, b: nat :: a < b <= n && b - a == LongestRun(d, n) && Consecutive(d, a, b)
    ensures forall a: nat, b: nat :: a < b <= n && Consecutive(d, a, b) ==> b - a <= LongestRun(d, n)
  {
    RunEndingAtIsRun(d, n - 1);
    if n == 1 {
      assert Consecutive(d, 0, 1);
    } else {
      assert Consecutive(d, n - RunEndingAt(d, n - 1), n);
      LongestRunIsLongest(d, n - 1);
      forall a: nat, b: nat | a < b <= n && Consecutive(d, a, b)
        ensures b - a <= LongestRun(d, n)
      {
        if b == n {
          RunWithin(d, a, b);
        }
      }
    }
  }

  /** In increasing distinct days, the days from `x` on that all have a date
      sit at consecutive indices from where `x` is. */
  lemma {:induction false} RunIndices(d: seq<int>, p: nat, x: int, len: nat, j: nat)
    requires StrictlyIncreasing(d) && p < |d| && d[p] == x
    requires DaysRun(d, x, len) && j < len
    ensures p + j < |d| && d[p + j] == x + j
  {
    if j > 0 {
      RunIndices(d, p, x, len, j - 1);
      assert x + j in d;
      var q :| 0 <= q < |d| && d[q] == x + j;
      assert q > p + j - 1;
    }
  }

  /** Some `Streak(days)` calendar days in a row all have a date. */
  lemma StreakAchieved(days: seq<int>)
    requires days != []
    ensures exists x :: DaysRun(days, x, Streak(days))
  {
    var d := SortedDays(days);
    assert days[0] in d;
    var m := LongestRun(d, |d|);
    LongestRunIsLongest(d, |d|);
    var a: nat, b: nat :| a < b <= |d| && b - a == m && Consecutive(d, a, b);
    forall y | d[a] <= y < d[a] + m
      ensures y in days
    {
      ConsecutiveValues(d, a, b, a + (y - d[a]));
      assert d[a + (y - d[a])] in d;
    }
    assert DaysRun(days, d[a], Streak(days));
  }

  /** No longer stretch of calendar days all have a date. */
  lemma StreakMaximal(days: seq<int>, x: int, len: nat)
    requires DaysRun(days, x, len)
    ensures len <= Streak(days)
  {
    if len > 0 {
      var d := SortedDays(days);
      assert x in days;
      var p :| 0 <= p < |d| && d[p] == x;
      assert DaysRun(d, x, len);
      RunIndices(d, p, x, len, len - 1);
      forall k | p < k < p + len
        ensures d[k] == d[k - 1] + 1
      {
        RunIndices(d, p, x, len, k - p);
        RunIndices(d, p, x, len, k - p - 1);
      }
      assert Consecutive(d, p, p + len);
      LongestRunIsLongest(d, |d|);
    }
  }

  // ---------------------------------------------------------------------------
  // get_badges
  // ---------------------------------------------------------------------------

  /** The one badge for the points total, if any. */
  function PointsBadge(totalPoints: int): (b: Option<string>)
    ensures b == Some("Master Reader") <==> totalPoints >= 500
    ensures b == Some("Focused Scholar") <==> 200 <= totalPoints < 500
    ensures b == Some("Learning Champ") <==> 100 <= totalPoints < 200
    ensures b == None <==> totalPoints < 100
  {
    if totalPoints >= 500 then Some("Master Reader")
    else if totalPoints >= 200 then Some("Focused Scholar")
    else if totalPoints >= 100 then Some("Learning Champ")
    else None
  }

  /** The one badge for the streak, if any. */
  function StreakBadge(streakDays: int): (b: Option<string>)
    ensures b == Some("14-day streak") <==> streakDays >= 14
    ensures b == Some("7-day streak") <==> 7 <= streakDays < 14
    ensures b == None <==> streakDays < 7
  {
    if streakDays >= 14 then Some("14-day streak")
    else if streakDays >= 7 then Some("7-day streak")
    else None
  }

  function Listed(b: Option<string>): seq<string> {
    match b case Some(name) => [name] case None => []
  }

  /** What `get_badges` returns: the points badge, then the streak badge,
      joined by ", ". */
  function BadgeText(totalPoints: int, streakDays: int): string {
    Join(", ", Listed(PointsBadge(totalPoints)) + Listed(StreakBadge(streakDays)))
  }

  /** `get_badges`. */
  method GetBadges(totalPoints: int, streakDays: int) returns (badge: string)
    ensures badge == BadgeText(totalPoints, streakDays)
  {
    var badges: seq<string> := [];
    if totalPoints >= 500 {
      badges := badges + ["Master Reader"];
    } else if totalPoints >= 200 {
      badges := badges + ["Focused Scholar"];
    } else if totalPoints >= 100 {
      badges := badges + ["Learning Champ"];
    }
    if streakDays >= 14 {
      badges := badges + ["14-day streak"];
    } else if streakDays >= 7 {
      badges := badges + ["7-day streak"];
    }
    badge := if badges != [] then Join(", ", badges) else "";
  }

  /** The text is empty exactly when neither threshold is reached; with two
      badges it is the points badge, ", " and the streak badge. */
  lemma BadgeTextCases(totalPoints: int, streakDays: int)
    ensures var text := BadgeText(totalPoints, streakDays);
      var p := PointsBadge(totalPoints); var s := StreakBadge(streakDays);
      && (text == [] <==> totalPoints < 100 && streakDays < 7)
      && (p.Some? && s.Some? ==> text == p.value + ", " + s.value)
      && (p.Some? && s.None? ==> text == p.value)
      && (p.None? && s.Some? ==> text == s.value)
  {
    var p := PointsBadge(totalPoints);
    var s := StreakBadge(streakDays);
    if p.Some? && s.Some? {
      assert Listed(p) + Listed(s) == [p.value, s.value];
      assert [p.value, s.value][1..] == [s.value];
      assert Join(", ", [s.value]) == s.value;
      assert Join(", ", [p.value, s.value]) == p.value + ", " + Join(", ", [s.value]);
    } else if p.Some? {
      assert Listed(p) + Listed(s) == [p.value];
    } else if s.Some? {
      assert Listed(p) + Listed(s) == [s.value];
    } else {
      assert Listed(p) + Listed(s) == [];
    }
  }
}
