/** The dashboard's derived views: the client-side streak of one habit, the
    active / longest / top-three aggregates over all habits, and the
    seven-day completion series. */
module Dashboard {
  import opened Wrappers
  import opened ClientRecords
  import opened Sorting
  import opened Sequences
  import HabitsSlice

  /** Length of the leading run of `s` in which every element is exactly one
      day before the element in front of it. */
  function RunLength(s: seq<int>): (n: nat)
    requires |s| > 0
    ensures 1 <= n <= |s|
    ensures forall j :: 0 < j < n ==> s[j - 1] - s[j] == 1
    ensures n < |s| ==> s[n - 1] - s[n] != 1
    decreases |s|
  {
    if |s| == 1 || s[0] - s[1] != 1 then 1 else 1 + RunLength(s[1..])
  }

  /** The dates of a copy of the completions sorted most recent first. */
  function SortedDates(cs: seq<Completion>): (r: seq<int>)
    ensures |r| == |cs|
  {
    Keys(SortByKeyDesc(cs, DateOf), DateOf)
  }

  /** The run length is the one `n` whose prefix steps are all one day and
      whose next step, if any, is not. */
  lemma RunLengthIs(s: seq<int>, n: nat)
    requires 1 <= n <= |s|
    requires forall j :: 0 < j < n ==> s[j - 1] - s[j] == 1
    requires n < |s| ==> s[n - 1] - s[n] != 1
    ensures RunLength(s) == n
  {
  }

  /** A non-increasing arrangement of the completions' dates is their sorted
      copy's dates. */
  lemma SortedDatesAre(cs: seq<Completion>, s: seq<int>)
    requires NonIncreasing(s, Identity)
    requires multiset(s) == multiset(Keys(cs, DateOf))
    ensures SortedDates(cs) == s
  {
    var sorted := SortByKeyDesc(cs, DateOf);
    SortKeepsKeys(cs, DateOf);
    KeysOfSorted(sorted, DateOf);
    SortedIsUnique(Keys(sorted, DateOf), s);
  }

  /** The streak the client shows: 0 without completions, otherwise the
      length of the one-day-step run at the head of the sorted dates. */
  function FrontendStreak(completions: Option<seq<Completion>>): (n: nat)
    ensures completions.None? || completions.value == [] ==> n == 0
    ensures completions.Some? && completions.value != [] ==> 1 <= n <= |completions.value|
  {
    match completions
    case None => 0
    case Some(cs) => if cs == [] then 0 else RunLength(SortedDates(cs))
  }

  /** `calculateStreak`: sorts a copy most recent first, then walks it. */
  method CalculateStreak(habit: Habit) returns (streak: nat)
    ensures streak == FrontendStreak(habit.completions)
  {
    if habit.completions.None? || |habit.completions.value| == 0 {
      return 0;
    }
    var sortedCompletions := SortByKeyDesc(habit.completions.value, DateOf);
    streak := WalkStreak(sortedCompletions);
  }

  /** The loop of `calculateStreak`: counts from the first completion while
      each date is one day before the previous one. */
  method WalkStreak(sortedCompletions: seq<Completion>) returns (streak: nat)
    requires |sortedCompletions| > 0
    ensures streak == RunLength(Keys(sortedCompletions, DateOf))
  {
    ghost var dates := Keys(sortedCompletions, DateOf);
    streak := 1;
    var currentDate := sortedCompletions[0].date;
    var i := 1;
    while i < |sortedCompletions|
      invariant 1 <= i <= |sortedCompletions|
      invariant streak == i && currentDate == dates[i - 1]
      invariant forall j :: 0 < j < i ==> dates[j - 1] - dates[j] == 1
    {
      var prevDate := sortedCompletions[i].date;
      assert prevDate == dates[i];
      var diffDays := currentDate - prevDate;
      if diffDays == 1 {
        assert forall j :: 0 < j < i + 1 ==> dates[j - 1] - dates[j] == 1;
        streak := streak + 1;
        currentDate := prevDate;
      } else {
        break;
      }
      i := i + 1;
    }
    RunLengthIs(dates, streak);
  }

  /** The streak depends only on which completions there are, not on their
      order in the habit's list. */
  lemma StreakIgnoresOrder(a: seq<Completion>, b: seq<Completion>)
    requires multiset(Keys(a, DateOf)) == multiset(Keys(b, DateOf))
    ensures FrontendStreak(Some(a)) == FrontendStreak(Some(b))
  {
    assert |a| == |multiset(Keys(a, DateOf))| == |multiset(Keys(b, DateOf))| == |b|;
    SortedKeysDependOnlyOnKeys(a, b, DateOf);
  }

  /** The streak of a non-empty list is the run length of any non-increasing
      arrangement of its dates. */
  lemma StreakOfSortedDates(cs: seq<Completion>, s: seq<int>)
    requires cs != [] && s != []
    requires NonIncreasing(s, Identity)
    requires multiset(s) == multiset(Keys(cs, DateOf))
    ensures FrontendStreak(Some(cs)) == RunLength(s)
  {
    SortedDatesAre(cs, s);
  }

  /** `n` consecutive days ending at `latest`, latest first. */
  function Countdown(latest: Day, n: nat): (r: seq<int>)
    ensures |r| == n
    ensures forall i :: 0 <= i < n ==> r[i] == latest - i
  {
    seq(n, i => latest - i)
  }

  /** Consecutive days are sorted and form a single run. */
  lemma CountdownIsOneRun(latest: Day, n: nat)
    requires n > 0
    ensures NonIncreasing(Countdown(latest, n), Identity)
    ensures RunLength(Countdown(latest, n)) == n
  {
    RunLengthIs(Countdown(latest, n), n);
  }

  /** A day listed twice, then the day before: the run stops at 1. */
  lemma RepeatedDay(day: Day)
    ensures var s := [day + 1, day + 1, day];
      multiset(s) == multiset{day, day + 1, day + 1} && NonIncreasing(s, Identity) && RunLength(s) == 1
  {
    RunLengthIs([day + 1, day + 1, day], 1);
  }

  /** Completions on `n` consecutive days, one per day and listed in any
      order, give a streak of `n`. */
  lemma ConsecutiveDaysStreak(cs: seq<Completion>, latest: Day, n: nat)
    requires n > 0
    requires multiset(Keys(cs, DateOf)) == multiset(Countdown(latest, n))
    ensures FrontendStreak(Some(cs)) == n
  {
    CountdownIsOneRun(latest, n);
    assert |cs| == |Keys(cs, DateOf)| == |multiset(Countdown(latest, n))|;
    StreakOfSortedDates(cs, Countdown(latest, n));
  }

  /** A second completion on the later of two consecutive days brings the
      streak down to 1: the sorted copy is not de-duplicated and a zero-day
      step ends the run. */
  lemma SameDayDuplicateEndsRun(cs: seq<Completion>, day: Day)
    requires multiset(Keys(cs, DateOf)) == multiset{day, day + 1, day + 1}
    ensures FrontendStreak(Some(cs)) == 1
  {
    RepeatedDay(day);
    assert |cs| == |Keys(cs, DateOf)|;
    StreakOfSortedDates(cs, [day + 1, day + 1, day]);
  }

  /** The sort key of the top-habits list. */
  function HabitStreak(h: Habit): int {
    FrontendStreak(h.completions)
  }

  /** A habit's streak is above 0 exactly when it has a completion. */
  lemma StreakPositiveIffCompleted(h: Habit)
    ensures HabitStreak(h) > 0 <==> CompletionList(h) != []
  {
  }

  /** `s.filter(x => f(x) > 0).length`, counted one element at a time. */
  function CountPositive<T(!new)>(s: seq<T>, f: T -> int): (n: nat)
    ensures n == |Where(s, (x: T) => f(x) > 0)|
    ensures n <= |s|
  {
    if s == [] then 0
    else (if f(s[0]) > 0 then 1 else 0) + CountPositive(s[1..], f)
  }

  /** The count is 0 exactly when no element is positive, and the length
      exactly when all are. */
  lemma {:induction false} CountPositiveExtremes<T(!new)>(s: seq<T>, f: T -> int)
    ensures CountPositive(s, f) == 0 <==> forall i :: 0 <= i < |s| ==> f(s[i]) <= 0
    ensures CountPositive(s, f) == |s| <==> forall i :: 0 <= i < |s| ==> f(s[i]) > 0
    decreases |s|
  {
    if s != [] {
      CountPositiveExtremes(s[1..], f);
      assert forall i :: 1 <= i < |s| ==> s[1..][i - 1] == s[i];
    }
  }

  /** The count of positives is the length of any filter that keeps the
      same elements. */
  lemma CountPositiveAs<T(!new)>(s: seq<T>, f: T -> int, keep: T -> bool)
    requires forall i :: 0 <= i < |s| ==> (f(s[i]) > 0 <==> keep(s[i]))
    ensures CountPositive(s, f) == |Where(s, keep)|
  {
    WhereAgrees(s, (x: T) => f(x) > 0, keep);
  }

  /** "Active Streaks": the number of habits whose streak is above 0, which
      is the number of habits with at least one completion. */
  function ActiveStreaks(hs: seq<Habit>): (n: nat)
    ensures n == |Where(hs, (h: Habit) => CompletionList(h) != [])|
    ensures n <= |hs|
  {
    forall i | 0 <= i < |hs|
      ensures HabitStreak(hs[i]) > 0 <==> CompletionList(hs[i]) != []
    {
      StreakPositiveIffCompleted(hs[i]);
    }
    CountPositiveAs(hs, HabitStreak, (h: Habit) => CompletionList(h) != []);
    CountPositive(hs, HabitStreak)
  }

  /** No habit is active exactly when none has a completion, and every habit
      is exactly when each has one. */
  lemma ActiveStreaksCountsCompletedHabits(hs: seq<Habit>)
    ensures ActiveStreaks(hs) == 0 <==> forall i :: 0 <= i < |hs| ==> CompletionList(hs[i]) == []
    ensures ActiveStreaks(hs) == |hs| <==> forall i :: 0 <= i < |hs| ==> CompletionList(hs[i]) != []
  {
    CountPositiveExtremes(hs, HabitStreak);
    forall i | 0 <= i < |hs|
      ensures HabitStreak(hs[i]) > 0 <==> CompletionList(hs[i]) != []
    {
      StreakPositiveIffCompleted(hs[i]);
    }
  }

  /** "Longest Streak": `Math.max(...streaks, 0)`. */
  function LongestStreak(hs: seq<Habit>): (n: nat)
    ensures forall h :: h in hs ==> HabitStreak(h) <= n
    ensures n == 0 || exists h :: h in hs && HabitStreak(h) == n
    ensures hs == [] ==> n == 0
  {
    if hs == [] then 0
    else
      var rest := LongestStreak(hs[1..]);
      if HabitStreak(hs[0]) > rest then HabitStreak(hs[0]) else rest
  }

  /** "Top Habits by Streak": a copy sorted by streak, largest first, cut to
      three. No habit left out has a longer streak than one shown. */
  function TopHabits(hs: seq<Habit>): (r: seq<Habit>)
    ensures |r| == if |hs| < 3 then |hs| else 3
    ensures NonIncreasing(r, HabitStreak)
    ensures multiset(r) <= multiset(hs)
    ensures KeptAreLargest(hs, r, HabitStreak)
  {
    var sorted := SortByKeyDesc(hs, HabitStreak);
    var m := if |sorted| < 3 then |sorted| else 3;
    PrefixOfSorted(hs, sorted, m, HabitStreak);
    sorted[..m]
  }

  /** One bar of the weekly chart: a weekday label and a count. */
  datatype DayCount = DayCount(date: string, completions: nat)

  /** The seven days ending today, oldest first. */
  function Last7Days(today: Day): (r: seq<Day>)
    ensures |r| == 7 && r[6] == today
    ensures forall k :: 0 <= k < 7 ==> r[k] == today - 6 + k
  {
    var newestFirst := seq(7, i => today - i);
    seq(7, k requires 0 <= k < 7 => newestFirst[6 - k])
  }

  /** How many habits have at least one completion on `day`: a habit with
      several completions that day counts once. */
  function CountOn(hs: seq<Habit>, day: Day): (n: nat)
    ensures n == |Where(hs, (h: Habit) => HasCompletionOn(h.completions, day))|
    ensures n <= |hs|
  {
    if hs == [] then 0
    else (if HasCompletionOn(hs[0].completions, day) then 1 else 0) + CountOn(hs[1..], day)
  }

  /** No habit, or every habit, has a completion on `day` exactly when the
      count is zero, or the number of habits. */
  lemma {:induction false} CountOnExtremes(hs: seq<Habit>, day: Day)
    ensures CountOn(hs, day) == 0 <==> forall h :: h in hs ==> !HasCompletionOn(h.completions, day)
    ensures CountOn(hs, day) == |hs| <==> forall h :: h in hs ==> HasCompletionOn(h.completions, day)
    decreases |hs|
  {
    if hs != [] {
      CountOnExtremes(hs[1..], day);
      assert forall h :: h in hs <==> h == hs[0] || h in hs[1..];
    }
  }

  /** `getCompletionData`; the weekday name of a day is left to the caller. */
  function CompletionData(hs: seq<Habit>, today: Day, weekdayName: Day -> string): (r: seq<DayCount>)
    ensures |r| == 7
    ensures forall k :: 0 <= k < 7 ==> r[k].date == weekdayName(today - 6 + k)
    ensures forall k :: 0 <= k < 7 ==> r[k].completions == CountOn(hs, today - 6 + k)
    ensures forall k :: 0 <= k < 7 ==> r[k].completions <= |hs|
  {
    Bars(hs, Last7Days(today), weekdayName)
  }

  /** `days.map(...)`: one bar per day. */
  function Bars(hs: seq<Habit>, days: seq<Day>, weekdayName: Day -> string): (r: seq<DayCount>)
    ensures |r| == |days|
    ensures forall k :: 0 <= k < |days| ==> r[k] == Bar(hs, days[k], weekdayName)
  {
    seq(|days|, k requires 0 <= k < |days| => Bar(hs, days[k], weekdayName))
  }

  /** The bar of one day. */
  function Bar(hs: seq<Habit>, day: Day, weekdayName: Day -> string): (b: DayCount)
    ensures b.date == weekdayName(day) && b.completions == CountOn(hs, day)
  {
    DayCount(weekdayName(day), CountOn(hs, day))
  }

  /** The count of a day depends only on which habits have a completion that
      day. */
  lemma {:induction false} CountOnDependsOnlyOnCompletedHabits(a: seq<Habit>, b: seq<Habit>, day: Day)
    requires |a| == |b|
    requires forall i :: 0 <= i < |a| ==>
      HasCompletionOn(a[i].completions, day) == HasCompletionOn(b[i].completions, day)
    ensures CountOn(a, day) == CountOn(b, day)
    decreases |a|
  {
    if a != [] {
      CountOnDependsOnlyOnCompletedHabits(a[1..], b[1..], day);
    }
  }

  /** Completing a habit again on a day it is already completed on leaves
      every bar of the weekly chart as it was. */
  lemma RepeatCompletionKeepsCounts(hs: seq<Habit>, c: Completion, day: Day)
    requires HabitsSlice.FindIndex(hs, c.habitId).Some?
    requires HasCompletionOn(hs[HabitsSlice.FindIndex(hs, c.habitId).value].completions, c.date)
    ensures CountOn(HabitsSlice.AddCompletion(hs, c), day) == CountOn(hs, day)
  {
    var after := HabitsSlice.AddCompletion(hs, c);
    var i := HabitsSlice.FindIndex(hs, c.habitId).value;
    var old_ := CompletionList(hs[i]);
    assert after[i].completions == Some(old_ + [c]);
    assert HasCompletionOn(after[i].completions, day) == HasCompletionOn(hs[i].completions, day) by {
      if HasCompletionOn(after[i].completions, day) {
        var x :| x in old_ + [c] && x.date == day;
        if x == c {
          assert HasCompletionOn(hs[i].completions, c.date);
        } else {
          assert x in old_;
        }
      }
    }
    CountOnDependsOnlyOnCompletedHabits(after, hs, day);
  }
}
