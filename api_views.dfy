/** The habit API's views over a database of the three tables: the per-user,
    per-tag habit query, marking a habit completed today, the server's
    streak, the progress report, and logout. The request's user, its query
    parameters and today's date are parameters. */
module ApiViews {
  import opened Wrappers
  import opened Json
  import opened Sorting
  import opened ApiModels
  import opened Sequences
  import Dashboard

  const NotFoundBody: Json := JObj(map["detail" := JStr("Not found.")])
  const CompletedBody: Json := JObj(map["status" := JStr("completed")])

  /** The habit has a tag named `name`. */
  predicate HasTagNamed(tags: seq<Tag>, h: Habit, name: string) {
    exists k :: 0 <= k < |tags| && tags[k].id in h.tags && tags[k].name == name
  }

  /** The user's own habits, in table order. */
  function UserHabits(habits: seq<Habit>, user: int): (r: seq<Habit>)
    ensures forall h :: h in r <==> h in habits && h.user == user
  {
    Where(habits, (h: Habit) => h.user == user)
  }

  /** `get_queryset`: the requesting user's habits, further restricted to
      those with a tag of the given name when the `tag` parameter is present
      and not empty. */
  function HabitQueryset(habits: seq<Habit>, tags: seq<Tag>, user: int, tagParam: Option<string>): (r: seq<Habit>)
    ensures forall h :: h in r ==> h in habits && h.user == user
    ensures tagParam.None? || tagParam.value == "" ==> forall h :: h in r <==> h in habits && h.user == user
    ensures tagParam.Some? && tagParam.value != "" ==>
      forall h :: h in r <==> h in habits && h.user == user && HasTagNamed(tags, h, tagParam.value)
  {
    var mine := UserHabits(habits, user);
    if tagParam.Some? && tagParam.value != "" then Where(mine, (h: Habit) => HasTagNamed(tags, h, tagParam.value))
    else mine
  }

  /** `get_object`: the habit with primary key `pk` within the query set,
      or none (the view then answers 404). */
  function FindHabit(qs: seq<Habit>, pk: int): (r: Option<Habit>)
    ensures r.Some? ==> r.value in qs && r.value.id == pk
    ensures r.None? <==> forall h :: h in qs ==> h.id != pk
  {
    if qs == [] then None
    else if qs[0].id == pk then Some(qs[0])
    else FindHabit(qs[1..], pk)
  }

  predicate IsRowOf(c: HabitCompletion, habit: int, date: int) {
    c.habit == habit && c.date == date
  }

  /** The first row for `(habit, date)`: the lookup half of `get_or_create`. */
  function FindCompletion(rows: seq<HabitCompletion>, habit: int, date: int): (r: Option<nat>)
    ensures r.Some? ==> r.value < |rows| && IsRowOf(rows[r.value], habit, date)
    ensures r.Some? ==> forall i :: 0 <= i < r.value ==> !IsRowOf(rows[i], habit, date)
    ensures r.None? <==> forall i :: 0 <= i < |rows| ==> !IsRowOf(rows[i], habit, date)
  {
    if rows == [] then None
    else if IsRowOf(rows[0], habit, date) then Some(0)
    else match FindCompletion(rows[1..], habit, date)
      case None => None
      case Some(i) => Some(i + 1)
  }

  /** The completions table after `complete`: the row for `(habit, date)` is
      found or created with id `freshId`, then marked completed. */
  function CompleteRows(rows: seq<HabitCompletion>, habit: int, date: int, freshId: int): (r: seq<HabitCompletion>)
    ensures |rows| <= |r| <= |rows| + 1
    ensures |r| == |rows| + 1 <==> forall i :: 0 <= i < |rows| ==> !IsRowOf(rows[i], habit, date)
    ensures |r| == |rows| + 1 ==> r[|rows|] == NewCompletion(freshId, habit, date)
    ensures forall i :: 0 <= i < |rows| ==> r[i] == rows[i] || (IsRowOf(rows[i], habit, date) && r[i] == rows[i].(completed := true))
    ensures exists i :: 0 <= i < |r| && IsRowOf(r[i], habit, date) && r[i].completed
  {
    match FindCompletion(rows, habit, date)
    case Some(i) =>
      var r := rows[i := rows[i].(completed := true)];
      assert IsRowOf(r[i], habit, date);
      r
    case None =>
      var r := rows + [NewCompletion(freshId, habit, date)];
      assert IsRowOf(r[|rows|], habit, date);
      r
  }

  /** Under the one-row-per-day constraint, `complete` keeps that constraint,
      so afterwards exactly one row exists for `(habit, date)`, and it is
      completed. */
  lemma CompleteLeavesOneCompletedRow(rows: seq<HabitCompletion>, habit: int, date: int, freshId: int)
    requires OnePerDay(rows)
    ensures OnePerDay(CompleteRows(rows, habit, date, freshId))
    ensures var r := CompleteRows(rows, habit, date, freshId);
      forall i :: 0 <= i < |r| && IsRowOf(r[i], habit, date) ==> r[i].completed
  {
    var r := CompleteRows(rows, habit, date, freshId);
    forall i, j | 0 <= i < j < |r|
      ensures r[i].habit != r[j].habit || r[i].date != r[j].date
    {
      if j == |rows| {
        assert !IsRowOf(rows[i], habit, date);
      } else {
        assert rows[i].habit != rows[j].habit || rows[i].date != rows[j].date;
      }
    }
  }

  /** Completing twice on one day leaves the table as completing once. */
  lemma CompleteIsIdempotent(rows: seq<HabitCompletion>, habit: int, date: int, id1: int, id2: int)
    ensures CompleteRows(CompleteRows(rows, habit, date, id1), habit, date, id2) == CompleteRows(rows, habit, date, id1)
  {
    var r := CompleteRows(rows, habit, date, id1);
    match FindCompletion(rows, habit, date)
    case Some(i) =>
      assert FindCompletion(r, habit, date) == Some(i);
    case None =>
      assert FindCompletion(r, habit, date) == Some(|rows|);
  }

  /** Every row's id is below `bound`, the next id the table hands out. */
  ghost predicate IdsBelow(rows: seq<HabitCompletion>, bound: int) {
    forall i :: 0 <= i < |rows| ==> rows[i].id < bound
  }

  /** `complete` on an existing habit keeps every table constraint, and the
      row it may create takes the next unused id. */
  lemma CompleteKeepsDbValid(tags: seq<Tag>, habits: seq<Habit>, rows: seq<HabitCompletion>, freshId: int, habit: Habit, date: int)
    requires ValidDb(tags, habits, rows) && habit in habits
    requires IdsBelow(rows, freshId)
    ensures var r := CompleteRows(rows, habit.id, date, freshId);
      ValidDb(tags, habits, r) && IdsBelow(r, freshId + |r| - |rows|)
  {
    var r := CompleteRows(rows, habit.id, date, freshId);
    CompleteLeavesOneCompletedRow(rows, habit.id, date, freshId);
    var k :| 0 <= k < |habits| && habits[k] == habit;
    forall n | 0 <= n < |r|
      ensures HabitExists(habits, r[n].habit)
    {
      if n < |rows| {
        assert HabitExists(habits, rows[n].habit);
      }
    }
    forall i, j | 0 <= i < j < |r|
      ensures r[i].id != r[j].id
    {
      if j < |rows| {
        assert rows[i].id != rows[j].id;
      }
    }
  }

  function CompletionDate(c: HabitCompletion): int { c.date }

  /** `habit.completions.filter(completed=True)`. */
  function CompletedOf(rows: seq<HabitCompletion>, habit: int): (r: seq<HabitCompletion>)
    ensures forall c :: c in r <==> c in rows && c.habit == habit && c.completed
  {
    Where(rows, (c: HabitCompletion) => c.habit == habit && c.completed)
  }

  /** When every row of the habit is completed, the completed rows are all
      its rows. */
  lemma {:induction false} CompletedOfAllRows(rows: seq<HabitCompletion>, habit: int)
    requires forall c :: c in RowsOf(rows, habit) ==> c.completed
    ensures CompletedOf(rows, habit) == RowsOf(rows, habit)
    decreases |rows|
  {
    if rows != [] {
      assert forall c :: c in RowsOf(rows[1..], habit) ==> c in RowsOf(rows, habit);
      CompletedOfAllRows(rows[1..], habit);
    }
  }

  /** The dates of the habit's completed rows, `order_by("-date")`. */
  function ServerDates(rows: seq<HabitCompletion>, habit: int): (r: seq<int>)
    ensures |r| == |CompletedOf(rows, habit)|
    ensures NonIncreasing(r, Identity)
    ensures multiset(r) == multiset(Keys(CompletedOf(rows, habit), CompletionDate))
  {
    var sorted := SortByKeyDesc(CompletedOf(rows, habit), CompletionDate);
    KeysOfSorted(sorted, CompletionDate);
    SortKeepsKeys(CompletedOf(rows, habit), CompletionDate);
    Keys(sorted, CompletionDate)
  }

  /** The length of the leading run of `s` that reads today, today - 1,
      today - 2, ... */
  function AnchoredRun(s: seq<int>, today: int): (n: nat)
    ensures n <= |s|
    ensures forall j :: 0 <= j < n ==> s[j] == today - j
    ensures n < |s| ==> s[n] != today - n
    decreases |s|
  {
    if s == [] || s[0] != today then 0 else 1 + AnchoredRun(s[1..], today - 1)
  }

  /** The run length is the one `n` whose prefix matches and whose next
      element, if any, does not. */
  lemma AnchoredRunIs(s: seq<int>, today: int, n: nat)
    requires n <= |s|
    requires forall j :: 0 <= j < n ==> s[j] == today - j
    requires n < |s| ==> s[n] != today - n
    ensures AnchoredRun(s, today) == n
  {
  }

  /** The streak the server reports for a habit. */
  function ServerStreak(rows: seq<HabitCompletion>, habit: int, today: int): (n: nat)
    ensures n <= |CompletedOf(rows, habit)|
    ensures n > 0 ==> ServerDates(rows, habit)[0] == today
  {
    AnchoredRun(ServerDates(rows, habit), today)
  }

  /** Completed rows on `n` consecutive days ending today, one per day, give
      a server streak of `n`. */
  lemma ServerCountsDaysEndingToday(rows: seq<HabitCompletion>, habit: int, today: int, n: nat)
    requires multiset(Keys(CompletedOf(rows, habit), CompletionDate)) == multiset(Dashboard.Countdown(today, n))
    ensures ServerStreak(rows, habit, today) == n
  {
    var sorted := SortByKeyDesc(CompletedOf(rows, habit), CompletionDate);
    SortKeepsKeys(CompletedOf(rows, habit), CompletionDate);
    if n > 0 {
      Dashboard.CountdownIsOneRun(today, n);
    }
    SortedIsUnique(ServerDates(rows, habit), Dashboard.Countdown(today, n));
    AnchoredRunIs(Dashboard.Countdown(today, n), today, n);
  }

  /** When the latest date is today, the server's anchored streak equals the
      client's unanchored one over the same dates. */
  lemma {:induction false} AnchoredRunFromLatest(s: seq<int>)
    requires |s| > 0
    ensures AnchoredRun(s, s[0]) == Dashboard.RunLength(s)
    decreases |s|
  {
    if |s| > 1 && s[0] - s[1] == 1 {
      AnchoredRunFromLatest(s[1..]);
    }
  }

  /** The number of rows of a habit (`habit.completions.count()`). */
  function TotalOf(rows: seq<HabitCompletion>, habit: int): (n: nat)
    ensures n == |RowsOf(rows, habit)|
    ensures n <= |rows|
  {
    if rows == [] then 0 else (if rows[0].habit == habit then 1 else 0) + TotalOf(rows[1..], habit)
  }

  /** The number of completed rows of a habit
      (`habit.completions.filter(completed=True).count()`), never more than
      all of them. */
  function DoneOf(rows: seq<HabitCompletion>, habit: int): (n: nat)
    ensures n == |CompletedOf(rows, habit)|
    ensures n <= TotalOf(rows, habit)
  {
    if rows == [] then 0 else (if rows[0].habit == habit && rows[0].completed then 1 else 0) + DoneOf(rows[1..], habit)
  }

  datatype ProgressEntry = ProgressEntry(habit: string, total: nat, completed: nat)

  /** `logout_view`: 205 once the `refresh` token is blacklisted, 400 when it
      is missing or the token layer (`accepts`) refuses it. */
  function LogoutView(data: map<string, Json>, accepts: Json -> bool): (status: int)
    ensures "refresh" !in data ==> status == 400
    ensures status == 205 <==> "refresh" in data && accepts(data["refresh"])
    ensures status == 205 || status == 400
  {
    if "refresh" in data && accepts(data["refresh"]) then 205 else 400
  }

  /** The loop of `streak`: counts completions, most recent first, while the
      i-th one falls on today - i. */
  method WalkFromToday(cs: seq<HabitCompletion>, today: int) returns (streak: nat)
    ensures streak == AnchoredRun(Keys(cs, CompletionDate), today)
  {
    ghost var dates := Keys(cs, CompletionDate);
    streak := 0;
    var i := 0;
    while i < |cs|
      invariant 0 <= i <= |cs|
      invariant streak == i
      invariant forall j :: 0 <= j < i ==> dates[j] == today - j
    {
      if cs[i].date == today - i {
        streak := streak + 1;
      } else {
        break;
      }
      i := i + 1;
    }
    AnchoredRunIs(dates, today, streak);
  }

  /** `get_or_create` on `(habit, date)` with a new row getting id
      `freshId` and `completed` set, then `completed = True` and `save()`:
      the rows afterwards and the next unused id. */
  method GetOrCreateCompleted(rows: seq<HabitCompletion>, habit: int, date: int, freshId: int)
    returns (r: seq<HabitCompletion>, next: int)
    ensures r == CompleteRows(rows, habit, date, freshId)
    ensures next == freshId + |r| - |rows|
  {
    r, next := rows, freshId;
    var existing := FindCompletion(r, habit, date);
    var i: nat;
    if existing.None? {
      r := r + [NewCompletion(next, habit, date)];
      next := next + 1;
      i := |r| - 1;
    } else {
      i := existing.value;
    }
    r := r[i := r[i].(completed := true)];
  }

  /** `complete` on the tables as values: 404 when the habit is not in the
      user's (tag-filtered) habits, otherwise the completions table after
      `get_or_create` and the save, which is still valid. */
  method CompleteOn(tags: seq<Tag>, habits: seq<Habit>, rows: seq<HabitCompletion>, freshId: int,
                    user: int, tagParam: Option<string>, pk: int, today: int)
    returns (status: int, body: Json, r: seq<HabitCompletion>, next: int)
    requires ValidDb(tags, habits, rows)
    requires IdsBelow(rows, freshId)
    ensures ValidDb(tags, habits, r) && IdsBelow(r, next)
    ensures next == freshId + |r| - |rows|
    ensures FindHabit(HabitQueryset(habits, tags, user, tagParam), pk).None? ==>
      status == 404 && body == NotFoundBody && r == rows
    ensures FindHabit(HabitQueryset(habits, tags, user, tagParam), pk).Some? ==>
      status == 200 && body == CompletedBody && r == CompleteRows(rows, pk, today, freshId)
  {
    var found := FindHabit(HabitQueryset(habits, tags, user, tagParam), pk);
    if found.None? {
      return 404, NotFoundBody, rows, freshId;
    }
    CompleteKeepsDbValid(tags, habits, rows, freshId, found.value, today);
    r, next := GetOrCreateCompleted(rows, pk, today, freshId);
    return 200, CompletedBody, r, next;
  }

  class Database {
    var tags: seq<Tag>
    var habits: seq<Habit>
    var completions: seq<HabitCompletion>
    var nextCompletionId: int

    /** The table constraints hold and the next completion id is unused. */
    ghost predicate Valid()
      reads this
    {
      && ValidDb(tags, habits, completions)
      && IdsBelow(completions, nextCompletionId)
    }

    constructor (tags: seq<Tag>, habits: seq<Habit>, completions: seq<HabitCompletion>, nextCompletionId: int)
      requires ValidDb(tags, habits, completions)
      requires IdsBelow(completions, nextCompletionId)
      ensures Valid()
      ensures this.tags == tags && this.habits == habits && this.completions == completions
      ensures this.nextCompletionId == nextCompletionId
    {
      this.tags := tags;
      this.habits := habits;
      this.completions := completions;
      this.nextCompletionId := nextCompletionId;
    }

    /** `complete`: marks the habit completed on `today` (the server's own
        date; the request body is not read) and answers
        `{"status": "completed"}`. */
    method Complete(user: int, tagParam: Option<string>, pk: int, today: int, requestData: map<string, Json>)
      returns (status: int, body: Json)
      requires Valid()
      modifies this
      ensures Valid()
      ensures tags == old(tags) && habits == old(habits)
      ensures nextCompletionId == old(nextCompletionId) + |completions| - |old(completions)|
      ensures FindHabit(HabitQueryset(old(habits), old(tags), user, tagParam), pk).None? ==>
        status == 404 && body == NotFoundBody && completions == old(completions)
      ensures FindHabit(HabitQueryset(old(habits), old(tags), user, tagParam), pk).Some? ==>
        status == 200 && body == CompletedBody
        && completions == CompleteRows(old(completions), pk, today, old(nextCompletionId))
    {
      var rows, next;
      status, body, rows, next := CompleteOn(tags, habits, completions, nextCompletionId, user, tagParam, pk, today);
      completions, nextCompletionId := rows, next;
    }

    /** `streak`: counts the habit's completed rows, most recent first,
        while they fall on today, today - 1, today - 2, ... */
    method Streak(user: int, tagParam: Option<string>, pk: int, today: int) returns (status: int, body: Json)
      ensures FindHabit(HabitQueryset(habits, tags, user, tagParam), pk).None? ==>
        status == 404 && body == NotFoundBody
      ensures FindHabit(HabitQueryset(habits, tags, user, tagParam), pk).Some? ==>
        status == 200 && body == JObj(map["streak" := JInt(ServerStreak(completions, pk, today))])
    {
      var found := FindHabit(HabitQueryset(habits, tags, user, tagParam), pk);
      if found.None? {
        return 404, NotFoundBody;
      }
      var cs := SortByKeyDesc(CompletedOf(completions, found.value.id), CompletionDate);
      var streak := WalkFromToday(cs, today);
      return 200, JObj(map["streak" := JInt(streak)]);
    }

    /** `progress_view`: one entry per habit of the user, in table order,
        with its number of rows and of completed rows. */
    method Progress(user: int) returns (data: seq<ProgressEntry>)
      ensures |data| == |UserHabits(habits, user)|
      ensures forall i :: 0 <= i < |data| ==>
        var h := UserHabits(habits, user)[i];
        data[i] == ProgressEntry(h.name, TotalOf(completions, h.id), DoneOf(completions, h.id))
      ensures forall i :: 0 <= i < |data| ==> data[i].completed <= data[i].total
    {
      var mine := UserHabits(habits, user);
      data := [];
      for i := 0 to |mine|
        invariant |data| == i
        invariant forall k :: 0 <= k < i ==>
          data[k] == ProgressEntry(mine[k].name, TotalOf(completions, mine[k].id), DoneOf(completions, mine[k].id))
      {
        var habit := mine[i];
        var total := TotalOf(completions, habit.id);
        var completed := DoneOf(completions, habit.id);
        data := data + [ProgressEntry(habit.name, total, completed)];
      }
    }
  }
}
