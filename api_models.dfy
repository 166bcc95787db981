/** The server's three tables and their constraints: tags, habits owned by a
    user, and per-day completions of a habit. Rows are values; a table is a
    sequence of rows; the database's cascading deletes are functions from
    tables to tables. */
module ApiModels {
  import opened Sequences

  const TagNameMaxLength: nat := 50
  const HabitNameMaxLength: nat := 100

  datatype Tag = Tag(id: int, name: string)

  /** `tags` holds the ids of the habit's tags (a many-to-many relation). */
  datatype Habit = Habit(id: int, user: int, name: string, description: string, tags: set<int>, createdAt: int)

  datatype HabitCompletion = HabitCompletion(id: int, habit: int, date: int, completed: bool)

  /** A completion row as `create` makes it when `completed` is not given. */
  function NewCompletion(id: int, habit: int, date: int): (c: HabitCompletion)
    ensures c.completed
    ensures c.id == id && c.habit == habit && c.date == date
  {
    HabitCompletion(id, habit, date, true)
  }

  /** Tag names are unique and at most 50 characters. */
  ghost predicate ValidTags(tags: seq<Tag>) {
    && (forall i, j :: 0 <= i < j < |tags| ==> tags[i].id != tags[j].id && tags[i].name != tags[j].name)
    && (forall i :: 0 <= i < |tags| ==> |tags[i].name| <= TagNameMaxLength)
  }

  /** Habit names are at most 100 characters (a description may be blank)
      and every tag of a habit exists. */
  ghost predicate ValidHabits(habits: seq<Habit>, tags: seq<Tag>) {
    && (forall i, j :: 0 <= i < j < |habits| ==> habits[i].id != habits[j].id)
    && (forall i :: 0 <= i < |habits| ==> |habits[i].name| <= HabitNameMaxLength)
    && (forall i, t :: 0 <= i < |habits| && t in habits[i].tags ==> exists k :: 0 <= k < |tags| && tags[k].id == t)
  }

  /** At most one completion per (habit, date). */
  ghost predicate OnePerDay(completions: seq<HabitCompletion>) {
    forall i, j :: 0 <= i < j < |completions| ==>
      completions[i].habit != completions[j].habit || completions[i].date != completions[j].date
  }

  /** Completion ids are unique, every completion's habit exists, and at most
      one completion exists per (habit, date). */
  ghost predicate ValidCompletions(completions: seq<HabitCompletion>, habits: seq<Habit>) {
    && (forall i, j :: 0 <= i < j < |completions| ==> completions[i].id != completions[j].id)
    && (forall i :: 0 <= i < |completions| ==> HabitExists(habits, completions[i].habit))
    && OnePerDay(completions)
  }

  predicate HabitExists(habits: seq<Habit>, id: int) {
    exists k :: 0 <= k < |habits| && habits[k].id == id
  }

  ghost predicate ValidDb(tags: seq<Tag>, habits: seq<Habit>, completions: seq<HabitCompletion>) {
    ValidTags(tags) && ValidHabits(habits, tags) && ValidCompletions(completions, habits)
  }

  /** `str(completion)`: the habit's name, " on ", then the date as text. */
  function CompletionStr(habitName: string, dateText: string): (r: string)
    ensures |r| == |habitName| + 4 + |dateText|
    ensures r[..|habitName|] == habitName && r[|r| - |dateText|..] == dateText
    ensures r[|habitName|..|habitName| + 4] == " on "
  {
    habitName + " on " + dateText
  }

  /** `habit.completions` (the reverse of the completion's foreign key): the
      habit's rows, in table order. */
  function RowsOf(rows: seq<HabitCompletion>, habit: int): (r: seq<HabitCompletion>)
    ensures forall c :: c in r <==> c in rows && c.habit == habit
  {
    Where(rows, (c: HabitCompletion) => c.habit == habit)
  }

  /** `habit.tags.all()`: the tag rows whose id the habit holds, in table
      order. */
  function TagRows(tags: seq<Tag>, ids: set<int>): (r: seq<Tag>)
    ensures forall t :: t in r <==> t in tags && t.id in ids
  {
    Where(tags, (t: Tag) => t.id in ids)
  }

  /** Deleting a habit deletes its completions (`on_delete=CASCADE`). */
  function DeleteHabit(habits: seq<Habit>, completions: seq<HabitCompletion>, id: int)
    : (r: (seq<Habit>, seq<HabitCompletion>))
    ensures forall h :: h in r.0 <==> h in habits && h.id != id
    ensures forall c :: c in r.1 <==> c in completions && c.habit != id
  {
    (Where(habits, (h: Habit) => h.id != id), Where(completions, (c: HabitCompletion) => c.habit != id))
  }

  /** Deleting a user deletes their habits, and with them those habits'
      completions. */
  function DeleteUser(habits: seq<Habit>, completions: seq<HabitCompletion>, user: int)
    : (r: (seq<Habit>, seq<HabitCompletion>))
    ensures forall h :: h in r.0 <==> h in habits && h.user != user
    ensures forall c :: c in r.1 <==> c in completions && HabitExists(r.0, c.habit)
  {
    var kept := Where(habits, (h: Habit) => h.user != user);
    (kept, Where(completions, (c: HabitCompletion) => HabitExists(kept, c.habit)))
  }

  /** Both cascades leave a consistent database: no completion refers to a
      deleted habit, and every uniqueness constraint still holds. */
  lemma DeleteHabitKeepsDbValid(tags: seq<Tag>, habits: seq<Habit>, completions: seq<HabitCompletion>, id: int)
    requires ValidDb(tags, habits, completions)
    ensures ValidDb(tags, DeleteHabit(habits, completions, id).0, DeleteHabit(habits, completions, id).1)
  {
    var r := DeleteHabit(habits, completions, id);
    HabitsStayValid(tags, habits, (h: Habit) => h.id != id);
    CompletionsStayUnique(completions, (c: HabitCompletion) => c.habit != id);
    forall i | 0 <= i < |r.1|
      ensures HabitExists(r.0, r.1[i].habit)
    {
      var c := r.1[i];
      assert c in completions;
      var n :| 0 <= n < |completions| && completions[n] == c;
      var k :| 0 <= k < |habits| && habits[k].id == c.habit;
      assert habits[k] in r.0;
      var m :| 0 <= m < |r.0| && r.0[m] == habits[k];
    }
  }

  lemma DeleteUserKeepsDbValid(tags: seq<Tag>, habits: seq<Habit>, completions: seq<HabitCompletion>, user: int)
    requires ValidDb(tags, habits, completions)
    ensures ValidDb(tags, DeleteUser(habits, completions, user).0, DeleteUser(habits, completions, user).1)
  {
    var r := DeleteUser(habits, completions, user);
    HabitsStayValid(tags, habits, (h: Habit) => h.user != user);
    CompletionsStayUnique(completions, (c: HabitCompletion) => HabitExists(r.0, c.habit));
    forall i | 0 <= i < |r.1|
      ensures HabitExists(r.0, r.1[i].habit)
    {
      assert r.1[i] in r.1;
    }
  }

  /** Adding a habit with an unused id, a name that fits and existing tags
      keeps the habits table valid. */
  lemma AppendHabitValid(habits: seq<Habit>, tags: seq<Tag>, h: Habit)
    requires ValidHabits(habits, tags)
    requires forall i :: 0 <= i < |habits| ==> habits[i].id != h.id
    requires |h.name| <= HabitNameMaxLength
    requires forall t :: t in h.tags ==> exists k :: 0 <= k < |tags| && tags[k].id == t
    ensures ValidHabits(habits + [h], tags)
  {
    var r := habits + [h];
    forall i | 0 <= i < |r|
      ensures r[i] == h || r[i] == habits[i]
    {
    }
  }

  lemma HabitsStayValid(tags: seq<Tag>, habits: seq<Habit>, keep: Habit -> bool)
    requires ValidHabits(habits, tags)
    ensures ValidHabits(Where(habits, keep), tags)
  {
    WhereKeepsPairwise(habits, keep, (a: Habit, b: Habit) => a.id != b.id);
    var r := Where(habits, keep);
    forall i | 0 <= i < |r|
      ensures |r[i].name| <= HabitNameMaxLength
      ensures forall t :: t in r[i].tags ==> exists k :: 0 <= k < |tags| && tags[k].id == t
    {
      assert r[i] in habits;
      var n :| 0 <= n < |habits| && habits[n] == r[i];
    }
  }

  lemma CompletionsStayUnique(completions: seq<HabitCompletion>, keep: HabitCompletion -> bool)
    requires forall i, j :: 0 <= i < j < |completions| ==> completions[i].id != completions[j].id
    requires OnePerDay(completions)
    ensures var r := Where(completions, keep);
      (forall i, j :: 0 <= i < j < |r| ==> r[i].id != r[j].id) && OnePerDay(r)
  {
    WhereKeepsPairwise(completions, keep, (a: HabitCompletion, b: HabitCompletion) => a.id != b.id);
    WhereKeepsPairwise(completions, keep, (a: HabitCompletion, b: HabitCompletion) => a.habit != b.habit || a.date != b.date);
  }
}
