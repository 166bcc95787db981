/** Where the client and the server disagree about the JSON between them:
    the server sends `tags` where the client reads `tag`, answers a
    completion without the `habit_id` the client looks up, reads
    `tag_ids` where the client sends `tag`, and anchors the streak at
    today where the client anchors it at the latest completion. */
module ClientServer {
  import opened Wrappers
  import opened Json
  import ClientRecords
  import HabitsSlice
  import HabitsPage
  import CalendarPage
  import Dashboard
  import Sorting
  import ApiModels
  import ApiSerializers
  import ApiViews

  /** The client reads a habit's `tag` from the server's habit object, which
      never has one: every habit reaches the client without a tag. */
  lemma ServerHabitHasNoTag(h: ApiModels.Habit, tags: seq<ApiModels.Tag>, rows: seq<ApiModels.HabitCompletion>)
    ensures StrField(ApiSerializers.SerializeHabit(h, tags, rows), "tag") == None
  {
  }

  /** With no habit carrying a tag, filtering by any chosen tag shows
      nothing, the tag list holds only the absent tag, and every calendar
      event has the default colour. */
  lemma UntaggedHabitsOnTheClient(hs: seq<ClientRecords.Habit>, filterTag: string, e: CalendarPage.Event)
    requires forall i :: 0 <= i < |hs| ==> hs[i].tag.None?
    requires e.tag.None?
    ensures filterTag != "" ==> HabitsPage.FilteredHabits(hs, filterTag) == []
    ensures hs != [] ==> None in HabitsPage.UniqueTags(hs)
    ensures forall i :: 0 <= i < |HabitsPage.UniqueTags(hs)| ==> HabitsPage.UniqueTags(hs)[i] == None
    ensures CalendarPage.BackgroundColor(e.tag) == "#1976d2"
  {
    if filterTag != "" {
      UntaggedMatchNoTag(hs, filterTag);
    }
    var r := HabitsPage.UniqueTags(hs);
    if hs != [] {
      assert hs[0] in hs;
    }
    forall i | 0 <= i < |r|
      ensures r[i] == None
    {
      var h :| h in hs && h.tag == r[i];
    }
  }

  lemma {:induction false} UntaggedMatchNoTag(hs: seq<ClientRecords.Habit>, tag: string)
    requires forall i :: 0 <= i < |hs| ==> hs[i].tag.None?
    ensures HabitsPage.WithTag(hs, tag) == []
    decreases |hs|
  {
    if hs != [] {
      assert hs[0].tag.None?;
      UntaggedMatchNoTag(hs[1..], tag);
    }
  }

  /** The completion the client builds from the server's answer to a
      completion request has no `habit_id`, so it matches no habit and the
      client's list is left as it was. */
  lemma CompleteResponseLeavesClientUnchanged(hs: seq<ClientRecords.Habit>, c: ClientRecords.Completion)
    requires c.habitId == IntField(ApiViews.CompletedBody.fields, "habit_id")
    ensures HabitsSlice.AddCompletion(hs, c) == hs
  {
  }

  /** The request body the client sends for a create or an update:
      `name`, `description` and, when set, `tag`. */
  function FormJson(fd: HabitsPage.FormData): (r: map<string, Json>)
    ensures "tag_ids" !in r
    ensures "tag" in r <==> fd.tag.Some?
    ensures "name" in r && "description" in r
    ensures r["name"] == JStr(fd.name) && r["description"] == JStr(fd.description)
  {
    var fields := map["name" := JStr(fd.name), "description" := JStr(fd.description)];
    if fd.tag.Some? then fields["tag" := JStr(fd.tag.value)] else fields
  }

  /** The server ignores the client's `tag` and sees no `tag_ids`: a habit
      created from the form has no tags, and an update from the form keeps
      the habit's tags (see `ApiSerializers.Update`). */
  lemma FormNeverSetsTags(fd: HabitsPage.FormData, tags: seq<ApiModels.Tag>, partial: bool, user: int, id: int, createdAt: int)
    requires ApiSerializers.Validate(FormJson(fd), tags, partial).Success?
    ensures ApiSerializers.Lookup(ApiSerializers.Validate(FormJson(fd), tags, partial).value, ApiSerializers.TagIds).None?
    ensures ApiSerializers.Create(ApiSerializers.Validate(FormJson(fd), tags, partial).value, user, id, createdAt).tags == {}
  {
    var v := ApiSerializers.Validate(FormJson(fd), tags, partial).value;
    forall i | 0 <= i < |v|
      ensures v[i].0 != ApiSerializers.TagIds
    {
      assert ApiSerializers.Key(v[i].0) in FormJson(fd);
    }
  }

  /** A form that passes the server's checks is stored with the name and
      description the user typed. */
  lemma FormFieldsAreStored(fd: HabitsPage.FormData, tags: seq<ApiModels.Tag>, user: int, id: int, createdAt: int)
    requires ApiSerializers.Validate(FormJson(fd), tags, false).Success?
    ensures var h := ApiSerializers.Create(ApiSerializers.Validate(FormJson(fd), tags, false).value, user, id, createdAt);
      h.name == fd.name && h.description == fd.description
  {
    ApiSerializers.LookupValidated(FormJson(fd), tags, false, ApiSerializers.Name);
    ApiSerializers.LookupValidated(FormJson(fd), tags, false, ApiSerializers.Description);
  }

  /** A serialized completion as the client holds it: `id` and `date`, and
      `habit_id`, which the object does not have. */
  function Received(j: Json): ClientRecords.Completion {
    var fields := if j.JObj? then j.fields else map[];
    ClientRecords.Completion(IntField(fields, "id").GetOr(0), IntField(fields, "habit_id"), IntField(fields, "date").GetOr(0))
  }

  /** The `completions` of a habit object, as the client holds them: every
      row of the habit, completed or not, in table order, with no `habit_id`. */
  function ReceivedCompletions(rows: seq<ApiModels.HabitCompletion>, habit: int): (r: seq<ClientRecords.Completion>)
    ensures |r| == |ApiModels.RowsOf(rows, habit)|
    ensures forall i :: 0 <= i < |r| ==>
      var c := ApiModels.RowsOf(rows, habit)[i];
      r[i] == ClientRecords.Completion(c.id, None, c.date)
  {
    var items := ApiSerializers.CompletionsJson(rows, habit);
    var r := seq(|items|, i requires 0 <= i < |items| => Received(items[i]));
    assert forall i :: 0 <= i < |r| ==>
      var c := ApiModels.RowsOf(rows, habit)[i];
      r[i] == ClientRecords.Completion(c.id, None, c.date)
    by {
      forall i | 0 <= i < |r| {
        ReceivedRow(ApiModels.RowsOf(rows, habit)[i]);
      }
    }
    r
  }

  /** One serialized row, as the client reads it. */
  lemma ReceivedRow(c: ApiModels.HabitCompletion)
    ensures Received(JObj(ApiSerializers.SerializeCompletion(c))) == ClientRecords.Completion(c.id, None, c.date)
  {
    assert "habit_id" !in ApiSerializers.CompletionFields;
  }

  /** When every row of a habit is completed, the server's streak and the
      client's streak over the completions the server sent agree once the
      latest day is today. When the latest day is before today the server
      reports 0 while the client still counts the run. */
  lemma StreaksAgreeOnlyFromToday(rows: seq<ApiModels.HabitCompletion>, habit: int, today: int)
    requires ApiModels.RowsOf(rows, habit) != []
    requires forall c :: c in ApiModels.RowsOf(rows, habit) ==> c.completed
    ensures ApiViews.ServerDates(rows, habit) != []
    ensures ApiViews.ServerDates(rows, habit)[0] == today ==>
      ApiViews.ServerStreak(rows, habit, today) == Dashboard.FrontendStreak(Some(ReceivedCompletions(rows, habit)))
    ensures ApiViews.ServerDates(rows, habit)[0] != today ==>
      ApiViews.ServerStreak(rows, habit, today) == 0 && Dashboard.FrontendStreak(Some(ReceivedCompletions(rows, habit))) >= 1
  {
    var rs := ApiModels.RowsOf(rows, habit);
    var cs := ReceivedCompletions(rows, habit);
    var s := ApiViews.ServerDates(rows, habit);
    ApiViews.CompletedOfAllRows(rows, habit);
    ReceivedDates(rows, habit);
    Dashboard.StreakOfSortedDates(cs, s);
    if s[0] == today {
      ApiViews.AnchoredRunFromLatest(s);
    }
  }

  /** The client holds the dates of all the habit's rows, in table order. */
  lemma ReceivedDates(rows: seq<ApiModels.HabitCompletion>, habit: int)
    ensures Sorting.Keys(ReceivedCompletions(rows, habit), ClientRecords.DateOf)
         == Sorting.Keys(ApiModels.RowsOf(rows, habit), ApiViews.CompletionDate)
  {
  }

  /** A row that is not completed counts for the client and not for the
      server: with an uncompleted row today and a completed one yesterday,
      the server reports 0 and the client 2. */
  lemma UncompletedRowCountsOnlyOnTheClient(habit: int, today: int)
    ensures var rows := [ApiModels.HabitCompletion(1, habit, today, false), ApiModels.HabitCompletion(2, habit, today - 1, true)];
      ApiViews.ServerStreak(rows, habit, today) == 0
      && Dashboard.FrontendStreak(Some(ReceivedCompletions(rows, habit))) == 2
  {
    var rows := [ApiModels.HabitCompletion(1, habit, today, false), ApiModels.HabitCompletion(2, habit, today - 1, true)];
    ServerSkipsUncompleted(rows, habit, today);
    ClientCountsUncompleted(rows, habit, today);
  }

  lemma ServerSkipsUncompleted(rows: seq<ApiModels.HabitCompletion>, habit: int, today: int)
    requires rows == [ApiModels.HabitCompletion(1, habit, today, false), ApiModels.HabitCompletion(2, habit, today - 1, true)]
    ensures ApiViews.ServerStreak(rows, habit, today) == 0
  {
    var s := ApiViews.ServerDates(rows, habit);
    assert ApiViews.CompletedOf(rows, habit) == [rows[1]];
    assert Sorting.Keys([rows[1]], ApiViews.CompletionDate) == [today - 1];
    assert s[0] in multiset(s);
  }

  lemma ClientCountsUncompleted(rows: seq<ApiModels.HabitCompletion>, habit: int, today: int)
    requires rows == [ApiModels.HabitCompletion(1, habit, today, false), ApiModels.HabitCompletion(2, habit, today - 1, true)]
    ensures Dashboard.FrontendStreak(Some(ReceivedCompletions(rows, habit))) == 2
  {
    assert ApiModels.RowsOf(rows, habit) == rows;
    var cs := ReceivedCompletions(rows, habit);
    assert Sorting.Keys(cs, ClientRecords.DateOf) == [today, today - 1];
    assert Dashboard.Countdown(today, 2) == [today, today - 1];
    Dashboard.ConsecutiveDaysStreak(cs, today, 2);
  }
}
