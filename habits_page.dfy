/** The habits page's derived data (tag filter, tag list) and its edit-form
    handlers. Whether a habit is completed on the selected day is
    `ClientRecords.HasCompletionOn`. */
module HabitsPage {
  import opened Wrappers
  import opened ClientRecords

  /** `habits.filter(habit => habit.tag === tag)`: an absent tag never
      equals a string. */
  function WithTag(hs: seq<Habit>, tag: string): (r: seq<Habit>)
    ensures |r| <= |hs|
    ensures forall x :: x in r <==> x in hs && x.tag == Some(tag)
  {
    if hs == [] then []
    else if hs[0].tag == Some(tag) then [hs[0]] + WithTag(hs[1..], tag)
    else WithTag(hs[1..], tag)
  }

  /** `filteredHabits`: every habit when no tag is chosen (the empty string
      is falsy), otherwise the habits carrying exactly that tag. */
  function FilteredHabits(hs: seq<Habit>, filterTag: string): (r: seq<Habit>)
    ensures filterTag == "" ==> r == hs
    ensures filterTag != "" ==> forall x :: x in r <==> x in hs && x.tag == Some(filterTag)
  {
    if filterTag == "" then hs else WithTag(hs, filterTag)
  }

  /** Filtering keeps the input order: it distributes over concatenation. */
  lemma {:induction false} WithTagConcat(a: seq<Habit>, b: seq<Habit>, tag: string)
    ensures WithTag(a + b, tag) == WithTag(a, tag) + WithTag(b, tag)
    decreases |a|
  {
    if a == [] {
      assert a + b == b;
    } else {
      assert (a + b)[0] == a[0] && (a + b)[1..] == a[1..] + b;
      WithTagConcat(a[1..], b, tag);
      if a[0].tag == Some(tag) {
        assert [a[0]] + (WithTag(a[1..], tag) + WithTag(b, tag))
            == ([a[0]] + WithTag(a[1..], tag)) + WithTag(b, tag);
      }
    }
  }

  /** A list in which every habit carries the tag passes the filter whole. */
  lemma {:induction false} WithTagKeepsMatching(hs: seq<Habit>, tag: string)
    requires forall x :: x in hs ==> x.tag == Some(tag)
    ensures WithTag(hs, tag) == hs
    decreases |hs|
  {
    if hs != [] {
      WithTagKeepsMatching(hs[1..], tag);
    }
  }

  /** Filtering twice by the same tag is filtering once. */
  lemma FilterIdempotent(hs: seq<Habit>, filterTag: string)
    ensures FilteredHabits(FilteredHabits(hs, filterTag), filterTag) == FilteredHabits(hs, filterTag)
  {
    if filterTag != "" {
      WithTagKeepsMatching(WithTag(hs, filterTag), filterTag);
    }
  }

  /** `habits.map(habit => habit.tag)`. */
  function TagsOf(hs: seq<Habit>): (r: seq<Option<string>>)
    ensures |r| == |hs|
    ensures forall i :: 0 <= i < |hs| ==> r[i] == hs[i].tag
  {
    if hs == [] then [] else [hs[0].tag] + TagsOf(hs[1..])
  }

  /** Position of the first occurrence of `x` in `s`. */
  function FirstIndex<T(==)>(s: seq<T>, x: T): (r: nat)
    requires x in s
    ensures r < |s| && s[r] == x
    ensures forall k :: 0 <= k < r ==> s[k] != x
  {
    if s[0] == x then 0 else 1 + FirstIndex(s[1..], x)
  }

  /** `[...new Set(s)]`: each value once, in order of first occurrence
      (see `DedupKeepsFirstOccurrenceOrder`). */
  function Dedup<T(==)>(s: seq<T>): (r: seq<T>)
    ensures forall i :: 0 <= i < |r| ==> r[i] in s
    ensures forall i :: 0 <= i < |s| ==> s[i] in r
    ensures forall i, j :: 0 <= i < j < |r| ==> r[i] != r[j]
    decreases |s|
  {
    if s == [] then []
    else
      var init, last := s[..|s| - 1], s[|s| - 1];
      assert s == init + [last];
      var d := Dedup(init);
      if last in d then d else d + [last]
  }

  lemma FirstIndexInPrefix<T>(init: seq<T>, y: T, x: T)
    requires x in init
    ensures FirstIndex(init + [y], x) == FirstIndex(init, x)
  {
    var b := FirstIndex(init, x);
    assert (init + [y])[b] == x;
  }

  lemma FirstIndexOfNew<T>(init: seq<T>, y: T)
    requires y !in init
    ensures FirstIndex(init + [y], y) == |init|
  {
    assert (init + [y])[|init|] == y;
  }

  /** The values come out in the order of their first occurrence. */
  lemma {:induction false} DedupKeepsFirstOccurrenceOrder<T>(s: seq<T>)
    ensures forall i, j :: 0 <= i < j < |Dedup(s)| ==> FirstIndex(s, Dedup(s)[i]) < FirstIndex(s, Dedup(s)[j])
    decreases |s|
  {
    if s != [] {
      var init, last := s[..|s| - 1], s[|s| - 1];
      assert s == init + [last];
      var d := Dedup(init);
      DedupKeepsFirstOccurrenceOrder(init);
      forall i | 0 <= i < |d| ensures FirstIndex(s, d[i]) == FirstIndex(init, d[i]) < |init| {
        FirstIndexInPrefix(init, last, d[i]);
      }
      if last !in d {
        assert last !in init;
        FirstIndexOfNew(init, last);
        assert Dedup(s) == d + [last];
      }
    }
  }

  /** `uniqueTags`: every habit's tag exactly once, in order of first
      occurrence; an absent tag is one of the values listed. */
  function UniqueTags(hs: seq<Habit>): (r: seq<Option<string>>)
    ensures forall t :: t in r <==> exists h :: h in hs && h.tag == t
    ensures forall i, j :: 0 <= i < j < |r| ==> r[i] != r[j]
  {
    var tags := TagsOf(hs);
    assert forall t :: t in tags <==> exists h :: h in hs && h.tag == t by {
      forall t | t in tags ensures exists h :: h in hs && h.tag == t {
        var i :| 0 <= i < |tags| && tags[i] == t;
        assert hs[i] in hs;
      }
      forall t | exists h :: h in hs && h.tag == t ensures t in tags {
        var h :| h in hs && h.tag == t;
        var i :| 0 <= i < |hs| && hs[i] == h;
        assert tags[i] == t;
      }
    }
    Dedup(tags)
  }

  /** The three fields of the edit dialog. */
  datatype FormData = FormData(name: string, description: string, tag: Option<string>)

  /** The dialog's state: open or not, the habit being edited, the fields. */
  datatype Form = Form(open: bool, selectedHabit: Option<Habit>, formData: FormData)

  const BlankForm: FormData := FormData("", "", Some(""))

  /** `handleOpen(habit)` and `handleOpen()`. */
  function HandleOpen(habit: Option<Habit>): (f: Form)
    ensures f.open && f.selectedHabit == habit
    ensures habit.Some? ==>
      f.formData == FormData(habit.value.name, habit.value.description, habit.value.tag)
    ensures habit.None? ==> f.formData == BlankForm
  {
    match habit
    case Some(h) => Form(true, Some(h), FormData(h.name, h.description, h.tag))
    case None => Form(true, None, BlankForm)
  }

  /** `handleClose`: whatever the state, a closed, blank dialog. */
  function HandleClose(f: Form): (r: Form)
    ensures !r.open && r.selectedHabit.None? && r.formData == BlankForm
  {
    Form(false, None, BlankForm)
  }

  /** The request a submit dispatches. */
  datatype Intent = UpdateHabit(id: int, habitData: FormData) | CreateHabit(habitData: FormData)

  /** `handleSubmit`: an update of the selected habit when there is one,
      otherwise a create, carrying the fields as they are; then the dialog
      closes. */
  function HandleSubmit(f: Form): (r: (Intent, Form))
    ensures r.0.UpdateHabit? <==> f.selectedHabit.Some?
    ensures r.0.UpdateHabit? ==> r.0.id == f.selectedHabit.value.id
    ensures r.0.habitData == f.formData
    ensures r.1 == HandleClose(f)
  {
    var intent :=
      if f.selectedHabit.Some? then UpdateHabit(f.selectedHabit.value.id, f.formData)
      else CreateHabit(f.formData);
    (intent, HandleClose(f))
  }

  /** Opening a habit and submitting without edits asks the server to store
      the habit's own fields under its own id. */
  lemma EditUnchangedSubmitsSameFields(h: Habit)
    ensures HandleSubmit(HandleOpen(Some(h))).0 == UpdateHabit(h.id, FormData(h.name, h.description, h.tag))
  {
  }
}
