/** The client's habit collection store: the state record
    `{habits, loading, error, selectedHabit}` and the reducer case run when
    each request is dispatched, succeeds or fails. The HTTP call behind each
    request is not modelled; its outcome arrives as the method's argument. */
module HabitsSlice {
  import opened Wrappers
  import opened Json
  import opened ClientRecords

  /** Position of the first habit whose id is `id` (`findIndex` / `find`).
      An absent id (`undefined`) never equals a number. */
  function FindIndex(hs: seq<Habit>, id: Option<int>): (r: Option<nat>)
    ensures r.Some? ==> r.value < |hs| && Some(hs[r.value].id) == id
    ensures r.Some? ==> forall j :: 0 <= j < r.value ==> Some(hs[j].id) != id
    ensures r.None? ==> forall j :: 0 <= j < |hs| ==> Some(hs[j].id) != id
  {
    if hs == [] then None
    else if Some(hs[0].id) == id then Some(0)
    else match FindIndex(hs[1..], id)
      case None => None
      case Some(k) => Some(k + 1)
  }

  /** The update case: the first habit with the payload's id is replaced by
      the payload; with no such habit the list is left as it is. */
  function ReplaceById(hs: seq<Habit>, h: Habit): (r: seq<Habit>)
    ensures |r| == |hs|
    ensures FindIndex(hs, Some(h.id)).None? ==> r == hs
    ensures FindIndex(hs, Some(h.id)).Some? ==>
      var i := FindIndex(hs, Some(h.id)).value;
      r[i] == h && forall j :: 0 <= j < |hs| && j != i ==> r[j] == hs[j]
  {
    match FindIndex(hs, Some(h.id))
    case None => hs
    case Some(i) => hs[i := h]
  }

  /** The delete case: `habits.filter(habit => habit.id !== id)`. */
  function RemoveById(hs: seq<Habit>, id: int): (r: seq<Habit>)
    ensures |r| <= |hs|
    ensures forall x :: x in r <==> x in hs && x.id != id
  {
    if hs == [] then []
    else if hs[0].id == id then RemoveById(hs[1..], id)
    else [hs[0]] + RemoveById(hs[1..], id)
  }

  /** The complete case: the payload is appended to the completions of the
      first habit whose id is the payload's `habit_id`, starting from an empty
      list when the habit has none; with no such habit nothing changes. */
  function AddCompletion(hs: seq<Habit>, c: Completion): (r: seq<Habit>)
    ensures |r| == |hs|
    ensures FindIndex(hs, c.habitId).None? ==> r == hs
    ensures FindIndex(hs, c.habitId).Some? ==>
      var i := FindIndex(hs, c.habitId).value;
      && r[i] == hs[i].(completions := Some(CompletionList(hs[i]) + [c]))
      && forall j :: 0 <= j < |hs| && j != i ==> r[j] == hs[j]
  {
    match FindIndex(hs, c.habitId)
    case None => hs
    case Some(i) =>
      var habit := hs[i];
      var list := if habit.completions.None? then [] else habit.completions.value;
      hs[i := habit.(completions := Some(list + [c]))]
  }

  /** No two habits share an id (the collection's intended invariant). */
  ghost predicate UniqueIds(hs: seq<Habit>) {
    forall i, j :: 0 <= i < j < |hs| ==> hs[i].id != hs[j].id
  }

  /** Removing keeps the relative order of what is kept: it distributes over
      concatenation. */
  lemma {:induction false} RemoveByIdConcat(a: seq<Habit>, b: seq<Habit>, id: int)
    ensures RemoveById(a + b, id) == RemoveById(a, id) + RemoveById(b, id)
    decreases |a|
  {
    if a == [] {
      assert a + b == b;
    } else {
      assert (a + b)[0] == a[0] && (a + b)[1..] == a[1..] + b;
      RemoveByIdConcat(a[1..], b, id);
      if a[0].id != id {
        assert [a[0]] + (RemoveById(a[1..], id) + RemoveById(b, id))
            == ([a[0]] + RemoveById(a[1..], id)) + RemoveById(b, id);
      }
    }
  }

  /** Removing an id that does not occur leaves the list identical. */
  lemma {:induction false} RemoveAbsentId(hs: seq<Habit>, id: int)
    requires forall x :: x in hs ==> x.id != id
    ensures RemoveById(hs, id) == hs
    decreases |hs|
  {
    if hs != [] {
      RemoveAbsentId(hs[1..], id);
    }
  }

  /** Deleting twice is deleting once. */
  lemma RemoveByIdIdempotent(hs: seq<Habit>, id: int)
    ensures RemoveById(RemoveById(hs, id), id) == RemoveById(hs, id)
  {
    RemoveAbsentId(RemoveById(hs, id), id);
  }

  /** Creating a habit with a fresh id and then deleting that id restores
      the collection exactly. */
  lemma CreateThenDeleteRestores(hs: seq<Habit>, h: Habit)
    requires forall x :: x in hs ==> x.id != h.id
    ensures RemoveById(hs + [h], h.id) == hs
  {
    RemoveByIdConcat(hs, [h], h.id);
    RemoveAbsentId(hs, h.id);
    assert RemoveById([h], h.id) == [];
  }

  /** Update, delete and complete keep the ids unique; create keeps them
      unique when the new id is fresh. */
  lemma {:induction false} MutationsKeepIdsUnique(hs: seq<Habit>, h: Habit, id: int, c: Completion)
    requires UniqueIds(hs)
    ensures UniqueIds(ReplaceById(hs, h))
    ensures UniqueIds(RemoveById(hs, id))
    ensures UniqueIds(AddCompletion(hs, c))
    ensures (forall x :: x in hs ==> x.id != h.id) ==> UniqueIds(hs + [h])
  {
    RemoveKeepsIdsUnique(hs, id);
  }

  lemma {:induction false} RemoveKeepsIdsUnique(hs: seq<Habit>, id: int)
    requires UniqueIds(hs)
    ensures UniqueIds(RemoveById(hs, id))
    decreases |hs|
  {
    if hs != [] {
      assert UniqueIds(hs[1..]) by {
        forall i, j | 0 <= i < j < |hs| - 1 ensures hs[1..][i].id != hs[1..][j].id {
          assert hs[1..][i] == hs[i + 1] && hs[1..][j] == hs[j + 1];
        }
      }
      RemoveKeepsIdsUnique(hs[1..], id);
      var rest := RemoveById(hs[1..], id);
      if hs[0].id != id {
        forall x | x in rest ensures x.id != hs[0].id {
          var k :| 1 <= k < |hs| && hs[k] == x;
        }
      }
    }
  }

  /** The store. Each method is one reducer case; its `ensures` give the whole
      new state. */
  class HabitsStore {
    var habits: seq<Habit>
    var loading: bool
    var error: Option<Json>
    var selectedHabit: Option<Habit>

    constructor ()
      ensures habits == [] && !loading && error == None && selectedHabit == None
    {
      habits := [];
      loading := false;
      error := None;
      selectedHabit := None;
    }

    method SetSelectedHabit(payload: Option<Habit>)
      modifies this
      ensures selectedHabit == payload
      ensures habits == old(habits) && loading == old(loading) && error == old(error)
    {
      selectedHabit := payload;
    }

    method ClearSelectedHabit()
      modifies this
      ensures selectedHabit == None
      ensures habits == old(habits) && loading == old(loading) && error == old(error)
    {
      selectedHabit := None;
    }

    method FetchPending()
      modifies this
      ensures loading && error == None
      ensures habits == old(habits) && selectedHabit == old(selectedHabit)
    {
      loading := true;
      error := None;
    }

    /** The list is replaced wholesale; `error` is not touched. */
    method FetchFulfilled(payload: seq<Habit>)
      modifies this
      ensures !loading && habits == payload
      ensures error == old(error) && selectedHabit == old(selectedHabit)
    {
      loading := false;
      habits := payload;
    }

    method FetchRejected(payload: Json)
      modifies this
      ensures !loading && error == Some(payload)
      ensures habits == old(habits) && selectedHabit == old(selectedHabit)
    {
      loading := false;
      error := Some(payload);
    }

    method CreateFulfilled(payload: Habit)
      modifies this
      ensures habits == old(habits) + [payload]
      ensures loading == old(loading) && error == old(error) && selectedHabit == old(selectedHabit)
    {
      habits := habits + [payload];
    }

    method UpdateFulfilled(payload: Habit)
      modifies this
      ensures habits == ReplaceById(old(habits), payload)
      ensures loading == old(loading) && error == old(error) && selectedHabit == old(selectedHabit)
    {
      var index := FindIndex(habits, Some(payload.id));
      if index.Some? {
        habits := habits[index.value := payload];
      }
    }

    method DeleteFulfilled(id: int)
      modifies this
      ensures habits == RemoveById(old(habits), id)
      ensures loading == old(loading) && error == old(error) && selectedHabit == old(selectedHabit)
    {
      habits := RemoveById(habits, id);
    }

    method CompleteFulfilled(payload: Completion)
      modifies this
      ensures habits == AddCompletion(old(habits), payload)
      ensures loading == old(loading) && error == old(error) && selectedHabit == old(selectedHabit)
    {
      var index := FindIndex(habits, payload.habitId);
      if index.Some? {
        var habit := habits[index.value];
        if habit.completions.None? {
          habit := habit.(completions := Some([]));
        }
        habit := habit.(completions := Some(habit.completions.value + [payload]));
        habits := habits[index.value := habit];
      }
    }
  }
}
