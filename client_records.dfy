/** The habit and completion records as the browser client holds them.
    JavaScript's `undefined` (an absent key) is `None`; calendar dates are
    whole day numbers. */
module ClientRecords {
  import opened Wrappers

  type Day = int

  /** A completion record; `habitId` is the payload's `habit_id` key. */
  datatype Completion = Completion(id: int, habitId: Option<int>, date: Day)

  /** A habit record; `tag` and `completions` may be absent. */
  datatype Habit = Habit(
    id: int,
    name: string,
    description: string,
    tag: Option<string>,
    completions: Option<seq<Completion>>)

  function DateOf(c: Completion): int { c.date }

  /** `habit.completions || []`. */
  function CompletionList(h: Habit): seq<Completion> {
    h.completions.GetOr([])
  }

  /** `completions.some(c => c.date is on day)`. */
  function SomeOnDay(cs: seq<Completion>, day: Day): (r: bool)
    ensures r <==> exists i :: 0 <= i < |cs| && cs[i].date == day
  {
    if cs == [] then false
    else cs[0].date == day || SomeOnDay(cs[1..], day)
  }

  /** `completions?.some(...)`: an absent list has no completion on any day. */
  function HasCompletionOn(completions: Option<seq<Completion>>, day: Day): (r: bool)
    ensures completions.None? ==> !r
    ensures r <==> exists c :: completions.Some? && c in completions.value && c.date == day
  {
    match completions
    case None => false
    case Some(cs) =>
      assert SomeOnDay(cs, day) ==> exists i :: 0 <= i < |cs| && cs[i] in cs && cs[i].date == day;
      SomeOnDay(cs, day)
  }
}
