/** The calendar page: every completion becomes a one-day event, and an
    event's colour comes from its habit's tag. */
module CalendarPage {
  import opened Wrappers
  import opened ClientRecords

  /** A calendar event; `start` and `end` are both the completion's day. */
  datatype Event = Event(id: int, title: string, start: Day, end: Day, habitId: int, tag: Option<string>)

  /** `completions.map(completion => ({...}))` for one habit. */
  function EventsOf(h: Habit, cs: seq<Completion>): (r: seq<Event>)
    ensures |r| == |cs|
    ensures forall i :: 0 <= i < |cs| ==>
      r[i] == Event(cs[i].id, h.name, cs[i].date, cs[i].date, h.id, h.tag)
  {
    if cs == [] then []
    else [Event(cs[0].id, h.name, cs[0].date, cs[0].date, h.id, h.tag)] + EventsOf(h, cs[1..])
  }

  /** `habit.completions?.map(...) || []`. */
  function HabitEvents(h: Habit): (r: seq<Event>)
    ensures |r| == |CompletionList(h)|
  {
    match h.completions
    case None => []
    case Some(cs) => EventsOf(h, cs)
  }

  /** Total number of completions across the habits. */
  function TotalCompletions(hs: seq<Habit>): nat {
    if hs == [] then 0 else |CompletionList(hs[0])| + TotalCompletions(hs[1..])
  }

  /** `habits.flatMap(...)`: one event per completion, habit by habit. */
  function CalendarEvents(hs: seq<Habit>): (r: seq<Event>)
    ensures |r| == TotalCompletions(hs)
  {
    if hs == [] then [] else HabitEvents(hs[0]) + CalendarEvents(hs[1..])
  }

  lemma {:induction false} CalendarEventsConcat(a: seq<Habit>, b: seq<Habit>)
    ensures CalendarEvents(a + b) == CalendarEvents(a) + CalendarEvents(b)
    ensures TotalCompletions(a + b) == TotalCompletions(a) + TotalCompletions(b)
    decreases |a|
  {
    if a == [] {
      assert a + b == b;
    } else {
      assert (a + b)[0] == a[0] && (a + b)[1..] == a[1..] + b;
      CalendarEventsConcat(a[1..], b);
    }
  }

  /** The events of habit `i` sit between those of the habits before and
      after it. */
  lemma EventsAround(hs: seq<Habit>, i: nat)
    requires i < |hs|
    ensures CalendarEvents(hs) == CalendarEvents(hs[..i]) + (HabitEvents(hs[i]) + CalendarEvents(hs[i + 1..]))
  {
    SplitAt(hs, i);
    EventsSplit(hs[..i], hs[i], hs[i + 1..]);
  }

  lemma SplitAt<T>(s: seq<T>, i: nat)
    requires i < |s|
    ensures s == s[..i] + ([s[i]] + s[i + 1..])
  {
  }

  lemma EventsSplit(a: seq<Habit>, h: Habit, c: seq<Habit>)
    ensures CalendarEvents(a + ([h] + c)) == CalendarEvents(a) + (HabitEvents(h) + CalendarEvents(c))
  {
    CalendarEventsConcat(a, [h] + c);
    CalendarEventsCons(h, c);
  }

  lemma CalendarEventsCons(h: Habit, rest: seq<Habit>)
    ensures CalendarEvents([h] + rest) == HabitEvents(h) + CalendarEvents(rest)
  {
    assert ([h] + rest)[1..] == rest;
  }

  /** Events come in habit order, then completion order: the `j`-th
      completion of habit `i` is the event at position (completions of the
      habits before `i`) + `j`, and it carries that completion's id and day
      and that habit's name, id and tag. */
  lemma EventPosition(hs: seq<Habit>, i: nat, j: nat)
    requires i < |hs| && j < |CompletionList(hs[i])|
    ensures TotalCompletions(hs[..i]) + j < |CalendarEvents(hs)|
    ensures var c := CompletionList(hs[i])[j];
      CalendarEvents(hs)[TotalCompletions(hs[..i]) + j]
        == Event(c.id, hs[i].name, c.date, c.date, hs[i].id, hs[i].tag)
  {
    EventsAround(hs, i);
    HabitEventAt(hs[i], j);
    IndexInMiddle(CalendarEvents(hs[..i]), HabitEvents(hs[i]), CalendarEvents(hs[i + 1..]), j);
  }

  lemma IndexInMiddle<T>(pre: seq<T>, mid: seq<T>, post: seq<T>, j: nat)
    requires j < |mid|
    ensures |pre| + j < |pre + (mid + post)|
    ensures (pre + (mid + post))[|pre| + j] == mid[j]
  {
  }

  lemma HabitEventAt(h: Habit, j: nat)
    requires j < |CompletionList(h)|
    ensures j < |HabitEvents(h)|
    ensures var c := CompletionList(h)[j];
      HabitEvents(h)[j] == Event(c.id, h.name, c.date, c.date, h.id, h.tag)
  {
  }

  /** The style object of an event. */
  datatype Style = Style(
    backgroundColor: string,
    borderRadius: string,
    opacity: real,
    color: string,
    border: string,
    display: string)

  /** Every field but the colour, shared by all events. */
  const BaseStyle: Style := Style("#1976d2", "4px", 0.8, "white", "0px", "block")

  /** The if-chain of `eventStyleGetter`. */
  function BackgroundColor(tag: Option<string>): (c: string)
    ensures c in {"#2e7d32", "#ed6c02", "#9c27b0", "#1976d2"}
    ensures c == "#2e7d32" <==> tag == Some("health")
    ensures c == "#ed6c02" <==> tag == Some("productivity")
    ensures c == "#9c27b0" <==> tag == Some("learning")
  {
    var backgroundColor := "#1976d2";
    if tag == Some("health") then "#2e7d32"
    else if tag == Some("productivity") then "#ed6c02"
    else if tag == Some("learning") then "#9c27b0"
    else backgroundColor
  }

  /** `eventStyleGetter(event).style`: only the colour depends on the event. */
  function EventStyle(e: Event): (s: Style)
    ensures s.backgroundColor == BackgroundColor(e.tag)
    ensures s.(backgroundColor := BaseStyle.backgroundColor) == BaseStyle
  {
    BaseStyle.(backgroundColor := BackgroundColor(e.tag))
  }

  /** Two events look alike exactly when their tags are the same known tag
      or both are unknown tags. */
  lemma SameStyleMeansSameColourClass(e1: Event, e2: Event)
    ensures EventStyle(e1) == EventStyle(e2) <==>
      (e1.tag == e2.tag ||
       (e1.tag !in {Some("health"), Some("productivity"), Some("learning")} &&
        e2.tag !in {Some("health"), Some("productivity"), Some("learning")}))
  {
  }
}
