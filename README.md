# Habit tracker: a verified model of the client stores, the page logic and the habit API

This project models the core of a habit tracker with two parts.

The browser client is a React/Redux application. It has:
- a habit collection store and a session store;
- a dashboard: per-habit streaks, active / longest / top-three aggregates and a seven-day completion chart;
- a habits page: tag filter, tag list, "completed on the selected day" check and the edit dialog;
- a calendar page that turns completions into coloured events.

The server is a Django REST API. It has:
- the tag, habit and habit-completion tables with their constraints and cascading deletes;
- the habit serializer: output fields, input validation, `create` and `update`;
- the habit views: the per-user, per-tag query, `complete`, `streak`, `progress` and logout's error branch.

Calendar dates are whole day numbers on both sides. Absent JavaScript values (`undefined`, `null`) are `None`.

The modules follow the program's files:

| module | file(s) modelled |
|---|---|
| `Wrappers`, `Json` | option/result values; JSON values and field reads |
| `Sequences` | the order-preserving filter used by JavaScript's `filter` and by the database's `filter` |
| `Sorting` | the "largest key first" sort used by `Array.prototype.sort` with a difference comparator and by `order_by("-date")` |
| `ClientRecords` | the client's habit and completion records, the same-day check |
| `HabitsSlice` | `frontend/src/features/habits/habitsSlice.js` (class `HabitsStore`) |
| `AuthSlice` | `frontend/src/features/auth/authSlice.js` (class `Session`) |
| `Dashboard` | `frontend/src/pages/Dashboard.js` |
| `HabitsPage` | `frontend/src/pages/Habits.js` |
| `CalendarPage` | `frontend/src/pages/Calendar.js` |
| `ApiModels` | `apps/api/models.py` |
| `ApiSerializers` | `apps/api/serializers.py` |
| `ApiViews` | `apps/api/views.py` (class `Database`) |
| `ClientServer` | what happens where the client and the server meet |

Both stores mutate their state in place, so they are classes whose methods are the reducer cases. Each method's `ensures` gives the whole new state in terms of a pure function, for example `habits == RemoveById(old(habits), id)`. The properties of the store are proved about those functions.

The server's tables are sequences of row values held by the `Database` class. A view is a method on that class. `complete` is specified by the function `CompleteRows`, which carries the proofs.

The four loops of the source are methods with loop invariants:
- the client streak (`frontend/src/pages/Dashboard.js:39-48`): `Dashboard.WalkStreak`, proved equal to `RunLength`;
- the server streak (`apps/api/views.py:113-117`): `ApiViews.WalkFromToday`, proved equal to `AnchoredRun`;
- the progress report (`apps/api/views.py:139-148`): `ApiViews.Database.Progress`, one entry per habit from `TotalOf` and `DoneOf`;
- the serializer's `setattr` loop (`apps/api/serializers.py:55-56`): `ApiSerializers.Update`, which sets the name and description given and keeps the rest.

The two sides do not agree about the JSON between them, and the model keeps both behaviours as written:
- The server sends `tags` and reads `tag_ids`, while the client reads and sends a single `tag`. Every habit therefore reaches the client without a tag, the tag filter shows nothing, and a tag chosen in the form is never stored.
- The server answers a completion with `{"status": "completed"}`. The client looks for `habit_id` in that answer, so it appends the completion to no habit.
- The server dates a completion `date.today()`, ignoring the client's date.
- The server's streak is anchored at today; the client's starts at the latest completion, whatever day that is.
- The server's streak counts only rows marked completed. The habit object it sends lists every row, so the client's streak also counts rows that are not completed (`ClientServer.UncompletedRowCountsOnlyOnTheClient`).

The client streak does not merge completions that fall on the same day. A repeated day gives a step of 0 days and ends the run (`Dashboard.SameDayDuplicateEndsRun`).

The tag list keeps an absent tag as one of its values, as the code does.

## Model

| member | source | states |
|---|---|---|
| Sorting.SortByKeyDesc | frontend/src/pages/Dashboard.js:33-35 | the sorted copy is ordered by key, largest first, and is a permutation of the input (same multiset, same length) |
| Sorting.SortKeepsKeys | frontend/src/pages/Dashboard.js:33-35 | sorting keeps the multiset of keys |
| Sorting.SortedIsUnique | frontend/src/pages/Dashboard.js:33-35 | a multiset of integers has exactly one non-increasing arrangement, so the sorted key sequence is determined by the keys alone |
| Sorting.SortedKeysDependOnlyOnKeys | frontend/src/pages/Dashboard.js:33-35 | two lists with the same multiset of keys have the same sorted key sequence, whatever their order |
| Sorting.PrefixOfSorted | frontend/src/pages/Dashboard.js:152-154 | the first m elements of a sorted copy are sorted, a sub-multiset of the input, and no element left out has a larger key than one kept |
| ClientRecords.SomeOnDay | frontend/src/pages/Habits.js:108-111 | true exactly when some completion in the list falls on the day |
| ClientRecords.HasCompletionOn | frontend/src/pages/Habits.js:107-112 | `isHabitCompleted`: true exactly when the habit has a completion on the day; false when completions are absent |
| HabitsSlice.FindIndex | frontend/src/features/habits/habitsSlice.js:87 | the first position whose id equals the given id; none exactly when no habit has it; an absent id matches nothing |
| HabitsSlice.ReplaceById | frontend/src/features/habits/habitsSlice.js:86-91 | only the first habit with the payload's id is replaced; length and all other positions are unchanged; with no match the list is identical |
| HabitsSlice.RemoveById | frontend/src/features/habits/habitsSlice.js:93-95 | the result holds exactly the habits whose id differs, and is no longer than the input |
| HabitsSlice.AddCompletion | frontend/src/features/habits/habitsSlice.js:97-105 | the payload is appended to the completions of the first habit with `id == habit_id`, starting from an empty list when they are absent; every other habit is untouched; with no match nothing changes |
| HabitsSlice.RemoveByIdConcat | frontend/src/features/habits/habitsSlice.js:94 | deletion keeps the relative order of the rest: it distributes over concatenation |
| HabitsSlice.RemoveAbsentId | frontend/src/features/habits/habitsSlice.js:94 | deleting an id that does not occur leaves the list identical |
| HabitsSlice.RemoveByIdIdempotent | frontend/src/features/habits/habitsSlice.js:93-95 | deleting twice equals deleting once |
| HabitsSlice.CreateThenDeleteRestores | frontend/src/features/habits/habitsSlice.js:82-95 | creating a habit with a fresh id and then deleting that id restores the original list |
| HabitsSlice.MutationsKeepIdsUnique | frontend/src/features/habits/habitsSlice.js:82-105 | update, delete and complete keep ids unique; create does too when the new id is fresh |
| HabitsSlice.RemoveKeepsIdsUnique | frontend/src/features/habits/habitsSlice.js:93-95 | deletion keeps ids unique |
| HabitsSlice.HabitsStore.constructor | frontend/src/features/habits/habitsSlice.js:52-57 | initial state: no habits, not loading, no error, nothing selected |
| HabitsSlice.HabitsStore.SetSelectedHabit | frontend/src/features/habits/habitsSlice.js:59-61 | only `selectedHabit` changes, to the payload |
| HabitsSlice.HabitsStore.ClearSelectedHabit | frontend/src/features/habits/habitsSlice.js:62-64 | only `selectedHabit` changes, to none |
| HabitsSlice.HabitsStore.FetchPending | frontend/src/features/habits/habitsSlice.js:69-72 | loading on, error cleared, habits and selection unchanged |
| HabitsSlice.HabitsStore.FetchFulfilled | frontend/src/features/habits/habitsSlice.js:73-76 | the list is replaced wholesale by the payload and loading is off; error untouched |
| HabitsSlice.HabitsStore.FetchRejected | frontend/src/features/habits/habitsSlice.js:77-80 | loading off, error is the payload, habits unchanged |
| HabitsSlice.HabitsStore.CreateFulfilled | frontend/src/features/habits/habitsSlice.js:82-84 | the payload is appended at the end; nothing else changes |
| HabitsSlice.HabitsStore.UpdateFulfilled | frontend/src/features/habits/habitsSlice.js:86-91 | the list becomes `ReplaceById` of the old list; nothing else changes |
| HabitsSlice.HabitsStore.DeleteFulfilled | frontend/src/features/habits/habitsSlice.js:93-95 | the list becomes `RemoveById` of the old list; nothing else changes |
| HabitsSlice.HabitsStore.CompleteFulfilled | frontend/src/features/habits/habitsSlice.js:97-105 | the in-place push yields `AddCompletion` of the old list; nothing else changes |
| AuthSlice.StoredToken | frontend/src/features/auth/authSlice.js:34-35 | `getItem(key) \|\| null`: a token exactly when the key is stored with a non-empty value, and then that value |
| AuthSlice.PersistTokens | frontend/src/features/auth/authSlice.js:7-8 | storage gains both keys with the given values; every other key keeps its value |
| AuthSlice.ClearTokens | frontend/src/features/auth/authSlice.js:25-26 | storage loses both keys and keeps every other key and value |
| AuthSlice.ReloadAfterLogin | frontend/src/features/auth/authSlice.js:7-8 | after login, reading storage back gives the same two tokens, except that an empty token reads back as none |
| AuthSlice.ReloadAfterLogout | frontend/src/features/auth/authSlice.js:24-28 | after logout, reading storage back finds no token; clearing twice equals clearing once |
| AuthSlice.Session.constructor | frontend/src/features/auth/authSlice.js:32-38 | the initial tokens come from storage, or none; no user, not loading, no error |
| AuthSlice.Session.LoginPending | frontend/src/features/auth/authSlice.js:42-45 | loading on and error cleared; tokens, user and storage unchanged |
| AuthSlice.Session.LoginFulfilled | frontend/src/features/auth/authSlice.js:46-50 | both in-memory tokens are the payload's; storage holds the same two values under `access_token` / `refresh_token` (the thunk's writes, lines 7-8); loading off |
| AuthSlice.Session.LoginRejected | frontend/src/features/auth/authSlice.js:51-54 | loading off, error is the payload; tokens and storage untouched |
| AuthSlice.Session.RegisterPending | frontend/src/features/auth/authSlice.js:55-58 | loading on and error cleared; tokens unchanged |
| AuthSlice.Session.RegisterFulfilled | frontend/src/features/auth/authSlice.js:59-61 | only loading is cleared; tokens never change |
| AuthSlice.Session.RegisterRejected | frontend/src/features/auth/authSlice.js:62-65 | loading off, error is the payload; tokens untouched |
| AuthSlice.Session.Logout | frontend/src/features/auth/authSlice.js:66-70 | user and both tokens cleared; both storage keys removed (the thunk, lines 24-28) |
| AuthSlice.LogoutTwice | frontend/src/features/auth/authSlice.js:66-70 | logging out twice leaves the same state as logging out once |
| Dashboard.RunLength | frontend/src/pages/Dashboard.js:36-48 | the length of the leading run in which each step back is exactly one day: at least 1, every step inside it is 1, the next step is not |
| Dashboard.FrontendStreak | frontend/src/pages/Dashboard.js:31-50 | 0 when completions are absent or empty, otherwise between 1 and the number of completions |
| Dashboard.CalculateStreak | frontend/src/pages/Dashboard.js:31-50 | `calculateStreak` (copy, sort, walk) returns `FrontendStreak` |
| Dashboard.WalkStreak | frontend/src/pages/Dashboard.js:36-49 | the loop with its `break` returns the run length of the sorted dates |
| Dashboard.StreakIgnoresOrder | frontend/src/pages/Dashboard.js:33-35 | the streak depends only on the multiset of dates, not on the list's order |
| Dashboard.StreakOfSortedDates | frontend/src/pages/Dashboard.js:33-48 | the streak is the run length of any non-increasing arrangement of the dates |
| Dashboard.CountdownIsOneRun | frontend/src/pages/Dashboard.js:36-48 | n consecutive days, latest first, are sorted and form a run of n |
| Dashboard.ConsecutiveDaysStreak | frontend/src/pages/Dashboard.js:31-50 | completions on n consecutive days, one per day, in any order, give a streak of n |
| Dashboard.RepeatedDay | frontend/src/pages/Dashboard.js:41-46 | a day listed twice and then the day before is sorted and has run length 1 |
| Dashboard.SameDayDuplicateEndsRun | frontend/src/pages/Dashboard.js:41-46 | completions on day+1, day+1 and day give a streak of 1: the duplicate is a 0-day step that ends the count |
| Dashboard.StreakPositiveIffCompleted | frontend/src/pages/Dashboard.js:32-36 | a habit's streak is above 0 exactly when it has a completion |
| Dashboard.CountPositive | frontend/src/pages/Dashboard.js:107 | the filter-then-length count: exactly the number of elements a filter on "above 0" keeps, at most the list's length |
| Dashboard.CountPositiveExtremes | frontend/src/pages/Dashboard.js:107 | the count is 0 exactly when no element is positive, and the length exactly when all are |
| Dashboard.CountPositiveAs | frontend/src/pages/Dashboard.js:107 | the count equals the length of any filter that keeps the same elements |
| Dashboard.ActiveStreaks | frontend/src/pages/Dashboard.js:107 | "Active Streaks" is the number of habits that have at least one completion, at most the number of habits |
| Dashboard.ActiveStreaksCountsCompletedHabits | frontend/src/pages/Dashboard.js:107 | no habit is active exactly when none has a completion; all are exactly when each has one |
| Dashboard.LongestStreak | frontend/src/pages/Dashboard.js:119 | "Longest Streak" is at least every habit's streak and is some habit's streak, or 0; 0 for no habits |
| Dashboard.TopHabits | frontend/src/pages/Dashboard.js:152-154 | min(3, n) habits, in non-increasing streak order, taken from the list, and no habit left out has a longer streak than one shown |
| Dashboard.Last7Days | frontend/src/pages/Dashboard.js:53-57 | seven days, oldest first, consecutive, the last being today |
| Dashboard.CountOn | frontend/src/pages/Dashboard.js:60-65 | the number of habits with a completion on the day, each counted once however many completions it has that day; at most the number of habits |
| Dashboard.CountOnExtremes | frontend/src/pages/Dashboard.js:60-65 | the count is 0 exactly when no habit has a completion that day, and the number of habits exactly when all do |
| Dashboard.CompletionData | frontend/src/pages/Dashboard.js:52-71 | exactly 7 bars, oldest first; bar k is labelled with the weekday of today-6+k and counts `CountOn` for that day, at most the number of habits |
| Dashboard.CountOnDependsOnlyOnCompletedHabits | frontend/src/pages/Dashboard.js:60-65 | a day's count depends only on which habits have a completion that day |
| Dashboard.RepeatCompletionKeepsCounts | frontend/src/pages/Dashboard.js:60-65 | appending a completion on a day the habit already has leaves every bar unchanged |
| HabitsPage.WithTag | frontend/src/pages/Habits.js:115 | exactly the habits whose tag equals the chosen one; an absent tag never matches |
| HabitsPage.FilteredHabits | frontend/src/pages/Habits.js:114-116 | the list unchanged when no tag is chosen, otherwise exactly the habits with that tag |
| HabitsPage.WithTagConcat | frontend/src/pages/Habits.js:115 | filtering keeps input order: it distributes over concatenation |
| HabitsPage.WithTagKeepsMatching | frontend/src/pages/Habits.js:115 | a list whose habits all carry the tag is returned unchanged |
| HabitsPage.FilterIdempotent | frontend/src/pages/Habits.js:114-116 | filtering twice equals filtering once |
| HabitsPage.TagsOf | frontend/src/pages/Habits.js:118 | the tags of the habits, position by position |
| HabitsPage.Dedup | frontend/src/pages/Habits.js:118 | `[...new Set(s)]`: every element of the input exactly once and nothing else |
| HabitsPage.DedupKeepsFirstOccurrenceOrder | frontend/src/pages/Habits.js:118 | the values come out in the order of their first occurrence |
| HabitsPage.UniqueTags | frontend/src/pages/Habits.js:118 | every habit's tag, the absent tag included, exactly once and nothing else |
| HabitsPage.HandleOpen | frontend/src/pages/Habits.js:58-75 | opening with a habit copies its name, description and tag; opening without one gives blank fields; the dialog is open |
| HabitsPage.HandleClose | frontend/src/pages/Habits.js:77-85 | a closed dialog with no selection and blank fields |
| HabitsPage.HandleSubmit | frontend/src/pages/Habits.js:87-95 | an update with the selected habit's id when one is selected, otherwise a create, carrying the fields as they are; then the dialog closes |
| HabitsPage.EditUnchangedSubmitsSameFields | frontend/src/pages/Habits.js:58-95 | opening a habit and submitting without edits asks to store the habit's own fields under its own id |
| CalendarPage.EventsOf | frontend/src/pages/Calendar.js:43-50 | one event per completion, in order, with the completion's id and day and the habit's name, id and tag |
| CalendarPage.HabitEvents | frontend/src/pages/Calendar.js:43-50 | a habit without completions gives no events; otherwise one per completion |
| CalendarPage.CalendarEvents | frontend/src/pages/Calendar.js:42-51 | the number of events equals the total number of completions |
| CalendarPage.CalendarEventsConcat | frontend/src/pages/Calendar.js:42-51 | the events of two habit lists are the events of the first followed by those of the second |
| CalendarPage.EventsAround | frontend/src/pages/Calendar.js:42-51 | habit i's events sit between those of the habits before and after it |
| CalendarPage.HabitEventAt | frontend/src/pages/Calendar.js:43-50 | the j-th event of a habit carries its j-th completion's id and day and the habit's name, id and tag |
| CalendarPage.EventPosition | frontend/src/pages/Calendar.js:42-51 | events are in habit order, then completion order: completion j of habit i is the event at position (completions before habit i) + j, with the fields above |
| CalendarPage.BackgroundColor | frontend/src/pages/Calendar.js:56-63 | health gives #2e7d32, productivity #ed6c02, learning #9c27b0, anything else #1976d2, each in both directions |
| CalendarPage.EventStyle | frontend/src/pages/Calendar.js:55-75 | only the background colour depends on the event; every other style field is the same constant |
| CalendarPage.SameStyleMeansSameColourClass | frontend/src/pages/Calendar.js:55-75 | two events look the same exactly when their tags are equal or both are outside the three known tags |
| ApiModels.NewCompletion | apps/api/models.py:30 | a new completion's `completed` is true |
| ApiModels.RowsOf | apps/api/models.py:26-28 | `habit.completions`: exactly the rows whose habit is the given one |
| ApiModels.TagRows | apps/api/models.py:18 | `habit.tags`: exactly the tag rows whose id the habit holds |
| ApiModels.CompletionStr | apps/api/models.py:35-36 | `str(completion)` is the habit name, then " on ", then the date text, and nothing else |
| Sequences.Where | apps/api/views.py:87-90 | a filter: exactly the elements the test accepts, never more than the input (order: `Sequences.WhereConcat`) |
| Sequences.WhereConcat | apps/api/views.py:87-90 | filtering keeps the input order: it distributes over concatenation |
| Sequences.WhereSingle | apps/api/views.py:87-90 | a one-element sequence is kept exactly when the test accepts its element |
| Sequences.WhereAgrees | apps/api/views.py:87-90 | two tests that agree on every element keep the same elements |
| Sequences.WhereKeepsPairwise | apps/api/models.py:33 | filtering keeps any pairwise property of the rows left, such as unique ids or one completion per day |
| ApiModels.DeleteHabit | apps/api/models.py:26-28 | deleting a habit removes exactly that habit and exactly its completions |
| ApiModels.DeleteUser | apps/api/models.py:15 | deleting a user removes exactly their habits and those habits' completions |
| ApiModels.DeleteHabitKeepsDbValid | apps/api/models.py:26-28 | the cascade leaves every table constraint in force, including that every completion's habit exists |
| ApiModels.DeleteUserKeepsDbValid | apps/api/models.py:15 | the user cascade leaves every table constraint in force |
| ApiModels.AppendHabitValid | apps/api/models.py:14-19 | a new habit with a fresh id, a name of at most 100 characters and existing tags keeps the habit table valid |
| ApiModels.HabitsStayValid | apps/api/models.py:14-18 | removing habits keeps the habit table valid |
| ApiModels.CompletionsStayUnique | apps/api/models.py:33 | removing completions keeps ids unique and at most one completion per (habit, date) |
| ApiViews.UserHabits | apps/api/views.py:87 | exactly the requesting user's habits |
| ApiViews.HabitQueryset | apps/api/views.py:84-91 | only the user's habits; with a non-empty `tag` parameter exactly those with a tag of that name; with an absent or empty one all of them |
| ApiViews.FindHabit | apps/api/views.py:98 | `get_object`: a habit of the query set with that primary key, or none exactly when there is none (then 404) |
| ApiViews.FindCompletion | apps/api/views.py:100-102 | the first row for (habit, date), or none exactly when there is none |
| ApiViews.CompleteRows | apps/api/views.py:100-104 | after `get_or_create` and the save: at most one row more, a new row only when none existed and then it is a fresh completed row, other rows unchanged, and a completed row for (habit, date) exists |
| ApiViews.CompleteLeavesOneCompletedRow | apps/api/views.py:99-104 | under one row per (habit, date), `complete` keeps that constraint and every row for (habit, today) is completed |
| ApiViews.CompleteIsIdempotent | apps/api/views.py:99-104 | completing twice on one day leaves the table as completing once |
| ApiViews.CompleteKeepsDbValid | apps/api/views.py:100-104 | completing an existing habit keeps every table constraint, and ids stay below the next unused id |
| ApiViews.CompletedOf | apps/api/views.py:110 | exactly the habit's rows with `completed` true |
| ApiViews.CompletedOfAllRows | apps/api/views.py:110 | when every row of the habit is completed, the completed rows are all its rows |
| ApiViews.ServerDates | apps/api/views.py:110 | the dates of exactly the habit's completed rows (same multiset), latest first |
| ApiViews.AnchoredRun | apps/api/views.py:111-117 | the leading run that reads today, today-1, ...: every position inside matches, the next does not, never longer than the list |
| ApiViews.ServerStreak | apps/api/views.py:107-118 | at most the number of completed rows, and above 0 only when the latest date among the habit's completed rows is today |
| ApiViews.ServerCountsDaysEndingToday | apps/api/views.py:111-117 | completed rows on n consecutive days ending today, one per day, give a streak of n |
| ApiViews.AnchoredRunFromLatest | apps/api/views.py:113-117 | anchored at the latest date, the server's run is the client's run length |
| ApiViews.TotalOf | apps/api/views.py:140 | the number of the habit's rows (`RowsOf`), at most the table size |
| ApiViews.DoneOf | apps/api/views.py:141 | the number of the habit's completed rows, the same rows the streak reads (`CompletedOf`), never above `TotalOf` |
| ApiViews.LogoutView | apps/api/views.py:61-68 | 400 when `refresh` is missing; 205 exactly when it is present and the token layer accepts it; nothing else |
| ApiViews.WalkFromToday | apps/api/views.py:111-117 | the `for` loop with its `break` returns the anchored run of the rows' dates |
| ApiViews.GetOrCreateCompleted | apps/api/views.py:100-104 | the rows after `get_or_create` plus the save are `CompleteRows`, and the next id moves on only when a row was created |
| ApiViews.CompleteOn | apps/api/views.py:96-105 | 404 and no change when the habit is not in the user's query set; otherwise 200, `{"status": "completed"}` and `CompleteRows`, with the tables still valid |
| ApiViews.Database.constructor | apps/api/models.py:7-36 | a database over valid tables is valid and holds exactly those tables |
| ApiViews.Database.Complete | apps/api/views.py:96-105 | the `complete` action updates the completions table as `CompleteOn` says and keeps the database valid; tags and habits unchanged |
| ApiViews.Database.Streak | apps/api/views.py:107-118 | 404 when the habit is not in the user's query set, otherwise `{"streak": ServerStreak}` |
| ApiViews.Database.Progress | apps/api/views.py:134-149 | one entry per user habit in table order, with its name, row count and completed count, and completed never above total |
| ApiSerializers.OutputFields | apps/api/serializers.py:35-44 | the response fields are all declared fields but the write-only `tag_ids` |
| ApiSerializers.InputFields | apps/api/serializers.py:35-45 | the request fields are `name`, `description` and `tag_ids`: the declared fields minus the primary key and the read-only ones |
| ApiSerializers.TagsJson | apps/api/serializers.py:27 | one tag object per tag row whose id the habit holds, in table order |
| ApiSerializers.SerializeCompletion | apps/api/serializers.py:20-23 | exactly the keys `id`, `habit`, `date` and `completed`, with the row's values |
| ApiSerializers.CompletionsJson | apps/api/serializers.py:31 | one completion object per row of the habit, completed or not, in table order, each with exactly the four completion keys |
| ApiSerializers.SerializeHabit | apps/api/serializers.py:26-45 | exactly the output fields' keys, so neither `tag_ids` nor `tag`, with the habit's id, user, name, description and creation time, its tags as `TagsJson` and its rows as `CompletionsJson` |
| ApiSerializers.HabitObject | apps/api/serializers.py:35-44 | the habit object has exactly the output keys, each holding the given value |
| ApiSerializers.TagIdList | apps/api/serializers.py:28-30 | a list of primary keys of existing tags, or failure exactly when some item is not one |
| ApiSerializers.ValidateField | apps/api/models.py:16-18 | a name is a non-blank text of at most 100 characters, a description any text, `tag_ids` a list of existing tag ids |
| ApiSerializers.Check | apps/api/serializers.py:35-45 | an absent key gives nothing; a present one gives its checked value or an error naming the field |
| ApiSerializers.Validate | apps/api/serializers.py:33-45 | `name` is required unless partial; a failure names an input field that was sent, or `name`; on success each entry is a checked input field sent in the request, each field at most once, and every input field sent is there |
| ApiSerializers.LookupValidated | apps/api/serializers.py:33-45 | the validated value of a sent input field is the value its check gave |
| ApiSerializers.ReadOnlyInputIgnored | apps/api/serializers.py:45 | a value sent for `user`, `tags`, `created_at` or `completions` changes nothing in validation: those fields can never be set from input |
| ApiSerializers.Lookup | apps/api/serializers.py:55 | the value kept for a field, present exactly when the field occurs |
| ApiSerializers.Drop | apps/api/serializers.py:48 | `pop("tag_ids")`: the field no longer occurs and every other field keeps its value |
| ApiSerializers.SetAttr | apps/api/serializers.py:56 | `setattr` changes exactly the named attribute |
| ApiSerializers.Create | apps/api/serializers.py:47-51 | id, owner and creation time as given; name and description from the validated data or blank; tags exactly the given `tag_ids`, or none |
| ApiSerializers.CreatedHabitIsValid | apps/api/serializers.py:47-51 | a habit created from a validated request with a fresh id keeps the habit table valid |
| ApiSerializers.CreatedHabitFits | apps/api/serializers.py:47-51 | a created habit's name fits in 100 characters and all its tags exist |
| ApiSerializers.Update | apps/api/serializers.py:53-60 | id, owner and creation time kept; name and description overwritten exactly when present; tags replaced by `tag_ids` exactly when it is given, otherwise unchanged |
| ClientServer.ServerHabitHasNoTag | apps/api/serializers.py:35-44 | the habit object the server sends has no `tag` for the client to read |
| ClientServer.UntaggedHabitsOnTheClient | frontend/src/pages/Habits.js:114-118 | with no habit tagged, any chosen tag filters to nothing, the tag list holds only the absent tag, and events have the default colour |
| ClientServer.CompleteResponseLeavesClientUnchanged | apps/api/views.py:105 | the completion answer has no `habit_id`, so the client's complete case leaves its list unchanged |
| ClientServer.FormJson | frontend/src/pages/Habits.js:87-95 | the body the client sends has `name` and `description`, `tag` exactly when set, and never `tag_ids` |
| ClientServer.FormNeverSetsTags | apps/api/serializers.py:47-51 | the server sees no `tag_ids` in the client's form, so a created habit has no tags |
| ClientServer.FormFieldsAreStored | apps/api/serializers.py:47-51 | a form that passes validation is stored with the name and description typed |
| ClientServer.StreaksAgreeOnlyFromToday | apps/api/views.py:110-117 | when every row of the habit is completed, the server's streak equals the client's streak over the completions the server sent if the latest day is today; otherwise the server says 0 while the client counts at least 1 |
| ClientServer.ReceivedCompletions | apps/api/serializers.py:31 | the client holds one completion per row of the habit, completed or not, in table order, with the row's id and date and no `habit_id` |
| ClientServer.ReceivedRow | apps/api/serializers.py:20-23 | a serialized row reads back on the client as its id and date, with no `habit_id` |
| ClientServer.ReceivedDates | apps/api/serializers.py:31 | the client holds the dates of all the habit's rows, in table order |
| ClientServer.UncompletedRowCountsOnlyOnTheClient | apps/api/views.py:110 | an uncompleted row today and a completed one yesterday: the server's streak is 0, the client's is 2 |
| ClientServer.ServerSkipsUncompleted | apps/api/views.py:110-117 | in that example the server reads only yesterday's row and reports 0 |
| ClientServer.ClientCountsUncompleted | frontend/src/pages/Dashboard.js:31-50 | in that example the client reads both rows and reports 2 |

## Left out

- The HTTP calls inside the async thunks and the `services/api` module they use. These are network I/O; each reducer case takes the request's outcome (a payload or an error payload) as its argument.
- Concurrency between requests in flight. Reducer cases and views are sequential transitions.
- Rendering: React, MUI, the chart and calendar widgets, `window.confirm` in `handleDelete`, and the loading spinners. These are UI.
- JavaScript `Date`: time zones, ISO strings, `toDateString` and the millisecond arithmetic. Dates are day numbers, and the weekday label is a function parameter of `Dashboard.CompletionData`. The mismatch between the chart's UTC day and the habits page's local day is not modelled.
- `handleComplete` sends the selected date, which the server never reads (`ApiViews.Database.Complete` takes the request body and ignores it).
- `frontend/src/App.js`, `frontend/src/store/index.js`, `apps/api/urls.py` and `apps/api/management/commands/create_test_user.py`. They are routing, wiring, and console and database I/O.
- The Django ORM is replaced by sequences filtered by predicates. A queryset's order is the table order (`Sequences.WhereConcat`).
- Sorting.SortByKeyDesc: no contract states the order among elements with equal keys (the insertion sort keeps them in input order, but this is not proved). So which of two habits with equal streaks `Dashboard.TopHabits` shows first, and which of two rows on the same date `order_by("-date")` yields first, is not promised. Neither streak depends on it (`Dashboard.StreakIgnoresOrder`).
- The JWT library: blacklisting a refresh token is the parameter `accepts` of `ApiViews.LogoutView`.
- The `home` view, `RegisterView`, `TagViewSet`, `HabitCompletionViewSet`, `UserSerializer` and the swagger branch of `get_queryset`. None is part of the habit logic modelled here.
- `perform_create`: the owner is the `user` argument of `ApiSerializers.Create`. The creation time (`auto_now_add`) and the new primary key are parameters too.
- ApiSerializers.Validate: reports only the first failing field, in the order name, description, tag_ids. The framework collects every field's error and message texts, which are not modelled.
- ApiSerializers.ValidateField: does not model the framework's trimming of whitespace in text fields, its coercion of numbers to text, or its acceptance of primary keys written as strings.
- ApiViews.Database.Complete: the 404 body is the framework's default `{"detail": "Not found."}`. Its exact text comes from the framework, not from this code.
- ApiSerializers.Update: returns the saved habit as a value rather than mutating a model instance and saving it. `instance.save()` and `tags.set` become the returned value.
- ApiSerializers.SerializeCompletion: serializes `date` as the day number rather than as an ISO date string.
- Creating and deleting habits through the API goes through the serializer functions and `ApiModels.DeleteHabit`, not through `Database` methods. Tag rows are never changed by the modelled views.
