# Production logger core, modelled in Dafny

This project models two parts of a live-production logging app. The first is the application store, including its timecode clock. The second is the activity feed of the dashboard.

- **Application store** (`src/contexts/AppContext.tsx`):
  - `appReducer` takes every state change. Each action replaces whole slices of the state. `TOGGLE_DARK_MODE` also persists the theme flag.
  - `timecodeToSeconds` and `secondsToTimecode` convert between `HH:MM:SS:FF` at 30 frames per second and a count of seconds.
  - The clock tick dispatches one of two things:
    - manual mode: the base timecode advanced by the time elapsed since a manual anchor;
    - automatic mode: the local time of day.
  - The provider passes add, update and delete calls on to the remote store. These calls are recorded as a trace of requests.
- **Activity feed** (`src/components/Dashboard/ActivityFeed.tsx`):
  - the filter and the newest-first sort of the shown entries;
  - the rows of the exported table;
  - the role check that decides who may edit;
  - the handlers that edit notes, select entries and delete one entry or the whole selection.

Files:

- `wrappers.dfy`: `Option`.
- `strings.dfy`: the JavaScript string operations the core uses, written over `seq<char>`:
  - `String(n)`, `Number(s)` on digit strings and `padStart`;
  - `split` on one character, and `join`;
  - ASCII `toLowerCase`, `includes` and `trim`.
- `timecode.dfy`:
  - timecode fields, with total frame count as the reference definition;
  - printing and parsing, and both conversions;
  - the manual and wall-clock computations of the tick.
- `app_context.dfy`:
  - the entities, `AppState`, the actions, the reducer and the tick;
  - the `AppStore` class, which holds the state, the storage map and the request trace.
- `activity_feed.dfy`:
  - lookups, filters, the stable sort, export rows, roles, selection and the delete plan;
  - the `Feed` class, which holds the component's state hooks.

Conventions:

- Time is integer milliseconds. Seconds are exact Dafny reals.
- JavaScript's `%` is written out as a remainder that takes the sign of the dividend (`Timecode.JsRem`).
- The clock, the time zone, the user's confirmation and the outcome of each remote call are parameters:
  - the time zone is an offset in milliseconds, ahead of UTC;
  - the user's confirmation is a boolean;
  - the outcome of each remote call is the position of the first call that rejects, or the rejection message.
- The asynchronous handlers are split at their `await`. `SaveEdit` / `SaveEditSettled` and `DeleteEntry` / `DeleteEntrySettled` are the part before the store call and the continuation after it.

## Model

| member | source | states |
|---|---|---|
| Strings.NatToString | src/contexts/AppContext.tsx:104 | `String(n)` of a natural number is a non-empty digit string with no leading zero; it has one digit exactly when n < 10 |
| Strings.IntToString | src/contexts/AppContext.tsx:104 | `String(n)` for n >= 0 is a digit string with no leading zero (unless it is `0`) that reads back as n; for n < 0 it is `-` followed by such a digit string that reads back as -n |
| Strings.ParseNat | src/contexts/AppContext.tsx:93 | `Number` of a digit string is 0 exactly when every digit is `0` (the empty string included) |
| Strings.ParseNatToString | src/contexts/AppContext.tsx:93 | `Number` reads the decimal rendering of n back as n |
| Strings.ParseNatLeadingZero | src/contexts/AppContext.tsx:93 | a leading zero does not change the number a digit string denotes |
| Strings.Repeat | src/contexts/AppContext.tsx:104 | the fill of `padStart`: n copies of one character |
| Strings.PadStart | src/contexts/AppContext.tsx:104 | `padStart` gives length max(\|s\|, width), keeps s as the suffix and fills only the front |
| Strings.Pad2 | src/contexts/AppContext.tsx:104 | every field is at least two characters; for 0 <= n < 100 exactly two digits |
| Strings.Pad2Digit | src/contexts/AppContext.tsx:104 | a single digit gets exactly one leading `0` |
| Strings.Pad2Parse | src/contexts/AppContext.tsx:93-104 | a padded field reads back as the number that was padded |
| Strings.Split | src/contexts/AppContext.tsx:93 | `split` on one character yields at least one part; no part contains the separator; joining the parts gives the input back |
| Strings.Join | src/contexts/AppContext.tsx:93 | `join` of no parts is empty, of one part is that part, and of several starts with the first part and the separator |
| Strings.JoinConsFirst | src/contexts/AppContext.tsx:93 | prefixing a character to the first part prefixes it to the join |
| Strings.SplitCons | src/contexts/AppContext.tsx:93 | a separator-free prefix followed by the separator splits off as the first part |
| Strings.SplitNoSep | src/contexts/AppContext.tsx:93 | a string without the separator splits into itself |
| Strings.LowerChar | src/components/Dashboard/ActivityFeed.tsx:22 | each ASCII capital becomes its own lowercase letter (code point + 32); no capital remains; other characters are unchanged |
| Strings.Lower | src/components/Dashboard/ActivityFeed.tsx:22 | `toLowerCase` keeps the length and lowercases character by character |
| Strings.LowerIdempotent | src/components/Dashboard/ActivityFeed.tsx:22-24 | lowercasing twice is lowercasing once |
| Strings.Includes | src/components/Dashboard/ActivityFeed.tsx:22-24 | `includes` is true exactly when the needle occurs at some position; the empty needle always occurs |
| Strings.SkipSpaceForward | src/components/Dashboard/ActivityFeed.tsx:86 | returns the first position at or after i that is not white space; everything skipped is white space |
| Strings.SkipSpaceBackward | src/components/Dashboard/ActivityFeed.tsx:86 | returns the end once trailing white space is dropped; everything dropped is white space |
| Strings.Trim | src/components/Dashboard/ActivityFeed.tsx:86-87 | `trim` returns a contiguous piece of s, with only white space removed at either end; it has no white space at its ends, and it is empty exactly when s is all white space |
| Timecode.FramesToFields | src/contexts/AppContext.tsx:98-102 | a frame count splits into canonical fields (minutes and seconds < 60, frames < 30) |
| Timecode.TotalFramesOfFields | src/contexts/AppContext.tsx:98-102 | splitting a count into fields and counting the frames again gives the same count |
| Timecode.FramesToFieldsOfTotal | src/contexts/AppContext.tsx:98-102 | canonical fields are recovered from their frame count |
| Timecode.DivModUnique | src/contexts/AppContext.tsx:99-102 | quotient and remainder by 30 or 60 are unique |
| Timecode.ParseFields | src/contexts/AppContext.tsx:93 | `split(':').map(Number)` of a well-formed timecode gives four non-negative fields |
| Timecode.SplitFour | src/contexts/AppContext.tsx:93 | four colon-free fields joined by `:` split back into those four |
| Timecode.DigitsHaveNoColon | src/contexts/AppContext.tsx:93 | a digit string contains no `:` |
| Timecode.ParseFormat | src/contexts/AppContext.tsx:93-104 | splitting and reading back a printed timecode gives the fields that were printed |
| Timecode.SplitFormat | src/contexts/AppContext.tsx:93-104 | `split(':')` of a printed timecode finds exactly its four padded fields |
| Timecode.FormatWidth | src/contexts/AppContext.tsx:104 | fields below 100 print as exactly 11 characters |
| Timecode.Format | src/contexts/AppContext.tsx:104 | the template `HH:MM:SS:FF`, each field through `padStart(2, '0')`; `ParseFormat` and `FormatWidth` state that it reads back and its width |
| Timecode.TimecodeToSeconds | src/contexts/AppContext.tsx:92-95 | the result is non-negative and equals H*3600 + M*60 + S + F/30, i.e. 30 times it is the total frame count |
| Timecode.TimecodeToSecondsFormat | src/contexts/AppContext.tsx:92-95 | on a printed timecode, the result is the frame count of its fields divided by 30 |
| Timecode.Trunc | src/contexts/AppContext.tsx:100-102 | truncation towards zero: the integer n with n <= x < n + 1 for x >= 0, and with n - 1 < x <= n for x < 0 |
| Timecode.JsRem | src/contexts/AppContext.tsx:100-102 | JavaScript's `x % y` for y > 0: the remainder lies in [0, y) for x >= 0 and in (-y, 0] for x < 0, and x minus it is a whole multiple of y |
| Timecode.SecondsToFields | src/contexts/AppContext.tsx:98-102 | for a non-negative total, minutes and seconds are < 60 and frames < 30; hours are floor(total/3600), not wrapped at 24 |
| Timecode.SecondsToFieldsByFrames | src/contexts/AppContext.tsx:98-102 | the four `Math.floor` expressions equal the fields of the frame count floor(30 * total) |
| Timecode.SecondsToFieldsOfFrames | src/contexts/AppContext.tsx:98-102 | whenever floor(30x) is k, the fields are those of frame count k |
| Timecode.SecondsToTimecode | src/contexts/AppContext.tsx:98-105 | for a total x >= 0 the result is the reference timecode of frame floor(30x): it truncates to the frame, never rounds |
| Timecode.RoundTrip | src/contexts/AppContext.tsx:92-105 | for canonical fields, `secondsToTimecode(timecodeToSeconds(T)) == T` |
| Timecode.SecondsToTimecodeWidth | src/contexts/AppContext.tsx:98-105 | below 100 hours the result is exactly 11 characters |
| Timecode.SecondsToTimecodeNegative | src/contexts/AppContext.tsx:98-105 | a negative total yields negative fields: -0.5 s prints as `-1:-1:-1:-15` |
| Timecode.NegativeHalfFields | src/contexts/AppContext.tsx:99-102 | each remainder of -0.5 keeps its sign, so every field of -0.5 s is negative |
| Timecode.FormatNegativeFields | src/contexts/AppContext.tsx:104 | negative fields are printed with their sign and are not padded |
| Timecode.ManualSeconds | src/contexts/AppContext.tsx:155-157 | base seconds plus (now - start)/1000: the base itself at the anchor, never below it afterwards |
| Timecode.ManualTimecode | src/contexts/AppContext.tsx:155-157 | once the anchor has passed, the manual timecode is the canonical timecode of the base's frame count plus the whole frames elapsed, (ms * 3) div 100, recomputed from the absolute delta |
| Timecode.ManualFrameCount | src/contexts/AppContext.tsx:155-157 | the base's frame count plus the whole frames elapsed: the base's at the anchor, never fewer afterwards |
| Timecode.ManualSecondsFrame | src/contexts/AppContext.tsx:155-157 | after the anchor the manual total is non-negative and falls in frame `ManualFrameCount` |
| Timecode.ManualFieldsFrames | src/contexts/AppContext.tsx:156-158 | the fields of base plus elapsed seconds are the fields of that frame count |
| Timecode.ElapsedFrames | src/contexts/AppContext.tsx:156-158 | floor(30 * (b + d/1000)) is the base's frames plus floor(3d/100) |
| Timecode.ManualTwoSecondsAfterOneHour | src/contexts/AppContext.tsx:153-158 | base `01:00:00:00`, 2000 ms after the anchor, gives `01:00:02:00` |
| Timecode.FramesOneHourTwoSeconds | src/contexts/AppContext.tsx:98-102 | 108060 frames are 1 h 0 min 2 s 0 frames |
| Timecode.WallClockFrame | src/contexts/AppContext.tsx:166 | `Math.floor(ms / 33.33)`: the result is the floor of ms / 33.33, and lies in 0..29 for ms in 0..999 |
| Timecode.WallClockFields | src/contexts/AppContext.tsx:162-166 | the local time of day at instant `now`: canonical fields with hours < 24, whose hours, minutes, seconds and leftover milliseconds add back up to the local milliseconds since midnight, and whose frames are the 33.33 ms frame of that leftover |
| Timecode.LocalMillis | src/contexts/AppContext.tsx:162 | milliseconds since local midnight: in 0..86399999 and congruent to `now` plus the zone offset modulo a day |
| Timecode.TimeOfDaySplit | src/contexts/AppContext.tsx:163-166 | hours, minutes, seconds and milliseconds taken from a time of day recompose it, with hours < 24 |
| Timecode.WallClockHalfPastNoon | src/contexts/AppContext.tsx:162-166 | 12:00:00.500 local time gives the fields 12, 0, 0, 15 |
| Timecode.WallClockTimecode | src/contexts/AppContext.tsx:162-168 | the automatic timecode is always exactly 11 characters |
| Timecode.WallClockTimecodeReadsBack | src/contexts/AppContext.tsx:162-168 | the automatic timecode is 11 characters, well-formed, and reads back as the fields of the current local time of day |
| Timecode.FloorShift | src/contexts/AppContext.tsx:102 | adding an integer shifts the floor by that integer |
| Timecode.FloorDiv | src/contexts/AppContext.tsx:99-101 | flooring a quotient by a positive integer is integer division of the floor |
| Timecode.FloorIntRatio | src/contexts/AppContext.tsx:166 | the floor of an integer ratio is integer division |
| AppContext.InitialState | src/contexts/AppContext.tsx:30-47 | the initial state: no user; no participants, locations, categories, tags or entries; empty selections; timecode `00:00:00:00`; automatic mode, no anchors, not recording; the stored theme |
| AppContext.Writes | src/contexts/AppContext.tsx:49-89 | the slices each action replaces: none for an unknown action, three for `SET_MANUAL_TIMECODE`, one for every other action |
| AppContext.AgreeExcept | src/contexts/AppContext.tsx:49-89 | the reducer's frame condition: equal states agree outside any set of slices, and agreeing outside no slice at all is equality |
| AppContext.AgreeEverywhere | src/contexts/AppContext.tsx:49-89 | states that agree on every slice are equal |
| AppContext.NumberOrNull | src/contexts/AppContext.tsx:75 | `startTime \|\| null` keeps a start time exactly when it is present and non-zero |
| AppContext.StringOrNull | src/contexts/AppContext.tsx:76 | `baseTimecode \|\| null` keeps a base exactly when it is present and non-empty |
| AppContext.Reduce | src/contexts/AppContext.tsx:49-89 | each action sets its target slice to the payload, whatever it held before; it leaves every other slice unchanged. Toggling negates the theme. `SET_MANUAL_TIMECODE` copies the mode, drops a start time of 0 and an empty base, and touches nothing else. An unknown action returns the state unchanged |
| AppContext.ReduceSetTimecode | src/contexts/AppContext.tsx:69-70 | `SET_TIMECODE` changes the current timecode and nothing else |
| AppContext.ToggleTwice | src/contexts/AppContext.tsx:63-66 | toggling the theme twice restores the state |
| AppContext.LastWriteWins | src/contexts/AppContext.tsx:51-85 | two replacing actions of the same kind in a row equal the second one alone (no merge) |
| AppContext.TickTimecode | src/contexts/AppContext.tsx:152-171 | there are three cases. Manual and anchored: base + (now - start)/1000 as a timecode. Automatic: the wall-clock time of day. Manual with the start or base missing: nothing |
| AppContext.AutoTickInRange | src/contexts/AppContext.tsx:160-169 | an automatic tick dispatches a well-formed timecode that reads back as the current local time of day, with canonical fields and hours < 24 |
| AppContext.ManualTickFrames | src/contexts/AppContext.tsx:153-159 | an anchored manual tick dispatches the base advanced by the whole frames elapsed since the anchor |
| AppContext.ZeroStartFreezesClock | src/contexts/AppContext.tsx:71-77 | entering manual mode with start time 0 stores no anchor, so later ticks dispatch nothing |
| AppContext.NotesPatch | src/components/Dashboard/ActivityFeed.tsx:99-101 | the update `{notes}` carries the notes and no other field |
| AppContext.BoolString | src/contexts/AppContext.tsx:65 | `toString` of a boolean is `"true"` exactly for true |
| AppContext.AppStore.constructor | src/contexts/AppContext.tsx:30-47 | starts from the initial state, with the theme read from storage (`=== 'true'`), and an empty trace |
| AppContext.AppStore.Dispatch | src/contexts/AppContext.tsx:63-66 | the new state is the reducer's result. A toggle writes `"darkMode"` as `"true"`/`"false"` of the new flag; other actions leave storage alone. Theme and storage stay in sync |
| AppContext.AppStore.Tick | src/contexts/AppContext.tsx:152-171 | the tick changes only the current timecode, to what `TickTimecode` dispatches; when nothing is dispatched the state is unchanged |
| AppContext.AppStore.AddLogEntry | src/contexts/AppContext.tsx:182-184 | appends exactly one add request and changes no state |
| AppContext.AppStore.UpdateLogEntry | src/contexts/AppContext.tsx:186-188 | appends exactly one update request with the given id and fields, and changes no state |
| AppContext.AppStore.DeleteLogEntry | src/contexts/AppContext.tsx:190-192 | appends exactly one delete request for the id and changes no state |
| AppContext.AppStore.DeleteAllLogEntries | src/contexts/AppContext.tsx:194-196 | appends one batch-delete request and returns the count the store reports |
| ActivityFeed.FindIndex | src/components/Dashboard/ActivityFeed.tsx:24 | the position of the first entity with the id; no earlier entity has it |
| ActivityFeed.FindRef | src/components/Dashboard/ActivityFeed.tsx:24 | `find` is absent exactly when no entity has the id. Otherwise it returns the first entity that has it |
| ActivityFeed.NameMatches | src/components/Dashboard/ActivityFeed.tsx:23-25 | a participant id matches exactly when it names a known participant whose lower-cased name contains the lower-cased term (`?.` short-circuits to false) |
| ActivityFeed.MatchesSearch | src/components/Dashboard/ActivityFeed.tsx:22-25 | an entry matches exactly when its notes contain the term or some participant name matches, ignoring case; the empty term matches every entry |
| ActivityFeed.NoFiltersPass | src/components/Dashboard/ActivityFeed.tsx:22-34 | with every filter input empty, every entry passes |
| ActivityFeed.Passes | src/components/Dashboard/ActivityFeed.tsx:22-34 | an entry passes exactly when it matches the search and each non-empty participant, location, start and end filter; with those four empty only the search decides, and an entry outside a date bound never passes |
| ActivityFeed.KeepPassing | src/components/Dashboard/ActivityFeed.tsx:21-34 | `filter` keeps each passing entry as often as it occurs and drops the rest; with no filters it returns the entries themselves |
| ActivityFeed.Insert | src/components/Dashboard/ActivityFeed.tsx:35 | inserting into a newest-first list keeps it newest first and adds exactly that entry |
| ActivityFeed.NotNewerThanHead | src/components/Dashboard/ActivityFeed.tsx:35 | a rearrangement of the tail plus an older entry holds nothing newer than the head |
| ActivityFeed.NewestFirstCons | src/components/Dashboard/ActivityFeed.tsx:35 | a head that is not older than a newest-first tail gives a newest-first list |
| ActivityFeed.SortNewestFirst | src/components/Dashboard/ActivityFeed.tsx:35 | the sort is newest first (timestamps non-increasing) and a permutation of its input |
| ActivityFeed.StampedAtAppend | src/components/Dashboard/ActivityFeed.tsx:35 | selecting the entries stamped t distributes over concatenation |
| ActivityFeed.StampedAtSingle | src/components/Dashboard/ActivityFeed.tsx:35 | a single entry is selected exactly when it is stamped t |
| ActivityFeed.InsertStable | src/components/Dashboard/ActivityFeed.tsx:35 | an inserted entry lands ahead of every entry with its timestamp and leaves their order alone |
| ActivityFeed.PassOlder | src/components/Dashboard/ActivityFeed.tsx:35 | passing a strictly newer head does not reorder entries stamped alike |
| ActivityFeed.SortStable | src/components/Dashboard/ActivityFeed.tsx:35 | the sort is stable: entries with equal timestamps keep their relative order |
| ActivityFeed.HeadThenTail | src/components/Dashboard/ActivityFeed.tsx:35 | selecting the entries stamped t splits into the head and the tail |
| ActivityFeed.FilteredEntries | src/components/Dashboard/ActivityFeed.tsx:21-35 | `filteredEntries` is newest first and a permutation of the stored entries that pass all the filters |
| ActivityFeed.FilteredMembers | src/components/Dashboard/ActivityFeed.tsx:21-34 | an entry is shown exactly when it is stored and passes the search, participant, location and date filters |
| ActivityFeed.NoFiltersShowAll | src/components/Dashboard/ActivityFeed.tsx:22-35 | with every filter input empty, all stored entries are shown |
| ActivityFeed.FilteredStable | src/components/Dashboard/ActivityFeed.tsx:21-35 | the shown entries stamped t are exactly the stored entries stamped t that pass, in their stored order |
| ActivityFeed.KeepPassingStampedAt | src/components/Dashboard/ActivityFeed.tsx:21-34 | `filter` keeps order: its entries stamped t are the stored entries stamped t that pass, in the same order |
| ActivityFeed.OrElse | src/components/Dashboard/ActivityFeed.tsx:49-54 | `s \|\| fallback`: s unless it is empty |
| ActivityFeed.NameOrEmpty | src/components/Dashboard/ActivityFeed.tsx:50-53 | a name that cannot be found joins as the empty string |
| ActivityFeed.NameOrUnknown | src/components/Dashboard/ActivityFeed.tsx:51-52 | the location and action cells are never empty. They are `Unknown` when the id is not found, and the name when it is found and non-empty |
| ActivityFeed.NamesCell | src/components/Dashboard/ActivityFeed.tsx:50-53 | the participants and tags cells are never empty. They are `None` when there are no ids, and the name when there is one known name |
| ActivityFeed.TwoDanglingNames | src/components/Dashboard/ActivityFeed.tsx:50 | two ids that cannot be found render as `, `, not as `None` |
| ActivityFeed.NotesCell | src/components/Dashboard/ActivityFeed.tsx:54 | notes of up to 50 characters appear unchanged. Longer notes are cut to the first 50 plus `...`, so the cell is at most 53 characters |
| ActivityFeed.ExportRows | src/components/Dashboard/ActivityFeed.tsx:47-55 | one row per shown entry, in the order shown |
| ActivityFeed.ExportShown | src/components/Dashboard/ActivityFeed.tsx:21-55 | the exported table has one row per entry the feed shows, in the order shown, each row built from a stored entry that passes the filters |
| ActivityFeed.ExportRowOf | src/components/Dashboard/ActivityFeed.tsx:47-55 | one row: the timecode or `N/A`, the participant, location, action, tag and notes cells in column order; no name cell is empty |
| ActivityFeed.ExportRowCells | src/components/Dashboard/ActivityFeed.tsx:49-54 | no cell of a row is empty, the notes cell is at most 53 characters, and it begins with the first 50 characters of the notes |
| ActivityFeed.IsAdmin | src/components/Dashboard/ActivityFeed.tsx:186 | true exactly when a user is signed in with role `admin` |
| ActivityFeed.CanEdit | src/components/Dashboard/ActivityFeed.tsx:187 | true exactly when a user is signed in with role `admin` or `logger`; every admin can edit |
| ActivityFeed.Without | src/components/Dashboard/ActivityFeed.tsx:141 | `filter(x => x !== id)` keeps exactly the other ids, leaves a list without the id unchanged, and introduces no duplicates |
| ActivityFeed.WithoutAt | src/components/Dashboard/ActivityFeed.tsx:141 | in a duplicate-free list holding the id at position k, the filter removes exactly position k and keeps the rest in order |
| ActivityFeed.NoDupCons | src/components/Dashboard/ActivityFeed.tsx:142 | a new id in front of a duplicate-free list keeps it duplicate-free |
| ActivityFeed.Toggled | src/components/Dashboard/ActivityFeed.tsx:138-144 | the id's membership flips and every other id keeps its membership. An unselected id is appended at the end. A selected id is removed from its position with the order of the rest kept. A duplicate-free selection stays duplicate-free |
| ActivityFeed.WithoutAppended | src/components/Dashboard/ActivityFeed.tsx:141-142 | removing an id just appended to a selection that lacked it gives the selection back |
| ActivityFeed.ToggleTwice | src/components/Dashboard/ActivityFeed.tsx:138-144 | selecting and then deselecting an unselected entry restores the selection exactly |
| ActivityFeed.Ids | src/components/Dashboard/ActivityFeed.tsx:150 | `map(entry => entry.id)`: the ids, in order |
| ActivityFeed.PlanAsWritten | src/components/Dashboard/ActivityFeed.tsx:155-175 | the handler's decision as written. An empty selection deletes nothing. It is a batch delete exactly when a non-empty selection has as many ids as there are stored entries; otherwise it deletes each selected id |
| ActivityFeed.Plan | src/components/Dashboard/ActivityFeed.tsx:155-175 | the intended decision. It is a batch delete exactly when the selection is non-empty and selects every stored entry. An empty selection deletes nothing; otherwise it deletes each selected id |
| ActivityFeed.PlanRemovesSelection | src/components/Dashboard/ActivityFeed.tsx:167-175 | the intended decision removes a stored entry exactly when it is selected |
| ActivityFeed.AsWrittenRemovesUnselected | src/components/Dashboard/ActivityFeed.tsx:167-169 | the count comparison can batch-delete an entry nobody selected |
| ActivityFeed.NoDupCard | src/components/Dashboard/ActivityFeed.tsx:167 | a duplicate-free list has as many distinct elements as its length |
| ActivityFeed.SubsetSameCard | src/components/Dashboard/ActivityFeed.tsx:167 | a subset of equal size is the whole set |
| ActivityFeed.AsWrittenAgrees | src/components/Dashboard/ActivityFeed.tsx:167-175 | the two decisions coincide when the selection is duplicate-free and holds only ids of stored entries, and stored ids are distinct |
| ActivityFeed.DeleteRequests | src/components/Dashboard/ActivityFeed.tsx:172-174 | one delete request per id, in order |
| ActivityFeed.PlanRequests | src/components/Dashboard/ActivityFeed.tsx:166-175 | the calls stop after the first rejection. A batch is one `deleteAll`; otherwise the calls delete the selected ids in selection order |
| ActivityFeed.RequestsTargetSelection | src/components/Dashboard/ActivityFeed.tsx:166-175 | under the intended decision, every single deletion names a selected id. A batch is issued only when every stored entry is selected |
| ActivityFeed.IssuePlan | src/components/Dashboard/ActivityFeed.tsx:166-175 | issues exactly `PlanRequests` of the plan, stopping after the first rejection, reports whether one occurred, and changes no store state |
| ActivityFeed.Feed.constructor | src/components/Dashboard/ActivityFeed.tsx:9-19 | the initial hook values: empty filters, not editing, not saving, nothing selected |
| ActivityFeed.Feed.SetSearchTerm | src/components/Dashboard/ActivityFeed.tsx:225 | sets the search term and nothing else |
| ActivityFeed.Feed.SetFilterParticipant | src/components/Dashboard/ActivityFeed.tsx:236 | sets the participant filter and nothing else |
| ActivityFeed.Feed.SetEditNotes | src/components/Dashboard/ActivityFeed.tsx:402 | sets the edited notes and nothing else |
| ActivityFeed.Feed.EditEntry | src/components/Dashboard/ActivityFeed.tsx:76-81 | starts editing the entry from its notes and clears the error |
| ActivityFeed.Feed.SaveEdit | src/components/Dashboard/ActivityFeed.tsx:83-101 | does nothing while saving. Blank notes set the empty-notes error and issue no update. Otherwise it marks saving, clears the error and issues exactly one update, with the trimmed notes only |
| ActivityFeed.Feed.SaveEditSettled | src/components/Dashboard/ActivityFeed.tsx:102-112 | success leaves edit mode. A rejection keeps the edit and shows its message, or the generic one when the message is empty. `saving` is false either way |
| ActivityFeed.Feed.CancelEdit | src/components/Dashboard/ActivityFeed.tsx:115-119 | leaves edit mode and clears the notes and the error |
| ActivityFeed.Feed.DeleteEntry | src/components/Dashboard/ActivityFeed.tsx:121-128 | an unconfirmed delete does nothing. A confirmed one marks the entry as deleting and issues exactly one delete |
| ActivityFeed.Feed.DeleteEntrySettled | src/components/Dashboard/ActivityFeed.tsx:129-135 | clears the deleting mark whatever the outcome |
| ActivityFeed.Feed.SelectEntry | src/components/Dashboard/ActivityFeed.tsx:138-144 | the selection becomes `Toggled(selection, id)`; nothing else changes |
| ActivityFeed.Feed.SelectAll | src/components/Dashboard/ActivityFeed.tsx:146-153 | the selection is emptied when all were selected. Otherwise it becomes exactly the ids of the shown entries, in order. `selectAll` is negated |
| ActivityFeed.Feed.DeleteSelected | src/components/Dashboard/ActivityFeed.tsx:155-184 | an empty selection or a refused confirmation does nothing. Otherwise it issues the calls of the intended plan, in order, stopping at the first rejection. It clears the selection and `selectAll` only when no call failed |
| ActivityFeed.Feed.DeleteSelectedAsWritten | src/components/Dashboard/ActivityFeed.tsx:155-184 | the handler as written: like `DeleteSelected`, but the calls are those of `PlanAsWritten`, which compares the selection's length with the number of stored entries |

## Left out

- Rendering (JSX, class strings, icons) and the PDF library calls; only the row projection of the export is modelled.
- The timestamp cell of the export: `toLocaleString` is locale specific.
- `window.confirm`, `alert` and `console`: confirmation is a boolean parameter; alerts and logging have no effect on state.
- The remote store, its subscriptions and the `useEffect` plumbing that turns snapshots into `SET_*` actions.
  - The provider's calls are recorded as requests; what the store then does to its documents is not modelled.
  - Snapshots reach the model only as `SET_*` actions.
- `setInterval` scheduling and React re-rendering: one tick is `AppStore.Tick`, with the instant passed in.
- `Date`: the instant is integer milliseconds, and the local time zone is a fixed offset parameter. Daylight-saving changes and the parsing of the date filter strings are outside the model. A date bound is an optional instant.
- IEEE-754 doubles: all conversions are over exact reals, so the rounding of JavaScript floats (in `frames / 30`, `% 1`, `/ 33.33`) is not claimed.
- AppContext.TickTimecode: requires the manual base to be a well-formed timecode (four fields of decimal digits). For malformed strings, `Number` gives `NaN` or accepts other numerals, and neither is modelled.
- Strings.Lower: only ASCII letters are lowercased; Unicode case mapping is not modelled.
- ActivityFeed.NotesCell: lengths and cuts are counted in Unicode scalar values, not in the UTF-16 code units JavaScript uses.
- ActivityFeed.Feed.DeleteSelected: follows the intended batch decision (see Findings); `Feed.DeleteSelectedAsWritten` follows the count comparison. The text of the confirmation message is not modelled in either.
- ActivityFeed.IssuePlan: the number of removed documents that `deleteAllLogEntries` reports comes from the store; the model passes the count of stored entries in its place, and the handler ignores it either way.
- The location and date-range filters have no input in the component, so `Feed` has no setters for them. Their logic is modelled in `Passes`.
- `useApp`'s error when used outside the provider, and `src/App.tsx`: runtime wiring with no logic to verify.
- Concurrency: the handlers' awaits are split into a call and its continuation. Interleavings of several handlers in flight are not enumerated.

## Findings

| source | as written | input that shows it | evidently intended | confidence | as-written member | corrected member |
|---|---|---|---|---|---|---|
| src/components/Dashboard/ActivityFeed.tsx:167 | batch-deletes every stored entry whenever the selection has as many ids as the store has entries | stored entries `a`, `b`; selection `["a", "c"]`, where `c` was deleted elsewhere after being selected: `deleteAllLogEntries` also removes the unselected `b` | batch-delete only when every stored entry is selected ("se selecionou todas") | not executed | ActivityFeed.AsWrittenRemovesUnselected | ActivityFeed.PlanRemovesSelection |
