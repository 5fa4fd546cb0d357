# Workout logger core, modelled in Dafny

The repository holds three small browser workout loggers. Under their page code sits a
little logic, and this project models it:

- **data.js** keeps strength sessions under the storage key `v1_sessions`. Saving pushes the
  new session, re-sorts the whole list newest first by `timestamp` and writes it back. The
  spreadsheet export turns every stored session into one row: twelve base cells, plus the
  accessory cells of its own training day (1, 2 or 3). The header lists 36 names. The
  export also builds a `YYYY-MM-DD HH:MM` timestamp text and a `Strength_Log_YYYYMMDD.xlsx`
  file name.
- **app.js** is the single-lift logger. While the weight text is blank, the submit button
  is disabled. A submission whose parsed weight is `NaN` or not positive is rejected. An
  accepted entry is stored under `simpleStrengthLog_v1`, newest first. The logs tab shows
  either an empty-state message or one card per entry.
- **script.js** is the day tracker. Logging a day does these steps:
  - derives the section id from the day label;
  - collects the filled number inputs of that section into an exercise map;
  - appends one record to the in-memory history and writes the whole history under
    `workoutHistory`;
  - redraws one history line per record.

Module layout:

- `Wrappers` (`wrappers.dfy`): `Option` and `Result`.
- `JsText` (`js_text.dfy`): the JavaScript behaviour the code relies on:
  - a `Value` type for record fields (`undefined`, `null`, booleans, numbers, strings),
    with truthiness, `||` and `!== undefined ? v : ''`;
  - `String(n)`, `padStart`, `trim`, ASCII `toLowerCase` and `join`.
- `Storage` (`storage.dfy`):
  - `LocalStorage<T>`, a class whose field maps each key to the list stored under it;
  - the stable newest-first sort, with its specification and lemmas.
- `Sessions` (`sessions.dfy`): data.js.
- `LiftLog` (`lift_log.dfy`): app.js.
- `WorkoutHistory` (`workout_history.dfy`): script.js. The tracker is a class holding the
  history list and the storage it writes to.

Code that changes state step by step is written as methods, with `modifies` clauses and
loop invariants:

- the saves;
- the tracker's `logWorkout`;
- the `map` and `forEach` loops that build the rows, cards, exercise map and history lines.

Each such method is proved against a function, and the lemmas state the properties of
that function. The JSON round trip through storage is the identity. The one exception is
a `NaN` day number in app.js: it comes back as `null`.

## Model

| member | source | states |
|---|---|---|
| Storage.LocalStorage.GetItem | data.js:4 | The stored list for a key, or nothing when the key is absent |
| Storage.LocalStorage.SetItem | data.js:13 | The list under the key is replaced and every other key keeps its list |
| Storage.SortNewestFirst | data.js:12 | The sorted list has the same length and the same multiset of records, with timestamps non-increasing |
| Storage.SortNewestFirstIsStable | data.js:12 | For every timestamp, the records carrying it keep their original relative order (the comparator sort is stable) |
| Storage.StableOrderIsUnique | data.js:12 | Two newest-first lists that agree on the order of every timestamp's records are equal |
| Storage.SortNewestFirstCharacterized | data.js:12 | A list is the result of the sort exactly when it is newest first and keeps every timestamp's records in input order |
| Storage.SortNewestFirstOfSorted | data.js:12 | Sorting a list that is already newest first leaves it unchanged |
| Storage.AppendAndSort | data.js:10-12 | Push-then-sort gives one more record, the old multiset plus the new one, and a newest-first list. The new record follows every earlier record with its timestamp. On a sorted list it equals insertion at the right place |
| Sessions.GetSessions | data.js:3-6 | Returns the stored sessions, or the empty list when `v1_sessions` is absent |
| Sessions.SaveSession | data.js:8-14 | Only `v1_sessions` changes, and it becomes the sort of the old sessions plus the new one |
| Sessions.SaveSessionResult | data.js:9-13 | After a save: one more session, a permutation of old plus new, newest first, the new session after earlier sessions with the same timestamp |
| Sessions.FormatTimestampRoundTrip | data.js:26 | The `YYYY-MM-DD HH:MM` text of a valid date, for any year, reads back to the same year, month, day, hour and minute |
| Sessions.ExportFileNameLayout | data.js:113 | The file name is `Strength_Log_` + year digits + two-digit month + two-digit day + `.xlsx` |
| Sessions.ExportFileNameDigits | data.js:113 | The digits between prefix and extension denote year·10000 + month·100 + day |
| Sessions.BaseCell | data.js:30-41 | The timestamp cell is the formatted local date and time of the session. The `dayId` cell is the session's `dayId` exactly. Every other base cell is the field's own value or `''`, and never `undefined` |
| Sessions.TimestampCellReadsBack | data.js:25-30 | Every exported row has a timestamp cell, and it is text from which the session's local date and time read back |
| Sessions.HeaderDistinct | data.js:87-106 | The header has 36 names and no name twice |
| Sessions.HeaderLayout | data.js:87-106 | The header is the row literal's twelve names followed by the day 1, day 2 and day 3 accessory names, each in assignment order |
| Sessions.RowNamesFollowHeader | data.js:29-81 | A row's names, in insertion order, are the header's first twelve followed by exactly its own day's block of the header |
| Sessions.RowNamesDistinct | data.js:29-81 | A row never has a name twice, and every name it has is in the header |
| Sessions.AccessoriesAfterBase | data.js:50-81 | No accessory assignment overwrites a cell of the row literal |
| Sessions.BuildRowAt | data.js:29-82 | A base name holds the row literal's cell; an accessory name of the session's day holds `field \|\| ''` |
| Sessions.RowCells | data.js:29-82 | A row's names are exactly the base names plus its day's accessory names. Every non-timestamp cell is the field or `''`, and only `dayId` can be `undefined` |
| Sessions.RowWidth | data.js:50-81 | A row has 18 cells for day 1, 20 for day 2, 22 for day 3 and 12 for any other `dayId` |
| Sessions.DefinedCells | data.js:32-38 | Bodyweight, main weight and the five sets keep any defined value, `0` included, and are `''` when undefined |
| Sessions.GatedCell | data.js:39-40 | The AMRAP reps or RPE cell is the defined field only when `amrapCheckbox` is truthy, otherwise `''` |
| Sessions.AmrapCells | data.js:39-40 | Both gated cells are `''` unless `amrapCheckbox` is truthy; otherwise each is its field or `''` |
| Sessions.TruthyOnlyCells | data.js:41-80 | Notes and the day's accessory cells keep truthy values only; `0`, `''` and absent become `''` |
| Sessions.ZeroCells | data.js:32-80 | A zero is written out in a numeric base cell but blanked in an accessory cell |
| Sessions.ExportSessions | data.js:17-24 | No sessions means nothing to export, with the alert `No sessions to export.`. Otherwise: the fixed header, the dated file name, and one row per stored session in stored order |
| Sessions.ExportRowsFitHeader | data.js:24-106 | Every name of every exported row is a header name, and every row has all twelve base cells |
| Sessions.ExportSessionsToExcel | data.js:16-83 | The `map` over the stored sessions gives exactly the export outcome of the stored list |
| JsText.Or | data.js:41 | `v \|\| fallback` is one of its operands. It is truthy exactly when either operand is. It is `v` when `v` is truthy and the fallback otherwise |
| JsText.DefinedOrEmpty | data.js:32 | A defined value is kept, `undefined` becomes `''`, and the result is never `undefined` |
| JsText.NatToString | data.js:26 | `String(n)` is a non-empty digit string. It has one digit exactly for n < 10, and starts with `0` only for n = 0, so there are no leading zeros |
| JsText.NatToStringRoundTrip | data.js:26 | Reading the digits of `String(n)` gives back n |
| JsText.IntToStringRoundTrip | data.js:26 | `String(n)` of any integer, negative ones with their minus sign, reads back as n |
| JsText.PadStart | data.js:26 | `padStart` keeps a long enough text; a shorter one is filled on the left up to the width and ends with the text |
| JsText.Pad2Digits | data.js:26 | `String(n).padStart(2, '0')` for 0 ≤ n < 100 is two digits that read back as n |
| JsText.DigitsValueAppend | data.js:113 | Concatenated digit strings read as the first shifted by the second's length plus the second |
| JsText.TrimStart | app.js:45 | A suffix of the text: everything removed in front of it is whitespace, and it does not start with whitespace |
| JsText.TrimEnd | app.js:45 | A prefix of the text: everything removed after it is whitespace, and it does not end with whitespace |
| JsText.Trim | app.js:45 | `trim()` is a piece of the text with only whitespace before and after it, and it neither starts nor ends with whitespace |
| JsText.TrimEmptyIffBlank | app.js:45 | `trim()` is empty exactly when the text is all whitespace |
| JsText.LowerAscii | script.js:52 | The result is never a capital. A capital becomes the small letter at the same place in the alphabet, and every other character is kept |
| JsText.JoinPartAt | script.js:81-83 | Every part of a joined list sits in the joined text at its offset: the lengths of the parts and separators before it |
| JsText.JoinOffsetOrdered | script.js:81-83 | In a joined list each part, and the separator after it, ends before any later part starts |
| JsText.JoinSeparatorAt | script.js:83 | In a joined list the separator sits right after every part but the last |
| JsText.JoinLength | script.js:83 | A joined non-empty list ends right after its last part |
| LiftLog.SubmitDisabled | app.js:43-47 | The submit button is disabled exactly when the weight text is all whitespace |
| LiftLog.CheckSubmission | app.js:57-72 | Rejected with `Please enter a valid weight.` exactly when the weight is `NaN` or ≤ 0. Otherwise the entry carries the form's name, day and weight and the two clock readings |
| LiftLog.LoggedMessage | app.js:75 | The success toast is the exercise name followed by ` logged: `, the weight text and ` kg! 💪` |
| LiftLog.GetLogEntries | app.js:85-88 | Returns the stored entries, or the empty list when `simpleStrengthLog_v1` is absent |
| LiftLog.SaveLogEntry | app.js:90-96 | Only `simpleStrengthLog_v1` changes, and it becomes the sort of the old entries plus the new one |
| LiftLog.Submit | app.js:54-75 | A rejected form leaves storage unchanged and shows the error toast. An accepted one saves exactly its entry and shows the success toast |
| LiftLog.AcceptedSubmissionStored | app.js:61-74 | An accepted submission grows the list by one, keeps every earlier entry, leaves it newest first, and stores the form's name, day and weight |
| LiftLog.DayText | app.js:123 | A stored `NaN` day shows as `null`. Any other day below 10^21 in magnitude, negative ones with their minus sign, shows as text that reads back as the day; a non-negative day shows as its decimal digits with no leading zero |
| LiftLog.CardFor | app.js:115-125 | The card header is the entry's local date. The body is exactly the exercise name, then ` (Day <day>): `, then the weight text followed by ` kg` |
| LiftLog.CardsFor | app.js:111-126 | One card per entry, in entry order, each built from its own entry |
| LiftLog.RenderLogs | app.js:100-127 | No container: nothing. No entries: only the empty-state message. Otherwise one card per stored entry, in stored order |
| WorkoutHistory.WorkoutTracker.constructor | script.js:9 | The history starts as the stored list, or empty when `workoutHistory` is absent, and equals what is stored |
| WorkoutHistory.WorkoutTracker.RenderHistory | script.js:77-87 | One line per record, in history order |
| WorkoutHistory.WorkoutTracker.LogWorkout | script.js:41-66 | Appends exactly one record (day, date, time and the exercise map of the day's section), unsorted and unvalidated. Writes the whole history under `workoutHistory`, redraws every line, and returns the alert text |
| WorkoutHistory.Assign | script.js:59 | `exercises[name] = value` makes the name map to the value, leaves other names alone, and keeps an existing name's position or adds a new name at the end |
| WorkoutHistory.AssignKeepsKeysUnique | script.js:59 | Assignment never lists a name twice |
| WorkoutHistory.CollectExercises | script.js:55-61 | The `forEach` over the inputs builds exactly the collected exercise map |
| WorkoutHistory.CollectedKeysUnique | script.js:55-61 | A record lists no exercise name twice |
| WorkoutHistory.CollectedNames | script.js:55-61 | An exercise is in the map exactly when some input has both a non-empty name and a non-empty value |
| WorkoutHistory.LastInputWins | script.js:55-61 | An exercise's value is the text of the last filled input with its name, followed by ` kg` |
| WorkoutHistory.SectionId | script.js:52 | The section id is no longer than the label and has no spaces and no capital letters |
| WorkoutHistory.SectionIdOfPlain | script.js:52 | A label without spaces or capitals is its own section id |
| WorkoutHistory.SectionIdIdempotent | script.js:52 | Deriving the section id twice changes nothing |
| WorkoutHistory.SectionIdIgnoresSpace | script.js:52 | Inserting a space anywhere in a label does not change its section id |
| WorkoutHistory.SectionIdChar | script.js:52 | A single space gives the empty id; any other character gives its lowered form |
| WorkoutHistory.SectionIdAppend | script.js:52 | The id of a joined label is the joined ids of its pieces. With SectionIdChar, this fixes the id of every label as the lowered label with its spaces removed |
| WorkoutHistory.FormatLineShowsRecord | script.js:81-84 | A history line starts with `<day> - <date> at <time> - `, and is exactly that with no exercises. Each exercise's `name: weight` text sits at its own start offset. Each text ends before the next one starts. `, ` follows every text but the last, and the line ends where the last text ends |

## Left out

- Page wiring is not modelled: tab switching, element lookups, event listeners, `form.reset()` and the button re-check after it, and the `if (weightInput && submitButton)` guard.
- Card markup is left out: a card is modelled as its header text and body text, not as HTML.
- Timers are not modelled. The toast texts, the export's `No sessions to export.` alert and the tracker's alert are returned as values; `setTimeout`/`clearTimeout` are dropped.
- Spreadsheet output stops at the header, the rows and the file name. `XLSX.utils.json_to_sheet`, the `Sessions` sheet name, `XLSX.write` and the `saveAs` download are foreign library calls and file output.
- Clock and locale values are inputs:
  - the `Date.now()` readings;
  - the local calendar fields of `new Date(...)`, as a function from timestamp to fields;
  - `toLocaleDateString`/`toLocaleTimeString`, as parameters or plain strings.
- Sessions.ExportFileNameDigits: proved for years ≥ 0 only. A negative year puts a `-` sign among the digits of the file name.
- `parseInt` and `parseFloat` are given as their results: an `Option` per field, with `None` for `NaN`. A weight of `Infinity` passes the `<= 0` check but is written to JSON as `null`; the model's weights are real numbers, so it does not capture that.
- Number-to-text for weights (`${maxWeight}`) is a parameter. `String(n)` is modelled for integers only: the date fields and the card's day text use it.
- LiftLog.DayText: a day of magnitude 10^21 or more prints in exponent form in JavaScript (`1e+21`), and a day beyond the double range becomes `Infinity`, which JSON stores as `null`. The model prints every digit of such a day.
- LiftLog.CheckSubmission: the exercise name is modelled as a string. A form without that field gives `null`, which the model does not represent.
- JSON is taken as the identity on stored lists. A `NaN` day in app.js is the exception: it is kept as `None` and shown as `null`. Other JSON edge cases are out: `undefined` fields are dropped and non-finite numbers become `null`.
- Malformed stored data is not modelled. `JSON.parse` would throw on it, and the code has no recovery (data.js:5, app.js:87, script.js:9).
- WorkoutHistory.SectionId: `toLowerCase` is modelled for ASCII letters only; other letters are kept as they are.
- A section id that is not a valid CSS id (empty, or starting with a digit) makes the browser's selector throw. This is not modelled; an id with no section finds no inputs.
- `Object.entries` lists integer-like property names first, in ascending order. The model keeps every exercise in insertion order, which matches only names that are not array indices.
- Storage quota errors and writes from other tabs are not modelled.
