# Timetable generator of the school site script

This project models the timetable part of the site script `app.js`
(`initTimetable`) in Dafny and proves properties of the model.

- **Slot builder.** `buildSlots` fills a fixed week of five days with five
  periods each.
  - Subjects are handed out round-robin by one counter that runs through
    all 25 slots.
  - Activities are handed out round-robin by day.
  - An empty list or an empty element falls back to "Study" or "Revision".
- **View model of `render`.**
  - The built week is grouped by day in insertion order (the `byDay` reduce
    and `Object.entries`).
  - Each day becomes a card with that day's activity and its period lines.
  - A list of at most five reminders is built from the subjects, or a single
    fallback line when there are none.
  - The markup is replaced by a structured value (`View.Rendered`).
- **Form parsing.** On submit each list field is split on ",", every piece
  is trimmed, and empty pieces are dropped. On load a saved list is joined
  back with ", ".
- **Saved record.** One record lives under the key `whhs_timetable`. It is
  written whole on submit. On page load it is applied only when all three
  fields are truthy.
- **Page controller.** `Timetable.TimetablePage` is a class holding the
  three form fields, what is shown, and the stored value. Its `Init` (page
  load) and `Submit` methods change that state as the script does.

Modules:

| module | file | what it models |
|---|---|---|
| `Slots` | `slots.dfy` | `buildSlots` and its specification `SlotAt` |
| `Grouping` | `grouping.dfy` | the `byDay` reduce |
| `View` | `view.dfy` | `render` as a view model, with the specification `WeekView` |
| `Form` | `form.dfy` | `trim`, `split`, `join` and list parsing |
| `Storage` | `storage.dfy` | the load check and the saved shape |
| `Timetable` | `page.dfy` | the controller class |
| `Wrappers` | `wrappers.dfy` | `Option` |

Saving a request and loading it again does not always give the request
back: it fails when the class label is empty. The submit handler stores whatever was typed
(app.js:111, 115-116). The load check at app.js:97 tests
`data.studentClass` for truthiness, and the empty string is falsy. So such a
record is saved but never applied. The model follows the code:
`Storage.SaveLoadRoundTrip` and `Timetable.SubmitThenReload` state the round
trip as holding exactly when the class label is non-empty. This is not
listed as a finding, because the form markup that might make the field
required is not part of this model.

## Model

| member | source | states |
|---|---|---|
| Slots.Pick | app.js:51-53 | `xs[i % xs.length] \|\| fallback`: the fallback for an empty list (NaN index) or an empty element; otherwise element i mod \|xs\| |
| Slots.BuildSlots | app.js:44-58 | the nested loops produce exactly 25 slots; slot k is `SlotAt(subjects, activities, k)`: day k / 5, period k % 5 + 1, subject by the shared counter k, activity by the day |
| Slots.WeekIsDayMajor | app.js:49-54 | position 5d + p - 1 lies on weekday d (Monday..Friday) in period p, so days and periods run in order |
| Slots.SubjectsRoundRobin | app.js:47-55 | the subject counter is not reset per day: the subject of slot k + \|subjects\| equals that of slot k across day boundaries |
| Slots.LastSlotOfTwoSubjects | app.js:53-55 | with subjects Math, English the 25th slot is Math and the first Tuesday slot is English |
| Slots.ActivityKeyedOnDay | app.js:51 | all five slots of day d carry the same activity, element d mod \|activities\| of the activities or "Revision" |
| Slots.SlotsNeverBlank | app.js:51-53 | no slot has an empty subject or activity; empty subjects give "Study" everywhere, empty activities "Revision" everywhere |
| Grouping.GroupByDay | app.js:65-69 | the reduce yields one entry per distinct day in first-seen order, each holding exactly that day's slots in original order |
| Grouping.FirstSeenCovers | app.js:65-69 | a day has a group iff some slot falls on it |
| Grouping.OnDayCount | app.js:65-69 | a day's group has as many slots as the week has positions on that day |
| Grouping.OnDayKeepsAll | app.js:65-69 | each slot of a day occurs in that day's group exactly as often as in the week, and no slot of another day occurs in it: nothing is lost, duplicated or invented |
| Grouping.WeekGroups | app.js:63-69 | grouping the built week gives exactly Monday..Friday in order, day d holding slots 5d..5d+4 |
| View.ReminderLineInverse | app.js:87 | the subject can be read back out of its reminder line |
| View.Reminders | app.js:86-88 | the single fallback line iff there are no subjects; otherwise one "Review {s} for 30 minutes after school." line per subject among the first min(5, \|subjects\|), in order |
| View.RemindersDetermineSubjects | app.js:86-88 | equal reminder lists come from lists with the same first five subjects |
| View.SixSubjectsFiveReminders | app.js:86-88 | six subjects give five reminders; the sixth subject is dropped |
| View.CardOf | app.js:74-80 | a card shows its day, the first slot's activity unless that is missing or empty ("Revision" then), and one period line per slot in order |
| View.Render | app.js:61-91 | rendering via build, group and cards equals the directly stated view `WeekView`: the class label, five cards Monday..Friday and the reminders |
| View.WeekViewLayout | app.js:74-80 | in the view, card d is weekday d with activity `Pick(activities, d)` and five periods; period p + 1 shows subject number 5d + p of the shared round-robin |
| Form.Trim | app.js:112 | the result has no white space at either end and is no longer than the input |
| Form.TrimShape | app.js:112 | the input is white space, the trimmed string, then white space |
| Form.TrimKeepsCharacters | app.js:112 | trimming introduces no character |
| Form.TrimEmpty | app.js:112 | trimming gives "" iff the input is all white space |
| Form.TrimTrimmed | app.js:112 | trimming a trimmed string changes nothing |
| Form.Split | app.js:112 | `split(",")` gives at least one piece, none containing the separator |
| Form.JoinSplit | app.js:112 | joining the pieces back with the separator restores the input |
| Form.JoinWith | app.js:99-100 | `join`: a non-empty list's joined text opens with its first item |
| Form.SplitJoin | app.js:99-100 | items free of the separator, joined by it, split back into exactly those items: the inverse of `JoinSplit` |
| Form.KeepTrimmed | app.js:112 | the kept items are non-empty and trimmed, no more than the pieces, and comma-free when the pieces are |
| Form.KeepTrimmedCons | app.js:112 | a piece contributes its trimmed text, unless that is empty, in front of the items kept from the pieces after it |
| Form.KeepTrimmedAppend | app.js:112 | the items kept from two runs of pieces are those of the first run followed by those of the second: every non-empty piece is kept, in order |
| Form.ParseList | app.js:112-113 | a field without a comma parses to its trimmed text, or to nothing when that is empty |
| Form.ParseListAppend | app.js:112-113 | a field parses to the items of its text before the first comma followed by the items of the rest, so items keep the order they were typed in |
| Form.ParsedListIsClean | app.js:112-113 | every parsed item is non-empty, trimmed and free of commas |
| Form.ParseExample | app.js:112 | " Math ,  , English" parses to Math, English |
| Form.ParseJoinRoundTrip | app.js:112-113 | parsing a list joined with ", " gives it back iff every item is non-empty, trimmed and comma-free (as parsed lists are) |
| Form.RequestOf | app.js:110-115 | the submitted request holds the class field as typed, and both of its lists are clean (non-empty, trimmed, comma-free items) |
| Form.FieldsOf | app.js:98-100 | the load path puts the saved class label in the form unchanged; each list field it fills in parses back to the saved list iff that list is clean |
| Form.ResubmitLoadedFields | app.js:98-100 | submitting the fields filled from a request gives the same request iff both its lists are clean |
| Storage.ReadSaved | app.js:93 | `getItem` under `whhs_timetable`: the value stored under that key, or nothing stored when the key is absent |
| Storage.Load | app.js:93-97 | a record is applied iff it was stored, parses to an object, and has a non-empty class label and present subjects and activities (arrays are truthy even when empty); then the request holds exactly those values |
| Storage.Save | app.js:115-116 | what a submit stores always parses back to an object |
| Storage.SaveLoadRoundTrip | app.js:97 | loading what was saved gives the request back iff its class label is non-empty |
| Timetable.TimetablePage.Init | app.js:93-106 | a record under `whhs_timetable` that passes the load check fills the form (lists joined with ", ") and shows its view; otherwise the page is unchanged; storage is only read |
| Timetable.TimetablePage.Submit | app.js:108-118 | the record under `whhs_timetable` is replaced by the request parsed from the fields and every other key is kept; that request's view is shown |
| Timetable.SubmitThenReload | app.js:93-117 | what a submit writes under the key is applied on the next load iff the class field was non-empty, whatever else is stored; then the request comes back, and the form it fills submits to the same request |

## Left out

- `initNav`, `initScrollAnimations` and `initDashboard` (the weather fetch and the date-indexed quote): these are DOM, observer, network and clock plumbing outside the timetable.
- Markup and its injection: the HTML templates and `innerHTML` (app.js:71-84, 90) are replaced by the `Rendered` view model. Values are interpolated without escaping, and that is not modelled.
- The early return when the form or an output area is missing (app.js:36-39): the model takes all of them to be present.
- `localStorage`, `JSON.parse` and `JSON.stringify` are abstracted. Storage is a map from keys to stored values, and a stored value is described by what parsing makes of it (`Storage.Stored`). The JSON text is not modelled.
- Timetable.TimetablePage.Submit: storage failures are not modelled. If `setItem` throws (app.js:116), for example when the quota is exceeded, the handler stops before `render` (app.js:117), while `Submit` always shows the view. Likewise a throwing `getItem` (app.js:93) lies outside the `try` and would abort the load, which `Init` does not capture.
- Grouping.GroupByDay: its first-seen order is stated for any day names. A plain object lists array-index keys such as "0" first, and an inherited name such as "constructor" makes the `push` at app.js:67 throw. Neither case is modelled, because the slot builder only produces the weekday names.
- Field values of other types in a parsed record are not modelled: only strings and lists of strings. A truthy non-array `subjects` would make `join` throw after the class field is already set, and that partial update is not captured.
- `FormData` and event wiring (`preventDefault`) are not modelled. A missing field's `null` is not modelled either, since the fields are taken to be present.
- Strings are sequences of Unicode scalar values, not UTF-16 code units. The white space set is the ECMAScript WhiteSpace and LineTerminator list written out in `Form.IsSpace`.
