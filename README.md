# Attendance system — a verified model of its core

This project models the attendance workflow of a community-centre web app in Dafny. Staff members sign in with a four-digit PIN. A sign-in on a day they are scheduled to work writes one *pending* attendance record. An administrator approves or rejects pending records, exports the approved ones grouped by day, and asks a language model to summarise a day's approved notes. A public page lists every record grouped by day, newest first.

The hosted document store is replaced by an in-memory class, `Firestore.Store`. It has two sequences, `workers` and `records`, and a counter that hands out fresh document ids. The order of the sequences is the store's default query order, by document id. New document ids are random, so `AddWorker` takes the position the new worker's id sorts to as a parameter. Each operation of the store's access layer is a method on it. Each method is proved against a specification function (`FirstWithPin`, `PatchWorker`, `WithoutWorker`, `SetStatus`), or against `SortedBy` plus a `multiset` permutation for the ordered queries.

The modules follow the program:

- `Types`: the data vocabulary.
- `Calendar`: day keys, weekdays and clock times of a timestamp.
- `Sorting`: a generic insertion sort.
- `DayGroups`: grouping records by day.
- `Firestore`: the store.
- `AttendancePage`: the sign-in decision.
- `AdminPage`: summary note selection, the pending/processed split, row actions and the export.
- `HomePage`: the public log.
- `EditWorkerForm`: worker validation and the PIN-uniqueness check.
- `AttendancePinForm`: PIN and notes rules and the form reset.

Time is an integer count of local wall-clock milliseconds. The time-zone offset is assumed to be applied already. The `yyyy-MM-dd` key of a timestamp is modelled as the whole number of days since 1970-01-01 (`Calendar.DayKeyOf`). Comparing these integers gives the same order as comparing the date strings. The weekday name is `DaysOfWeek[(day + 3) % 7]`, because 1970-01-01 was a Thursday.

**Shift vocabulary.** The shared type declares the shifts Morning, Afternoon, Evening and Off Day (`src/lib/types.ts:6`). The worker edit form and the admin shift badge use Night instead of Evening (`src/components/edit-worker-form.tsx:34`, `src/app/admin/page.tsx:36`). The model's `Shift` has all five constructors, and `ShiftOptions` keeps the shared type's four. `EditWorkerForm.EveningRefused` proves what follows from the code: a worker whose stored schedule uses Evening on some day cannot be saved through the edit form unchanged.

## Model

| member | source | states |
|---|---|---|
| Types.DaysOfWeekIsTheWeek | src/lib/types.ts:5-9 | the day list has seven entries, no duplicates, contains every weekday, and runs Monday to Sunday |
| Types.ShiftOptionsOnce | src/lib/types.ts:6-10 | the shift options hold each shift of the shared type once (every shift but Night), Off Day included |
| Types.StatusHasThreeValues | src/lib/types.ts:7 | a status is pending, approved or rejected |
| Types.RoleHasFiveValues | src/lib/types.ts:4 | a role is one of Carer, Cook, Cleaner, Executive, Volunteer |
| Types.RoleLabelRoundTrip | src/lib/types.ts:4 | parsing a role's stored label gives the role back |
| Types.ShiftLabelRoundTrip | src/lib/types.ts:6 | parsing a shift's stored label gives the shift back |
| Types.DayLabelInjective | src/lib/types.ts:5 | distinct weekdays have distinct names |
| Calendar.ClockTimeOf | src/app/admin/page.tsx:218 | the time of day shown has hour < 24 and minute < 60, and names the minute of its day that holds the instant |
| Calendar.DayKeySpan | src/app/page.tsx:42 | an instant lies within the midnight-to-midnight span of its day key |
| Calendar.DayKeyMonotone | src/app/page.tsx:51 | a later instant never has an earlier day key, so descending keys list newer days first |
| Calendar.EpochIsThursday | src/app/attendance/page.tsx:31 | the weekday of the epoch instant is Thursday |
| Calendar.SameDaySameWeekday | src/app/attendance/page.tsx:31 | instants with the same day key have the same weekday name |
| Calendar.WeekdayWeekly | src/app/attendance/page.tsx:31 | the weekday name repeats every seven days |
| Sorting.Insert | src/app/page.tsx:46-47 | inserting into a sorted sequence (what pushing onto a sorted group and re-sorting it amounts to) keeps it sorted and adds exactly the new element |
| Sorting.Sort | src/lib/firestore.ts:62 | the result is sorted by the given total preorder and is a permutation of the input |
| DayGroups.OnDayMembers | src/app/page.tsx:41-46 | a record is in the group of day k exactly when it is a record of the input whose day key is k |
| DayGroups.OnDayConcat | src/app/page.tsx:41-46 | grouping commutes with concatenation, so each group keeps the input's relative order |
| DayGroups.SizeSumCoversAll | src/app/page.tsx:41-49 | when the keys list every day once, the group sizes add up to the number of records |
| DayGroups.SortDaysDescending | src/app/page.tsx:51 | the distinct day keys come out strictly descending, with the same key set |
| Firestore.FirstWithPin | src/lib/firestore.ts:76-84 | nothing exactly when no worker holds the PIN; otherwise a worker holding it with no earlier holder in query order |
| Firestore.FirstWithPinUnique | src/lib/firestore.ts:76-84 | with unique PINs, the lookup of a worker's PIN finds that worker |
| Firestore.Store.GetWorkerByPin | src/lib/firestore.ts:76-84 | the scan returns the first worker in query order holding the PIN, or nothing |
| Firestore.ByNameIsPreorder | src/lib/firestore.ts:62 | name order is total and transitive |
| Firestore.NewestFirstIsPreorder | src/lib/firestore.ts:96 | descending timestamp order is total and transitive |
| Firestore.Store.GetWorkers | src/lib/firestore.ts:56-65 | every stored worker, exactly once each, in ascending name order |
| Firestore.Store.AddWorker | src/lib/firestore.ts:29-32 | stores the worker under an id no stored worker has, at the position its id takes in id order; every other worker keeps its relative order; records unchanged |
| Firestore.PatchWorkerEffect | src/lib/firestore.ts:67-70 | a merge replaces exactly the supplied fields of the worker with that id; id and every other worker unchanged |
| Firestore.Store.UpdateWorker | src/lib/firestore.ts:67-70 | merges the update into an existing worker, or fails with not-found and changes nothing; ids stay unique |
| Firestore.WithoutWorkerMembers | src/lib/firestore.ts:72-74 | after deletion the workers are exactly those stored with a different id |
| Firestore.WithoutAbsentWorker | src/lib/firestore.ts:72-74 | deleting an id that is not stored changes nothing |
| Firestore.WithoutWorkerKeepsDistinct | src/lib/firestore.ts:72-74 | deletion keeps any worker field that was distinct across workers distinct |
| Firestore.WithoutWorkerKeepsUniqueness | src/lib/firestore.ts:72-74 | deletion keeps unique ids and unique PINs unique |
| Firestore.Store.DeleteWorker | src/lib/firestore.ts:72-74 | removes only the worker with that id; attendance records, including ones referring to it, are untouched |
| Firestore.Store.AddAttendanceRecord | src/lib/firestore.ts:87-93 | appends exactly one record with the given fields under a fresh id; existing records untouched |
| Firestore.Store.GetAttendanceRecords | src/lib/firestore.ts:95-107 | every stored record, exactly once each, in descending timestamp order |
| Firestore.SetStatusOnlyStatus | src/lib/firestore.ts:110-113 | a status update changes only the status field of the record with that id; every other field and record is unchanged |
| Firestore.SetStatusIdempotent | src/lib/firestore.ts:110-113 | applying the same status update twice gives the same records as applying it once |
| Firestore.Store.UpdateAttendanceStatus | src/lib/firestore.ts:110-113 | sets approved or rejected on an existing record, or fails with not-found and changes nothing |
| AttendancePage.Decide | src/app/attendance/page.tsx:23-48 | Invalid PIN exactly when the lookup finds nobody; a record to write belongs to the worker the lookup found, is pending and never for an Off Day |
| AttendancePage.InvalidPinExactly | src/app/attendance/page.tsx:23-29 | a sign-in is refused as Invalid PIN exactly when no worker holds the PIN |
| AttendancePage.NotScheduledExactly | src/app/attendance/page.tsx:31-38 | refused as Not Scheduled exactly when the matched worker has no shift or Off Day on today's weekday |
| AttendancePage.WrittenRecordSnapshot | src/app/attendance/page.tsx:40-48 | a written record is pending, stamped now, copies id, name and role of the first PIN holder and today's shift (never Off Day); missing notes become "" |
| AttendancePage.OffDayRefused | src/app/attendance/page.tsx:31-38 | with unique PINs, a worker off on today's weekday is always refused |
| AttendancePage.ScheduledWorkerRecorded | src/app/attendance/page.tsx:40-50 | with unique PINs, a worker scheduled today gets a record in its own name |
| AttendancePage.WrittenNotesBounded | src/components/attendance-pin-form.tsx:23 | for a submission the PIN form accepts, the stored notes are the submitted notes (or empty when absent) and at most 500 characters long |
| AttendancePage.HandleAddRecord | src/app/attendance/page.tsx:20-63 | Invalid PIN, Not Scheduled and Database Error happen exactly when stated; only a submission appends exactly the decided record; otherwise records are unchanged |
| AdminPage.SummaryNotesMembers | src/app/admin/page.tsx:150-155 | a note is sent for summary exactly when it is non-blank and belongs to an approved record of the selected day |
| AdminPage.SummaryNotesConcat | src/app/admin/page.tsx:155 | note selection commutes with concatenation, so notes keep the records' order |
| AdminPage.SummaryNotesIgnoresOthers | src/app/admin/page.tsx:150-153 | records that are not approved or are from other days contribute no note |
| AdminPage.GenerateSummary | src/app/admin/page.tsx:146-180 | No Notes Found exactly when no note is selected; a summary is the summarizer's answer on exactly the selected notes, and AI Summary Error means it gave none |
| AdminPage.NoNotesNoCall | src/app/admin/page.tsx:157-165 | with no notes the result is No Notes Found whatever the summarizer would answer |
| AdminPage.SummaryOnlyFromSelectedNotes | src/app/admin/page.tsx:167-179 | with notes, the outcome depends on the summarizer only through its answer on exactly those notes |
| AdminPage.PendingProcessedPartition | src/app/admin/page.tsx:246-247 | pending and processed records partition the records (as multisets and by count); membership is by status |
| AdminPage.ReplaceMovesToHistory | src/app/admin/page.tsx:246-247 | replacing a pending record by a processed one takes it out of the pending list and puts the processed one in its place in the processed list; the rest of both lists is unchanged |
| AdminPage.ModerationMovesToHistory | src/app/admin/page.tsx:129-131 | approving or rejecting a pending record removes exactly that record from the pending list and adds it, with its new status, to the processed list |
| AdminPage.ActionsFor | src/app/admin/page.tsx:506-520 | approve/reject appear exactly for a pending record with a handler; a status badge exactly for a non-pending record, showing its status |
| AdminPage.PendingTabActions | src/app/admin/page.tsx:506-515 | every row of the Pending tab offers approve and reject |
| AdminPage.HistoryTabActions | src/app/admin/page.tsx:516-520 | no row of the History tab offers approve or reject; each shows its own status |
| AdminPage.RowsOf | src/app/admin/page.tsx:214-220 | one export row per record, in order |
| AdminPage.GroupByDay | src/app/admin/page.tsx:197-204 | the accumulator has one distinct key per day of the input, and each key's list is that day's records in input order |
| AdminPage.ExportApproved | src/app/admin/page.tsx:182-236 | nothing is produced exactly when no record is approved; otherwise one section per approved day, days strictly descending, each listing that day's approved records in input order as (name, role, shift, time, notes) |
| AdminPage.ExportCoversApproved | src/app/admin/page.tsx:197-206 | an export as promised has exactly as many rows as approved records: none dropped, none in two sections |
| HomePage.PushKeepsGroups | src/app/page.tsx:46-47 | pushing a record onto its day's group and re-sorting keeps every group a permutation of that day's records |
| HomePage.Push | src/app/page.tsx:42-47 | one reduce step keeps the accumulator invariant: distinct days, exactly the days seen so far, each group a permutation of its day's records sorted newest first |
| HomePage.GroupNewestFirst | src/app/page.tsx:41-49 | one group per day present, each a permutation of that day's records sorted newest first |
| HomePage.GroupSizesAreSizeSum | src/app/page.tsx:86 | the sizes of the rendered groups equal the per-day record counts |
| HomePage.GroupForLog | src/app/page.tsx:41-51 | groups as above, keys strictly descending and naming exactly the groups, and the group sizes add up to the record total |
| AttendancePinForm.PinOfRoundTrip | src/components/attendance-pin-form.tsx:22 | every number below 10000, zero-padded, is an accepted PIN spelling that number |
| AttendancePinForm.PinValueRoundTrip | src/components/attendance-pin-form.tsx:22 | every accepted PIN is the zero-padded spelling of a number below 10000 |
| AttendancePinForm.PinForm.constructor | src/components/attendance-pin-form.tsx:35-38 | the form starts with an empty PIN and empty notes |
| AttendancePinForm.PinForm.Enter | src/components/attendance-pin-form.tsx:33-39 | typing sets the two fields the form holds |
| AttendancePinForm.PinForm.Submit | src/components/attendance-pin-form.tsx:41-44 | a valid submission is handed on and the form returns to its defaults; an invalid one is held back with fields unchanged |
| EditWorkerForm.BuildScheduleSchema | src/components/edit-worker-form.tsx:32-37 | every weekday is given the enumeration Morning, Afternoon, Night, Off Day |
| EditWorkerForm.RefusedIffErrors | src/components/edit-worker-form.tsx:39-46 | the form is accepted exactly when no field is in error, and a refusal reports every erroneous field |
| EditWorkerForm.ValidationRules | src/components/edit-worker-form.tsx:32-46 | accepted exactly when name is 2–50 characters, role is one of five, PIN is four digits and all seven days carry Morning, Afternoon, Night or Off Day; then the parsed schedule is total and never Evening |
| EditWorkerForm.RawScheduleAt | src/components/edit-worker-form.tsx:66 | a stored schedule pre-fills each weekday's field with that day's shift label |
| EditWorkerForm.ValidFormRoundTrip | src/components/edit-worker-form.tsx:60-68 | a worker meeting the rules, pre-filled into the form, passes validation unchanged |
| EditWorkerForm.EveningRefused | src/components/edit-worker-form.tsx:34 | a schedule using the shared type's Evening is refused, with that day's shift field in error |
| EditWorkerForm.OwnPinNeverTaken | src/components/edit-worker-form.tsx:72 | with unique PINs, keeping a worker's own PIN is never a conflict |
| EditWorkerForm.SavedEditKeepsPinsUnique | src/components/edit-worker-form.tsx:72-88 | saving an edit whose PIN no other worker holds keeps the stored PINs unique |
| EditWorkerForm.HandleSubmit | src/components/edit-worker-form.tsx:70-89 | refused with PIN Already Exists exactly when another worker (a different id) holds the PIN; otherwise the same id with every form field replaced |
| EditWorkerForm.SaveEdit | src/components/edit-worker-form.tsx:70-89 | on any store: PIN Already Exists exactly when another worker holds the PIN, and update failure exactly when the worker is no longer stored; a failure writes nothing; a success overwrites every field of the stored worker; PINs that were unique stay unique |

## Left out

- The hosted document store itself is not modelled: its network, queries and `Timestamp` conversion (`src/lib/firestore.ts:19-25`). The in-memory `Firestore.Store` stands in for it, with natural numbers as document ids.
- The live `onSnapshot` subscription of the public log (`src/app/page.tsx:18-39`) is left out. `HomePage.GroupForLog` takes the record list it would deliver.
- `clearAllData` and the `hasClearedData` wipe on the first `getWorkers` (`src/lib/firestore.ts:34-60`) are left out: debug code that erases every document.
- Concurrency is not modelled. That includes the race between the PIN-uniqueness read and the later write, and last-write-wins on status updates.
- The language-model summarizer (`src/ai/flows/summarize-notes-flow.ts`) is a foreign, non-deterministic call. It is a function parameter of `AdminPage.GenerateSummary`, and `None` stands for the call throwing.
- PDF layout is not modelled: the jsPDF drawing, `autoTable`, the `startY` cursor, titles and the file name (`src/app/admin/page.tsx:189-235`). The export model ends at the sections and rows.
- QR code generation, the QR scan page and the admin login are left out. They are camera and timer callbacks, a foreign library, and a hard-coded credential check.
- Date formatting and time zones are not modelled. Timestamps are local wall-clock milliseconds, and `'EEEE'` and `'yyyy-MM-dd'` become `Calendar.WeekdayOf` and `Calendar.DayKeyOf`.
- `src/components/add-worker-form.tsx` and `src/components/attendance-card.tsx` are not part of this model.
- JSX rendering, toasts, routing and loading flags are not modelled.
- Network failures on the sign-in page are a `StoreFault` parameter of `AttendancePage.HandleAddRecord`. Network failures of the admin handlers are not modelled; `EditWorkerForm.SaveEdit` reports only the store refusing to update a worker that is no longer stored.
- Firestore.Store.AddAttendanceRecord: appends the new record. The store places it by its random id, which matters only for ties among records with equal timestamps, and the model leaves those ties open.
- Firestore.Store.GetWorkers: does not fix the order among workers with equal names. The store breaks such ties by document id; the model promises only sorted order and a permutation.
- Firestore.Store.GetAttendanceRecords: does not fix the order among records with equal timestamps, for the same reason.
- HomePage.GroupNewestFirst: does not fix the order among records of one day with equal timestamps. The model promises only sorted order and a permutation of that day's records.
- AttendancePage.HandleAddRecord: uses one instant for both today's weekday and the record's timestamp. The page reads the clock twice (lines 31 and 41), so a sign-in exactly at midnight could get different days.
- EditWorkerForm.ValidationRules: counts name length in characters. The form's length limits count UTF-16 code units.
- AttendancePage.WrittenNotesBounded: counts the 500-character limit in characters, not UTF-16 code units.
- Firestore.TextLe: orders names by code point. The store's exact string collation is not modelled.
