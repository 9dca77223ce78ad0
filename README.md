# School management screens, modelled in Dafny

This project models the logic of five screens of a school management web
application (a Next.js front end over a Firestore store):

- **Student roster** (`Students`, students.dfy). An in-memory list of student
  records. Each record has a global GR (enrollment) number and a roll number
  within its class. Adding and deleting renumber the list; editing keeps both
  numbers of the edited record. The model proves the normal form that add and
  delete keep: position i holds GR number i+1, and each class's roll numbers are
  1, 2, 3, … in list order. From this follows density: the GR numbers are
  exactly 1..N and each class's roll numbers are exactly 1..M. The screen's
  invariant adds, as a separate conjunct, that the GR counter is N+1. An edit
  that moves a student to another class can break both the normal form and
  density; a concrete counterexample lemma shows it.
- **Class schedules** (`Schedule`, schedule.dfy). The screen covers several
  pieces:
  - the default seven-period grid;
  - the period-to-clock-time formatter;
  - the teacher-wise view, which takes the first slot of any class assigning
    the teacher to each period;
  - the cached list of all schedules;
  - the class editor, which loads a class's document, edits one slot field and
    saves.

  The `classSchedules` collection is a sequence of documents held by the
  screen. Saving without a known `scheduleId` creates a document but never
  records its id. A second save before reloading therefore creates a second
  document for the same class, as the client method `SaveTwiceWithoutReload`
  shows. A reading of the screen as "save updates the class's schedule" does not
  match this code. The model follows the code.
- **Subject lists** (`Courses`, courses.dfy): ten collapsible classes with
  per-class subject lists. The operations are toggle, add (ignored when blank
  after JavaScript's `trim`), delete by position, and edit in place.
- **Teacher list** (`Teachers`, teachers.dfy): an in-memory list with a form.
  Its operations are:
  - add, which requires a first and a last name;
  - update of every record with the form's id;
  - delete by id;
  - the choice between a newly uploaded picture and the stored one.
- **Login** (`Login`, login.dfy). The submitted email and password are matched
  against a fixed table of three users. A match navigates to that user's path.

Each screen except the login screen has two layers (the login screen keeps no
state, so it has only the first):
- Pure functions on values (the `map`/`filter` pipelines of the source) with
  lemmas about them.
- A class whose fields are the screen's state variables. Its methods are the
  event handlers, and each states the whole new state in terms of those
  functions.

React's `setState` is modelled as assignment, applied in the order the handler
issues the calls.

Values outside the program appear as parameters:
- `Date.now()` as `now`;
- the object URL of an uploaded file as `url`;
- the answer to `confirm` as `confirmed`;
- the id Firestore assigns to a new document as `newId`.

`Wrappers.Option` models `null`.

## Model

| member | source | states |
|---|---|---|
| Students.InClass | app/components/admin/ManageStudents.jsx:63-64 | the class filter never yields more records than it was given |
| Students.InClassMembers | app/components/admin/ManageStudents.jsx:139-141 | a student is in a class's filtered list iff it is in the roster and has that class |
| Students.InClassAppend | app/components/admin/ManageStudents.jsx:139-141 | the class filter distributes over concatenation, so it keeps list order |
| Students.FilteredView | app/components/admin/ManageStudents.jsx:139-141 | with no class selected (null or empty) the view is the whole list; with a class selected it holds exactly that class's students, in order |
| Students.RemoveGr | app/components/admin/ManageStudents.jsx:104 | the delete filter never lengthens the list |
| Students.RemoveGrMembers | app/components/admin/ManageStudents.jsx:104 | a record survives the delete filter iff its GR number differs from the deleted one |
| Students.RemoveGrAppend | app/components/admin/ManageStudents.jsx:104 | the delete filter keeps order (distributes over concatenation) |
| Students.RemoveGrAbsent | app/components/admin/ManageStudents.jsx:104 | the delete filter leaves a list without that GR number unchanged |
| Students.CountSameClasses | app/components/admin/ManageStudents.jsx:63-64 | lists that agree position by position on the class give the same per-class count |
| Students.DeleteRenumbers | app/components/admin/ManageStudents.jsx:104-119 | unfolding helper for the delete proofs, proved without further steps: after delete, the survivors are the records the GR filter keeps, in order, with unchanged fields; a GR number above the deleted one drops by exactly 1, a roll number above the deleted one in the deleted student's class drops by exactly 1, all others stay |
| Students.NumberedPrefix | app/components/admin/ManageStudents.jsx:62-75 | every prefix of a well-numbered list is well numbered |
| Students.NumberedClassOrder | app/components/admin/ManageStudents.jsx:63-75 | in a well-numbered list, the j-th member of each class carries roll number j+1 |
| Students.NumberedIsDense | app/components/admin/ManageStudents.jsx:7-9 | a well-numbered list has GR numbers exactly 1..N and, in each class, roll numbers exactly 1..M |
| Students.EnrolKeepsNumbered | app/components/admin/ManageStudents.jsx:62-75 | adding with the counter at N+1 keeps the list well numbered |
| Students.EditSameClassKeepsNumbered | app/components/admin/ManageStudents.jsx:52-60 | an edit that keeps the class keeps the list well numbered |
| Students.EditMovingClassBreaksNumbering | app/components/admin/ManageStudents.jsx:54-58 | counterexample: moving the roll-1 student of Class 2 into Class 1 keeps its roll number, so a list that was well numbered and dense becomes one where two Class 1 students both have roll number 1, and it is neither well numbered nor dense (Class 1's roll numbers are {1}, not 1..2) |
| Students.RemoveAt | app/components/admin/ManageStudents.jsx:104 | when position i holds GR number i + base, the GR filter removes exactly the record at the victim's position |
| Students.RemoveNumbered | app/components/admin/ManageStudents.jsx:104 | in a well-numbered list the GR filter removes exactly the one record at the victim's position |
| Students.RollBefore | app/components/admin/ManageStudents.jsx:114-119 | in a well-numbered list an earlier classmate has a smaller roll number |
| Students.RollAfter | app/components/admin/ManageStudents.jsx:114-119 | a later classmate of the deleted student has a larger roll number, and its classmates-before count drops by one |
| Students.Survivor | app/components/admin/ManageStudents.jsx:104-119 | each survivor of the delete pipeline gets GR number = new position + 1, and roll number = classmates before it + 1 |
| Students.DeleteKeepsNumbered | app/components/admin/ManageStudents.jsx:101-124 | deleting a student of a well-numbered list removes one record and leaves the list well numbered |
| Students.DeleteScenario | app/components/admin/ManageStudents.jsx:104-119 | deleting GR 2 of four students yields GR 1, 2, 3 and moves the deleted student's classmate from roll 2 to roll 1 |
| Students.FindByGr | app/components/admin/ManageStudents.jsx:127 | `findIndex` by GR number: none iff no record has it, otherwise the first position holding it |
| Students.RosterScreen.constructor | app/components/admin/ManageStudents.jsx:6-12 | empty list, counter 1, nothing selected or being edited; the numbering invariant holds |
| Students.RosterScreen.SelectClass | app/components/admin/ManageStudents.jsx:165-176 | the chosen class tab (or All) becomes the selection |
| Students.RosterScreen.OpenAddForm | app/components/admin/ManageStudents.jsx:150-152 | the form opens in add mode |
| Students.RosterScreen.ResetForm | app/components/admin/ManageStudents.jsx:80-99 | the form is blank and closed |
| Students.RosterScreen.AddOrUpdate | app/components/admin/ManageStudents.jsx:44-78 | no class: nothing changes; add: one record appended with the next roll number of its class and the current counter, counter + 1; edit: only the record at the edit index changes, taking the form and keeping its two numbers, edit index cleared; add, and edit within the same class, keep the numbering invariant |
| Students.RosterScreen.Delete | app/components/admin/ManageStudents.jsx:101-124 | not confirmed: nothing changes; confirmed: the delete pipeline, counter − 1, selection cleared; the invariant is kept when the victim is in the list |
| Students.RosterScreen.ShowStudent | app/components/admin/ManageStudents.jsx:193 | a card click selects a student of the roster, and the detail view's Close (line 371) clears the selection; the student it selects is a current record |
| Students.RosterScreen.DeleteSelected | app/components/admin/ManageStudents.jsx:357-358 | the detail view's Delete runs the delete on the selected student, with the same outcomes as Delete, and keeps the invariant when the selection is a current record |
| Students.RosterScreen.StartEdit | app/components/admin/ManageStudents.jsx:126-137 | no record with that GR number: nothing changes; otherwise the form takes the student, the edit index is its first position, the form opens |
| Schedule.DefaultSchedule | app/components/admin/AssignCourses.jsx:24-28 | seven slots, slot i has period i+1, empty subject and empty teacher id |
| Schedule.TwoDigits | app/components/admin/AssignCourses.jsx:131-135 | a number below 100 pads to two decimal digits that read back as the number |
| Schedule.ClockReadsBack | app/components/admin/AssignCourses.jsx:131-135 | the `HH:MM` text of a minute of the day is well formed and reads back as that minute |
| Schedule.PeriodTimeReadsBack | app/components/admin/AssignCourses.jsx:128-137 | `getPeriodTime(p)` is `HH:MM - HH:MM`, the start reads as 480+(p−1)·30 and the end as 30 minutes later |
| Schedule.TwoDigitText | app/components/admin/AssignCourses.jsx:131-135 | a number below 100 pads to its tens digit followed by its units digit |
| Schedule.ClockText | app/components/admin/AssignCourses.jsx:131-135 | the `HH:MM` text of a minute is the two hour digits, a colon and the two minute digits |
| Schedule.FirstPeriod | app/components/admin/AssignCourses.jsx:128-137 | period 1 is "08:00 - 08:30" |
| Schedule.LastPeriod | app/components/admin/AssignCourses.jsx:128-137 | period 7 is "11:00 - 11:30" |
| Schedule.TeacherPeriods | app/components/admin/AssignCourses.jsx:107-125 | no teacher selected: empty; otherwise seven rows, row i for period i+1 with time `getPeriodTime(i+1)` |
| Schedule.RowAt | app/components/admin/AssignCourses.jsx:107-125 | unfolding helper for the two teacher-row lemmas, proved without further steps: the row for period p sits at position p−1 |
| Schedule.EntriesInNone | app/components/admin/AssignCourses.jsx:111-115 | a grid yields no entry iff none of its slots assigns the teacher to the period |
| Schedule.EntriesInFirst | app/components/admin/AssignCourses.jsx:111-115 | a grid's first entry comes from its first assigning slot |
| Schedule.EntriesNone | app/components/admin/AssignCourses.jsx:110-116 | the `flatMap` over all schedules is empty iff no slot of any schedule assigns the teacher to the period |
| Schedule.EntriesFirst | app/components/admin/AssignCourses.jsx:110-116 | the first entry comes from the first assigning slot, schedules in collection order and slots in grid order |
| Schedule.TeacherRowIsFirstAssignment | app/components/admin/AssignCourses.jsx:110-122 | with a teacher selected, the row for period p shows the class and subject of the first assigning slot, a blank value shown as "-" |
| Schedule.TeacherRowUnassigned | app/components/admin/AssignCourses.jsx:110-122 | with a teacher selected and no slot assigning them to period p, the row shows "-" for class and subject |
| Schedule.Cached | app/components/admin/AssignCourses.jsx:70-82 | the cache keeps every document's id and class, in order, and replaces a non-array `periods` by `[]` |
| Schedule.CacheKeepsEntries | app/components/admin/AssignCourses.jsx:78 | the cache's cleaning does not change the entries found for any period and teacher |
| Schedule.CacheKeepsTeacherView | app/components/admin/AssignCourses.jsx:107-125 | the teacher view over the cache equals the view over the raw documents |
| Schedule.FirstWithClass | app/components/admin/AssignCourses.jsx:89-97 | the query returns none iff no document has that class, otherwise the first document of that class |
| Schedule.ClassDocsAppend | app/components/admin/AssignCourses.jsx:156-160 | appending a document adds one to its class's document count and nothing to others |
| Schedule.SetPeriodsChangesOne | app/components/admin/AssignCourses.jsx:151-154 | `updateDoc` keeps the length, every id and class name, and every class's document count; only documents with that id change, and only their periods |
| Schedule.SetField | app/components/admin/AssignCourses.jsx:142 | setting one field of a slot changes that field only |
| Schedule.ScheduleScreen.constructor | app/components/admin/AssignCourses.jsx:17-30 | no class or teacher selected, no schedule id, default grid, empty cache |
| Schedule.ScheduleScreen.LoadAllSchedules | app/components/admin/AssignCourses.jsx:70-82 | the cache becomes the cleaned collection |
| Schedule.ScheduleScreen.LoadSchedule | app/components/admin/AssignCourses.jsx:85-104 | the class becomes selected; with a matching document, the id is the first match's and the grid is its periods (default when not an array); without, no id and default grid |
| Schedule.ScheduleScreen.SelectTeacher | app/components/admin/AssignCourses.jsx:284 | the chosen teacher becomes the selection |
| Schedule.ScheduleScreen.UpdatePeriod | app/components/admin/AssignCourses.jsx:140-144 | only the named field of slot `index` changes; an out-of-range index changes nothing; positional period numbering is kept |
| Schedule.ScheduleScreen.SaveSchedule | app/components/admin/AssignCourses.jsx:147-165 | no class: nothing written; a known id present in the collection: only that document's periods change and the cache is refreshed; a known id that is missing: nothing changes; no id: one document for the class is appended and the cache refreshed; ids stay unique |
| Schedule.SaveTwiceWithoutReload | app/components/admin/AssignCourses.jsx:150-161 | two saves without a reload add two documents for the selected class |
| Courses.InitialClasses | app/components/admin/ManageCourses.jsx:7-19 | ten classes with ids 1..10, all closed, each with the same seven subjects; ids distinct |
| Courses.TrimStartSuffix | app/components/admin/ManageCourses.jsx:33 | trimming the start drops a whitespace prefix and keeps the rest |
| Courses.TrimEndEmpty | app/components/admin/ManageCourses.jsx:33 | trimming the end yields "" iff every character is white space |
| Courses.TrimBlank | app/components/admin/ManageCourses.jsx:33 | `trim()` yields "" iff every character is JavaScript white space |
| Courses.FindClass | app/components/admin/ManageCourses.jsx:56 | `find` by class id: none iff no class has the id, otherwise the first position with it |
| Courses.ToggleFlipsOne | app/components/admin/ManageCourses.jsx:26-30 | toggling flips `isOpen` exactly of the class with that id; ids and subjects all stay |
| Courses.ToggleTwice | app/components/admin/ManageCourses.jsx:26-30 | toggling the same class twice restores the list |
| Courses.AppendChangesOne | app/components/admin/ManageCourses.jsx:34-40 | adding appends the subject at the end of the chosen class's list; no other list or field changes |
| Courses.KeepOthersRemoves | app/components/admin/ManageCourses.jsx:48 | the positional filter removes exactly position `index` when in range, and nothing otherwise |
| Courses.RemoveChangesOne | app/components/admin/ManageCourses.jsx:44-52 | deleting removes position `index` of the chosen class only (length − 1, order kept); an out-of-range index and other classes are unchanged |
| Courses.DeleteUndoesAdd | app/components/admin/ManageCourses.jsx:32-52 | deleting the subject just appended restores every class |
| Courses.ReplaceChangesOne | app/components/admin/ManageCourses.jsx:60-72 | saving an edit replaces exactly the subject at the index in the chosen class; every list keeps its length; other classes unchanged |
| Courses.ReplaceReadsBack | app/components/admin/ManageCourses.jsx:60-72 | after saving an edit, the edited position holds the new text |
| Courses.EditUnchangedIsIdentity | app/components/admin/ManageCourses.jsx:54-72 | starting an edit and saving it without changing the text leaves the classes as they were |
| Courses.FindClassSameIds | app/components/admin/ManageCourses.jsx:56 | lists with the same ids position by position find the same class |
| Courses.CourseScreen.constructor | app/components/admin/ManageCourses.jsx:21-24 | initial classes, empty new-subject box, nothing being edited; the class ids are distinct |
| Courses.CourseScreen.TypeNewSubject | app/components/admin/ManageCourses.jsx:152 | the typed text becomes the new subject |
| Courses.CourseScreen.TypeEditText | app/components/admin/ManageCourses.jsx:108 | the typed text becomes the edit text |
| Courses.CourseScreen.ToggleClass | app/components/admin/ManageCourses.jsx:26-30 | the classes are toggled at that id; the class ids stay distinct |
| Courses.CourseScreen.AddSubject | app/components/admin/ManageCourses.jsx:32-42 | a blank subject changes nothing; otherwise the untrimmed text is appended to the class and the box is cleared; the class ids stay distinct |
| Courses.CourseScreen.DeleteSubject | app/components/admin/ManageCourses.jsx:44-52 | the position is deleted from the class; the class ids stay distinct |
| Courses.CourseScreen.StartEdit | app/components/admin/ManageCourses.jsx:54-58 | the edit target becomes (class, index); the edit text becomes the subject there when it exists |
| Courses.CourseScreen.SaveEdit | app/components/admin/ManageCourses.jsx:60-75 | the edit text replaces the target position; then nothing is being edited and the text is ""; the class ids stay distinct |
| Teachers.DeleteById | app/components/admin/ManageTeachers.jsx:67 | deleting by id never lengthens the list |
| Teachers.UpdateReplacesMatching | app/components/admin/ManageTeachers.jsx:46-59 | update keeps the length; each record with the form's id becomes the form, with the uploaded file's URL as picture only when a non-string file is chosen; all other records unchanged |
| Teachers.DeleteMembers | app/components/admin/ManageTeachers.jsx:66-69 | a record survives deletion iff its id differs |
| Teachers.DeleteAppend | app/components/admin/ManageTeachers.jsx:67 | deletion keeps order (distributes over concatenation) |
| Teachers.DeleteAbsent | app/components/admin/ManageTeachers.jsx:67 | deleting an id nobody has changes nothing |
| Teachers.DeleteIdempotent | app/components/admin/ManageTeachers.jsx:67 | deleting twice by the same id is deleting once |
| Teachers.UpdateThenDelete | app/components/admin/ManageTeachers.jsx:46-69 | update touches only records a delete by the same id would remove |
| Teachers.AddThenDelete | app/components/admin/ManageTeachers.jsx:31-40 | adding a teacher under a fresh id and deleting that id restores the list |
| Teachers.TeacherScreen.constructor | app/components/admin/ManageTeachers.jsx:7-25 | empty list, blank form, modals closed, not editing |
| Teachers.TeacherScreen.ResetForm | app/components/admin/ManageTeachers.jsx:81-97 | the form is reset: no id, empty fields, duty time "Full Time", no file |
| Teachers.TeacherScreen.OpenAddModal | app/components/admin/ManageTeachers.jsx:132-136 | blank form, add modal open, not editing |
| Teachers.TeacherScreen.AddTeacher | app/components/admin/ManageTeachers.jsx:27-43 | an empty first or last name changes nothing; otherwise one teacher with id `now` and the chosen picture is appended, the form reset and the modal closed |
| Teachers.TeacherScreen.UpdateTeacher | app/components/admin/ManageTeachers.jsx:45-63 | records with the form's id are replaced; form reset, modal closed, not editing |
| Teachers.TeacherScreen.DeleteTeacher | app/components/admin/ManageTeachers.jsx:65-69 | records with the id are removed and the detail modal closes |
| Teachers.TeacherScreen.Save | app/components/admin/ManageTeachers.jsx:301 | in edit mode the save button updates, otherwise it adds |
| Teachers.TeacherScreen.ChooseFile | app/components/admin/ManageTeachers.jsx:292-293 | the chosen file goes into the form; nothing else changes |
| Teachers.TeacherScreen.ShowDetails | app/components/admin/ManageTeachers.jsx:109 | the clicked teacher (or none, on close) is shown in the detail modal |
| Teachers.TeacherScreen.EditShown | app/components/admin/ManageTeachers.jsx:350-353 | the shown teacher is loaded into the form without a file, edit mode on, detail modal closed |
| Teachers.TeacherScreen.Edit | app/components/admin/ManageTeachers.jsx:71-79 | the form takes the teacher with no file, edit mode on, add modal open |
| Login.Find | app/login/page.jsx:27-29 | none iff no entry matches both email and password; otherwise the first entry matching both |
| Login.EmailsDistinct | app/login/page.jsx:16-20 | the table's emails are pairwise distinct |
| Login.AtMostOneMatch | app/login/page.jsx:16-29 | two matching entries are the same entry |
| Login.SubmitIsLookup | app/login/page.jsx:27-36 | a submit navigates to a path iff some entry matches both fields and has that path; it is rejected iff no entry matches both |
| Login.KnownLogins | app/login/page.jsx:16-33 | admin, teacher and student credentials lead to /admin, /teacher and /student; an admin email with another password is rejected |

## Left out

- Rendering: JSX, styling, toasts and their timers, `alert` texts (including the role name in upper case on login), the image preview (`previewImage`), placeholders and the classes tab list are not modelled.
- The `loading` flag of the login screen and its 1.2-second `setTimeout` are left out; the model is the decision the delayed callback takes.
- Generic input handlers (`handleInputChange`, the teacher form's per-field `onChange`) are not modelled. The model treats the form as a value to be set; only the teacher form's file input is modelled.
- `URL.createObjectURL`, `Date.now()`, `confirm` and the id Firestore assigns become parameters of the methods that use them. Their values are not otherwise modelled.
- The Firestore client: `classSchedules` is a sequence held by the screen. Query results come in sequence order. `createdAt`/`updatedAt` timestamps are dropped. Every await completes before the next event, and there are no concurrent sessions.
- A `updateDoc` on a missing document rejects in Firestore. The model changes nothing and reports `MissingDoc`, because the refresh after it is never reached.
- Students.RosterScreen.AddOrUpdate: an edit index beyond the list makes the JavaScript throw before any state changes. The model reports `StaleIndex` and changes nothing. The shallow copy and in-place writes of the record are not modelled as aliasing.
- Students.RosterScreen.Delete: the invariant is only claimed when the victim is one of the current records. The detail view passes the selected student (`DeleteSelected`), which `ShowStudent` makes a current record; an edit made while a student stays selected can leave the selection stale, and the model does not claim the invariant then.
- Courses.CourseScreen.StartEdit: for an unknown class the source throws, and for an out-of-range index it stores `undefined` as the edit text. The model sets the target, keeps the old text and returns `false`.
- Schedule.ScheduleScreen.UpdatePeriod: the source shallow-copies the grid and writes into the shared slot object. The model replaces the slot value and does not model that sharing. An out-of-range index throws in the source; the model changes nothing.
- The teacher list of the schedule screen (fetched from the `teachers` collection) and the active-tab switch are not modelled; teacher ids are plain strings.
- Other parts of the application are not part of this model:
  - the admin and user management screens;
  - the attendance viewer, whose logic rests on JavaScript date arithmetic;
  - routing, menus and session clearing.
