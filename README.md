# EduTrack gradebook — a verified Dafny model

EduTrack is a single-page gradebook. Teachers manage students and assessments. They record one score, with optional feedback, per student and assessment. Students look up their own results. The whole dataset is one aggregate state with three ordered collections: students, assessments and grades. Every change replaces that state, and the new state is saved whole to one browser-local slot.

This project models that core:

- `types.dfy` (module `Types`): the records. These are `Student`, `Assessment`, `Grade`, the aggregate `AppState` and the six-variant `View` enum. Optional fields are `Option<string>`. Scores and maximum scores are plain integers, and nothing relates the two.
- `integrity.dfy` (module `Integrity`): the invariants the data model is meant to keep. Ids are unique within each collection. Every grade refers to an existing student and an existing assessment. There is at most one grade per (studentId, assessmentId) pair. The source checks none of these.
- `seqs.dfy` (module `Seqs`): models of the JavaScript array methods the code is built from: `filter`, `find`/`findIndex` and `reverse`. It also defines key uniqueness and "is a subsequence of".
- `actions.dfy` (module `Actions`): the five state transitions, written as functions from the old state to the new one. It also holds the lemmas about them: cascades, well-formedness preserved, idempotence, in-place upsert.
- `views.dfy` (module `Views`): the read-only projections. These are a student's grades and their mean, the student's grade history with missing assessments skipped, the dashboard's five most recent grades (newest first) and the grading form's auto-fill.
- `storage_service.dfy` (module `StorageService`): the seed dataset and the slot. The slot is a `Storage` object whose `slot` field `LoadData` reads and `SaveData` overwrites.
- `app.dfy` (module `AppComponent`): the component itself. Class `App` holds `data`, and its action methods replace it. After each change the save effect writes `data` to the slot, but only when it has at least one student.
- `scenarios.dfy` (module `Scenarios`): worked examples on the seed data.

Parameters stand in for the parts of the source that are not deterministic:

- `generateId` is a `newId` parameter. The class methods require that this id is unused. The real generator does not guarantee that.
- `window.confirm` is a `confirmed: bool` parameter.

Behaviour of the code that is easy to misread, which the model follows:

- A load falls back to the seed only when the slot is missing or holds the empty string. Content that is present but unreadable makes `JSON.parse` throw; it is not replaced by the seed.
- The delete operations remove every record with the given id, not just one.
- The upsert rewrites every grade that carries the found grade's id. This is the same as "the found grade" only when grade ids are unique. That is why `Actions.UpdateExistingInPlace` and `Actions.UpdateGradeKeepsWellFormed` require unique ids.
- The object spread keeps a grade's old feedback when the submitted data has no `feedback` key. The model's `None` stands for that missing key.
- The upsert does not check that the student and the assessment exist. `Actions.UpdateGradeKeepsWellFormed` therefore requires both.
- The save effect only writes when the state has at least one student. A confirmed delete of the last student is therefore never saved, and the student comes back on the next load. The same holds for every change made while the student list is empty. `AppComponent.DeletingLastStudentsIsNotSaved` states this.

## Model

| member | source | states |
|---|---|---|
| `Seqs.Filter` | App.tsx:51-52 | the result holds every occurrence of each element that passes the test and nothing else, and is a subsequence of the input |
| `Seqs.FilterConcat` | App.tsx:51-52 | filtering distributes over concatenation, so the survivors keep their relative order |
| `Seqs.FilterKeepsAll` | App.tsx:51-52 | a filter that every element passes returns the collection unchanged |
| `Seqs.FilterKeepsDistinct` | App.tsx:51-52 | filtering never creates two records with the same key |
| `Seqs.FindIndex` | App.tsx:74 | the result is the first position whose element matches, or nothing when no element matches |
| `Seqs.Find` | App.tsx:74 | the result is the first member of the collection that matches, and it is missing exactly when no member matches |
| `Seqs.Reverse` | App.tsx:330 | the result has the same length, with position i holding the element i places from the end |
| `Types.ViewValue` | types.ts:1-8 | each view stands for the string its enum member is initialised with |
| `Types.ViewsEnumerated` | types.ts:1-8 | there are exactly six views, every view is listed, and no two views share a string value |
| `Actions.AddStudent` | App.tsx:42-45 | exactly one student is appended after the unchanged old ones, with the generated id and the draft's fields; assessments and grades are unchanged |
| `Actions.AddAssessment` | App.tsx:57-60 | exactly one assessment is appended after the unchanged old ones, with the generated id and the draft's fields; students and grades are unchanged |
| `Actions.AddStudentKeepsWellFormed` | App.tsx:42-45 | adding a student under an unused id keeps ids unique, references resolvable and pairs unique |
| `Actions.AddAssessmentKeepsWellFormed` | App.tsx:57-60 | adding an assessment under an unused id keeps the state well formed |
| `Actions.DeleteStudent` | App.tsx:47-55 | a declined confirmation changes nothing; a confirmed one keeps every copy of each student with another id and of each grade of another student, drops the rest, and keeps the survivors in order; assessments are unchanged |
| `Actions.DeleteAssessment` | App.tsx:62-70 | a declined confirmation changes nothing; a confirmed one keeps every copy of each assessment with another id and of each grade for another assessment, drops the rest, and keeps the survivors in order; students are unchanged |
| `Actions.DeleteStudentKeepsWellFormed` | App.tsx:49-53 | the cascade leaves no grade pointing at the deleted student and keeps the state well formed |
| `Actions.DeleteAssessmentKeepsWellFormed` | App.tsx:64-68 | the cascade leaves no grade pointing at the deleted assessment and keeps the state well formed |
| `Actions.DeleteAbsentStudentChangesNothing` | App.tsx:51-52 | deleting a student id that is not present, when every grade resolves, leaves the whole state equal to the input |
| `Actions.DeleteAbsentAssessmentChangesNothing` | App.tsx:66-67 | deleting an assessment id that is not present, when every grade resolves, leaves the whole state equal to the input |
| `Actions.DeleteStudentIdempotent` | App.tsx:51-52 | a second confirmed delete of the same student id changes nothing |
| `Actions.DeleteAssessmentIdempotent` | App.tsx:66-67 | a second confirmed delete of the same assessment id changes nothing |
| `Actions.Merge` | App.tsx:78 | the merged grade has the kept id, the input's pair and the input's score; with feedback given it is exactly the new grade the input would make, and without feedback it keeps the old feedback |
| `Actions.NewGrade` | App.tsx:83 | the input's fields under the generated id |
| `Actions.ReplaceWhereId` | App.tsx:78 | the count and every id stay the same; grades with the found id are merged with the input and the others are kept as they are |
| `Actions.UpdateGrade` | App.tsx:72-87 | an existing pair keeps the grade count and the set of ids; a missing pair gets exactly one new grade appended under the generated id; afterwards a grade with the pair and the submitted score exists; students and assessments are unchanged |
| `Actions.UpdateExistingInPlace` | App.tsx:74-79 | with unique grade ids, the first grade for the pair keeps its position, id and pair and takes the new score (and the new feedback when one is given); every other grade is unchanged |
| `Actions.UpdateGradeKeepsWellFormed` | App.tsx:72-87 | an upsert for an existing student and assessment under an unused id keeps the state well formed, so there is still at most one grade per pair |
| `Actions.UpdateGradeIdempotent` | App.tsx:72-87 | upserting the same input twice gives the state that one upsert gives, so the pair is not duplicated and keeps its first id |
| `Views.StudentGrades` | App.tsx:225 | the result holds every copy of each of the student's grades and nothing else, in insertion order |
| `Views.SumScores` | App.tsx:229 | the score total, folded from the left starting at 0; its properties are `SumScoresConcat` and `SumScoresBounds` |
| `Views.SumScoresConcat` | App.tsx:229 | the score total of a concatenation is the sum of the parts' totals |
| `Views.SumScoresBounds` | App.tsx:229 | scores between lo and hi add up to between lo and hi times their count |
| `Views.Mean` | App.tsx:227-230 | the mean of an empty list is 0 |
| `Views.MeanTimesCount` | App.tsx:227-230 | the mean of a non-empty list times its length equals the score total |
| `Views.Average` | App.tsx:224-230 | a student's average is the mean of exactly their grades, and 0 when they have none |
| `Views.AverageWithinScoreRange` | App.tsx:227-230 | when all of a student's scores lie in [lo, hi], so does their mean |
| `Views.SingleGradeMean` | App.tsx:227-230 | a student with exactly one grade has that grade's score as mean |
| `Views.AppendedGradeAffectsOnlyItsStudent` | App.tsx:225-230 | a new grade for another student changes neither this student's grades nor their mean; a new grade for this student goes last in their list |
| `Views.Rows` | App.tsx:293-295 | each row pairs a grade with an assessment carrying the grade's assessment id; a grade whose assessment is missing gets no row |
| `Views.RowsConcat` | App.tsx:293-295 | rows follow the order of the grades |
| `Views.RowsComplete` | App.tsx:293-295 | when every assessment can be found, there is one row per grade, in order |
| `Views.HistoryRows` | App.tsx:293-295 | every row of a student's history is one of that student's grades paired with an existing assessment carrying the grade's assessment id |
| `Views.HistoryComplete` | App.tsx:293-295 | when every grade resolves, a student's history lists each of their grades in order |
| `Views.RecentGrades` | App.tsx:330 | the result holds min(5, count) grades, the newest first |
| `Views.RecentAfterAppend` | App.tsx:330 | a newly appended grade heads recent activity and the earlier entries shift down one place |
| `Views.AutoFill` | App.tsx:519-531 | with a selection missing the form is left alone; with both selected it shows the score and feedback ('' when absent) of the first grade for the pair, and 0 and '' when there is none |
| `Views.AutoFillAfterUpdate` | App.tsx:520-529 | after upserting a pair with feedback, selecting the same pair shows exactly the saved score and feedback |
| `StorageService.Load` | services/storageService.ts:21-27 | a stored state is returned as it is; a missing or empty slot yields the seed |
| `StorageService.Saved` | services/storageService.ts:29-31 | the slot content a save writes: the whole state, serialized; `LoadAfterSave` proves a load returns it |
| `StorageService.LoadAfterSave` | services/storageService.ts:29-31 | loading after a save returns the saved state |
| `StorageService.Storage.LoadData` | services/storageService.ts:21-27 | it returns the stored state, or the seed when the slot is missing or empty |
| `StorageService.Storage.SaveData` | services/storageService.ts:29-31 | the whole slot is overwritten with the given state, which a following load returns |
| `StorageService.SeedWellFormed` | services/storageService.ts:5-19 | seed ids are distinct in each collection, every seed grade refers to a seed student and a seed assessment, and each pair is graded at most once |
| `StorageService.SeedScoresInRange` | services/storageService.ts:6-17 | the seed has students, so it passes the save guard, and every seed score lies between 0 and its assessment's maximum |
| `AppComponent.AfterSaveEffect` | App.tsx:34-38 | with students in the state the slot is overwritten with it, so a load returns it; without students the slot keeps its content |
| `AppComponent.DeletingLastStudentsIsNotSaved` | App.tsx:34-38 | deleting the last students leaves none, so the save is skipped, the slot keeps the old state and a load brings the deleted students back |
| `AppComponent.App.constructor` | App.tsx:25 | the component starts with three empty collections |
| `AppComponent.App.SaveEffect` | App.tsx:34-38 | the slot is overwritten with `data` when `data` has students and is untouched otherwise |
| `AppComponent.App.Mount` | App.tsx:29-38 | the loaded state replaces the empty one; a stored state is never lost; an empty slot ends up holding the seed |
| `AppComponent.App.AddStudent` | App.tsx:42-45 | the new state is the added-student state; well-formedness is kept; the save guard decides the slot |
| `AppComponent.App.AddAssessment` | App.tsx:57-60 | the new state is the added-assessment state; well-formedness is kept; the save guard decides the slot |
| `AppComponent.App.DeleteStudent` | App.tsx:47-55 | a declined confirmation neither changes nor saves anything; a confirmed one leaves no grade of the student and saves through the guard |
| `AppComponent.App.DeleteAssessment` | App.tsx:62-70 | a declined confirmation neither changes nor saves anything; a confirmed one leaves no grade for the assessment and saves through the guard |
| `AppComponent.App.UpdateGrade` | App.tsx:72-87 | the new state is the upserted state; well-formedness is kept for a known student and assessment; the save guard decides the slot |
| `Scenarios.SeedUpsertAppends` | App.tsx:80-84 | grading the ungraded seed student s3 on a1 appends a third grade and leaves g1 and g2 alone |
| `Scenarios.SeedUpsertAverage` | App.tsx:227-230 | after that upsert, the mean of s3 is 70 |
| `Scenarios.SeedDeleteAssessmentEmptiesGrades` | App.tsx:62-68 | deleting a1 afterwards removes all three grades |
| `Scenarios.SeedRegradeTwice` | App.tsx:74-79 | grading s1 on a1 twice with the same data leaves one grade for the pair: g1 with the new score |

## Left out

- Rendering, icons, modals, forms, the sidebar and the current `View`: these are presentation only. `View` is modelled only as a type.
- `window.confirm` and `alert`: the confirmation is a boolean parameter, and the alert has no effect on state.
- The AI feedback and class-analysis calls in `services/geminiService.ts`: these are network calls to an external service. The "generating" and "analyzing" flags and the class-summary text fed to them are left out too.
- `localStorage`, `JSON.stringify` and `JSON.parse`: the slot holds an abstract stored state. Serialization, and a slot whose content is present but corrupt, are not modelled. The key name is kept as a constant.
- `generateId`'s randomness: ids are parameters. The class methods require an unused id, which the real generator does not guarantee.
- JavaScript numbers: scores and maximum scores are integers here. The mean is a `real`. `toFixed(1)` rounding, the display of the mean, the score colour thresholds and the `feedback || "-"` display are left out.
- React's effect scheduling: each action runs the save effect right after it changes the state. `Mount` runs the save effect, the load and the save effect again, in that order.
- The grading form's save button guard at App.tsx:541-550: it only forwards the form to `UpdateGrade` when both selections are set. The dashboard's name and title lookups at App.tsx:373-380 are display only. Neither is modelled.
- `Actions.UpdateExistingInPlace`: this assumes grade ids are unique. As written, `updateGrade` rewrites every grade sharing the found grade's id.
