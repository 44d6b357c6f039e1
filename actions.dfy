/** The five state transitions of the gradebook (App.tsx): each takes the current state and
    returns the next one. The identifier the source draws from `generateId` is the `newId`
    parameter; the confirmation dialog in front of the deletes is the `confirmed` parameter. */
module Actions {
  import opened Wrappers
  import opened Seqs
  import opened Types
  import opened Integrity

  /** The form data of a new student: a `Student` without its `id`. */
  datatype StudentDraft = StudentDraft(nis: string, name: string, gradeLevel: string, contact: Option<string>)

  /** The form data of a new assessment: an `Assessment` without its `id`. */
  datatype AssessmentDraft = AssessmentDraft(title: string, subject: string, date: string, maxScore: int,
                                             description: Option<string>)

  /** What the grading form submits: a `Grade` whose `id` is optional (and always ignored).
      A `feedback` of `None` is a missing key, which the object spread does not copy. */
  datatype GradeInput = GradeInput(id: Option<string>, studentId: string, assessmentId: string, score: int,
                                   feedback: Option<string>)

  function StudentWithId(d: StudentDraft, id: string): Student {
    Student(id, d.nis, d.name, d.gradeLevel, d.contact)
  }

  function AssessmentWithId(d: AssessmentDraft, id: string): Assessment {
    Assessment(id, d.title, d.subject, d.date, d.maxScore, d.description)
  }

  // ----- addStudent / addAssessment -----

  /** Appends the drafted student under the generated id; nothing else changes. */
  function AddStudent(st: AppState, d: StudentDraft, newId: string): (r: AppState)
    ensures |r.students| == |st.students| + 1 && r.students[..|st.students|] == st.students
    ensures r.students[|st.students|] == Student(newId, d.nis, d.name, d.gradeLevel, d.contact)
    ensures r.assessments == st.assessments && r.grades == st.grades
  {
    st.(students := st.students + [StudentWithId(d, newId)])
  }

  /** Appends the drafted assessment under the generated id; nothing else changes. */
  function AddAssessment(st: AppState, d: AssessmentDraft, newId: string): (r: AppState)
    ensures |r.assessments| == |st.assessments| + 1 && r.assessments[..|st.assessments|] == st.assessments
    ensures r.assessments[|st.assessments|] == Assessment(newId, d.title, d.subject, d.date, d.maxScore, d.description)
    ensures r.students == st.students && r.grades == st.grades
  {
    st.(assessments := st.assessments + [AssessmentWithId(d, newId)])
  }

  /** Adding a student under an unused id keeps the data model well formed. */
  lemma AddStudentKeepsWellFormed(st: AppState, d: StudentDraft, newId: string)
    requires WellFormed(st)
    requires newId !in Keys(st.students, IdOfStudent)
    ensures WellFormed(AddStudent(st, d, newId))
  {
  }

  /** Adding an assessment under an unused id keeps the data model well formed. */
  lemma AddAssessmentKeepsWellFormed(st: AppState, d: AssessmentDraft, newId: string)
    requires WellFormed(st)
    requires newId !in Keys(st.assessments, IdOfAssessment)
    ensures WellFormed(AddAssessment(st, d, newId))
  {
  }

  // ----- deleteStudent / deleteAssessment -----

  function OtherStudent(id: string): Student -> bool { (s: Student) => s.id != id }
  function NotOfStudent(id: string): Grade -> bool { (g: Grade) => g.studentId != id }
  function OtherAssessment(id: string): Assessment -> bool { (a: Assessment) => a.id != id }
  function NotOfAssessment(id: string): Grade -> bool { (g: Grade) => g.assessmentId != id }

  /** Once confirmed, removes every student with the id and, in the same step, every grade
      of that student; survivors keep their order. A declined confirmation changes nothing. */
  function DeleteStudent(st: AppState, id: string, confirmed: bool): (r: AppState)
    ensures !confirmed ==> r == st
    ensures confirmed ==> forall s :: s in r.students <==> s in st.students && s.id != id
    ensures confirmed ==> forall g :: g in r.grades <==> g in st.grades && g.studentId != id
    ensures confirmed ==> forall s {:trigger multiset(r.students)[s]} :: multiset(r.students)[s] == if s.id != id then multiset(st.students)[s] else 0
    ensures confirmed ==> forall g {:trigger multiset(r.grades)[g]} :: multiset(r.grades)[g] == if g.studentId != id then multiset(st.grades)[g] else 0
    ensures SubsequenceOf(r.students, st.students) && SubsequenceOf(r.grades, st.grades)
    ensures r.assessments == st.assessments
  {
    if !confirmed then
      SubsequenceOfSelf(st.students); SubsequenceOfSelf(st.grades);
      st
    else st.(students := Filter(OtherStudent(id), st.students), grades := Filter(NotOfStudent(id), st.grades))
  }

  /** Once confirmed, removes every assessment with the id and every grade recorded for it;
      survivors keep their order. A declined confirmation changes nothing. */
  function DeleteAssessment(st: AppState, id: string, confirmed: bool): (r: AppState)
    ensures !confirmed ==> r == st
    ensures confirmed ==> forall a :: a in r.assessments <==> a in st.assessments && a.id != id
    ensures confirmed ==> forall g :: g in r.grades <==> g in st.grades && g.assessmentId != id
    ensures confirmed ==> forall a {:trigger multiset(r.assessments)[a]} :: multiset(r.assessments)[a] == if a.id != id then multiset(st.assessments)[a] else 0
    ensures confirmed ==> forall g {:trigger multiset(r.grades)[g]} :: multiset(r.grades)[g] == if g.assessmentId != id then multiset(st.grades)[g] else 0
    ensures SubsequenceOf(r.assessments, st.assessments) && SubsequenceOf(r.grades, st.grades)
    ensures r.students == st.students
  {
    if !confirmed then
      SubsequenceOfSelf(st.assessments); SubsequenceOfSelf(st.grades);
      st
    else st.(assessments := Filter(OtherAssessment(id), st.assessments),
             grades := Filter(NotOfAssessment(id), st.grades))
  }

  /** Deleting a student keeps the data model well formed: in particular no grade is left
      pointing at the removed student. */
  lemma DeleteStudentKeepsWellFormed(st: AppState, id: string, confirmed: bool)
    requires WellFormed(st)
    ensures WellFormed(DeleteStudent(st, id, confirmed))
  {
    if confirmed {
      var r := DeleteStudent(st, id, confirmed);
      FilterKeepsDistinct(OtherStudent(id), st.students, IdOfStudent);
      FilterKeepsDistinct(NotOfStudent(id), st.grades, IdOfGrade);
      FilterKeepsDistinct(NotOfStudent(id), st.grades, PairOf);
      forall g | g in r.grades ensures g.studentId in Keys(r.students, IdOfStudent) {
        var s :| s in st.students && IdOfStudent(s) == g.studentId;
        assert s in r.students;
      }
    }
  }

  /** Deleting an assessment keeps the data model well formed: in particular no grade is left
      pointing at the removed assessment. */
  lemma DeleteAssessmentKeepsWellFormed(st: AppState, id: string, confirmed: bool)
    requires WellFormed(st)
    ensures WellFormed(DeleteAssessment(st, id, confirmed))
  {
    if confirmed {
      var r := DeleteAssessment(st, id, confirmed);
      FilterKeepsDistinct(OtherAssessment(id), st.assessments, IdOfAssessment);
      FilterKeepsDistinct(NotOfAssessment(id), st.grades, IdOfGrade);
      FilterKeepsDistinct(NotOfAssessment(id), st.grades, PairOf);
      forall g | g in r.grades ensures g.assessmentId in Keys(r.assessments, IdOfAssessment) {
        var a :| a in st.assessments && IdOfAssessment(a) == g.assessmentId;
        assert a in r.assessments;
      }
    }
  }

  /** Deleting a student that is not there leaves all three collections as they were. */
  lemma DeleteAbsentStudentChangesNothing(st: AppState, id: string, confirmed: bool)
    requires ReferencesResolve(st)
    requires id !in Keys(st.students, IdOfStudent)
    ensures DeleteStudent(st, id, confirmed) == st
  {
    if confirmed {
      FilterKeepsAll(OtherStudent(id), st.students);
      FilterKeepsAll(NotOfStudent(id), st.grades);
    }
  }

  /** Deleting an assessment that is not there leaves all three collections as they were. */
  lemma DeleteAbsentAssessmentChangesNothing(st: AppState, id: string, confirmed: bool)
    requires ReferencesResolve(st)
    requires id !in Keys(st.assessments, IdOfAssessment)
    ensures DeleteAssessment(st, id, confirmed) == st
  {
    if confirmed {
      FilterKeepsAll(OtherAssessment(id), st.assessments);
      FilterKeepsAll(NotOfAssessment(id), st.grades);
    }
  }

  /** Deletion is idempotent: a second confirmed delete of the same id finds nothing to remove. */
  lemma DeleteStudentIdempotent(st: AppState, id: string)
    ensures DeleteStudent(DeleteStudent(st, id, true), id, true) == DeleteStudent(st, id, true)
  {
    var r := DeleteStudent(st, id, true);
    FilterKeepsAll(OtherStudent(id), r.students);
    FilterKeepsAll(NotOfStudent(id), r.grades);
  }

  lemma DeleteAssessmentIdempotent(st: AppState, id: string)
    ensures DeleteAssessment(DeleteAssessment(st, id, true), id, true) == DeleteAssessment(st, id, true)
  {
    var r := DeleteAssessment(st, id, true);
    FilterKeepsAll(OtherAssessment(id), r.assessments);
    FilterKeepsAll(NotOfAssessment(id), r.grades);
  }

  // ----- updateGrade -----

  /** The grade form's key: a grade for this student on this assessment. */
  function SamePair(studentId: string, assessmentId: string): Grade -> bool {
    (g: Grade) => g.studentId == studentId && g.assessmentId == assessmentId
  }

  /** `{ ...g, ...input, id: keepId }`: the input's fields win, except that a missing
      feedback keeps the old one and the id is always `keepId`. */
  function Merge(g: Grade, input: GradeInput, keepId: string): (r: Grade)
    ensures r.id == keepId && SamePair(input.studentId, input.assessmentId)(r) && r.score == input.score
    ensures input.feedback.Some? ==> r == NewGrade(input, keepId)
    ensures input.feedback.None? ==> r.feedback == g.feedback
  {
    Grade(keepId, input.studentId, input.assessmentId, input.score,
          if input.feedback.Some? then input.feedback else g.feedback)
  }

  /** `{ ...input, id: newId }`. */
  function NewGrade(input: GradeInput, newId: string): Grade {
    Grade(newId, input.studentId, input.assessmentId, input.score, input.feedback)
  }

  /** `grades.map(g => g.id === existingId ? merged : g)`: every grade carrying `existingId`
      is merged with the input, every other grade is kept. */
  function ReplaceWhereId(gs: seq<Grade>, existingId: string, input: GradeInput): (r: seq<Grade>)
    ensures |r| == |gs| && forall j :: 0 <= j < |gs| ==> r[j].id == gs[j].id
    ensures forall j :: 0 <= j < |gs| && gs[j].id != existingId ==> r[j] == gs[j]
    ensures forall j :: 0 <= j < |gs| && gs[j].id == existingId ==> r[j] == Merge(gs[j], input, existingId)
  {
    seq(|gs|, j requires 0 <= j < |gs| => if gs[j].id == existingId then Merge(gs[j], input, existingId) else gs[j])
  }

  /** The upsert keyed on (studentId, assessmentId): when a grade for the pair exists, the first
      one found is rewritten in place under its own id; otherwise a new grade is appended under
      the generated id. Students and assessments are untouched. */
  function UpdateGrade(st: AppState, input: GradeInput, newId: string): (r: AppState)
    ensures r.students == st.students && r.assessments == st.assessments
    ensures (exists g :: g in st.grades && SamePair(input.studentId, input.assessmentId)(g)) ==>
              |r.grades| == |st.grades| && Keys(r.grades, IdOfGrade) == Keys(st.grades, IdOfGrade)
    ensures (forall g :: g in st.grades ==> !SamePair(input.studentId, input.assessmentId)(g)) ==>
              r.grades == st.grades + [Grade(newId, input.studentId, input.assessmentId, input.score, input.feedback)]
    ensures exists g :: g in r.grades && g.studentId == input.studentId && g.assessmentId == input.assessmentId &&
                        g.score == input.score
  {
    match Find(SamePair(input.studentId, input.assessmentId), st.grades)
    case Some(existing) =>
      var gs := ReplaceWhereId(st.grades, existing.id, input);
      SameKeysPointwise(gs, st.grades, IdOfGrade);
      st.(grades := gs)
    case None => st.(grades := st.grades + [NewGrade(input, newId)])
  }

  /** When a grade for the pair exists and grade ids are unique, the first such grade keeps
      its position and id and takes the input's score (and feedback, when given); every other
      grade is unchanged and the count stays the same. */
  lemma UpdateExistingInPlace(st: AppState, input: GradeInput, newId: string, k: nat)
    requires Distinct(st.grades, IdOfGrade)
    requires k < |st.grades| && SamePair(input.studentId, input.assessmentId)(st.grades[k])
    requires forall j :: 0 <= j < k ==> !SamePair(input.studentId, input.assessmentId)(st.grades[j])
    ensures |UpdateGrade(st, input, newId).grades| == |st.grades|
    ensures UpdateGrade(st, input, newId).grades[k] ==
              Grade(st.grades[k].id, st.grades[k].studentId, st.grades[k].assessmentId, input.score,
                    if input.feedback.Some? then input.feedback else st.grades[k].feedback)
    ensures forall j :: 0 <= j < |st.grades| && j != k ==> UpdateGrade(st, input, newId).grades[j] == st.grades[j]
  {
  }

  /** An upsert for an existing student and assessment, whose generated id is unused, keeps the
      data model well formed; in particular there is still at most one grade per pair. */
  lemma UpdateGradeKeepsWellFormed(st: AppState, input: GradeInput, newId: string)
    requires WellFormed(st)
    requires input.studentId in Keys(st.students, IdOfStudent)
    requires input.assessmentId in Keys(st.assessments, IdOfAssessment)
    requires newId !in Keys(st.grades, IdOfGrade)
    ensures WellFormed(UpdateGrade(st, input, newId))
  {
  }

  /** Upserting the same input twice gives the state one upsert gives: the record for the pair
      is not duplicated and keeps the id it got the first time. The generated id of the first
      call must be unused; the second call's id is never consumed. */
  lemma UpdateGradeIdempotent(st: AppState, input: GradeInput, newId: string, otherId: string)
    requires newId !in Keys(st.grades, IdOfGrade)
    ensures UpdateGrade(UpdateGrade(st, input, newId), input, otherId) == UpdateGrade(st, input, newId)
  {
    var p := SamePair(input.studentId, input.assessmentId);
    var gs := st.grades;
    match FindIndex(p, gs)
    case Some(k) =>
      assert Find(p, gs) == Some(gs[k]);
      FindAfterMerge(gs, input, k);
      ReplaceTwice(gs, gs[k].id, input);
    case None =>
      assert Find(p, gs) == None;
      FindAfterAppend(gs, input, newId);
      ReplaceAfterAppend(gs, input, newId);
  }

  /** After the merge, the first grade for the pair carries the found id and the input's score,
      and the input's feedback when one is given. */
  lemma FindAfterMerge(gs: seq<Grade>, input: GradeInput, k: nat)
    requires FindIndex(SamePair(input.studentId, input.assessmentId), gs) == Some(k)
    ensures var r := Find(SamePair(input.studentId, input.assessmentId), ReplaceWhereId(gs, gs[k].id, input));
            r.Some? && r.value.id == gs[k].id && r.value.score == input.score &&
            (input.feedback.Some? ==> r.value.feedback == input.feedback)
  {
    var p := SamePair(input.studentId, input.assessmentId);
    var e := gs[k].id;
    var gs1 := ReplaceWhereId(gs, e, input);
    var k1 := FindIndex(p, gs1).value;
    assert k1 <= k by {
      assert p(gs1[k]);
    }
    forall j | 0 <= j < k && gs[j].id != e ensures !p(gs1[j]) {
      assert gs1[j] == gs[j];
    }
    assert gs[k1].id == e by {
      if k1 < k {
        assert p(gs1[k1]);
      }
    }
    assert Find(p, gs1) == Some(gs1[k1]);
  }

  /** When no grade has the pair, the appended grade is the first one for it. */
  lemma FindAfterAppend(gs: seq<Grade>, input: GradeInput, newId: string)
    requires FindIndex(SamePair(input.studentId, input.assessmentId), gs) == None
    ensures Find(SamePair(input.studentId, input.assessmentId), gs + [NewGrade(input, newId)]) ==
              Some(NewGrade(input, newId))
  {
    var p := SamePair(input.studentId, input.assessmentId);
    var gs1 := gs + [NewGrade(input, newId)];
    assert FindIndex(p, gs1) == Some(|gs|) by {
      assert gs1[|gs|] == NewGrade(input, newId);
    }
  }

  /** Merging the same input a second time changes nothing. */
  lemma ReplaceTwice(gs: seq<Grade>, e: string, input: GradeInput)
    ensures ReplaceWhereId(ReplaceWhereId(gs, e, input), e, input) == ReplaceWhereId(gs, e, input)
  {
    var gs1 := ReplaceWhereId(gs, e, input);
    var gs2 := ReplaceWhereId(gs1, e, input);
    forall j | 0 <= j < |gs1| ensures gs2[j] == gs1[j] {
    }
  }

  /** Merging into a freshly appended grade, whose id no earlier grade carries, changes nothing. */
  lemma ReplaceAfterAppend(gs: seq<Grade>, input: GradeInput, newId: string)
    requires newId !in Keys(gs, IdOfGrade)
    ensures ReplaceWhereId(gs + [NewGrade(input, newId)], newId, input) == gs + [NewGrade(input, newId)]
  {
    var gs1 := gs + [NewGrade(input, newId)];
    var gs2 := ReplaceWhereId(gs1, newId, input);
    forall j | 0 <= j < |gs| ensures gs2[j] == gs1[j] {
      assert gs[j] in gs;
    }
  }
}
