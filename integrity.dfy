/** The invariants the gradebook's data model is designed to keep: identifiers unique within
    their collection, every grade pointing at an existing student and assessment, and at
    most one grade per (student, assessment) pair. Nothing in the source checks them; the
    operations in `Actions` are proved to preserve them. */
module Integrity {
  import opened Seqs
  import opened Types

  predicate IdsDistinct(st: AppState) {
    && Distinct(st.students, IdOfStudent)
    && Distinct(st.assessments, IdOfAssessment)
    && Distinct(st.grades, IdOfGrade)
  }

  /** No grade outlives the student or the assessment it refers to. */
  predicate ReferencesResolve(st: AppState) {
    forall g :: g in st.grades ==>
      g.studentId in Keys(st.students, IdOfStudent) && g.assessmentId in Keys(st.assessments, IdOfAssessment)
  }

  /** The composite key (studentId, assessmentId) is unique among grades. */
  predicate OneGradePerPair(gs: seq<Grade>) {
    Distinct(gs, PairOf)
  }

  predicate WellFormed(st: AppState) {
    IdsDistinct(st) && ReferencesResolve(st) && OneGradePerPair(st.grades)
  }
}
