/** The gradebook's behaviour on its seed data, as worked examples of the upsert, the mean and
    the cascade delete. */
module Scenarios {
  import opened Wrappers
  import opened Types
  import opened StorageService
  import opened Actions
  import opened Views

  const REGRADE_S3: GradeInput := GradeInput(None, "s3", "a1", 70, Some(""))

  /** Grading the ungraded student s3 on a1 adds a third grade rather than touching g1 or g2. */
  lemma SeedUpsertAppends()
    ensures UpdateGrade(SEED, REGRADE_S3, "g3").grades == SEED.grades + [Grade("g3", "s3", "a1", 70, Some(""))]
  {
  }

  /** After that upsert the mean of s3 is the one score they have. */
  lemma SeedUpsertAverage()
    ensures Average(UpdateGrade(SEED, REGRADE_S3, "g3").grades, "s3") == 70.0
  {
    SeedUpsertAppends();
    var g := Grade("g3", "s3", "a1", 70, Some(""));
    AppendedGradeAffectsOnlyItsStudent(SEED.grades, g, "s3");
    assert StudentGrades(SEED.grades, "s3") == [];
    SingleGradeMean(SEED.grades + [g], "s3", g);
  }

  /** Deleting a1 afterwards removes g1, g2 and the new grade: no grade is left. */
  lemma SeedDeleteAssessmentEmptiesGrades()
    ensures DeleteAssessment(UpdateGrade(SEED, REGRADE_S3, "g3"), "a1", true).grades == []
  {
  }

  /** Grading s1 on a1 twice with the same score and feedback leaves exactly one grade for that
      pair: g1, rewritten with the new score. */
  lemma SeedRegradeTwice()
    ensures UpdateGrade(UpdateGrade(SEED, GradeInput(None, "s1", "a1", 90, Some("better")), "x"),
                        GradeInput(None, "s1", "a1", 90, Some("better")), "y").grades ==
              [Grade("g1", "s1", "a1", 90, Some("better")), SEED.grades[1]]
  {
  }
}
