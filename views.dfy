/** Read-only projections of the state used by the screens (App.tsx): a student's grades and
    their mean, the student's grade history, the dashboard's recent activity and the grading
    form's auto-fill. */
module Views {
  import opened Wrappers
  import opened Seqs
  import opened Types
  import opened Integrity
  import opened Actions

  function OfStudent(studentId: string): Grade -> bool { (g: Grade) => g.studentId == studentId }

  /** `grades.filter(g => g.studentId === id)`: the student's grades in insertion order. */
  function StudentGrades(gs: seq<Grade>, studentId: string): (r: seq<Grade>)
    ensures forall g :: g in r <==> g in gs && g.studentId == studentId
    ensures forall g {:trigger multiset(r)[g]} :: multiset(r)[g] == if g.studentId == studentId then multiset(gs)[g] else 0
    ensures SubsequenceOf(r, gs)
  {
    Filter(OfStudent(studentId), gs)
  }

  /** `grades.reduce((acc, g) => acc + g.score, 0)`, folded from the left. */
  function SumScores(gs: seq<Grade>): int {
    if |gs| == 0 then 0 else SumScores(gs[..|gs| - 1]) + gs[|gs| - 1].score
  }

  /** The mean score of a list of grades, 0 for an empty list. */
  function Mean(gs: seq<Grade>): (r: real)
    ensures |gs| == 0 ==> r == 0.0
  {
    if |gs| > 0 then SumScores(gs) as real / |gs| as real else 0.0
  }

  /** The student's mean score, 0 when they have no grade (rounding for display is not modelled). */
  function Average(gs: seq<Grade>, studentId: string): (r: real)
    ensures |StudentGrades(gs, studentId)| == 0 ==> r == 0.0
  {
    Mean(StudentGrades(gs, studentId))
  }

  /** The sum of a concatenation is the sum of its parts. */
  lemma {:induction false} SumScoresConcat(a: seq<Grade>, b: seq<Grade>)
    ensures SumScores(a + b) == SumScores(a) + SumScores(b)
  {
    if |b| == 0 {
      assert a + b == a;
    } else {
      assert (a + b)[..|a + b| - 1] == a + b[..|b| - 1];
      SumScoresConcat(a, b[..|b| - 1]);
    }
  }

  /** Scores between `lo` and `hi` sum to between `lo` and `hi` times their count. */
  lemma {:induction false} SumScoresBounds(gs: seq<Grade>, lo: int, hi: int)
    requires forall g :: g in gs ==> lo <= g.score <= hi
    ensures lo * |gs| <= SumScores(gs) <= hi * |gs|
  {
    if |gs| > 0 {
      var init := gs[..|gs| - 1];
      assert forall g :: g in init ==> g in gs;
      assert gs[|gs| - 1] in gs;
      SumScoresBounds(init, lo, hi);
      MulSucc(lo, |init|);
      MulSucc(hi, |init|);
    }
  }

  lemma MulSucc(a: int, n: nat)
    ensures a * (n + 1) == a * n + a
  {
  }

  /** The mean of a non-empty list times its length is the score total. */
  lemma MeanTimesCount(gs: seq<Grade>)
    requires |gs| > 0
    ensures Mean(gs) * (|gs| as real) == SumScores(gs) as real
  {
    DivTimes(SumScores(gs) as real, |gs| as real);
  }

  lemma DivTimes(s: real, n: real)
    requires n != 0.0
    ensures (s / n) * n == s
  {
  }

  /** When every score of the student lies in [lo, hi], so does their mean. */
  lemma AverageWithinScoreRange(gs: seq<Grade>, studentId: string, lo: int, hi: int)
    requires |StudentGrades(gs, studentId)| > 0
    requires forall g :: g in gs && g.studentId == studentId ==> lo <= g.score <= hi
    ensures lo as real <= Average(gs, studentId) <= hi as real
  {
    var mine := StudentGrades(gs, studentId);
    assert forall g :: g in mine ==> lo <= g.score <= hi;
    SumScoresBounds(mine, lo, hi);
    MeanBetween(SumScores(mine), |mine|, lo, hi);
  }

  /** A sum between `lo * count` and `hi * count` has its mean between `lo` and `hi`. */
  lemma MeanBetween(sum: int, count: nat, lo: int, hi: int)
    requires count > 0 && lo * count <= sum <= hi * count
    ensures lo as real <= sum as real / count as real <= hi as real
  {
  }

  /** A student with a single grade has that grade's score as mean. */
  lemma SingleGradeMean(gs: seq<Grade>, studentId: string, g: Grade)
    requires StudentGrades(gs, studentId) == [g]
    ensures Average(gs, studentId) == g.score as real
  {
    assert [g][..0] == [];
    assert SumScores([g]) == g.score;
    assert (g.score as real) / 1.0 == g.score as real;
  }

  /** Recording a grade for another student leaves this student's grades and mean as they were;
      recording one for this student puts it last in their list. */
  lemma AppendedGradeAffectsOnlyItsStudent(gs: seq<Grade>, g: Grade, studentId: string)
    ensures g.studentId != studentId ==>
              StudentGrades(gs + [g], studentId) == StudentGrades(gs, studentId) &&
              Average(gs + [g], studentId) == Average(gs, studentId)
    ensures g.studentId == studentId ==> StudentGrades(gs + [g], studentId) == StudentGrades(gs, studentId) + [g]
  {
    FilterConcat(OfStudent(studentId), gs, [g]);
    assert [g][1..] == [];
  }

  // ----- grade history of the student portal -----

  /** One row of the student's grade history: the grade with the assessment it refers to. */
  datatype HistoryRow = HistoryRow(assessment: Assessment, grade: Grade)

  function HasId(id: string): Assessment -> bool { (a: Assessment) => a.id == id }

  /** Maps each grade to a row with the first assessment carrying its `assessmentId`; a grade whose
      assessment cannot be found yields no row. */
  function Rows(assessments: seq<Assessment>, gs: seq<Grade>): (r: seq<HistoryRow>)
    ensures |r| <= |gs|
    ensures forall row :: row in r ==>
              row.grade in gs && row.assessment in assessments && row.assessment.id == row.grade.assessmentId
    ensures forall g :: g in gs && g.assessmentId !in Keys(assessments, IdOfAssessment) ==>
              forall row :: row in r ==> row.grade != g
  {
    if |gs| == 0 then []
    else
      var rest := Rows(assessments, gs[1..]);
      match Find(HasId(gs[0].assessmentId), assessments)
      case None => rest
      case Some(a) => [HistoryRow(a, gs[0])] + rest
  }

  /** The grade history shown for a student. */
  function HistoryRows(st: AppState, studentId: string): (r: seq<HistoryRow>)
    ensures forall row :: row in r ==>
              row.grade in st.grades && row.grade.studentId == studentId &&
              row.assessment in st.assessments && row.assessment.id == row.grade.assessmentId
  {
    Rows(st.assessments, StudentGrades(st.grades, studentId))
  }

  /** Rows follow the grades' order: the rows of a concatenation are the concatenated rows. */
  lemma {:induction false} RowsConcat(assessments: seq<Assessment>, a: seq<Grade>, b: seq<Grade>)
    ensures Rows(assessments, a + b) == Rows(assessments, a) + Rows(assessments, b)
  {
    if |a| == 0 {
      assert a + b == b;
    } else {
      assert (a + b)[0] == a[0];
      assert (a + b)[1..] == a[1..] + b;
      RowsConcat(assessments, a[1..], b);
    }
  }

  /** When every grade's assessment exists, no row is skipped: there is one row per grade, in order. */
  lemma {:induction false} RowsComplete(assessments: seq<Assessment>, gs: seq<Grade>)
    requires forall g :: g in gs ==> g.assessmentId in Keys(assessments, IdOfAssessment)
    ensures |Rows(assessments, gs)| == |gs|
    ensures forall i :: 0 <= i < |gs| ==> Rows(assessments, gs)[i].grade == gs[i]
  {
    if |gs| > 0 {
      var p := HasId(gs[0].assessmentId);
      assert gs[0].assessmentId in Keys(assessments, IdOfAssessment) by {
        assert gs[0] in gs;
      }
      var a :| a in assessments && IdOfAssessment(a) == gs[0].assessmentId;
      assert p(a);
      var found := Find(p, assessments);
      assert found.Some?;
      assert forall g :: g in gs[1..] ==> g in gs;
      RowsComplete(assessments, gs[1..]);
      RowsCons(Rows(assessments, gs), HistoryRow(found.value, gs[0]), Rows(assessments, gs[1..]), gs);
    }
  }

  /** A row for the first grade followed by one row per remaining grade is one row per grade. */
  lemma RowsCons(r: seq<HistoryRow>, first: HistoryRow, rest: seq<HistoryRow>, gs: seq<Grade>)
    requires |gs| > 0 && r == [first] + rest && first.grade == gs[0]
    requires |rest| == |gs| - 1 && forall i :: 0 <= i < |rest| ==> rest[i].grade == gs[i + 1]
    ensures |r| == |gs| && forall i :: 0 <= i < |gs| ==> r[i].grade == gs[i]
  {
  }

  /** In a well-formed state the history lists every grade of the student. */
  lemma HistoryComplete(st: AppState, studentId: string)
    requires ReferencesResolve(st)
    ensures |HistoryRows(st, studentId)| == |StudentGrades(st.grades, studentId)|
    ensures forall i :: 0 <= i < |HistoryRows(st, studentId)| ==>
              HistoryRows(st, studentId)[i].grade == StudentGrades(st.grades, studentId)[i]
  {
    RowsComplete(st.assessments, StudentGrades(st.grades, studentId));
  }

  // ----- recent activity on the dashboard -----

  const RECENT_LIMIT: nat := 5

  /** `grades.slice(-5).reverse()`: the last five grades (all of them when there are fewer),
      newest first. */
  function RecentGrades(gs: seq<Grade>): (r: seq<Grade>)
    ensures |r| == if |gs| < RECENT_LIMIT then |gs| else RECENT_LIMIT
    ensures forall i :: 0 <= i < |r| ==> r[i] == gs[|gs| - 1 - i]
  {
    var start := if |gs| < RECENT_LIMIT then 0 else |gs| - RECENT_LIMIT;
    Reverse(gs[start..])
  }

  /** A newly appended grade heads the recent activity, and the rest shifts down by one. */
  lemma RecentAfterAppend(gs: seq<Grade>, g: Grade)
    ensures RecentGrades(gs + [g])[0] == g
    ensures RecentGrades(gs + [g])[1..] == RecentGrades(gs)[..|RecentGrades(gs + [g])| - 1]
  {
    var r := RecentGrades(gs + [g]);
    var q := RecentGrades(gs);
    assert |r| - 1 <= |q|;
    forall i | 0 <= i < |r| - 1 ensures r[1..][i] == q[..|r| - 1][i] {
      assert r[i + 1] == (gs + [g])[|gs| - 1 - i];
    }
  }

  // ----- auto-fill of the grading form -----

  /** The score and feedback the grading form shows. */
  datatype FormValues = FormValues(score: int, feedback: string)

  /** The grading form's effect: with both an assessment and a student selected, the first grade
      for the pair fills the form (an absent feedback as ''), otherwise 0 and ''. With either
      selection empty the effect leaves the form alone (`None`). */
  function AutoFill(gs: seq<Grade>, assessmentId: string, studentId: string): (r: Option<FormValues>)
    ensures r.None? <==> assessmentId == "" || studentId == ""
    ensures r.Some? && (forall g :: g in gs ==> !(g.assessmentId == assessmentId && g.studentId == studentId)) ==>
              r.value == FormValues(0, "")
    ensures r.Some? && r.value != FormValues(0, "") ==>
              exists g :: g in gs && g.assessmentId == assessmentId && g.studentId == studentId &&
                          g.score == r.value.score
    ensures assessmentId != "" && studentId != "" ==>
              forall k :: 0 <= k < |gs| && gs[k].studentId == studentId && gs[k].assessmentId == assessmentId &&
                          (forall j :: 0 <= j < k ==> !(gs[j].studentId == studentId && gs[j].assessmentId == assessmentId)) ==>
                r == Some(FormValues(gs[k].score, gs[k].feedback.GetOr("")))
  {
    if assessmentId == "" || studentId == "" then None
    else match Find(SamePair(studentId, assessmentId), gs)
      case Some(existing) => Some(FormValues(existing.score, existing.feedback.GetOr("")))
      case None => Some(FormValues(0, ""))
  }

  /** Saving a grade and reselecting the same pair shows what was saved: the form reads back the
      score and feedback that `UpdateGrade` stored. */
  lemma AutoFillAfterUpdate(st: AppState, input: GradeInput, newId: string, feedback: string)
    requires input.studentId != "" && input.assessmentId != ""
    requires input.feedback == Some(feedback)
    ensures AutoFill(UpdateGrade(st, input, newId).grades, input.assessmentId, input.studentId) ==
              Some(FormValues(input.score, feedback))
  {
    var p := SamePair(input.studentId, input.assessmentId);
    var gs := st.grades;
    match FindIndex(p, gs)
    case Some(k) =>
      assert Find(p, gs) == Some(gs[k]);
      FindAfterMerge(gs, input, k);
    case None =>
      assert Find(p, gs) == None;
      FindAfterAppend(gs, input, newId);
  }
}
