/** The gradebook's records (types.ts): students, assessments, grades and the aggregate
    state that is loaded, changed and saved as one unit. Scores are JavaScript numbers in
    the source and integers here; nothing relates a score to its assessment's maximum. */
module Types {
  import opened Wrappers

  /** The screens of the application; each variant carries a string value. */
  datatype View = Home | StudentPortal | TeacherDashboard | TeacherStudents | TeacherAssessments | TeacherGrading

  /** The string each `View` variant stands for. */
  function ViewValue(v: View): string {
    match v
    case Home => "HOME"
    case StudentPortal => "STUDENT_PORTAL"
    case TeacherDashboard => "TEACHER_DASHBOARD"
    case TeacherStudents => "TEACHER_STUDENTS"
    case TeacherAssessments => "TEACHER_ASSESSMENTS"
    case TeacherGrading => "TEACHER_GRADING"
  }

  /** The variants in declaration order. */
  const ALL_VIEWS: seq<View> :=
    [Home, StudentPortal, TeacherDashboard, TeacherStudents, TeacherAssessments, TeacherGrading]

  /** There are exactly six views, and no two of them share a string value. */
  lemma ViewsEnumerated()
    ensures |ALL_VIEWS| == 6
    ensures forall v :: v in ALL_VIEWS
    ensures forall i, j :: 0 <= i < j < |ALL_VIEWS| ==> ViewValue(ALL_VIEWS[i]) != ViewValue(ALL_VIEWS[j])
  {
    forall v ensures v in ALL_VIEWS {
      match v
      case Home => assert ALL_VIEWS[0] == v;
      case StudentPortal => assert ALL_VIEWS[1] == v;
      case TeacherDashboard => assert ALL_VIEWS[2] == v;
      case TeacherStudents => assert ALL_VIEWS[3] == v;
      case TeacherAssessments => assert ALL_VIEWS[4] == v;
      case TeacherGrading => assert ALL_VIEWS[5] == v;
    }
  }

  /** A student; `contact` is the only optional field. */
  datatype Student = Student(id: string, nis: string, name: string, gradeLevel: string, contact: Option<string>)

  /** An assessment; `description` is the only optional field. */
  datatype Assessment = Assessment(id: string, title: string, subject: string, date: string, maxScore: int,
                                   description: Option<string>)

  /** A score of one student on one assessment; it refers to both only through their ids. */
  datatype Grade = Grade(id: string, studentId: string, assessmentId: string, score: int, feedback: Option<string>)

  /** The whole dataset: three ordered collections. */
  datatype AppState = AppState(students: seq<Student>, assessments: seq<Assessment>, grades: seq<Grade>)

  /** Records are identified by their ids, a grade also by the pair of ids it links. */
  function IdOfStudent(s: Student): string { s.id }
  function IdOfAssessment(a: Assessment): string { a.id }
  function IdOfGrade(g: Grade): string { g.id }
  function PairOf(g: Grade): (string, string) { (g.studentId, g.assessmentId) }
}
