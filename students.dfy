/** Students, their session results, and the scholarship eligibility test. */
module Students {

  /** One graded exam: the semester it belongs to, the subject, the grade. */
  datatype SessionResult = SessionResult(semester: int, subject: string, grade: int)

  /** A student record; the group is only ever compared for equality. */
  datatype Student = Student(name: string, group: string, sessions: seq<SessionResult>)

  /** Grades strictly below this value cost the scholarship. */
  const MinGrade: int := 4

  /** True when this session belongs to `semester` and its grade is too low. */
  predicate Fails(session: SessionResult, semester: int)
  {
    session.semester == semester && session.grade < MinGrade
  }

  /**
   * The eligibility rule: the student is in `group` and no session of
   * `semester` has a grade below MinGrade. Sessions of other semesters are
   * irrelevant, and a student without sessions in `semester` qualifies.
   */
  predicate IsScholarship(student: Student, group: string, semester: int)
  {
    student.group == group &&
    forall k :: 0 <= k < |student.sessions| ==> !Fails(student.sessions[k], semester)
  }

  /** The early-return scan over the sessions, proved to decide IsScholarship. */
  method CheckScholarship(student: Student, group: string, semester: int) returns (ok: bool)
    ensures ok <==> IsScholarship(student, group, semester)
    ensures !ok && student.group == group ==>
      exists k :: 0 <= k < |student.sessions| && Fails(student.sessions[k], semester)
  {
    if student.group != group {
      return false;
    }
    var k := 0;
    while k < |student.sessions|
      invariant 0 <= k <= |student.sessions|
      invariant forall j :: 0 <= j < k ==> !Fails(student.sessions[j], semester)
    {
      var session := student.sessions[k];
      if session.semester == semester && session.grade < MinGrade {
        return false;
      }
      k := k + 1;
    }
    return true;
  }

  /** A student of another group never qualifies, whatever the grades. */
  lemma WrongGroupNeverQualifies(student: Student, group: string, semester: int)
    requires student.group != group
    ensures !IsScholarship(student, group, semester)
  {
  }

  /**
   * Within the right group, the student fails exactly when some session of
   * the requested semester has a grade below MinGrade.
   */
  lemma QualifiesUnlessFailingSession(student: Student, group: string, semester: int)
    requires student.group == group
    ensures !IsScholarship(student, group, semester) <==>
      exists k :: 0 <= k < |student.sessions| &&
        student.sessions[k].semester == semester && student.sessions[k].grade < 4
  {
  }

  /** A student of the group with no sessions in the semester qualifies. */
  lemma NoSessionsQualifies(student: Student, group: string, semester: int)
    requires student.group == group
    requires forall k :: 0 <= k < |student.sessions| ==> student.sessions[k].semester != semester
    ensures IsScholarship(student, group, semester)
  {
  }

  /** Adding a session of another semester never changes the outcome. */
  lemma OtherSemesterIgnored(student: Student, group: string, semester: int, extra: SessionResult)
    requires extra.semester != semester
    ensures IsScholarship(student.(sessions := student.sessions + [extra]), group, semester)
        <==> IsScholarship(student, group, semester)
  {
    var longer := student.sessions + [extra];
    assert forall k :: 0 <= k < |student.sessions| ==> longer[k] == student.sessions[k];
    assert longer[|student.sessions|] == extra;
  }
}
