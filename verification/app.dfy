/** The in-memory application state and the handlers that update it.
    Every handler is a pure function of the state; a handler that shows
    the user an error returns `Failure` with the reason (the state is then
    left as it was), a handler that silently returns gives back the state
    unchanged. Clock readings (used in generated ids and time stamps) are
    parameters. */
module App {
  import opened Wrappers
  import opened Types
  import opened Seqs
  import opened Strings
  import opened Scoring

  /** The fixed administrator credentials. */
  const AdminEmail: string := "khanh92.toan@gmail.com"
  const AdminPassword: string := "khanh123@"

  /** Everything the application holds for one session. */
  datatype State = State(
    currentUser: Option<User>,
    teachers: seq<Teacher>,
    students: seq<StudentUser>,
    assignments: seq<Assignment>,
    activeAssignment: Option<Assignment>,
    activeClassroomId: Option<string>)

  /** The state when the application starts: nobody logged in, no
      accounts, no assignments. */
  const Initial: State := State(None, [], [], [], None, None)

  /** The failures the handlers report. */
  datatype Error =
    | PhoneTaken         // registration with a phone already in use
    | BadCredentials     // login with no matching account
    | InvalidCode        // no assignment has this join code
    | ClassroomNotFound  // no teacher owns the assignment's classroom
    | RosterMismatch     // no roster entry has this name and number

  /** The kind of account a registration asks for. */
  datatype RegisterAs = AsTeacher | AsStudent

  /** Some teacher or student account already uses `phone`. */
  predicate PhoneInUse(s: State, phone: string)
  {
    || Any(s.teachers, (t: Teacher) => t.phone == phone)
    || Any(s.students, (st: StudentUser) => st.phone == phone)
  }

  /** No two accounts, teacher or student, share a phone number. */
  ghost predicate PhonesUnique(s: State)
  {
    && (forall i, j :: 0 <= i < j < |s.teachers| ==> s.teachers[i].phone != s.teachers[j].phone)
    && (forall i, j :: 0 <= i < j < |s.students| ==> s.students[i].phone != s.students[j].phone)
    && (forall i, j :: 0 <= i < |s.teachers| && 0 <= j < |s.students| ==>
          s.teachers[i].phone != s.students[j].phone)
  }

  /** The account `handleRegister` creates. */
  function NewAccount(name: string, phone: string, pass: string, role: RegisterAs, newId: string): User
  {
    match role
    case AsTeacher => TeacherUser(Teacher(newId, name, phone, Some(pass), false, []))
    case AsStudent => StudentAccount(StudentUser(newId, name, phone, Some(pass)))
  }

  /** `handleRegister`: rejects a phone already used by any account;
      otherwise appends one new account, a teacher awaiting activation and
      owning no classroom, or a student. */
  function Register(s: State, name: string, phone: string, pass: string, role: RegisterAs, newId: string)
    : (r: Result<State, Error>)
    ensures r.Failure? <==> PhoneInUse(s, phone)
    ensures r.Failure? ==> r.error == PhoneTaken
    ensures r.Success? && role == AsTeacher ==>
              && r.value.teachers == s.teachers + [Teacher(newId, name, phone, Some(pass), false, [])]
              && r.value.students == s.students
    ensures r.Success? && role == AsStudent ==>
              && r.value.students == s.students + [StudentUser(newId, name, phone, Some(pass))]
              && r.value.teachers == s.teachers
    ensures r.Success? ==> r.value == s.(teachers := r.value.teachers, students := r.value.students)
  {
    if PhoneInUse(s, phone) then Failure(PhoneTaken)
    else
      match role
      case AsTeacher =>
        Success(s.(teachers := s.teachers + [Teacher(newId, name, phone, Some(pass), false, [])]))
      case AsStudent =>
        Success(s.(students := s.students + [StudentUser(newId, name, phone, Some(pass))]))
  }

  predicate IsAdminLogin(user: string, pass: string)
  {
    user == AdminEmail && pass == AdminPassword
  }

  predicate TeacherLogsIn(t: Teacher, user: string, pass: string)
  {
    t.phone == user && t.password == Some(pass)
  }

  predicate StudentLogsIn(st: StudentUser, user: string, pass: string)
  {
    st.phone == user && st.password == Some(pass)
  }

  /** `handleLogin`: the administrator's credentials first, then the first
      teacher with this phone and password, then the first such student.
      Only the current user changes. */
  function Login(s: State, user: string, pass: string): (r: Result<State, Error>)
    ensures IsAdminLogin(user, pass) ==> r == Success(s.(currentUser := Some(AdminUser(Admin(AdminEmail)))))
    ensures r.Failure? <==>
              && !IsAdminLogin(user, pass)
              && (forall i :: 0 <= i < |s.teachers| ==> !TeacherLogsIn(s.teachers[i], user, pass))
              && (forall i :: 0 <= i < |s.students| ==> !StudentLogsIn(s.students[i], user, pass))
    ensures r.Failure? ==> r.error == BadCredentials
    ensures r.Success? ==> r.value.currentUser.Some? && r.value == s.(currentUser := r.value.currentUser)
    ensures r.Success? && r.value.currentUser.value.AdminUser? ==> IsAdminLogin(user, pass)
    ensures r.Success? && r.value.currentUser.value.TeacherUser? ==>
              && !IsAdminLogin(user, pass)
              && exists i :: 0 <= i < |s.teachers| && r.value.currentUser.value.teacher == s.teachers[i]
                             && TeacherLogsIn(s.teachers[i], user, pass)
                             && forall j :: 0 <= j < i ==> !TeacherLogsIn(s.teachers[j], user, pass)
    ensures r.Success? && r.value.currentUser.value.StudentAccount? ==>
              && !IsAdminLogin(user, pass)
              && (forall i :: 0 <= i < |s.teachers| ==> !TeacherLogsIn(s.teachers[i], user, pass))
              && exists i :: 0 <= i < |s.students| && r.value.currentUser.value.student == s.students[i]
                             && StudentLogsIn(s.students[i], user, pass)
                             && forall j :: 0 <= j < i ==> !StudentLogsIn(s.students[j], user, pass)
  {
    if IsAdminLogin(user, pass) then Success(s.(currentUser := Some(AdminUser(Admin(AdminEmail)))))
    else
      match Find(s.teachers, (t: Teacher) => TeacherLogsIn(t, user, pass))
      case Some(t) => Success(s.(currentUser := Some(TeacherUser(t))))
      case None =>
        match Find(s.students, (st: StudentUser) => StudentLogsIn(st, user, pass))
        case Some(st) => Success(s.(currentUser := Some(StudentAccount(st))))
        case None => Failure(BadCredentials)
  }

  /** `handleLogout`: clears the session, and with it the assignment list;
      the accounts stay. */
  function Logout(s: State): (r: State)
    ensures r.currentUser.None? && r.activeAssignment.None? && r.activeClassroomId.None?
    ensures r.assignments == []
    ensures r.teachers == s.teachers && r.students == s.students
  {
    s.(currentUser := None, assignments := [], activeAssignment := None, activeClassroomId := None)
  }

  /** `handleActivateTeacher`: sets the activation flag of every teacher
      with this id; nothing else changes. */
  function Activate(s: State, teacherId: string): (r: State)
    ensures |r.teachers| == |s.teachers|
    ensures forall i :: 0 <= i < |s.teachers| ==>
              r.teachers[i].activated == (s.teachers[i].activated || s.teachers[i].id == teacherId)
    ensures forall i :: 0 <= i < |s.teachers| ==>
              r.teachers[i].(activated := s.teachers[i].activated) == s.teachers[i]
    ensures r == s.(teachers := r.teachers)
  {
    s.(teachers := seq(|s.teachers|, i requires 0 <= i < |s.teachers| =>
                         if s.teachers[i].id == teacherId then s.teachers[i].(activated := true)
                         else s.teachers[i]))
  }

  /** `handleCreateAssignment`: appends an assignment with the supplied
      id (the join code), no submissions, and the given classroom, and
      returns it. */
  function CreateAssignment(s: State, draft: AssignmentDraft, classroomId: string, newId: string)
    : (r: (State, Assignment))
    ensures r.1.id == newId && r.1.classroomId == classroomId && r.1.submissions == []
    ensures r.1.title == draft.title && r.1.instructions == draft.instructions
    ensures r.1.files == draft.files && r.1.parts == draft.parts
    ensures r.0 == s.(assignments := s.assignments + [r.1])
  {
    var a := Assignment(newId, draft.title, draft.instructions, draft.files, draft.parts, [], classroomId);
    (s.(assignments := s.assignments + [a]), a)
  }

  /** The assignment a join code designates: the first whose id equals
      the code up to letter case. */
  function ResolveCode(assignments: seq<Assignment>, code: string): (r: Option<Assignment>)
    ensures r.None? <==> forall i :: 0 <= i < |assignments| ==> ToUpper(assignments[i].id) != ToUpper(code)
    ensures r.Some? ==> exists i :: 0 <= i < |assignments| && assignments[i] == r.value
                                    && ToUpper(assignments[i].id) == ToUpper(code)
                                    && forall j :: 0 <= j < i ==> ToUpper(assignments[j].id) != ToUpper(code)
  {
    Find(assignments, (a: Assignment) => ToUpper(a.id) == ToUpper(code))
  }

  predicate OwnsClassroom(t: Teacher, classroomId: string)
  {
    Any(t.classrooms, (c: Classroom) => c.id == classroomId)
  }

  /** `c` is the first classroom of the list with this id. */
  predicate FirstWithId(cs: seq<Classroom>, classroomId: string, c: Classroom)
  {
    exists k :: 0 <= k < |cs| && cs[k] == c && c.id == classroomId &&
                forall m :: 0 <= m < k ==> cs[m].id != classroomId
  }

  /** The classroom with this id, looked up in the first teacher that owns
      one (and there, the first with this id). */
  function OwnerClassroom(teachers: seq<Teacher>, classroomId: string): (r: Option<Classroom>)
    ensures r.None? <==> forall i :: 0 <= i < |teachers| ==> !OwnsClassroom(teachers[i], classroomId)
    ensures r.Some? ==> r.value.id == classroomId
    ensures r.Some? ==> exists i :: 0 <= i < |teachers| && FirstWithId(teachers[i].classrooms, classroomId, r.value)
                                    && forall j :: 0 <= j < i ==> !OwnsClassroom(teachers[j], classroomId)
  {
    match Find(teachers, (t: Teacher) => OwnsClassroom(t, classroomId))
    case None => None
    case Some(t) => Find(t.classrooms, (c: Classroom) => c.id == classroomId)
  }

  /** A roster entry matches the name ignoring letter case and white space
      at both ends, and the number exactly. */
  predicate RosterMatch(entry: Student, name: string, idNumber: string)
  {
    Trim(ToLower(entry.name)) == Trim(ToLower(name)) && entry.idNumber == idNumber
  }

  predicate OnRoster(c: Classroom, name: string, idNumber: string)
  {
    exists k :: 0 <= k < |c.students| && RosterMatch(c.students[k], name, idNumber)
  }

  /** `handleStartAssignment`: resolves the join code, then the
      assignment's classroom, then the student on its roster; each step
      fails with its own error. On success only the active assignment
      changes. */
  function StartAssignment(s: State, code: string, name: string, idNumber: string): (r: Result<State, Error>)
    ensures r == Failure(InvalidCode) <==> ResolveCode(s.assignments, code).None?
    ensures r == Failure(ClassroomNotFound) <==>
              && ResolveCode(s.assignments, code).Some?
              && OwnerClassroom(s.teachers, ResolveCode(s.assignments, code).value.classroomId).None?
    ensures r == Failure(RosterMismatch) <==>
              && ResolveCode(s.assignments, code).Some?
              && OwnerClassroom(s.teachers, ResolveCode(s.assignments, code).value.classroomId).Some?
              && !OnRoster(OwnerClassroom(s.teachers, ResolveCode(s.assignments, code).value.classroomId).value,
                           name, idNumber)
    ensures r.Failure? ==> r.error in {InvalidCode, ClassroomNotFound, RosterMismatch}
    ensures r.Success? ==> r.value == s.(activeAssignment := ResolveCode(s.assignments, code))
                           && r.value.activeAssignment.Some?
  {
    match ResolveCode(s.assignments, code)
    case None => Failure(InvalidCode)
    case Some(a) =>
      match OwnerClassroom(s.teachers, a.classroomId)
      case None => Failure(ClassroomNotFound)
      case Some(c) =>
        match Find(c.students, (st: Student) => RosterMatch(st, name, idNumber))
        case None => Failure(RosterMismatch)
        case Some(_) => Success(s.(activeAssignment := Some(a)))
  }

  /** The submission `handleSubmitAssignment` files. */
  function Finalize(draft: SubmissionDraft, score: int, submittedAt: string): Submission
  {
    Submission(draft.studentName, draft.studentIdNumber, draft.answers, draft.uploadedFile,
               score, submittedAt)
  }

  /** `handleSubmitAssignment`: without an active assignment nothing
      happens; otherwise one scored submission is appended to the active
      assignment, which then replaces every assignment with its id. There
      is no check for an earlier submission by the same student. */
  function Submit(s: State, draft: SubmissionDraft, submittedAt: string): (r: State)
    ensures s.activeAssignment.None? ==> r == s
    ensures s.activeAssignment.Some? ==>
              var a := s.activeAssignment.value;
              && r.activeAssignment.Some?
              && var a' := r.activeAssignment.value;
              && a' == a.(submissions := a'.submissions)
              && |a'.submissions| == |a.submissions| + 1
              && a'.submissions[..|a.submissions|] == a.submissions
              && (var sub := a'.submissions[|a.submissions|];
                  && sub.score == Score(AllQuestions(a.parts), draft.answers)
                  && sub.submittedAt == submittedAt
                  && sub.studentName == draft.studentName && sub.studentIdNumber == draft.studentIdNumber
                  && sub.answers == draft.answers && sub.uploadedFile == draft.uploadedFile)
              && |r.assignments| == |s.assignments|
              && (forall i :: 0 <= i < |s.assignments| && s.assignments[i].id == a.id ==> r.assignments[i] == a')
              && (forall i :: 0 <= i < |s.assignments| && s.assignments[i].id != a.id ==>
                    r.assignments[i] == s.assignments[i])
              && r == s.(assignments := r.assignments, activeAssignment := r.activeAssignment)
  {
    match s.activeAssignment
    case None => s
    case Some(a) =>
      var sub := Finalize(draft, Score(AllQuestions(a.parts), draft.answers), submittedAt);
      var updated := a.(submissions := a.submissions + [sub]);
      s.(activeAssignment := Some(updated),
         assignments := seq(|s.assignments|, i requires 0 <= i < |s.assignments| =>
                              if s.assignments[i].id == updated.id then updated else s.assignments[i]))
  }

  /** Every teacher with the id of `updated` replaced by `updated`, the
      others untouched. */
  function ReplaceTeacher(teachers: seq<Teacher>, updated: Teacher): (r: seq<Teacher>)
    ensures |r| == |teachers|
    ensures forall i :: 0 <= i < |teachers| && teachers[i].id == updated.id ==> r[i] == updated
    ensures forall i :: 0 <= i < |teachers| && teachers[i].id != updated.id ==> r[i] == teachers[i]
  {
    seq(|teachers|, i requires 0 <= i < |teachers| => if teachers[i].id == updated.id then updated else teachers[i])
  }

  /** `handleCreateClassroom`: only for a logged-in teacher; appends an
      empty classroom to the teacher, stores the updated teacher as the
      current user and over every account with its id, and makes the new
      classroom the active one. */
  function CreateClassroom(s: State, name: string, newId: string): (r: State)
    ensures !(s.currentUser.Some? && s.currentUser.value.TeacherUser?) ==> r == s
    ensures s.currentUser.Some? && s.currentUser.value.TeacherUser? ==>
              var t := s.currentUser.value.teacher;
              && r.currentUser.Some? && r.currentUser.value.TeacherUser?
              && var t' := r.currentUser.value.teacher;
              && t' == t.(classrooms := t'.classrooms)
              && t'.classrooms == t.classrooms + [Classroom(newId, name, [])]
              && r.teachers == ReplaceTeacher(s.teachers, t')
              && r.activeClassroomId == Some(newId)
              && r == s.(currentUser := r.currentUser, teachers := r.teachers, activeClassroomId := r.activeClassroomId)
  {
    match s.currentUser
    case Some(TeacherUser(t)) =>
      var updated := t.(classrooms := t.classrooms + [Classroom(newId, name, [])]);
      s.(currentUser := Some(TeacherUser(updated)),
         teachers := ReplaceTeacher(s.teachers, updated),
         activeClassroomId := Some(newId))
    case _ => s
  }

  /** The roster number of the `n`-th entry of a classroom:
      `${n}.padStart(3, '0')`. */
  function IdNumber(n: nat): string
  {
    PadStart(NatToDecimal(n), 3, '0')
  }

  /** Decimal width: below 1000 at most three digits, from 1000 on at
      least four. */
  lemma {:induction false} DecimalWidth(n: nat)
    ensures n < 1000 ==> |NatToDecimal(n)| <= 3
    ensures n >= 1000 ==> |NatToDecimal(n)| >= 4
  {
    if n >= 10 {
      DecimalWidth(n / 10);
    }
  }

  /** A roster number is a digit string that reads back as `n`; it is
      exactly three characters below 1000 and the plain decimal from 1000
      on (padding never truncates). */
  lemma IdNumberFormat(n: nat)
    ensures forall i :: 0 <= i < |IdNumber(n)| ==> IsDigit(IdNumber(n)[i])
    ensures DecimalValue(IdNumber(n)) == n
    ensures n < 1000 ==> |IdNumber(n)| == 3
    ensures n >= 1000 ==> IdNumber(n) == NatToDecimal(n)
  {
    var d := NatToDecimal(n);
    var r := IdNumber(n);
    var z := r[..|r| - |d|];
    assert r == z + d;
    DecimalRoundTrip(n);
    LeadingZerosValue(z, d);
    DecimalWidth(n);
  }

  /** Distinct positions get distinct roster numbers. */
  lemma IdNumberInjective(m: nat, n: nat)
    requires IdNumber(m) == IdNumber(n)
    ensures m == n
  {
    IdNumberFormat(m);
    IdNumberFormat(n);
  }

  /** The roster entries `handleAddStudentsToClassroom` creates for a
      classroom that already has `k` entries: one per name, in order,
      numbered from `k + 1`. */
  function NewEntries(k: nat, names: seq<string>, stamp: string): (r: seq<Student>)
    ensures |r| == |names|
    ensures forall j :: 0 <= j < |names| ==> r[j].name == names[j] && r[j].idNumber == IdNumber(k + j + 1)
  {
    seq(|names|, j requires 0 <= j < |names| =>
          Student("STU-CLS-" + stamp + "-" + NatToDecimal(k + j + 1), names[j], IdNumber(k + j + 1)))
  }

  /** `c'` is `c` with one roster entry per name appended, in order,
      numbered on from the length of the old roster. */
  predicate RosterExtended(c: Classroom, c': Classroom, names: seq<string>)
  {
    && c' == c.(students := c'.students)
    && |c'.students| == |c.students| + |names|
    && c'.students[..|c.students|] == c.students
    && forall j :: 0 <= j < |names| ==>
         c'.students[|c.students| + j].name == names[j]
         && c'.students[|c.students| + j].idNumber == IdNumber(|c.students| + j + 1)
  }

  function AddToRoster(c: Classroom, names: seq<string>, stamp: string): (c': Classroom)
    ensures RosterExtended(c, c', names)
  {
    c.(students := c.students + NewEntries(|c.students|, names, stamp))
  }

  /** Every classroom with this id extended by the names, the others
      untouched. */
  function AddToClassrooms(cs: seq<Classroom>, classroomId: string, names: seq<string>, stamp: string)
    : (r: seq<Classroom>)
    ensures |r| == |cs|
    ensures forall i :: 0 <= i < |cs| && cs[i].id != classroomId ==> r[i] == cs[i]
    ensures forall i :: 0 <= i < |cs| && cs[i].id == classroomId ==> RosterExtended(cs[i], r[i], names)
  {
    seq(|cs|, i requires 0 <= i < |cs| =>
          if cs[i].id == classroomId then AddToRoster(cs[i], names, stamp) else cs[i])
  }

  /** `handleAddStudentsToClassroom`: only for a logged-in teacher; every
      classroom of the teacher with this id gets one new roster entry per
      name, numbered on from its roster length; other classrooms are left
      alone. The updated teacher becomes the current user and replaces
      every account with its id. */
  function AddStudents(s: State, classroomId: string, names: seq<string>, stamp: string): (r: State)
    ensures !(s.currentUser.Some? && s.currentUser.value.TeacherUser?) ==> r == s
    ensures s.currentUser.Some? && s.currentUser.value.TeacherUser? ==>
              var t := s.currentUser.value.teacher;
              && r.currentUser.Some? && r.currentUser.value.TeacherUser?
              && var t' := r.currentUser.value.teacher;
              && t' == t.(classrooms := t'.classrooms)
              && |t'.classrooms| == |t.classrooms|
              && (forall i :: 0 <= i < |t.classrooms| && t.classrooms[i].id != classroomId ==>
                    t'.classrooms[i] == t.classrooms[i])
              && (forall i :: 0 <= i < |t.classrooms| && t.classrooms[i].id == classroomId ==>
                    RosterExtended(t.classrooms[i], t'.classrooms[i], names))
              && r.teachers == ReplaceTeacher(s.teachers, t')
              && r == s.(currentUser := r.currentUser, teachers := r.teachers)
  {
    match s.currentUser
    case Some(TeacherUser(t)) =>
      var updated := t.(classrooms := AddToClassrooms(t.classrooms, classroomId, names, stamp));
      s.(currentUser := Some(TeacherUser(updated)), teachers := ReplaceTeacher(s.teachers, updated))
    case _ => s
  }
}
