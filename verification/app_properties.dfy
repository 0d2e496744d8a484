/** Properties that relate several handler calls, or a handler call to an
    invariant of the application state. */
module AppProperties {
  import opened Wrappers
  import opened Types
  import opened Seqs
  import opened Strings
  import opened Scoring
  import opened App

  /** Registration keeps phone numbers unique across all accounts. */
  lemma RegisterPreservesPhonesUnique(s: State, name: string, phone: string, pass: string,
                                      role: RegisterAs, newId: string)
    requires PhonesUnique(s)
    requires Register(s, name, phone, pass, role, newId).Success?
    ensures PhonesUnique(Register(s, name, phone, pass, role, newId).value)
  {
  }

  /** Once a phone is registered, registering it again fails, whichever
      kind of account either registration asks for. */
  lemma RegisterSamePhoneFails(s: State, name: string, phone: string, pass: string, role: RegisterAs,
                               newId: string, name2: string, pass2: string, role2: RegisterAs, newId2: string)
    requires Register(s, name, phone, pass, role, newId).Success?
    ensures Register(Register(s, name, phone, pass, role, newId).value, name2, phone, pass2, role2, newId2)
            == Failure(PhoneTaken)
  {
    var s' := Register(s, name, phone, pass, role, newId).value;
    match role
    case AsTeacher =>
      assert s'.teachers[|s.teachers|].phone == phone;
    case AsStudent =>
      assert s'.students[|s.students|].phone == phone;
  }

  /** A freshly registered account can log in with its phone and
      password, and it is that account that logs in, unless the phone and
      password are the administrator's. */
  lemma RegisterThenLogin(s: State, name: string, phone: string, pass: string, role: RegisterAs, newId: string)
    requires Register(s, name, phone, pass, role, newId).Success?
    requires !IsAdminLogin(phone, pass)
    ensures var s' := Register(s, name, phone, pass, role, newId).value;
            Login(s', phone, pass) == Success(s'.(currentUser := Some(NewAccount(name, phone, pass, role, newId))))
  {
    var s' := Register(s, name, phone, pass, role, newId).value;
    assert !PhoneInUse(s, phone);
    var r := Login(s', phone, pass);
    match role
    case AsTeacher =>
      var n := |s.teachers|;
      assert TeacherLogsIn(s'.teachers[n], phone, pass);
      assert forall j :: 0 <= j < n ==> !TeacherLogsIn(s'.teachers[j], phone, pass) by {
        forall j | 0 <= j < n ensures !TeacherLogsIn(s'.teachers[j], phone, pass) {
          assert s'.teachers[j] == s.teachers[j];
        }
      }
      assert r.Success? && r.value.currentUser.value.TeacherUser?;
      var i :| 0 <= i < |s'.teachers| && r.value.currentUser.value.teacher == s'.teachers[i]
               && TeacherLogsIn(s'.teachers[i], phone, pass)
               && forall j :: 0 <= j < i ==> !TeacherLogsIn(s'.teachers[j], phone, pass);
      assert i == n;
    case AsStudent =>
      var n := |s.students|;
      assert StudentLogsIn(s'.students[n], phone, pass);
      assert forall j :: 0 <= j < |s'.teachers| ==> !TeacherLogsIn(s'.teachers[j], phone, pass);
      assert forall j :: 0 <= j < n ==> !StudentLogsIn(s'.students[j], phone, pass) by {
        forall j | 0 <= j < n ensures !StudentLogsIn(s'.students[j], phone, pass) {
          assert s'.students[j] == s.students[j];
        }
      }
      assert r.Success? && r.value.currentUser.value.StudentAccount?;
      var i :| 0 <= i < |s'.students| && r.value.currentUser.value.student == s'.students[i]
               && StudentLogsIn(s'.students[i], phone, pass)
               && forall j :: 0 <= j < i ==> !StudentLogsIn(s'.students[j], phone, pass);
      assert i == n;
  }

  /** Logging out keeps the accounts, so the same credentials log in the
      same user afterwards. */
  lemma LogoutKeepsAccounts(s: State, user: string, pass: string)
    ensures Login(Logout(s), user, pass).Success? <==> Login(s, user, pass).Success?
    ensures Login(Logout(s), user, pass).Success? ==>
              Login(Logout(s), user, pass).value.currentUser == Login(s, user, pass).value.currentUser
  {
  }

  /** Activating a teacher twice is the same as activating it once. */
  lemma ActivateIdempotent(s: State, teacherId: string)
    ensures Activate(Activate(s, teacherId), teacherId) == Activate(s, teacherId)
  {
  }

  /** Activating an id no teacher has changes nothing. */
  lemma ActivateUnknownIsNoop(s: State, teacherId: string)
    requires forall i :: 0 <= i < |s.teachers| ==> s.teachers[i].id != teacherId
    ensures Activate(s, teacherId) == s
  {
  }

  /** Activation does not touch phone numbers, so it keeps them unique. */
  lemma ActivatePreservesPhonesUnique(s: State, teacherId: string)
    requires PhonesUnique(s)
    ensures PhonesUnique(Activate(s, teacherId))
  {
  }

  /** A join code is compared without regard to letter case: two codes
      that upper-case alike start the same assignment, or fail alike. */
  lemma StartIgnoresCodeCase(s: State, code1: string, code2: string, name: string, idNumber: string)
    requires ToUpper(code1) == ToUpper(code2)
    ensures StartAssignment(s, code1, name, idNumber) == StartAssignment(s, code2, name, idNumber)
  {
  }

  /** The student's name is compared ignoring letter case and white space
      at both ends. */
  lemma StartIgnoresNameCase(s: State, code: string, name1: string, name2: string, idNumber: string)
    requires Trim(ToLower(name1)) == Trim(ToLower(name2))
    ensures StartAssignment(s, code, name1, idNumber) == StartAssignment(s, code, name2, idNumber)
  {
  }

  /** A successful start activates one of the stored assignments, one
      whose id is the code up to letter case. */
  lemma StartOutcome(s: State, code: string, name: string, idNumber: string)
    ensures var r := StartAssignment(s, code, name, idNumber);
            r.Success? ==> r.value.activeAssignment.Some?
                           && ToUpper(r.value.activeAssignment.value.id) == ToUpper(code)
                           && r.value.activeAssignment.value in s.assignments
  {
  }

  /** A newly created assignment can be found by its join code typed in
      lower case, provided no earlier assignment has the same code. */
  lemma CreatedAssignmentJoinable(s: State, draft: AssignmentDraft, classroomId: string, newId: string)
    requires forall i :: 0 <= i < |s.assignments| ==> ToUpper(s.assignments[i].id) != ToUpper(newId)
    ensures var (s', a) := CreateAssignment(s, draft, classroomId, newId);
            ResolveCode(s'.assignments, ToLower(newId)) == Some(a)
  {
    var (s', a) := CreateAssignment(s, draft, classroomId, newId);
    UpperOfLower(newId);
    var r := ResolveCode(s'.assignments, ToLower(newId));
    assert ToUpper(s'.assignments[|s.assignments|].id) == ToUpper(ToLower(newId));
    assert r.Some?;
    var i :| 0 <= i < |s'.assignments| && s'.assignments[i] == r.value
             && ToUpper(s'.assignments[i].id) == ToUpper(ToLower(newId))
             && forall j :: 0 <= j < i ==> ToUpper(s'.assignments[j].id) != ToUpper(ToLower(newId));
    assert i == |s.assignments|;
  }

  /** Submitting twice files two submissions, in order: nothing prevents
      a student from submitting again. */
  lemma SubmitTwiceKeepsBoth(s: State, d1: SubmissionDraft, t1: string, d2: SubmissionDraft, t2: string)
    requires s.activeAssignment.Some?
    ensures var a := s.activeAssignment.value;
            var qs := AllQuestions(a.parts);
            Submit(Submit(s, d1, t1), d2, t2).activeAssignment.value.submissions
            == a.submissions + [Finalize(d1, Score(qs, d1.answers), t1), Finalize(d2, Score(qs, d2.answers), t2)]
  {
  }

  /** The score filed with a submission is the sum of the scores of the
      assignment's parts taken one by one. */
  lemma SubmittedScoreByParts(s: State, d: SubmissionDraft, t: string)
    requires s.activeAssignment.Some?
    ensures var a := s.activeAssignment.value;
            Submit(s, d, t).activeAssignment.value.submissions[|a.submissions|].score
            == PartScores(a.parts, d.answers)
  {
    PartsDoNotAffectScore(s.activeAssignment.value.parts, d.answers);
  }

  /** A roster whose entries are numbered 1, 2, ... in order. */
  ghost predicate Sequential(roster: seq<Student>)
  {
    forall i :: 0 <= i < |roster| ==> roster[i].idNumber == IdNumber(i + 1)
  }

  /** Adding names keeps a sequentially numbered roster sequential. */
  lemma AddToRosterSequential(c: Classroom, names: seq<string>, stamp: string)
    requires Sequential(c.students)
    ensures Sequential(AddToRoster(c, names, stamp).students)
  {
  }

  /** In a sequentially numbered roster no two entries share a number. */
  lemma SequentialNumbersDistinct(roster: seq<Student>)
    requires Sequential(roster)
    ensures forall i, j :: 0 <= i < j < |roster| ==> roster[i].idNumber != roster[j].idNumber
  {
    forall i, j | 0 <= i < j < |roster| ensures roster[i].idNumber != roster[j].idNumber {
      if roster[i].idNumber == roster[j].idNumber {
        IdNumberInjective(i + 1, j + 1);
      }
    }
  }

  /** Two names added to an empty classroom get 001 and 002; a third
      added later gets 003. */
  lemma RosterNumberingExample(c: Classroom, stamp1: string, stamp2: string)
    requires c.students == []
    ensures var c1 := AddToRoster(c, ["Ann", "Bob"], stamp1);
            var c2 := AddToRoster(c1, ["Cy"], stamp2);
            && |c2.students| == 3
            && c2.students[0].idNumber == "001"
            && c2.students[1].idNumber == "002"
            && c2.students[2].idNumber == "003"
  {
    var c1 := AddToRoster(c, ["Ann", "Bob"], stamp1);
    var c2 := AddToRoster(c1, ["Cy"], stamp2);
    assert |c1.students| == 2;
    assert c2.students[..2] == c1.students;
    assert c2.students[0].idNumber == IdNumber(1) && c2.students[1].idNumber == IdNumber(2);
    assert c2.students[2].idNumber == IdNumber(3);
    assert NatToDecimal(1) == "1" && NatToDecimal(2) == "2" && NatToDecimal(3) == "3";
    assert IdNumber(1) == "001" && IdNumber(2) == "002" && IdNumber(3) == "003";
  }

  /** The application starts with unique phone numbers (there are none). */
  lemma InitialPhonesUnique()
    ensures PhonesUnique(Initial)
  {
  }

  /** After replacing by id, a teacher that owns `classroomId` is either
      the replacement or one that owned it before. */
  lemma ReplacedOwners(teachers: seq<Teacher>, updated: Teacher, classroomId: string, i: nat)
    requires i < |teachers|
    requires OwnsClassroom(ReplaceTeacher(teachers, updated)[i], classroomId)
    ensures ReplaceTeacher(teachers, updated)[i] == updated || OwnsClassroom(teachers[i], classroomId)
  {
  }

  /** The first classroom with an id that only the appended classroom
      has is the appended one. */
  lemma AppendedIsFirst(cs: seq<Classroom>, c: Classroom, found: Classroom)
    requires forall m :: 0 <= m < |cs| ==> cs[m].id != c.id
    requires FirstWithId(cs + [c], c.id, found)
    ensures found == c
  {
    var m :| 0 <= m < |cs + [c]| && (cs + [c])[m] == found && found.id == c.id &&
             forall n :: 0 <= n < m ==> (cs + [c])[n].id != c.id;
    assert m == |cs|;
  }

  /** A classroom just created by a stored, logged-in teacher is what the
      join-code lookup finds for its id, provided no classroom had that id
      before. */
  lemma CreatedClassroomFound(s: State, name: string, newId: string)
    requires s.currentUser.Some? && s.currentUser.value.TeacherUser?
    requires s.currentUser.value.teacher in s.teachers
    requires forall i :: 0 <= i < |s.teachers| ==> !OwnsClassroom(s.teachers[i], newId)
    ensures OwnerClassroom(CreateClassroom(s, name, newId).teachers, newId) == Some(Classroom(newId, name, []))
  {
    var t := s.currentUser.value.teacher;
    var created := Classroom(newId, name, []);
    var t' := t.(classrooms := t.classrooms + [created]);
    var ts := ReplaceTeacher(s.teachers, t');
    assert CreateClassroom(s, name, newId).teachers == ts;
    var k :| 0 <= k < |s.teachers| && s.teachers[k] == t;
    assert (t.classrooms + [created])[|t.classrooms|] == created;
    assert OwnsClassroom(ts[k], newId);
    var r := OwnerClassroom(ts, newId);
    var i :| 0 <= i < |ts| && FirstWithId(ts[i].classrooms, newId, r.value)
             && forall j :: 0 <= j < i ==> !OwnsClassroom(ts[j], newId);
    assert OwnsClassroom(ts[i], newId);
    ReplacedOwners(s.teachers, t', newId, i);
    assert forall m :: 0 <= m < |t.classrooms| ==> t.classrooms[m].id != newId;
    AppendedIsFirst(t.classrooms, created, r.value);
  }

  /** No two teacher accounts share an id. */
  ghost predicate TeacherIdsUnique(s: State)
  {
    forall i, j :: 0 <= i < j < |s.teachers| ==> s.teachers[i].id != s.teachers[j].id
  }

  /** A logged-in teacher is one of the stored teacher accounts. */
  ghost predicate SessionStored(s: State)
  {
    s.currentUser.Some? && s.currentUser.value.TeacherUser? ==> s.currentUser.value.teacher in s.teachers
  }

  /** Creating a classroom keeps phones unique when teacher ids are
      distinct and the logged-in teacher is stored. */
  lemma CreateClassroomPreservesPhonesUnique(s: State, name: string, newId: string)
    requires PhonesUnique(s) && TeacherIdsUnique(s) && SessionStored(s)
    ensures PhonesUnique(CreateClassroom(s, name, newId))
  {
  }

  /** Adding students keeps phones unique under the same conditions. */
  lemma AddStudentsPreservesPhonesUnique(s: State, classroomId: string, names: seq<string>, stamp: string)
    requires PhonesUnique(s) && TeacherIdsUnique(s) && SessionStored(s)
    ensures PhonesUnique(AddStudents(s, classroomId, names, stamp))
  {
  }

  /** Without distinct teacher ids the overwrite loses an account: two
      teachers with id "T" and phones "p1" and "p2", the first logged in,
      both become the logged-in teacher after creating a classroom. */
  lemma SharedTeacherIdOverwritten()
    ensures var t1 := Teacher("T", "A", "p1", Some("x"), true, []);
            var t2 := Teacher("T", "B", "p2", Some("y"), true, []);
            var s := State(Some(TeacherUser(t1)), [t1, t2], [], [], None, None);
            var r := CreateClassroom(s, "c", "C1");
            PhonesUnique(s) && r.teachers[0] == r.teachers[1] && !PhonesUnique(r)
  {
  }
}
