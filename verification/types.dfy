/** The data model of the classroom application: accounts, classrooms
    with their rosters, assignments made of parts and questions, and the
    submissions students hand in. Amounts of points are whole numbers of
    hundredths of a point (a score of 0.25 is written 25). */
module Types {
  import opened Wrappers

  /** A roster entry of a classroom. It is not an account: it has no
      phone or password and cannot log in. */
  datatype Student = Student(id: string, name: string, idNumber: string)

  datatype Classroom = Classroom(id: string, name: string, students: seq<Student>)

  /** The single administrator, known only by e-mail address. */
  datatype Admin = Admin(email: string)

  /** A teacher account; only teachers carry an activation flag and own
      classrooms. The password field is optional in the record type. */
  datatype Teacher = Teacher(
    id: string,
    name: string,
    phone: string,
    password: Option<string>,
    activated: bool,
    classrooms: seq<Classroom>)

  /** A student account, which can log in (unlike a roster entry). */
  datatype StudentUser = StudentUser(
    id: string,
    name: string,
    phone: string,
    password: Option<string>)

  /** The logged-in user: one of the three kinds of account. The
      constructor plays the part of the `role` tag (admin, teacher,
      student). */
  datatype User =
    | AdminUser(admin: Admin)
    | TeacherUser(teacher: Teacher)
    | StudentAccount(student: StudentUser)

  datatype QuestionType = MCQ | TF | SA

  datatype TFStatement = TFStatement(id: string, text: string)

  /** One question record. Which of the optional fields are meaningful
      depends on `kind`: an MCQ uses `options` and `correctAnswer`, a
      true/false block uses `statements` and `correctAnswers`. Either may
      be absent, so scoring must cope without them. */
  datatype Question = Question(
    id: string,
    questionText: string,
    kind: QuestionType,
    points: int,
    options: Option<seq<string>>,
    correctAnswer: Option<string>,
    statements: Option<seq<TFStatement>>,
    correctAnswers: Option<seq<bool>>)

  datatype AssignmentPart = AssignmentPart(id: string, title: string, questions: seq<Question>)

  datatype UploadedFile = UploadedFile(name: string, mimeType: string, content: string)

  /** A file attached to a submission, with the text recognised in it if
      any; the recognised text exists only together with a file. */
  datatype Attachment = Attachment(file: UploadedFile, ocrText: Option<string>)

  /** A student's answer: a string (MCQ, short answer), a sequence of
      booleans (true/false block), or `Unset` for JavaScript's
      `undefined`. */
  datatype Answer = Text(text: string) | Flags(flags: seq<bool>) | Unset

  /** Answers keyed by question id. A missing key reads as `Unset`. */
  type Answers = map<string, Answer>

  function AnswerFor(answers: Answers, questionId: string): Answer
  {
    if questionId in answers then answers[questionId] else Unset
  }

  /** A submission once scored and stamped. */
  datatype Submission = Submission(
    studentName: string,
    studentIdNumber: string,
    answers: Answers,
    uploadedFile: Option<Attachment>,
    score: int,
    submittedAt: string)

  /** What the student view hands over: a submission without its score
      and time stamp. */
  datatype SubmissionDraft = SubmissionDraft(
    studentName: string,
    studentIdNumber: string,
    answers: Answers,
    uploadedFile: Option<Attachment>)

  /** An assignment; its id doubles as the join code students type in. */
  datatype Assignment = Assignment(
    id: string,
    title: string,
    instructions: string,
    files: seq<UploadedFile>,
    parts: seq<AssignmentPart>,
    submissions: seq<Submission>,
    classroomId: string)

  /** What the teacher dashboard hands over: an assignment without id,
      submissions and classroom, which the handler supplies. */
  datatype AssignmentDraft = AssignmentDraft(
    title: string,
    instructions: string,
    files: seq<UploadedFile>,
    parts: seq<AssignmentPart>)
}
