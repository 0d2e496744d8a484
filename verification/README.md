# Classroom assignments: scoring engine and application state

A Dafny model of the logical core of a classroom-assignment web application.
Teachers own classrooms with rosters and create auto-graded assignments.
Students open an assignment with its join code and their roster name and
number, then submit answers. An administrator activates teacher accounts.

The model has two parts:

- **The scoring engine** (`Scoring`). It maps the questions of an assignment
  and a student's answers to a score. A multiple-choice question (MCQ) earns
  its points on exact string equality with its key. A true/false block (TF)
  earns by a tier table on the number of matching statements: 4 earns the
  question's points, 3 earns 0.5, 2 earns 0.25, 1 earns 0.1, and any other
  count earns 0. The 0.5, 0.25 and 0.1 tiers do not depend on the question's
  points. A short-answer question (SA) never scores, and a missing answer
  earns nothing.
- **The application state** (`App`). This is one record: current user,
  teacher accounts, student accounts, assignments, active assignment and
  active classroom. Each event handler is a pure function of that record:
  register, login, logout, activate a teacher, create an assignment, start
  an assignment, submit, create a classroom, and add students to a roster. A
  handler that shows an error message returns `Failure` with a distinct
  error value, and the caller keeps its state. A handler that returns
  silently gives back the state unchanged.

Other modules:

- `Types` holds the data model: accounts as a tagged union (`User`); roster
  entries (`Student`), which are separate from student accounts
  (`StudentUser`); classrooms; questions with their optional key fields;
  parts; answers; submissions; and assignments.
- `Strings` holds ASCII versions of `toUpperCase`, `toLowerCase`, `trim`,
  decimal printing and `padStart`.
- `Seqs` holds first-match search.
- `AppProperties` holds the lemmas that relate several handler calls.

Representation choices:

- Points and scores are integers counting hundredths of a point, so 0.5 is
  written 50, 0.25 is 25 and 0.1 is 10. Sums are exact, and the final
  rounding to two decimals is the identity.
- An answer is `Text`, `Flags` or `Unset`. `Unset` stands for JavaScript's
  `undefined`. A question id missing from the answer map reads as `Unset`.
- Clock-derived values are parameters of the handlers. These are account,
  classroom and assignment ids, the roster-entry id stamp, and the
  submission time.

Behaviour of the code worth knowing:

- The TF count runs over the student's array, whatever its length. A
  position past the end of the key never matches. A count above 4 is
  possible when both arrays are longer than 4, and it earns 0.
- A score can exceed the sum of the questions' points. A TF block worth
  less than 0.5 still earns 0.5 for three matches (`ScoreCanExceedPoints`).
  The true bound is `CeilingSum` (`ScoreBounds`).
- Points are not required to be non-negative, so the score is not always
  non-negative. `ScoreBounds` assumes non-negative points.
- Logout also empties the assignment list.
- `CreateClassroom` and `AddStudents` write the logged-in teacher's record
  over every stored teacher with the same id. That record is the snapshot
  taken at login plus the change. When two teachers share an id, the
  other account is overwritten by the logged-in one, and its phone appears
  twice (`SharedTeacherIdOverwritten`). With distinct ids, both handlers
  keep phone numbers unique.

## Model

| member | source | states |
|---|---|---|
| `Scoring.MatchCount` | App.tsx:149-151 | The number of agreeing positions is at most the length of the student's array and at most the length of the key. |
| `Scoring.MatchCountIsCardinality` | App.tsx:149-151 | The left-to-right count over the student's array equals the number of indices inside both arrays where the two agree. |
| `Scoring.Contribution` | App.tsx:138-160 | A question earns something only if it is answered and is not SA. What it earns is 0, its points, or (for TF only) one of the fixed credits 0.5, 0.25 and 0.1. |
| `Scoring.McqScoring` | App.tsx:142-146 | An MCQ earns exactly its points when the answer is the string `correctAnswer`. It earns 0 when there is no key, no answer, a different string, or an array. |
| `Scoring.TfScoring` | App.tsx:147-157 | A TF block answered with an array earns its points for 4 matching positions, 0.5 for 3, 0.25 for 2, 0.1 for 1, and 0 for none or more than 4. |
| `Scoring.TfUnscorable` | App.tsx:147-148 | A TF block earns 0 when the answer is not an array or the question has no `correctAnswers`. |
| `Scoring.ScoreAppend` | App.tsx:136-146 | The score of two question lists joined together is the sum of their scores. |
| `Scoring.CalculateScore` | App.tsx:135-164 | The single accumulating pass over the questions returns the sum of the per-question contributions. |
| `Scoring.ScoreReorder` | App.tsx:137-162 | Swapping two blocks of questions does not change the score. |
| `Scoring.ScoreRemove` | App.tsx:137-162 | Taking one question out of a list takes exactly its contribution out of the score. |
| `Scoring.ScorePermutation` | App.tsx:137-162 | Any two lists holding the same questions, each as often, give the same score, whatever their order. |
| `Scoring.ScoreBounds` | App.tsx:141-161 | With non-negative points, the score lies between 0 and the sum of the question ceilings. The ceiling is the points for an MCQ, the larger of the points and 0.5 for a TF block, and 0 for an SA question. |
| `Scoring.ScoreCanExceedPoints` | App.tsx:153-156 | A TF block worth 0.25 with three matches scores 0.5, which is more than its points. |
| `Scoring.AllQuestions` | App.tsx:169 | The flattened list contains every question of every part, and nothing that is not in some part. |
| `Scoring.AllQuestionsSingle` | App.tsx:169 | Flattening one part gives exactly its questions, in order. |
| `Scoring.AllQuestionsAppend` | App.tsx:169 | Flattening two lists of parts joined together gives the first list's questions followed by the second's. With `AllQuestionsSingle` this fixes part order, question order and multiplicity. |
| `Scoring.PartsDoNotAffectScore` | App.tsx:169-170 | Scoring the flattened question list gives the sum of the parts' individual scores. |
| `Scoring.McqExample` | App.tsx:142-146 | An MCQ worth 5 with key "B" scores 5 for "B", and 0 for "A" or for no answer. |
| `Scoring.TfExample` | App.tsx:147-157 | A TF block worth 2 answered with 3 of 4 right scores 0.5, not 1.5. |
| `Seqs.FirstIndex` | App.tsx:74 | Returns the index of the first element that satisfies the test, or none exactly when no element does. |
| `Seqs.Find` | App.tsx:80 | Returns the first element that satisfies the test, or none exactly when no element does. |
| `Strings.ToUpper` | App.tsx:114 | Maps each lower-case ASCII letter to its upper-case partner and keeps the length. No lower-case letter remains. |
| `Strings.ToLower` | App.tsx:121 | Maps each upper-case ASCII letter to its lower-case partner and keeps the length. No upper-case letter remains. |
| `Strings.UpperOfLower` | App.tsx:114 | Lower-casing before upper-casing makes no difference. |
| `Strings.Trim` | App.tsx:121 | The result is a slice of the input. Everything cut off is white space, and the result neither starts nor ends with white space. |
| `Strings.TrimIdempotent` | App.tsx:121 | Trimming a trimmed string changes nothing. |
| `Strings.NatToDecimal` | App.tsx:201 | Prints a counter as decimal digits with no leading zero. It is one digit exactly below 10. |
| `Strings.DecimalRoundTrip` | App.tsx:201 | Reading back the printed decimal gives the number. |
| `Strings.PadStart` | App.tsx:201 | The padded string has the target width, or its own length if that is longer. It ends with the input, and only the fill character is added in front. |
| `Strings.LeadingZerosValue` | App.tsx:201 | Leading zeros do not change the value of a decimal string. |
| `App.Register` | App.tsx:35-65 | Fails with `PhoneTaken` exactly when a teacher or student already has the phone. Otherwise it appends one account and changes nothing else. A teacher account starts unactivated with no classrooms; a student account joins the student list. |
| `App.Login` | App.tsx:67-86 | Admin credentials win first, and only admin credentials log in the administrator. Otherwise the first matching teacher logs in, then the first matching student. It fails with `BadCredentials` exactly when nothing matches. Only the current user changes. |
| `App.Logout` | App.tsx:88-93 | Clears the current user, the active assignment, the active classroom and the assignment list. The accounts are kept. |
| `App.Activate` | App.tsx:95-100 | Sets the flag on exactly the teachers with the given id. Every other field, every other teacher and the rest of the state are unchanged. |
| `App.CreateAssignment` | App.tsx:102-111 | Appends and returns an assignment with the supplied id and classroom, the draft's contents, and no submissions. |
| `App.ResolveCode` | App.tsx:114 | Finds the first assignment whose id equals the code up to letter case. It finds none exactly when no id matches. |
| `App.OwnerClassroom` | App.tsx:117-118 | Looks up the first classroom with the id inside the first teacher who owns one. It finds none exactly when no teacher owns one. |
| `App.StartAssignment` | App.tsx:113-133 | Fails with `InvalidCode`, `ClassroomNotFound` or `RosterMismatch`, each exactly when its lookup fails. On success it only sets the active assignment, to the assignment the code resolves to. |
| `App.Submit` | App.tsx:167-177 | Does nothing without an active assignment. Otherwise it appends one submission, scored over all parts' questions and stamped. The updated assignment replaces exactly the assignments with its id. |
| `App.ReplaceTeacher` | App.tsx:189 | Teachers with the updated teacher's id are replaced, and all others are kept. |
| `App.CreateClassroom` | App.tsx:183-191 | Does nothing unless a teacher is logged in. Otherwise it appends an empty classroom to that teacher, stores the teacher as current user and over every teacher with its id, and makes the new classroom active. |
| `App.DecimalWidth` | App.tsx:201 | A counter below 1000 prints in at most three digits, and from 1000 on in at least four. |
| `App.IdNumberFormat` | App.tsx:201 | A roster number is digits only and reads back as the counter. It is three characters below 1000 and the plain decimal from 1000 on, so padding never truncates. |
| `App.IdNumberInjective` | App.tsx:197-201 | Different counters give different roster numbers. |
| `App.NewEntries` | App.tsx:197-202 | Creates one entry per name, in input order, numbered k+1, k+2, and so on. |
| `App.AddToRoster` | App.tsx:196-203 | Keeps the classroom's other fields and existing entries, and appends one entry per name in order, numbered on from the old roster length. |
| `App.AddToClassrooms` | App.tsx:195-206 | Classrooms with the id are extended in that way, and the others are left untouched. |
| `App.AddStudents` | App.tsx:193-210 | Does nothing unless a teacher is logged in. Otherwise each classroom with the id keeps its entries and gains one entry per name, numbered on from its length. Other classrooms, the teacher's other fields and the rest of the state are unchanged. |
| `AppProperties.RegisterPreservesPhonesUnique` | App.tsx:36-40 | Registration keeps phone numbers unique across all teacher and student accounts. |
| `AppProperties.InitialPhonesUnique` | App.tsx:20 | The starting state, with no accounts, has unique phone numbers. |
| `AppProperties.RegisterSamePhoneFails` | App.tsx:36-40 | After a successful registration, registering the same phone again fails, whichever kind of account either call asks for. |
| `AppProperties.RegisterThenLogin` | App.tsx:42-84 | A newly registered account logs in with its phone and password, and it is that account that logs in. This holds unless the credentials are the administrator's. |
| `AppProperties.LogoutKeepsAccounts` | App.tsx:88-93 | After logout, the same credentials log in the same user. |
| `AppProperties.ActivateIdempotent` | App.tsx:95-100 | Activating twice is the same as activating once. |
| `AppProperties.ActivateUnknownIsNoop` | App.tsx:95-100 | Activating an id that no teacher has leaves the state unchanged. |
| `AppProperties.ActivatePreservesPhonesUnique` | App.tsx:95-100 | Activation keeps phone numbers unique. |
| `AppProperties.StartIgnoresCodeCase` | App.tsx:114 | Two codes that upper-case alike give the same outcome. |
| `AppProperties.StartIgnoresNameCase` | App.tsx:121 | Two names that agree after lower-casing and trimming give the same outcome. |
| `AppProperties.StartOutcome` | App.tsx:113-124 | A successful start activates a stored assignment whose id matches the code up to case. |
| `AppProperties.CreatedAssignmentJoinable` | App.tsx:102-114 | A new assignment is found by its code typed in lower case, provided no earlier assignment has the same code. |
| `AppProperties.CreatedClassroomFound` | App.tsx:183-191 | Suppose the logged-in teacher is stored and no classroom had the new id. Then the classroom lookup used when starting an assignment (App.tsx:117-118) finds exactly the new, empty classroom for that id. |
| `AppProperties.CreateClassroomPreservesPhonesUnique` | App.tsx:183-191 | Creating a classroom keeps phone numbers unique, provided teacher ids are distinct and the logged-in teacher is stored. |
| `AppProperties.AddStudentsPreservesPhonesUnique` | App.tsx:193-210 | Adding students keeps phone numbers unique under the same conditions. |
| `AppProperties.SharedTeacherIdOverwritten` | App.tsx:187-189 | Two stored teachers share id "T" with phones "p1" and "p2", and the first is logged in. After creating a classroom, both records are the logged-in teacher and phone numbers are no longer unique. |
| `AppProperties.SubmitTwiceKeepsBoth` | App.tsx:167-177 | Two submissions in a row are both kept, in order, with nothing rejected as a duplicate. |
| `AppProperties.SubmittedScoreByParts` | App.tsx:169-170 | The score filed with a submission is the sum of the per-part scores. |
| `AppProperties.AddToRosterSequential` | App.tsx:197-203 | Adding names keeps a roster numbered 1, 2, and so on in order. |
| `AppProperties.SequentialNumbersDistinct` | App.tsx:197-201 | In such a roster no two entries share a roster number. |
| `AppProperties.RosterNumberingExample` | App.tsx:193-203 | Two names added to an empty classroom get "001" and "002". A name added later gets "003". |

The data model follows types.ts:7-17, 20-43, 52-89 and 98-118. `User`
has three variants tagged by role, and only `Teacher` has `activated` and
`classrooms`. `QuestionType` has exactly three values. The MCQ key and the
TF key are optional fields, and `Contribution` is total when they are
absent. An `Answer` is a string, a boolean sequence, or unset. A
submission's file (`Attachment`) carries the optional OCR text. An
`Assignment` owns its submissions and refers to a classroom by
`classroomId`.

## Left out

- Screen rendering and dispatch (App.tsx:248-303): this is presentation only.
- Reading a join code from the page address (App.tsx:26-33): this is browser I/O.
- Export and import (App.tsx:212-246): these are file, DOM and JSON I/O. Import ends with a logout, whose effect `Logout` models.
- Previewing an assignment as a student and leaving the preview (App.tsx:179-181): these set or clear the active assignment for the teacher view and are outside the modelled handlers.
- Alert message texts: each failure is an error value instead.
- Clock readings (`Date.now()`, base-36 slicing, `toISOString`): generated ids and time stamps are parameters. Nothing checks them for uniqueness, and neither does the source.
- App.AddStudents: the source reads the clock once per name for each roster-entry id. The model uses one supplied stamp for the whole call. Only the `id` field is affected; names and roster numbers are not.
- Floating point: `points` is assumed to be a whole number of hundredths. The final `toFixed(2)`/`parseFloat` is therefore the identity. Binary rounding of the running sum is not modelled.
- Case mapping and `trim` beyond ASCII: non-ASCII letters keep their case, and only ASCII white space is trimmed.
- Values that TypeScript's types rule out but loose JSON could carry: a question `type` outside mcq/tf/sa, non-boolean entries in the TF key, and sparse arrays.
- Password security: credentials are compared as plain strings, as in the source.
- Unused types: `VariationTableData`, `graphFunction`, `image`, `ScoreDistribution` and the curriculum types (types.ts:46-50, 120-146). `UploadedFile` is carried but never inspected.
