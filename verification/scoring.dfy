/** The scoring engine: from a list of questions and a student's answers
    to a score, in hundredths of a point. */
module Scoring {
  import opened Wrappers
  import opened Types

  /** Fixed partial credit of a true/false block with 3, 2 or 1 matching
      statements (0.5, 0.25 and 0.1 points), whatever the block is worth. */
  const ThreeMatchCredit := 50
  const TwoMatchCredit := 25
  const OneMatchCredit := 10

  /** How many positions of the student's array agree with the key. The
      count runs over the student's array from left to right, like the
      source's `reduce`; a position past the end of the key never agrees. */
  function MatchCount(given: seq<bool>, expected: seq<bool>): (n: nat)
    ensures n <= |given| && n <= |expected|
  {
    if |given| == 0 then 0
    else
      var k := |given| - 1;
      MatchCount(given[..k], expected) + (if k < |expected| && given[k] == expected[k] then 1 else 0)
  }

  /** The positions at which the student's array agrees with the key. */
  ghost function MatchPositions(given: seq<bool>, expected: seq<bool>): set<nat>
  {
    set i: nat | i < |given| && i < |expected| && given[i] == expected[i]
  }

  /** The left-to-right count is the number of agreeing positions. */
  lemma {:induction false} MatchCountIsCardinality(given: seq<bool>, expected: seq<bool>)
    ensures MatchCount(given, expected) == |MatchPositions(given, expected)|
  {
    if |given| > 0 {
      var k := |given| - 1;
      var prefix := given[..k];
      MatchCountIsCardinality(prefix, expected);
      var before := MatchPositions(prefix, expected);
      var after := MatchPositions(given, expected);
      assert k !in before;
      if k < |expected| && given[k] == expected[k] {
        assert after == before + {k};
      } else {
        assert after == before;
      }
    }
  }

  /** The tier table of a true/false block: full points for 4 matches,
      fixed credits for 3, 2 and 1, nothing for any other count. */
  function TfCredit(count: nat, points: int): int
  {
    if count == 4 then points
    else if count == 3 then ThreeMatchCredit
    else if count == 2 then TwoMatchCredit
    else if count == 1 then OneMatchCredit
    else 0
  }

  /** What one question adds to the score. */
  function Contribution(q: Question, answers: Answers): (c: int)
    ensures c != 0 ==> q.id in answers && AnswerFor(answers, q.id) != Unset && q.kind != SA
    ensures c == 0 || c == q.points ||
            (q.kind == TF && (c == ThreeMatchCredit || c == TwoMatchCredit || c == OneMatchCredit))
  {
    var a := AnswerFor(answers, q.id);
    if a.Unset? then 0
    else
      match q.kind
      case MCQ =>
        if q.correctAnswer.Some? && a == Text(q.correctAnswer.value) then q.points else 0
      case TF =>
        if a.Flags? && q.correctAnswers.Some? then TfCredit(MatchCount(a.flags, q.correctAnswers.value), q.points)
        else 0
      case SA => 0
  }

  /** The score of a list of questions: the sum of their contributions. */
  function Score(questions: seq<Question>, answers: Answers): int
  {
    if |questions| == 0 then 0
    else Contribution(questions[0], answers) + Score(questions[1..], answers)
  }

  /** The score of a concatenation is the sum of the scores. */
  lemma {:induction false} ScoreAppend(a: seq<Question>, b: seq<Question>, answers: Answers)
    ensures Score(a + b, answers) == Score(a, answers) + Score(b, answers)
  {
    if |a| == 0 {
      assert a + b == b;
    } else {
      assert (a + b)[1..] == a[1..] + b;
      ScoreAppend(a[1..], b, answers);
    }
  }

  /** `calculateScore`: one pass over the questions with an accumulator.
      The final rounding to two decimals is the identity on hundredths. */
  method CalculateScore(questions: seq<Question>, answers: Answers) returns (score: int)
    ensures score == Score(questions, answers)
  {
    score := 0;
    var i := 0;
    while i < |questions|
      invariant 0 <= i <= |questions|
      invariant score == Score(questions[..i], answers)
    {
      var q := questions[i];
      ScoreAppend(questions[..i], [q], answers);
      assert questions[..i + 1] == questions[..i] + [q];
      score := score + Contribution(q, answers);
      i := i + 1;
    }
    assert questions[..i] == questions;
  }

  /** A multiple-choice question earns its points exactly when the answer
      is the string `correctAnswer`, and nothing otherwise (including when
      it has no key or the answer is missing or an array). */
  lemma McqScoring(q: Question, answers: Answers)
    requires q.kind == MCQ
    ensures q.correctAnswer.Some? && AnswerFor(answers, q.id) == Text(q.correctAnswer.value) ==>
              Contribution(q, answers) == q.points
    ensures !(q.correctAnswer.Some? && AnswerFor(answers, q.id) == Text(q.correctAnswer.value)) ==>
              Contribution(q, answers) == 0
  {
  }

  /** A true/false block answered with an array, against a key, earns
      according to the number of agreeing positions: its points for 4,
      0.5 for 3, 0.25 for 2, 0.1 for 1, and 0 for none or for more than 4. */
  lemma TfScoring(q: Question, answers: Answers, given: seq<bool>, expected: seq<bool>)
    requires q.kind == TF
    requires AnswerFor(answers, q.id) == Flags(given)
    requires q.correctAnswers == Some(expected)
    ensures var n := |MatchPositions(given, expected)|;
            && (n == 4 ==> Contribution(q, answers) == q.points)
            && (n == 3 ==> Contribution(q, answers) == ThreeMatchCredit)
            && (n == 2 ==> Contribution(q, answers) == TwoMatchCredit)
            && (n == 1 ==> Contribution(q, answers) == OneMatchCredit)
            && (n == 0 || n > 4 ==> Contribution(q, answers) == 0)
  {
    MatchCountIsCardinality(given, expected);
  }

  /** A true/false block earns nothing when the answer is not an array or
      the question has no key. */
  lemma TfUnscorable(q: Question, answers: Answers)
    requires q.kind == TF
    requires !AnswerFor(answers, q.id).Flags? || q.correctAnswers.None?
    ensures Contribution(q, answers) == 0
  {
  }

  /** Reordering the questions does not change the score. */
  lemma ScoreReorder(a: seq<Question>, b: seq<Question>, answers: Answers)
    ensures Score(a + b, answers) == Score(b + a, answers)
  {
    ScoreAppend(a, b, answers);
    ScoreAppend(b, a, answers);
  }

  /** Taking one question out of a list takes its contribution out of
      the score. */
  lemma ScoreRemove(b: seq<Question>, k: nat, answers: Answers)
    requires k < |b|
    ensures Score(b, answers) == Contribution(b[k], answers) + Score(b[..k] + b[k + 1..], answers)
  {
    assert b == b[..k] + ([b[k]] + b[k + 1..]);
    ScoreAppend(b[..k], [b[k]] + b[k + 1..], answers);
    ScoreAppend([b[k]], b[k + 1..], answers);
    ScoreAppend(b[..k], b[k + 1..], answers);
    assert [b[k]][1..] == [];
  }

  /** Two lists with the same elements lose the same element: what is
      left of them has the same elements again. */
  lemma MultisetRemove<T>(a: seq<T>, b: seq<T>, k: nat)
    requires multiset(a) == multiset(b)
    requires 0 < |a| && k < |b| && b[k] == a[0]
    ensures multiset(a[1..]) == multiset(b[..k] + b[k + 1..])
  {
    assert a == [a[0]] + a[1..];
    assert b == b[..k] + [b[k]] + b[k + 1..];
    assert multiset(a) == multiset{a[0]} + multiset(a[1..]);
    assert multiset(b) == multiset(b[..k]) + multiset{b[k]} + multiset(b[k + 1..]);
    assert multiset(b[..k] + b[k + 1..]) == multiset(b[..k]) + multiset(b[k + 1..]);
    assert multiset(a[1..]) == multiset(a) - multiset{a[0]};
    assert multiset(b[..k] + b[k + 1..]) == multiset(b) - multiset{b[k]};
  }

  /** The score does not depend on the order of the questions: any two
      lists holding the same questions, as often each, score alike. */
  lemma {:induction false} ScorePermutation(a: seq<Question>, b: seq<Question>, answers: Answers)
    requires multiset(a) == multiset(b)
    ensures Score(a, answers) == Score(b, answers)
    decreases |a|
  {
    if |a| == 0 {
      assert |multiset(b)| == 0;
    } else {
      assert a[0] in multiset(b);
      var k :| 0 <= k < |b| && b[k] == a[0];
      MultisetRemove(a, b, k);
      ScorePermutation(a[1..], b[..k] + b[k + 1..], answers);
      ScoreRemove(b, k, answers);
    }
  }

  /** The most a question can earn when points are non-negative: its
      points for an MCQ, the larger of its points and 0.5 for a
      true/false block, nothing for a short answer. */
  function Ceiling(q: Question): int
  {
    match q.kind
    case MCQ => q.points
    case TF => if q.points >= ThreeMatchCredit then q.points else ThreeMatchCredit
    case SA => 0
  }

  function CeilingSum(questions: seq<Question>): int
  {
    if |questions| == 0 then 0 else Ceiling(questions[0]) + CeilingSum(questions[1..])
  }

  /** With non-negative points the score lies between 0 and the sum of
      the ceilings of the questions. */
  lemma {:induction false} ScoreBounds(questions: seq<Question>, answers: Answers)
    requires forall i :: 0 <= i < |questions| ==> questions[i].points >= 0
    ensures 0 <= Score(questions, answers) <= CeilingSum(questions)
  {
    if |questions| > 0 {
      ScoreBounds(questions[1..], answers);
    }
  }

  /** The score is not bounded by the sum of the points: a true/false
      block worth 0.25 with three matching statements scores 0.5. */
  lemma ScoreCanExceedPoints()
    ensures var q := Question("q1", "", TF, 25, None, None, None, Some([true, true, true, true]));
            var answers := map["q1" := Flags([true, true, true, false])];
            Score([q], answers) == 50 > q.points
  {
    var q := Question("q1", "", TF, 25, None, None, None, Some([true, true, true, true]));
    var answers := map["q1" := Flags([true, true, true, false])];
    assert MatchCount([true, true, true, false], [true, true, true, true]) == 3 by {
      assert [true, true, true, false][..3] == [true, true, true];
      assert [true, true, true][..2] == [true, true];
      assert [true, true][..1] == [true];
      assert [true][..0] == [];
    }
  }

  /** The questions of all parts, in part order and then question order. */
  function AllQuestions(parts: seq<AssignmentPart>): (r: seq<Question>)
    ensures forall i, q :: 0 <= i < |parts| && q in parts[i].questions ==> q in r
    ensures forall q :: q in r ==> exists i :: 0 <= i < |parts| && q in parts[i].questions
  {
    if |parts| == 0 then [] else parts[0].questions + AllQuestions(parts[1..])
  }

  /** Flattening a single part gives its questions, unchanged. */
  lemma AllQuestionsSingle(p: AssignmentPart)
    ensures AllQuestions([p]) == p.questions
  {
  }

  /** Flattening respects concatenation: the questions of the first parts
      come first, in order, each as often as it occurs. */
  lemma {:induction false} AllQuestionsAppend(ps: seq<AssignmentPart>, qs: seq<AssignmentPart>)
    ensures AllQuestions(ps + qs) == AllQuestions(ps) + AllQuestions(qs)
  {
    if |ps| == 0 {
      assert ps + qs == qs;
    } else {
      assert (ps + qs)[1..] == ps[1..] + qs;
      AllQuestionsAppend(ps[1..], qs);
    }
  }

  /** The sum of the scores of the parts taken one by one. */
  function PartScores(parts: seq<AssignmentPart>, answers: Answers): int
  {
    if |parts| == 0 then 0 else Score(parts[0].questions, answers) + PartScores(parts[1..], answers)
  }

  /** Grouping questions into parts does not affect the score. */
  lemma {:induction false} PartsDoNotAffectScore(parts: seq<AssignmentPart>, answers: Answers)
    ensures Score(AllQuestions(parts), answers) == PartScores(parts, answers)
  {
    if |parts| > 0 {
      ScoreAppend(parts[0].questions, AllQuestions(parts[1..]), answers);
      PartsDoNotAffectScore(parts[1..], answers);
    }
  }

  /** A multiple-choice question worth 5 points with key "B" scores 5
      for "B", and 0 for "A" or for no answer. */
  lemma McqExample()
    ensures var q := Question("q1", "", MCQ, 500, Some(["A", "B"]), Some("B"), None, None);
            && Score([q], map["q1" := Text("B")]) == 500
            && Score([q], map["q1" := Text("A")]) == 0
            && Score([q], map[]) == 0
  {
  }

  /** A true/false block worth 2 points answered with three of four
      statements right scores 0.5, not three quarters of its points. */
  lemma TfExample()
    ensures var q := Question("q1", "", TF, 200, None, None, None, Some([true, false, true, false]));
            Score([q], map["q1" := Flags([true, false, true, true])]) == 50
  {
    var given := [true, false, true, true];
    var expected := [true, false, true, false];
    assert [true][..0] == [];
    assert MatchCount([true], expected) == 1;
    assert [true, false][..1] == [true];
    assert MatchCount([true, false], expected) == 2;
    assert [true, false, true][..2] == [true, false];
    assert MatchCount([true, false, true], expected) == 3;
    assert given[..3] == [true, false, true];
  }
}
