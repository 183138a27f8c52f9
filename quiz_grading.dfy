/** Grading a quiz and assembling its results, after `submitQuiz` and
    `getQuizResults` in Backend/controllers/quizController.js. The stored
    quiz is a plain record; the database lookup is its `Option` (None when
    no quiz of the user has that id) and the clock is the parameter `now`. */
module QuizGrading {
  import opened Wrappers
  import opened JsMath
  import opened Indices

  datatype Question = Question(question: string, options: seq<string>, correctAnswer: string, explanation: string)

  /** A recorded answer. */
  datatype UserAnswer = UserAnswer(questionIndex: nat, selectedAnswer: string, isCorrect: bool, answeredAt: int)

  /** `score` is `None` where JavaScript would store a non-finite number
      (a zero `totalQuestions`); `completedAt` is `None` until submission. */
  datatype Quiz = Quiz(title: string, questions: seq<Question>, totalQuestions: nat,
                       userAnswers: seq<UserAnswer>, score: Option<int>, completedAt: Option<int>)

  /** An element of the request's `answers` array. */
  datatype Answer = Answer(questionIndex: int, selectedAnswer: string)

  /** The error responses: 400 for missing answers, 404, 400 for a second
      submission, and the exception a negative index raises (it reads a
      field of `undefined`), which goes to the error handler. */
  datatype SubmitError = AnswersRequired | QuizNotFound | AlreadySubmitted | InternalError

  /** The saved quiz and the `correctCount` of the response. */
  datatype Submitted = Submitted(quiz: Quiz, correctCount: nat)

  // ---------------------------------------------------------------------
  // The grading loop

  /** Whether an answer is recorded: `questionIndex < quiz.questions.length`. */
  predicate InRange(qs: seq<Question>, a: Answer) {
    0 <= a.questionIndex < |qs|
  }

  /** The record the loop pushes for an answer in range. */
  function Record(qs: seq<Question>, a: Answer, now: int): UserAnswer
    requires InRange(qs, a)
  {
    UserAnswer(a.questionIndex, a.selectedAnswer, qs[a.questionIndex].correctAnswer == a.selectedAnswer, now)
  }

  /** The answers the `forEach` records, in input order; `None` when it
      reaches a negative index and throws. */
  function Graded(qs: seq<Question>, answers: seq<Answer>, now: int): Option<seq<UserAnswer>> {
    if answers == [] then Some([])
    else
      var a := answers[|answers| - 1];
      match Graded(qs, answers[..|answers| - 1], now)
      case None => None
      case Some(us) =>
        if a.questionIndex < 0 then None
        else if a.questionIndex < |qs| then Some(us + [Record(qs, a, now)])
        else Some(us)
  }

  /** The number of recorded answers marked correct. */
  function CountCorrect(us: seq<UserAnswer>): nat {
    if us == [] then 0
    else CountCorrect(us[..|us| - 1]) + (if us[|us| - 1].isCorrect then 1 else 0)
  }

  /** `Math.round(correctCount / totalQuestions * 100)` */
  function Score(correctCount: nat, totalQuestions: nat): Option<int> {
    if totalQuestions == 0 then None else Some(RoundDiv(100 * correctCount, totalQuestions))
  }

  /** The whole of `submitQuiz`: the three guards in order, then grading. */
  function Submit(answers: Option<seq<Answer>>, quiz: Option<Quiz>, now: int): Result<Submitted, SubmitError> {
    if answers.None? || answers.value == [] then Failure(AnswersRequired)
    else if quiz.None? then Failure(QuizNotFound)
    else if quiz.value.completedAt.Some? then Failure(AlreadySubmitted)
    else
      match Graded(quiz.value.questions, answers.value, now)
      case None => Failure(InternalError)
      case Some(us) =>
        var c := CountCorrect(us);
        Success(Submitted(quiz.value.(userAnswers := us, score := Score(c, quiz.value.totalQuestions),
                                      completedAt := Some(now)), c))
  }

  /** `submitQuiz`: `answers` is None when the body's `answers` is not an array. */
  method SubmitQuiz(answers: Option<seq<Answer>>, quiz: Option<Quiz>, now: int)
    returns (r: Result<Submitted, SubmitError>)
    ensures r == Submit(answers, quiz, now)
    ensures (answers.None? || answers.value == []) ==> r == Failure(AnswersRequired)
    ensures r.Success? ==> r.value.quiz.completedAt == Some(now)
  {
    if answers.None? || |answers.value| == 0 {
      return Failure(AnswersRequired);
    }
    if quiz.None? {
      return Failure(QuizNotFound);
    }
    var q := quiz.value;
    if q.completedAt.Some? {
      return Failure(AlreadySubmitted);
    }
    var graded := GradeAnswers(q.questions, answers.value, now);
    if graded.None? {
      return Failure(InternalError);
    }
    var userAnswers, correctCount := graded.value.0, graded.value.1;
    var score := Score(correctCount, q.totalQuestions);
    q := q.(userAnswers := userAnswers, score := score, completedAt := Some(now));
    r := Success(Submitted(q, correctCount));
  }

  /** The `forEach` loop, with `correctCount++` and `userAnswers.push`. */
  method GradeAnswers(qs: seq<Question>, answers: seq<Answer>, now: int)
    returns (r: Option<(seq<UserAnswer>, nat)>)
    ensures r.None? <==> Graded(qs, answers, now).None?
    ensures r.Some? ==> r.value.0 == Graded(qs, answers, now).value && r.value.1 == CountCorrect(r.value.0)
  {
    var correctCount := 0;
    var userAnswers: seq<UserAnswer> := [];
    var i := 0;
    while i < |answers|
      invariant 0 <= i <= |answers|
      invariant Graded(qs, answers[..i], now) == Some(userAnswers)
      invariant correctCount == CountCorrect(userAnswers)
    {
      assert answers[..i + 1][..i] == answers[..i];
      var a := answers[i];
      if a.questionIndex < 0 {
        NegativeStops(qs, answers, i, now);
        return None;
      }
      if a.questionIndex < |qs| {
        var isCorrect := qs[a.questionIndex].correctAnswer == a.selectedAnswer;
        if isCorrect {
          correctCount := correctCount + 1;
        }
        var rec := UserAnswer(a.questionIndex, a.selectedAnswer, isCorrect, now);
        assert (userAnswers + [rec])[..|userAnswers|] == userAnswers;
        userAnswers := userAnswers + [rec];
      }
      i := i + 1;
    }
    assert answers[..i] == answers;
    r := Some((userAnswers, correctCount));
  }

  /** Once the loop throws, the rest of the answers do not matter. */
  lemma {:induction false} NegativeStops(qs: seq<Question>, answers: seq<Answer>, i: nat, now: int)
    requires i < |answers| && answers[i].questionIndex < 0
    ensures Graded(qs, answers, now).None?
    decreases |answers| - i
  {
    if |answers| == i + 1 {
      assert answers[..i + 1] == answers;
      assert answers[..|answers| - 1] == answers[..i];
    } else {
      var init := answers[..|answers| - 1];
      assert init[i] == answers[i];
      NegativeStops(qs, init, i, now);
      assert answers[..|answers| - 1] == init;
    }
  }

  /** Without a negative index the loop runs to the end. */
  lemma {:induction false} NonNegativeGraded(qs: seq<Question>, answers: seq<Answer>, now: int)
    requires forall k :: 0 <= k < |answers| ==> answers[k].questionIndex >= 0
    ensures Graded(qs, answers, now).Some?
  {
    if answers != [] {
      var init := answers[..|answers| - 1];
      assert forall k :: 0 <= k < |init| ==> init[k] == answers[k];
      NonNegativeGraded(qs, init, now);
    }
  }

  // ---------------------------------------------------------------------
  // Properties of grading

  /** Submitting again is always refused: a successful submission sets
      `completedAt`, so the next one fails at the first or the third guard. */
  lemma SubmitOnce(answers: Option<seq<Answer>>, quiz: Option<Quiz>, now: int,
                   again: Option<seq<Answer>>, later: int)
    requires Submit(answers, quiz, now).Success?
    ensures Submit(again, Some(Submit(answers, quiz, now).value.quiz), later).Failure?
    ensures again.Some? && again.value != [] ==>
              Submit(again, Some(Submit(answers, quiz, now).value.quiz), later) == Failure(AlreadySubmitted)
  {
  }

  /** A submission changes exactly the answers, the score and `completedAt`. */
  lemma SubmitChanges(answers: Option<seq<Answer>>, quiz: Option<Quiz>, now: int)
    requires Submit(answers, quiz, now).Success?
    ensures var s := Submit(answers, quiz, now).value;
            quiz.Some? && s.quiz == quiz.value.(userAnswers := s.quiz.userAnswers, score := s.quiz.score,
                                                completedAt := Some(now))
            && s.quiz.userAnswers == Graded(quiz.value.questions, answers.value, now).value
            && s.quiz.score == Score(s.correctCount, quiz.value.totalQuestions)
            && s.correctCount == CountCorrect(s.quiz.userAnswers)
  {
  }

  /** The recorded answers are exactly the input answers in range, in
      input order, each marked correct exactly when it equals the
      question's correct answer. */
  lemma {:induction false} GradedIsFilter(qs: seq<Question>, answers: seq<Answer>, now: int)
    requires Graded(qs, answers, now).Some?
    ensures forall k :: 0 <= k < |answers| ==> answers[k].questionIndex >= 0
    ensures |Graded(qs, answers, now).value| == |InRangeOf(qs, answers)|
    ensures forall k :: 0 <= k < |InRangeOf(qs, answers)| ==>
              Graded(qs, answers, now).value[k] == Record(qs, InRangeOf(qs, answers)[k], now)
  {
    if answers != [] {
      var init := answers[..|answers| - 1];
      assert InRangeOf(qs, answers) == InRangeOf(qs, init) + (if InRange(qs, answers[|answers| - 1]) then [answers[|answers| - 1]] else []);
      GradedIsFilter(qs, init, now);
    }
  }

  /** The input answers whose index is in range, in input order. */
  function InRangeOf(qs: seq<Question>, answers: seq<Answer>): (r: seq<Answer>)
    ensures forall k :: 0 <= k < |r| ==> InRange(qs, r[k])
  {
    if answers == [] then []
    else InRangeOf(qs, answers[..|answers| - 1])
         + (if InRange(qs, answers[|answers| - 1]) then [answers[|answers| - 1]] else [])
  }

  /** An answer in range is recorded after the ones before it. */
  lemma GradedPush(qs: seq<Question>, answers: seq<Answer>, a: Answer, now: int)
    requires Graded(qs, answers, now).Some? && InRange(qs, a)
    ensures Graded(qs, answers + [a], now) == Some(Graded(qs, answers, now).value + [Record(qs, a, now)])
  {
    assert (answers + [a])[..|answers|] == answers;
  }

  /** An answer out of range is ignored: dropping it changes nothing. */
  lemma {:induction false} OutOfRangeIgnored(qs: seq<Question>, answers: seq<Answer>, a: Answer, now: int)
    requires a.questionIndex >= |qs|
    ensures Graded(qs, answers + [a], now) == Graded(qs, answers, now)
  {
    assert (answers + [a])[..|answers|] == answers;
  }

  /** `correctCount` never exceeds the number of recorded answers. */
  lemma {:induction false} CountCorrectBound(us: seq<UserAnswer>)
    ensures CountCorrect(us) <= |us|
    ensures CountCorrect(us) == |us| <==> forall k :: 0 <= k < |us| ==> us[k].isCorrect
  {
    if us != [] {
      CountCorrectBound(us[..|us| - 1]);
      if !us[|us| - 1].isCorrect {
        assert CountCorrect(us) < |us|;
      }
      if CountCorrect(us) == |us| {
        assert CountCorrect(us[..|us| - 1]) == |us| - 1;
        assert forall k :: 0 <= k < |us| - 1 ==> us[..|us| - 1][k] == us[k];
      }
    }
  }

  /** Whether no two answers name the same question. */
  predicate DistinctIndices(answers: seq<Answer>) {
    forall i, j :: 0 <= i < j < |answers| ==> answers[i].questionIndex != answers[j].questionIndex
  }

  /** With distinct indices and at least as many stored questions as the
      quiz counts, the score lies in 0..100. */
  lemma ScoreAtMost100(answers: seq<Answer>, quiz: Quiz, now: int)
    requires answers != [] && quiz.completedAt.None? && 0 < quiz.totalQuestions && |quiz.questions| <= quiz.totalQuestions
    requires DistinctIndices(answers)
    requires Submit(Some(answers), Some(quiz), now).Success?
    ensures var s := Submit(Some(answers), Some(quiz), now).value;
            s.quiz.score.Some? && 0 <= s.quiz.score.value <= 100
  {
    var qs := quiz.questions;
    GradedIsFilter(qs, answers, now);
    var us := Graded(qs, answers, now).value;
    var kept := InRangeOf(qs, answers);
    DistinctKept(qs, answers);
    DistinctBound(kept, |qs|);
    CountCorrectBound(us);
    assert CountCorrect(us) <= |us| == |kept| <= |qs| <= quiz.totalQuestions;
    assert 100 * CountCorrect(us) <= 100 * quiz.totalQuestions;
    RoundDivBounds(100 * CountCorrect(us), quiz.totalQuestions, 100);
  }

  lemma {:induction false} DistinctKept(qs: seq<Question>, answers: seq<Answer>)
    requires DistinctIndices(answers)
    ensures DistinctIndices(InRangeOf(qs, answers))
    ensures forall a :: a in InRangeOf(qs, answers) ==> a in answers
  {
    if answers != [] {
      var init := answers[..|answers| - 1];
      var last := answers[|answers| - 1];
      assert DistinctIndices(init) by {
        forall i, j | 0 <= i < j < |init| ensures init[i].questionIndex != init[j].questionIndex {
          assert init[i] == answers[i] && init[j] == answers[j];
        }
      }
      DistinctKept(qs, init);
      var ki := InRangeOf(qs, init);
      forall a | a in ki ensures a.questionIndex != last.questionIndex {
        var p :| 0 <= p < |init| && init[p] == a;
        assert answers[p] == a;
      }
    }
  }

  /** Distinct indices below n: at most n of them. */
  lemma DistinctBound(kept: seq<Answer>, n: nat)
    requires DistinctIndices(kept)
    requires forall k :: 0 <= k < |kept| ==> 0 <= kept[k].questionIndex < n
    ensures |kept| <= n
  {
    Injective(kept);
    FullRange(IndexSet(kept), n);
  }

  /** Distinct indices take as many values as there are answers. */
  lemma {:induction false} Injective(kept: seq<Answer>)
    requires DistinctIndices(kept)
    requires forall k :: 0 <= k < |kept| ==> kept[k].questionIndex >= 0
    ensures |IndexSet(kept)| == |kept|
  {
    if kept != [] {
      var init := kept[..|kept| - 1];
      assert DistinctIndices(init) by {
        forall i, j | 0 <= i < j < |init| ensures init[i].questionIndex != init[j].questionIndex {
          assert init[i] == kept[i] && init[j] == kept[j];
        }
      }
      Injective(init);
      IndexSetSnoc(kept);
    }
  }

  /** The index values of the answers. */
  function IndexSet(kept: seq<Answer>): set<nat>
    requires forall k :: 0 <= k < |kept| ==> kept[k].questionIndex >= 0
  {
    set k | 0 <= k < |kept| :: kept[k].questionIndex as nat
  }

  /** The last answer adds its index, which no earlier answer has. */
  lemma IndexSetSnoc(kept: seq<Answer>)
    requires kept != [] && DistinctIndices(kept)
    requires forall k :: 0 <= k < |kept| ==> kept[k].questionIndex >= 0
    ensures var init := kept[..|kept| - 1];
            var last := kept[|kept| - 1].questionIndex as nat;
            IndexSet(kept) == IndexSet(init) + {last} && last !in IndexSet(init)
  {
    var init := kept[..|kept| - 1];
    var last := kept[|kept| - 1].questionIndex as nat;
    forall x | x in IndexSet(init) ensures x in IndexSet(kept) && x != last {
      var k :| 0 <= k < |init| && init[k].questionIndex as nat == x;
      assert kept[k] == init[k];
    }
    forall x | x in IndexSet(kept) ensures x in IndexSet(init) + {last} {
      var k :| 0 <= k < |kept| && kept[k].questionIndex as nat == x;
      if k < |init| {
        assert kept[k] == init[k];
      }
    }
  }

  /** Duplicated indices are all counted: one question answered correctly
      twice scores 200. */
  lemma DuplicateIndexOverflow(q: Question, now: int)
    ensures var quiz := Quiz("", [q], 1, [], Some(0), None);
            var answers := [Answer(0, q.correctAnswer), Answer(0, q.correctAnswer)];
            Submit(Some(answers), Some(quiz), now).Success?
            && Submit(Some(answers), Some(quiz), now).value.quiz.score == Some(200)
  {
    var quiz := Quiz("", [q], 1, [], Some(0), None);
    var answers := [Answer(0, q.correctAnswer), Answer(0, q.correctAnswer)];
    var u := Record(quiz.questions, answers[0], now);
    assert Graded(quiz.questions, [], now) == Some([]);
    GradedPush(quiz.questions, [], answers[0], now);
    assert [] + [answers[0]] == [answers[0]];
    var empty: seq<UserAnswer> := [];
    assert empty + [u] == [u];
    assert Graded(quiz.questions, [answers[0]], now) == Some([u]);
    assert answers[1] == answers[0];
    GradedPush(quiz.questions, [answers[0]], answers[1], now);
    assert [answers[0]] + [answers[1]] == answers;
    assert Graded(quiz.questions, answers, now) == Some([u] + [u]);
    assert [u, u][..1] == [u] && [u][..0] == [];
    assert CountCorrect([u]) == 1;
    assert CountCorrect([u, u]) == 2;
    assert RoundDiv(200, 1) == 200;
  }

  // ---------------------------------------------------------------------
  // Results

  datatype ResultsError = ResultsNotFound | NotSubmitted

  /** One entry of `detailedResults`; `selectedAnswer` is None for `null`. */
  datatype DetailedResult = DetailedResult(questionIndex: nat, question: string, options: seq<string>,
                                           correctAnswer: string, selectedAnswer: Option<string>,
                                           isCorrect: bool, explanation: string)

  datatype Report = Report(title: string, score: Option<int>, totalQuestions: nat, completedAt: int,
                           results: seq<DetailedResult>)

  /** `quiz.userAnswers.find(ans => ans.questionIndex === index)` */
  function FindAnswer(us: seq<UserAnswer>, index: nat): (r: Option<UserAnswer>)
    ensures r.Some? ==> r.value in us && r.value.questionIndex == index
    ensures r.None? ==> forall k :: 0 <= k < |us| ==> us[k].questionIndex != index
  {
    if us == [] then None
    else if us[0].questionIndex == index then Some(us[0])
    else FindAnswer(us[1..], index)
  }

  /** `find` returns the first match. */
  lemma {:induction false} FindAnswerFirst(us: seq<UserAnswer>, index: nat, p: nat)
    requires p < |us| && us[p].questionIndex == index
    requires forall k :: 0 <= k < p ==> us[k].questionIndex != index
    ensures FindAnswer(us, index) == Some(us[p])
  {
    if p > 0 {
      FindAnswerFirst(us[1..], index, p - 1);
    }
  }

  function Detail(quiz: Quiz, index: nat): DetailedResult
    requires index < |quiz.questions|
  {
    var q := quiz.questions[index];
    var a := FindAnswer(quiz.userAnswers, index);
    DetailedResult(index, q.question, q.options, q.correctAnswer,
                   if a.Some? then Some(a.value.selectedAnswer) else None,
                   if a.Some? then a.value.isCorrect else false, q.explanation)
  }

  /** `getQuizResults`. */
  function QuizResults(quiz: Option<Quiz>): (r: Result<Report, ResultsError>)
    ensures quiz.None? ==> r == Failure(ResultsNotFound)
    ensures quiz.Some? && quiz.value.completedAt.None? ==> r == Failure(NotSubmitted)
    ensures r.Success? ==> |r.value.results| == |quiz.value.questions|
    ensures r.Success? ==> forall i :: 0 <= i < |r.value.results| ==>
              r.value.results[i].questionIndex == i
              && r.value.results[i].correctAnswer == quiz.value.questions[i].correctAnswer
              && (r.value.results[i].selectedAnswer.None? ==> !r.value.results[i].isCorrect)
  {
    if quiz.None? then Failure(ResultsNotFound)
    else if quiz.value.completedAt.None? then Failure(NotSubmitted)
    else
      var z := quiz.value;
      Success(Report(z.title, z.score, z.totalQuestions, z.completedAt.value,
                     seq(|z.questions|, i requires 0 <= i < |z.questions| => Detail(z, i))))
  }

  /** Results right after a submission: a question shows the first
      in-range answer given for it, marked correct exactly when it equals
      the correct answer; a question nobody answered shows null. */
  lemma ResultsAfterSubmit(answers: seq<Answer>, quiz: Quiz, now: int, i: nat)
    requires Submit(Some(answers), Some(quiz), now).Success?
    requires i < |quiz.questions|
    ensures var s := Submit(Some(answers), Some(quiz), now).value;
            var d := QuizResults(Some(s.quiz)).value.results[i];
            var kept := InRangeOf(quiz.questions, answers);
            (d.selectedAnswer.None? <==> forall k :: 0 <= k < |kept| ==> kept[k].questionIndex != i)
            && (d.selectedAnswer.Some? ==>
                  (exists p :: 0 <= p < |kept| && kept[p].questionIndex == i
                     && (forall k :: 0 <= k < p ==> kept[k].questionIndex != i)
                     && d.selectedAnswer.value == kept[p].selectedAnswer
                     && (d.isCorrect <==> kept[p].selectedAnswer == quiz.questions[i].correctAnswer)))
  {
    var qs := quiz.questions;
    GradedIsFilter(qs, answers, now);
    var us := Graded(qs, answers, now).value;
    var kept := InRangeOf(qs, answers);
    var s := Submit(Some(answers), Some(quiz), now).value;
    assert s.quiz.userAnswers == us;
    var d := QuizResults(Some(s.quiz)).value.results[i];
    assert d == Detail(s.quiz, i);
    var a := FindAnswer(us, i);
    if a.None? {
      forall k | 0 <= k < |kept| ensures kept[k].questionIndex != i {
        assert us[k] == Record(qs, kept[k], now);
      }
    } else {
      var p := FirstIndex(us, i);
      assert us[p] == Record(qs, kept[p], now);
      forall k | 0 <= k < p ensures kept[k].questionIndex != i {
        assert us[k] == Record(qs, kept[k], now);
      }
      FindAnswerFirst(us, i, p);
    }
  }

  /** The position of the first answer for a question that has one. */
  lemma FirstIndex(us: seq<UserAnswer>, index: nat) returns (p: nat)
    requires FindAnswer(us, index).Some?
    ensures p < |us| && us[p].questionIndex == index
    ensures forall k :: 0 <= k < p ==> us[k].questionIndex != index
  {
    p := 0;
    while us[p].questionIndex != index
      invariant p < |us|
      invariant forall k :: 0 <= k < p ==> us[k].questionIndex != index
      invariant FindAnswer(us[p..], index) == FindAnswer(us, index)
      decreases |us| - p
    {
      assert us[p..][1..] == us[p + 1..];
      p := p + 1;
    }
  }
}
