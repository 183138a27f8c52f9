/** The quiz-taking page: the quiz being taken, the question on screen,
    the answers chosen so far and the countdown, after
    Frontend/src/pages/Quizzes/QuizTakePage.jsx. The fetched quiz is the
    stored record of the grading model; the answers object is a map from
    question index to the chosen option. */
module QuizTake {
  import opened Wrappers
  import opened Text
  import opened QuizGrading
  import opened Indices

  /** Seconds on the clock per question. */
  const SecondsPerQuestion: nat := 120

  // ---------------------------------------------------------------------
  // The clock display (`formatTime`)

  /** `padStart(2, '0')`. */
  function PadTwo(s: string): string {
    if |s| < 2 then "0" + s else s
  }

  /** `${mins}:${secs.toString().padStart(2, '0')}` for a non-negative
      number of seconds. */
  function FormatTime(seconds: nat): string {
    NatToString(seconds / 60) + ":" + PadTwo(NatToString(seconds % 60))
  }

  /** Seconds below sixty are always two digits that read back as the
      seconds. */
  lemma TwoDigitSeconds(secs: nat)
    requires secs < 60
    ensures |PadTwo(NatToString(secs))| == 2
    ensures forall i :: 0 <= i < 2 ==> IsDigit(PadTwo(NatToString(secs))[i])
    ensures ParseNat(PadTwo(NatToString(secs))) == secs
  {
    ParseNatToString(secs);
    var d := NatToString(secs);
    if secs < 10 {
      DigitRoundTrip(secs);
      var p := PadTwo(d);
      assert p == ['0', d[0]];
      assert p[..1] == ['0'];
      assert ['0'][..0] == [];
      assert ParseNat(['0']) == 0;
    } else {
      assert d == NatToString(secs / 10) + [DigitChar(secs % 10)];
    }
  }

  /** The display is minutes, a colon and two digits of seconds, and reads
      back as the number of seconds. */
  lemma FormatTimeRoundTrip(seconds: nat)
    ensures var t := FormatTime(seconds);
            |t| >= 4 && t[|t| - 3] == ':' &&
            (forall i :: 0 <= i < |t| - 3 ==> IsDigit(t[i])) &&
            (forall i :: |t| - 2 <= i < |t| ==> IsDigit(t[i])) &&
            ParseNat(t[|t| - 2..]) < 60 &&
            60 * ParseNat(t[..|t| - 3]) + ParseNat(t[|t| - 2..]) == seconds
  {
    var mins, secs := NatToString(seconds / 60), PadTwo(NatToString(seconds % 60));
    TwoDigitSeconds(seconds % 60);
    ParseNatToString(seconds / 60);
    var t := mins + ":" + secs;
    assert t[..|t| - 3] == mins;
    assert t[|t| - 2..] == secs;
    assert FormatTime(seconds) == t;
  }

  // ---------------------------------------------------------------------
  // The submitted answers

  /** `quiz.questions.map((q, index) => ({ questionIndex: index,
      selectedAnswer: answers[index] || '' }))`. */
  function FormatAnswers(n: nat, answers: map<nat, string>): (r: seq<Answer>)
    ensures |r| == n
    ensures forall i :: 0 <= i < n ==> r[i].questionIndex == i
    ensures forall i :: 0 <= i < n ==> r[i].selectedAnswer == (if i in answers then answers[i] else "")
  {
    if n == 0 then [] else FormatAnswers(n - 1, answers) + [Answer(n - 1, if n - 1 in answers then answers[n - 1] else "")]
  }

  /** The formatted answers name each question once, so the server grades
      every question exactly once and, when the quiz counts its questions,
      the score is a percentage. */
  lemma FormattedAnswersGrade(quiz: Quiz, answers: map<nat, string>, now: int)
    requires quiz.completedAt.None? && 0 < |quiz.questions| <= quiz.totalQuestions
    ensures var formatted := FormatAnswers(|quiz.questions|, answers);
            var s := Submit(Some(formatted), Some(quiz), now);
            s.Success? && |s.value.quiz.userAnswers| == |quiz.questions| &&
            s.value.quiz.score.Some? && 0 <= s.value.quiz.score.value <= 100
  {
    var qs := quiz.questions;
    var formatted := FormatAnswers(|qs|, answers);
    NonNegativeGraded(qs, formatted, now);
    GradedIsFilter(qs, formatted, now);
    AllInRange(qs, formatted);
    ScoreAtMost100(formatted, quiz, now);
  }

  lemma {:induction false} AllInRange(qs: seq<Question>, answers: seq<Answer>)
    requires forall k :: 0 <= k < |answers| ==> InRange(qs, answers[k])
    ensures InRangeOf(qs, answers) == answers
  {
    if answers != [] {
      var init := answers[..|answers| - 1];
      assert forall k :: 0 <= k < |init| ==> init[k] == answers[k];
      AllInRange(qs, init);
    }
  }

  // ---------------------------------------------------------------------
  // The page

  datatype LoadOutcome = Opened | RedirectToResults

  /** The option stored for a choice; JavaScript stores `undefined` for an
      index outside the options, which later formats as `''`. */
  function OptionAt(options: seq<string>, optionIndex: int): string {
    if 0 <= optionIndex < |options| then options[optionIndex] else ""
  }

  class QuizTakePage {
    var quiz: Option<Quiz>
    var loading: bool
    var currentQuestion: nat
    var answers: map<nat, string>
    var timeRemaining: Option<int>

    /** The number of questions of the loaded quiz. */
    function QuestionCount(): nat
      reads this
    {
      if quiz.Some? then |quiz.value.questions| else 0
    }

    /** The cursor is on a question of the quiz and every answer belongs to
        one; before a quiz with questions is shown, both are at rest. */
    predicate Valid()
      reads this
    {
      (forall k :: k in answers ==> k < QuestionCount()) &&
      (QuestionCount() == 0 ==> currentQuestion == 0) &&
      (QuestionCount() > 0 ==> currentQuestion < QuestionCount())
    }

    /** The page shows the question view (and its handlers) only once the
        fetch is over and a quiz with questions arrived. */
    predicate Showing()
      reads this
    {
      !loading && quiz.Some? && |quiz.value.questions| > 0
    }

    constructor()
      ensures Valid() && loading
      ensures quiz.None? && currentQuestion == 0 && answers == map[] && timeRemaining.None?
    {
      quiz := None;
      loading := true;
      currentQuestion := 0;
      answers := map[];
      timeRemaining := None;
    }

    /** The end of `fetchQuiz`: a quiz already completed with answers sends
        the user to its results; any other quiz is shown with two minutes
        per question on the clock. */
    method Load(data: Quiz) returns (outcome: LoadOutcome)
      requires Valid() && loading && quiz.None?
      modifies this
      ensures Valid() && !loading
      ensures currentQuestion == old(currentQuestion) && answers == old(answers)
      ensures outcome == RedirectToResults <==> data.completedAt.Some? && |data.userAnswers| > 0
      ensures outcome == RedirectToResults ==> quiz.None? && timeRemaining == old(timeRemaining)
      ensures outcome == Opened ==>
                quiz == Some(data) && timeRemaining == Some(|data.questions| * SecondsPerQuestion)
    {
      if data.completedAt.Some? && |data.userAnswers| > 0 {
        outcome := RedirectToResults;
      } else {
        quiz := Some(data);
        timeRemaining := Some(|data.questions| * SecondsPerQuestion);
        outcome := Opened;
      }
      loading := false;
    }

    /** `handleAnswerSelect`: records the chosen option of the current
        question under the current index and nowhere else. */
    method SelectAnswer(optionIndex: int)
      requires Valid() && Showing()
      modifies this
      ensures Valid()
      ensures quiz == old(quiz) && currentQuestion == old(currentQuestion)
      ensures answers == old(answers)[currentQuestion := OptionAt(quiz.value.questions[currentQuestion].options, optionIndex)]
      ensures loading == old(loading) && timeRemaining == old(timeRemaining)
    {
      var option := OptionAt(quiz.value.questions[currentQuestion].options, optionIndex);
      answers := answers[currentQuestion := option];
    }

    /** `handleNext`: one question on, but never past the last. */
    method Next()
      requires Valid() && Showing()
      modifies this
      ensures Valid()
      ensures currentQuestion == if old(currentQuestion) < QuestionCount() - 1 then old(currentQuestion) + 1 else old(currentQuestion)
      ensures quiz == old(quiz) && answers == old(answers)
      ensures loading == old(loading) && timeRemaining == old(timeRemaining)
    {
      if currentQuestion < |quiz.value.questions| - 1 {
        currentQuestion := currentQuestion + 1;
      }
    }

    /** `handlePrevious`: one question back, but never before the first. */
    method Previous()
      requires Valid() && Showing()
      modifies this
      ensures Valid()
      ensures currentQuestion == if old(currentQuestion) > 0 then old(currentQuestion) - 1 else 0
      ensures quiz == old(quiz) && answers == old(answers)
      ensures loading == old(loading) && timeRemaining == old(timeRemaining)
    {
      if currentQuestion > 0 {
        currentQuestion := currentQuestion - 1;
      }
    }

    /** One second of the countdown; at the last second the clock stops at
        zero and the quiz is submitted. */
    method Tick() returns (submitNow: bool)
      requires timeRemaining.Some? && timeRemaining.value > 0
      modifies this
      ensures submitNow <==> old(timeRemaining.value) == 1
      ensures timeRemaining == Some(old(timeRemaining.value) - 1)
      ensures quiz == old(quiz) && answers == old(answers) && currentQuestion == old(currentQuestion)
      ensures loading == old(loading)
    {
      var prev := timeRemaining.value;
      if prev <= 1 {
        submitNow := true;
        timeRemaining := Some(0);
      } else {
        submitNow := false;
        timeRemaining := Some(prev - 1);
      }
    }

    /** `Object.keys(answers).length < quiz.questions.length`. */
    predicate NeedsConfirmation()
      reads this
    {
      |answers.Keys| < QuestionCount()
    }

    /** A confirmation is asked exactly when some question has no answer. */
    lemma ConfirmationIffUnanswered()
      requires Valid()
      ensures NeedsConfirmation() <==> exists i :: 0 <= i < QuestionCount() && i !in answers
    {
      FullRange(answers.Keys, QuestionCount());
    }

    /** `handleSubmit` up to the request: None when the user declines the
        confirmation (`confirmed` is the answer to `window.confirm`),
        otherwise the formatted answers. */
    function SubmitPayload(confirmed: bool): (r: Option<seq<Answer>>)
      reads this
      ensures r.None? <==> NeedsConfirmation() && !confirmed
      ensures r.Some? ==> r.value == FormatAnswers(QuestionCount(), answers)
    {
      if NeedsConfirmation() && !confirmed then None else Some(FormatAnswers(QuestionCount(), answers))
    }
  }
}
