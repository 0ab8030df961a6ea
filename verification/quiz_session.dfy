/**
 * The quiz session of the mock-test page (client/src/pages/mock-test-page.tsx):
 * the React state of one test-taking session, and the handlers and effects
 * that change it. Each method is one event: a click, one firing of the
 * countdown interval, the questions arriving, or the answer to the POST that
 * records an attempt.
 */
module MockTestPage {
  import opened Wrappers
  import opened Schema
  import opened Scoring

  /**
   * The attempt `handleSubmit` posts for these answers: the count of correct
   * answers, the rounded percentage and the number of fetched questions. Its
   * score lies in 0..100 and its correct count is at most the question count.
   */
  function Attempt(userId: int, testId: int, answers: seq<int>, questions: seq<Question>): (p: AttemptPayload)
    requires 0 < |questions| && |answers| == |questions|
    ensures p.userId == userId && p.mockTestId == testId
    ensures 0 <= p.score <= 100
    ensures 0 <= p.correctAnswers <= p.totalQuestions == |questions|
    ensures p.correctAnswers == |CorrectPositions(answers, questions)|
    ensures |questions| * (2 * p.score - 1) <= 200 * p.correctAnswers < |questions| * (2 * p.score + 1)
  {
    var correct := CorrectAnswers(answers, questions);
    CorrectAnswersCountsPositions(answers, questions);
    AttemptPayload(userId, testId, Score(correct, |questions|), correct, |questions|)
  }

  class Session {
    /** The route id, the fetched test, the fetched questions and the signed-in user. */
    const testId: int
    const test: Option<MockTest>
    const questions: seq<Question>
    const user: Option<User>

    var currentQuestion: int
    var selectedAnswers: seq<int>
    /** Seconds left; None before the test is loaded (`null` in the source). */
    var timeLeft: Option<int>
    var isSubmitting: bool
    var testCompleted: bool

    /** Bodies posted to /api/test-attempts so far, and how many of those requests have not settled. */
    var posted: seq<AttemptPayload>
    var pending: nat

    ghost predicate Valid()
      reads this
    {
      && 0 <= currentQuestion
      && (currentQuestion == 0 || currentQuestion < |questions|)
      && (selectedAnswers == [] || |selectedAnswers| == |questions|)
      && (forall i :: 0 <= i < |selectedAnswers| ==>
            selectedAnswers[i] == Unanswered || 0 <= selectedAnswers[i] < |questions[i].options|)
      && (timeLeft.Some? ==> Ready())
      && (timeLeft.Some? ==> test.Some? && (test.value.duration >= 0 ==> timeLeft.value >= 0))
      && (isSubmitting ==> pending > 0)
      && pending <= |posted|
      && (testCompleted ==> |posted| > 0)
    }

    /** The questions have arrived and the answer array has been filled for them. */
    predicate Ready()
      reads this
    {
      0 < |questions| && |selectedAnswers| == |questions|
    }

    /** The question view is on screen, with its radio group and buttons. */
    predicate Interactive()
      reads this
    {
      test.Some? && Ready() && !testCompleted
    }

    /** A countdown interval is running: the timer effect neither returned early nor submitted. */
    predicate TimerRunning()
      requires Valid()
      reads this
      ensures TimerRunning() ==> Ready()
    {
      timeLeft.Some? && timeLeft.value != 0 && !testCompleted
    }

    /** Previous is enabled away from the first question, so it always has a question to go back to. */
    predicate PreviousEnabled()
      requires Valid()
      reads this
      ensures PreviousEnabled() ==> 0 < currentQuestion < |questions|
    {
      currentQuestion != 0
    }

    /** The last question shows Submit instead of Next. */
    predicate OnLastQuestion()
      reads this
    {
      currentQuestion == |questions| - 1
    }

    /** Next is enabled once the current question holds one of its options, and a later question exists. */
    predicate NextEnabled()
      requires Valid() && Interactive()
      reads this
      ensures NextEnabled() ==>
        && currentQuestion + 1 < |questions|
        && 0 <= selectedAnswers[currentQuestion] < |questions[currentQuestion].options|
    {
      !OnLastQuestion() && selectedAnswers[currentQuestion] != Unanswered
    }

    /** Submit is enabled on the last question when every question holds one of its options. */
    predicate SubmitEnabled()
      requires Valid()
      reads this
      ensures SubmitEnabled() ==> forall i :: 0 <= i < |selectedAnswers| ==>
        0 <= selectedAnswers[i] < |questions[i].options|
    {
      OnLastQuestion() && !isSubmitting && Unanswered !in selectedAnswers
    }

    /** The attempt a submission would post now, if the guard of `handleSubmit` lets it through. */
    function NextAttempt(): (p: Option<AttemptPayload>)
      requires Valid() && Ready()
      reads this
      ensures p.Some? <==> user.Some? && test.Some?
    {
      if user.Some? && test.Some?
      then Some(Attempt(user.value.id, testId, selectedAnswers, questions))
      else None
    }

    /** The page mounts: the initial values of the state hooks. */
    constructor (testId: int, test: Option<MockTest>, questions: seq<Question>, user: Option<User>)
      ensures Valid()
      ensures this.testId == testId && this.test == test && this.questions == questions && this.user == user
      ensures currentQuestion == 0 && selectedAnswers == [] && timeLeft.None?
      ensures !isSubmitting && !testCompleted
      ensures posted == [] && pending == 0
    {
      this.testId := testId;
      this.test := test;
      this.questions := questions;
      this.user := user;
      currentQuestion := 0;
      selectedAnswers := [];
      timeLeft := None;
      isSubmitting := false;
      testCompleted := false;
      posted := [];
      pending := 0;
    }

    /**
     * The initialisation effect, run when the questions arrive: every answer
     * becomes Unanswered and, when the test is known, the countdown starts at
     * duration * 60 seconds. The timer effect then runs if the countdown
     * changed; starting at 0 it submits at once.
     */
    method Load() returns (payload: Option<AttemptPayload>)
      requires Valid()
      modifies this`selectedAnswers, this`timeLeft, this`isSubmitting, this`posted, this`pending
      ensures Valid()
      ensures |questions| > 0 ==>
        |selectedAnswers| == |questions| && forall i :: 0 <= i < |questions| ==> selectedAnswers[i] == Unanswered
      ensures |questions| == 0 ==> selectedAnswers == old(selectedAnswers)
      ensures timeLeft == if |questions| > 0 && test.Some? then Some(test.value.duration * 60) else old(timeLeft)
      ensures payload == if timeLeft != old(timeLeft) && timeLeft == Some(0) && !testCompleted then NextAttempt() else None
      ensures payload.Some? ==> isSubmitting && posted == old(posted) + [payload.value] && pending == old(pending) + 1
      ensures payload.None? ==> isSubmitting == old(isSubmitting) && posted == old(posted) && pending == old(pending)
    {
      payload := None;
      if |questions| > 0 {
        selectedAnswers := seq(|questions|, _ => Unanswered);
        if test.Some? {
          var before := timeLeft;
          timeLeft := Some(test.value.duration * 60);
          if timeLeft != before && timeLeft == Some(0) && !testCompleted {
            payload := HandleSubmit();
          }
        }
      }
    }

    /**
     * `handleAnswerSelect`: the chosen option is written at the current
     * question only; the array keeps its length and every other entry. A
     * later choice for the same question replaces an earlier one. The radio
     * group is not disabled while a submission is in flight.
     */
    method SelectAnswer(answer: int)
      requires Valid() && Interactive()
      requires 0 <= answer < |questions[currentQuestion].options|
      modifies this`selectedAnswers
      ensures Valid()
      ensures |selectedAnswers| == |old(selectedAnswers)|
      ensures selectedAnswers[currentQuestion] == answer
      ensures forall i :: 0 <= i < |selectedAnswers| && i != currentQuestion ==>
        selectedAnswers[i] == old(selectedAnswers)[i]
    {
      selectedAnswers := selectedAnswers[currentQuestion := answer];
    }

    /** Previous: enabled away from the first question; answers are left alone. */
    method ClickPrevious()
      requires Valid() && Interactive() && PreviousEnabled()
      modifies this`currentQuestion
      ensures Valid()
      ensures currentQuestion == old(currentQuestion) - 1 && 0 <= currentQuestion
    {
      currentQuestion := currentQuestion - 1;
    }

    /** Next: shown except on the last question, enabled once the current question is answered. */
    method ClickNext()
      requires Valid() && Interactive() && NextEnabled()
      modifies this`currentQuestion
      ensures Valid()
      ensures currentQuestion == old(currentQuestion) + 1 && currentQuestion < |questions|
    {
      currentQuestion := currentQuestion + 1;
    }

    /** Submit: shown on the last question, enabled when not submitting and every answer is given. */
    method ClickSubmit() returns (payload: Option<AttemptPayload>)
      requires Valid() && Interactive() && SubmitEnabled()
      modifies this`isSubmitting, this`posted, this`pending
      ensures Valid()
      ensures payload == old(NextAttempt())
      ensures payload.Some? ==> isSubmitting && posted == old(posted) + [payload.value] && pending == old(pending) + 1
      ensures payload.None? ==> isSubmitting == old(isSubmitting) && posted == old(posted) && pending == old(pending)
    {
      payload := HandleSubmit();
    }

    /**
     * `handleSubmit` up to its await: when a user and a test are present it
     * marks the session as submitting and posts the attempt for the current
     * answers. It checks neither `isSubmitting` nor `testCompleted`, nor
     * whether every question is answered.
     */
    method HandleSubmit() returns (payload: Option<AttemptPayload>)
      requires Valid() && Ready()
      modifies this`isSubmitting, this`posted, this`pending
      ensures Valid()
      ensures payload == old(NextAttempt())
      ensures payload.Some? ==> isSubmitting && posted == old(posted) + [payload.value] && pending == old(pending) + 1
      ensures payload.None? ==> isSubmitting == old(isSubmitting) && posted == old(posted) && pending == old(pending)
    {
      payload := NextAttempt();
      if payload.Some? {
        isSubmitting := true;
        posted := posted + [payload.value];
        pending := pending + 1;
      }
    }

    /**
     * One POST settles: on success the test is completed (for good); on
     * failure `testCompleted` keeps its value. Either way the finally block
     * clears `isSubmitting`.
     */
    method SettleSubmit(success: bool)
      requires Valid() && pending > 0
      modifies this`testCompleted, this`isSubmitting, this`pending
      ensures Valid()
      ensures testCompleted == (old(testCompleted) || success)
      ensures !isSubmitting && pending == old(pending) - 1
    {
      if success {
        testCompleted := true;
      }
      isSubmitting := false;
      pending := pending - 1;
    }

    /**
     * One firing of the countdown interval: the seconds left drop by exactly
     * one. The timer effect then runs again with the new value: at 0 it
     * submits whatever answers there are, unanswered ones included; otherwise
     * it starts the next interval. No interval runs once the test is
     * completed or at 0.
     */
    method Tick() returns (payload: Option<AttemptPayload>)
      requires Valid() && TimerRunning()
      modifies this`timeLeft, this`isSubmitting, this`posted, this`pending
      ensures Valid()
      ensures timeLeft == Some(old(timeLeft).value - 1)
      ensures payload == if timeLeft == Some(0) then old(NextAttempt()) else None
      ensures payload.Some? ==> isSubmitting && posted == old(posted) + [payload.value] && pending == old(pending) + 1
      ensures payload.None? ==> isSubmitting == old(isSubmitting) && posted == old(posted) && pending == old(pending)
    {
      timeLeft := Some(timeLeft.value - 1);
      payload := None;
      if timeLeft == Some(0) {
        payload := HandleSubmit();
      }
    }
  }

  /** `n` seconds pass without the countdown reaching 0. */
  method TickDown(s: Session, n: nat)
    requires s.Valid() && s.TimerRunning() && s.timeLeft.value > n
    modifies s`timeLeft, s`isSubmitting, s`posted, s`pending
    ensures s.Valid() && s.TimerRunning()
    ensures s.timeLeft == Some(old(s.timeLeft).value - n)
    ensures s.isSubmitting == old(s.isSubmitting) && s.posted == old(s.posted) && s.pending == old(s.pending)
  {
    var k := 0;
    while k < n
      invariant 0 <= k <= n
      invariant s.Valid() && s.TimerRunning()
      invariant s.timeLeft == Some(old(s.timeLeft).value - k)
      invariant s.isSubmitting == old(s.isSubmitting) && s.posted == old(s.posted) && s.pending == old(s.pending)
    {
      var _ := s.Tick();
      k := k + 1;
    }
  }

  /**
   * A one-minute test with one question whose correct option is 2, left
   * unanswered: after 60 ticks the page posts 0 correct of 1, a score of 0.
   */
  method TimeoutWithNoAnswer() returns (payload: Option<AttemptPayload>)
    ensures payload == Some(AttemptPayload(7, 1, 0, 0, 1))
  {
    var q := Question(1, Some(1), "Question", ["a", "b", "c"], 2, "Explanation");
    var t := MockTest(1, "Test", "Description", 1, 1, "beginner", "image", None, None);
    var s := new Session(1, Some(t), [q], Some(User(7, "user", "password")));
    var loaded := s.Load();
    assert s.timeLeft == Some(60);
    TickDown(s, 59);
    payload := s.Tick();
    assert s.selectedAnswers == [Unanswered];
    assert CorrectAnswers([Unanswered], [q]) == 0 by {
      assert [Unanswered][..0] == [];
    }
  }

  /**
   * No latch guards the submission: the user submits with one second left,
   * the countdown reaches 0 while that request is in flight and the timer
   * submits again. Both requests succeed, so two attempts are posted for one
   * session.
   */
  method TimerFiresDuringManualSubmit() returns (postedCount: nat, completed: bool)
    ensures postedCount == 2 && completed
  {
    var q := Question(1, Some(1), "Question", ["a", "b", "c"], 2, "Explanation");
    var t := MockTest(1, "Test", "Description", 1, 1, "beginner", "image", None, None);
    var s := new Session(1, Some(t), [q], Some(User(7, "user", "password")));
    var loaded := s.Load();
    s.SelectAnswer(2);
    TickDown(s, 59);
    var manual := s.ClickSubmit();
    var automatic := s.Tick();
    s.SettleSubmit(true);
    s.SettleSubmit(true);
    postedCount, completed := |s.posted|, s.testCompleted;
  }
}
