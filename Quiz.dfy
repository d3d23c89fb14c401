/**
 * The quiz state machine of the `App` component. Four pieces of state drive
 * the screens: whether the test has started, the index of the current
 * question, the answers collected so far and whether the result is shown.
 * The question list itself only matters through its length `n`.
 *
 * The transitions are first given as functions on a `QuizState` value; the
 * class `QuizApp` holds the four fields and its methods, which update them
 * in place as the component's state setters do, are specified by those
 * functions.
 */
module Quiz {
  import opened Scoring

  datatype QuizState = QuizState(started: bool, currentQuestion: nat, answers: seq<int>, showResult: bool)

  /** The screen the component renders. */
  datatype Screen = Intro | Question(index: nat) | Result

  /** The values the four state fields start with. */
  const Initial := QuizState(false, 0, [], false)

  /** The screen choice: intro unless started, then result if shown, else the current question. */
  function ScreenOf(s: QuizState): (r: Screen)
    ensures r == Intro <==> !s.started
    ensures r == Result <==> s.started && s.showResult
    ensures r.Question? <==> s.started && !s.showResult
    ensures r.Question? ==> r.index == s.currentQuestion
  {
    if !s.started then Intro
    else if s.showResult then Result
    else Question(s.currentQuestion)
  }

  /** The start button. */
  function Start(s: QuizState): (r: QuizState)
    ensures ScreenOf(r) != Intro
    ensures r.currentQuestion == s.currentQuestion && r.answers == s.answers && r.showResult == s.showResult
  {
    s.(started := true)
  }

  /** `handleAnswer(score)` for `n` questions. */
  function Answer(s: QuizState, score: int, n: nat): (r: QuizState)
    ensures |r.answers| == |s.answers| + 1 && r.answers[..|s.answers|] == s.answers && r.answers[|s.answers|] == score
    ensures r.started == s.started
    ensures s.currentQuestion < n - 1 ==> r.currentQuestion == s.currentQuestion + 1 && r.showResult == s.showResult
    ensures s.currentQuestion >= n - 1 ==> r.currentQuestion == s.currentQuestion && r.showResult
  {
    var s' := s.(answers := s.answers + [score]);
    if s.currentQuestion < n - 1 then s'.(currentQuestion := s.currentQuestion + 1)
    else s'.(showResult := true)
  }

  /** Feeding a sequence of answers one by one. */
  function Run(s: QuizState, scores: seq<int>, n: nat): QuizState
    decreases |scores|
  {
    if |scores| == 0 then s else Run(Answer(s, scores[0], n), scores[1..], n)
  }

  /**
   * The states reachable from the initial state by the three operations,
   * each used on the screen that offers it (`Run` and the lemmas below show
   * both directions: `CompleteRun` and `InvReachable`).
   */
  predicate Inv(s: QuizState, n: nat)
  {
    && n >= 1
    && AllScores(s.answers)
    && (!s.started ==> s == Initial)
    && (s.started && !s.showResult ==> s.currentQuestion < n && |s.answers| == s.currentQuestion)
    && (s.showResult ==> s.started && s.currentQuestion == n - 1 && |s.answers| == n)
  }

  lemma InitialValid(n: nat)
    requires n >= 1
    ensures Inv(Initial, n) && ScreenOf(Initial) == Intro
  {
  }

  /** Starting keeps the invariant and, from the intro, shows the first question. */
  lemma StartValid(s: QuizState, n: nat)
    requires Inv(s, n)
    ensures Inv(Start(s), n)
    ensures ScreenOf(s) == Intro ==> ScreenOf(Start(s)) == Question(0) && Start(s).answers == []
  {
  }

  /**
   * On the question screen, an answer keeps the invariant; it moves to the
   * next question, or to the result exactly when it is the n-th answer.
   */
  lemma AnswerValid(s: QuizState, score: int, n: nat)
    requires Inv(s, n) && ScreenOf(s).Question? && IsScore(score)
    ensures Inv(Answer(s, score, n), n)
    ensures Answer(s, score, n).answers == s.answers + [score]
    ensures ScreenOf(Answer(s, score, n)) == Result <==> |s.answers| + 1 == n
    ensures |s.answers| + 1 < n ==> ScreenOf(Answer(s, score, n)) == Question(ScreenOf(s).index + 1)
  {
  }

  /** Under the invariant, the question shown is a valid index into the `n` questions. */
  lemma QuestionIndexInBounds(s: QuizState, n: nat)
    requires Inv(s, n) && ScreenOf(s).Question?
    ensures ScreenOf(s).index < n && ScreenOf(s).index == |s.answers|
  {
  }

  /** The result screen comes with exactly `n` answers, totalling between `n` and `4n`. */
  lemma ResultTotalInRange(s: QuizState, n: nat)
    requires Inv(s, n) && ScreenOf(s) == Result
    ensures |s.answers| == n
    ensures n <= Sum(s.answers) <= MaxScore(n)
  {
  }

  /**
   * From a question screen, answering until at most `n` answers are in:
   * the answers are appended in order, and the result screen appears
   * exactly when the n-th answer arrives.
   */
  lemma {:induction false} RunFromQuestion(s: QuizState, scores: seq<int>, n: nat)
    requires Inv(s, n) && ScreenOf(s).Question?
    requires AllScores(scores)
    requires |s.answers| + |scores| <= n
    ensures Inv(Run(s, scores, n), n)
    ensures Run(s, scores, n).answers == s.answers + scores
    ensures ScreenOf(Run(s, scores, n)) == Result <==> |s.answers| + |scores| == n
    ensures |s.answers| + |scores| < n ==> ScreenOf(Run(s, scores, n)) == Question(|s.answers| + |scores|)
    decreases |scores|
  {
    if |scores| == 0 {
      assert s.answers + scores == s.answers;
    } else {
      var s' := Answer(s, scores[0], n);
      AnswerValid(s, scores[0], n);
      if ScreenOf(s').Question? {
        RunFromQuestion(s', scores[1..], n);
        assert s'.answers + scores[1..] == s.answers + scores;
      } else {
        assert scores[1..] == [];
        assert s.answers + scores == s.answers + [scores[0]];
      }
    }
  }

  /**
   * Started from the initial state, `n` answers lead to the result screen
   * holding exactly those answers, and no shorter prefix of them does.
   */
  lemma CompleteRun(scores: seq<int>, n: nat)
    requires n >= 1 && |scores| == n && AllScores(scores)
    ensures ScreenOf(Run(Start(Initial), scores, n)) == Result
    ensures Run(Start(Initial), scores, n).answers == scores
    ensures forall k :: 0 <= k < n ==> ScreenOf(Run(Start(Initial), scores[..k], n)) == Question(k)
  {
    StartValid(Initial, n);
    RunFromQuestion(Start(Initial), scores, n);
    forall k | 0 <= k < n
      ensures ScreenOf(Run(Start(Initial), scores[..k], n)) == Question(k)
    {
      RunFromQuestion(Start(Initial), scores[..k], n);
    }
  }

  /**
   * Every state satisfying the invariant is reachable: it is the initial
   * state, or the state reached by starting and then giving its answers.
   */
  lemma InvReachable(s: QuizState, n: nat)
    requires Inv(s, n)
    ensures s == Initial || s == Run(Start(Initial), s.answers, n)
  {
    if s.started {
      StartValid(Initial, n);
      RunFromQuestion(Start(Initial), s.answers, n);
    }
  }

  /** The component `App`, with its four state fields. */
  class QuizApp {
    /** The number of questions. */
    const n: nat
    var started: bool
    var currentQuestion: nat
    var answers: seq<int>
    var showResult: bool

    function Snapshot(): QuizState
      reads this
    {
      QuizState(started, currentQuestion, answers, showResult)
    }

    predicate Valid()
      reads this
    {
      Inv(Snapshot(), n)
    }

    function View(): Screen
      reads this
    {
      ScreenOf(Snapshot())
    }

    constructor (questionCount: nat)
      requires questionCount >= 1
      ensures n == questionCount
      ensures Snapshot() == Initial
      ensures Valid() && View() == Intro
    {
      n := questionCount;
      started := false;
      currentQuestion := 0;
      answers := [];
      showResult := false;
    }

    /** The start button on the intro screen. */
    method StartTest()
      modifies this
      ensures Snapshot() == Start(old(Snapshot()))
      ensures old(Valid()) ==> Valid()
      ensures old(View()) == Intro && old(Valid()) ==> View() == Question(0) && answers == []
    {
      ghost var before := Snapshot();
      started := true;
      if Inv(before, n) {
        StartValid(before, n);
      }
    }

    /** `handleAnswer(score)`: record the answer, then advance or show the result. */
    method HandleAnswer(score: int)
      modifies this
      ensures Snapshot() == Answer(old(Snapshot()), score, n)
      ensures old(Valid()) && old(View()).Question? && IsScore(score) ==>
                Valid() && (View() == Result <==> |answers| == n)
    {
      ghost var before := Snapshot();
      answers := answers + [score];
      if currentQuestion < n - 1 {
        currentQuestion := currentQuestion + 1;
      } else {
        showResult := true;
      }
      if Inv(before, n) && ScreenOf(before).Question? && IsScore(score) {
        AnswerValid(before, score, n);
      }
    }

    /** `resetTest()`: back to the intro screen from any state. */
    method ResetTest()
      requires n >= 1
      modifies this
      ensures Snapshot() == Initial
      ensures Valid() && View() == Intro
    {
      started := false;
      currentQuestion := 0;
      answers := [];
      showResult := false;
    }

    /** The index of the question shown, as read by the question screen. */
    function ShownQuestion(): (i: nat)
      reads this
      requires Valid() && View().Question?
      ensures i < n && i == |answers|
    {
      currentQuestion
    }

    /** What the result screen shows. */
    function ShownResult(): (r: Outcome)
      reads this
      requires Valid() && View() == Result
      ensures |answers| == n
      ensures r.title == SevereTitle <==> Sum(answers) >= 3 * n
      ensures r.title == ModerateTitle <==> 2 * n <= Sum(answers) < 3 * n
      ensures r.title == HealthyTitle <==> Sum(answers) < 2 * n
    {
      CalculateResult(answers, n)
    }
  }
}
