/**
 * The module-level variables of the script that the page's hooks and the
 * quiz's callbacks read and write, and what each of those callbacks does to
 * them. The widgets the callbacks show and hide are objects of the page;
 * everything else they touch is a value here.
 */
module Game {
  import opened Wrappers
  import opened Quiz

  /** A callback waiting on a timer: `checkGameBall`, or the continuation it schedules with the score it computed. */
  datatype Task = CheckGameBall | FinishRound(score: int)

  /**
   * `scrollY`, the visibility of the reading lines, the game's variables
   * (`gamePlaying`, `ballGame`, `physicsMode`, `answerCorrect`,
   * `currQuestionIndex`), what the prompt `gameItems[1]` says and whether it
   * shows, whether the game ball `gameItems[3]` shows and its text,
   * `ballsTargetPos`, and the callbacks waiting on `setTimeout`.
   */
  datatype Session = Session(
    readingShown: bool,
    scrollY: real,
    gamePlaying: bool,
    ballGame: bool,
    physicsMode: int,
    answerCorrect: bool,
    questionIndex: nat,
    prompt: Prompt,
    promptVisible: bool,
    ballVisible: bool,
    ballText: BallText,
    targetX: real,
    targetY: real,
    timers: seq<Task>)

  /** The variables as the script declares them and `init` leaves them: no game, nothing shown, an empty prompt. */
  const Initial: Session :=
    Session(false, 0.0, false, false, 0, true, 0, Empty, false, false, Count(0), 0.0, 0.0, [])

  /** What holds between events: nothing of the game shows while it is not played, a stopped game is back at its start, and the game ball's sign matches the last answer. */
  predicate Consistent(s: Session) {
    && s.promptVisible == s.gamePlaying
    && s.ballVisible == s.gamePlaying
    && (!s.gamePlaying ==> !s.ballGame && s.physicsMode == 0 && s.ballText == Count(0) && s.questionIndex == 0)
    && SignAgrees(s.ballText)
  }

  lemma InitialConsistent()
    ensures Consistent(Initial)
  {
  }

  /** Once every question is answered, `askNextQuestion` shows the final score and hides the answer buttons. */
  predicate AllAnswered(s: Session) {
    s.gamePlaying && s.questionIndex == QuestionCount
  }

  /** `askNextQuestion`: during a game the prompt shows the current question, or the final score once all are answered; nothing else changes. */
  function Asked(s: Session): (r: Session)
    ensures !s.gamePlaying ==> r == s
    ensures s.gamePlaying ==> PromptText(r.prompt) == if AllAnswered(s) then Some(FinalScore) else QuestionAt(s.questionIndex)
    ensures r.(prompt := s.prompt) == s
    ensures Consistent(s) ==> Consistent(r)
  {
    if !s.gamePlaying then s
    else if s.questionIndex == QuestionCount then s.(prompt := Final)
    else s.(prompt := Question(s.questionIndex))
  }

  /** The reading tab's `onSetToggled`: the reading lines follow the tab and the text scrolls back to the top. */
  function ReadingSet(s: Session, on: bool): (r: Session)
    ensures r.readingShown == on && r.scrollY == 0.0
    ensures r.(readingShown := s.readingShown, scrollY := s.scrollY) == s
    ensures Consistent(s) ==> Consistent(r)
  {
    s.(readingShown := on, scrollY := 0.0)
  }

  /**
   * The game tab's `onSetToggled`: the game starts over at the first
   * question when the tab is on, and stops, back at its start, when it is
   * off. (It also shows the answer buttons when on and hides the drop
   * button; those are objects of the page.)
   */
  function GameSet(s: Session, on: bool): (r: Session)
    ensures r.gamePlaying == on && !r.ballGame && r.physicsMode == 0 && r.questionIndex == 0 && r.ballText == Count(0)
    ensures r.promptVisible == on && r.ballVisible == on
    ensures r.prompt == if on then Question(0) else s.prompt
    ensures on ==> PromptText(r.prompt) == Some(Questions[0])
    ensures r.readingShown == s.readingShown && r.scrollY == s.scrollY && r.answerCorrect == s.answerCorrect
    ensures r.targetX == s.targetX && r.targetY == s.targetY && r.timers == s.timers
    ensures Consistent(r)
  {
    Asked(s.(gamePlaying := on, ballGame := false, physicsMode := 0, promptVisible := on,
             ballVisible := on, ballText := Count(0), questionIndex := 0))
  }

  /** `checkAnswer(letter)` on a canvas of the given size: during a game, record whether the letter answers the current question, say so, and gather the balls above the middle. */
  function Checked(s: Session, letter: char, width: real, height: real): (r: Session)
    ensures !s.gamePlaying ==> r == s
    ensures s.gamePlaying ==> r.answerCorrect == IsCorrect(letter, s.questionIndex)
    ensures s.gamePlaying ==> PromptText(r.prompt) == Some(if r.answerCorrect then "Correct!" else "Incorrect!")
    ensures s.gamePlaying ==> r.ballGame && r.targetX == width / 2.0 && r.targetY == height / 2.0 - 200.0
    ensures r.(answerCorrect := s.answerCorrect, prompt := s.prompt, ballGame := s.ballGame, targetX := s.targetX, targetY := s.targetY) == s
    ensures Consistent(s) ==> Consistent(r)
  {
    if !s.gamePlaying then s
    else
      var correct := IsCorrect(letter, s.questionIndex);
      s.(answerCorrect := correct, prompt := Verdict(correct), ballGame := true,
         targetX := width / 2.0, targetY := height / 2.0 - 200.0)
  }

  /** The drop button's `onClick`: the balls are released and `checkGameBall` is scheduled. */
  function Dropped(s: Session): (r: Session)
    ensures r.targetX == 0.0 && r.targetY == 0.0 && r.timers == s.timers + [CheckGameBall]
    ensures r.(targetX := s.targetX, targetY := s.targetY, timers := s.timers) == s
    ensures Consistent(s) ==> Consistent(r)
  {
    s.(targetX := 0.0, targetY := 0.0, timers := s.timers + [CheckGameBall])
  }

  /** The signed label sum over the balls inside the game ball, for the given answer. */
  function RoundTally(hits: set<nat>, correct: bool): int {
    Tally(BallLabels(), hits, correct, |BallLabels()|)
  }

  /**
   * `checkGameBall`, with `hits` the balls the game ball overlaps: during a
   * game, physics stops, the game ball shows the round's signed change, and
   * the continuation is scheduled with the score, the number the ball
   * showed plus that change.
   */
  function BallChecked(s: Session, hits: set<nat>): (r: Session)
    ensures !s.gamePlaying ==> r == s
    ensures s.gamePlaying ==> r.physicsMode == 1 && r.ballText == Change(RoundTally(hits, s.answerCorrect), s.answerCorrect)
    ensures s.gamePlaying ==> r.timers == s.timers + [FinishRound(Value(s.ballText) + RoundTally(hits, s.answerCorrect))]
    ensures r.(physicsMode := s.physicsMode, ballText := s.ballText, timers := s.timers) == s
    ensures Consistent(s) ==> Consistent(r)
  {
    if !s.gamePlaying then s
    else
      var change := RoundTally(hits, s.answerCorrect);
      TallyBounds(BallLabels(), hits, s.answerCorrect, |BallLabels()|);
      s.(physicsMode := 1, ballText := Change(change, s.answerCorrect),
         timers := s.timers + [FinishRound(Value(s.ballText) + change)])
  }

  /** The index the continuation moves on to: one further after a right answer, the same after a wrong one. */
  function Advanced(s: Session): nat {
    s.questionIndex + if s.answerCorrect then 1 else 0
  }

  /**
   * The continuation `checkGameBall` schedules: during a game, physics
   * resumes, the game ball shows the score, the index moves on by one
   * exactly when the answer was right, and the next question is asked.
   * (It also shows the answer buttons again before asking; `Page.NextRound`
   * does that part.)
   */
  function Finished(s: Session, score: int): (r: Session)
    ensures !s.gamePlaying ==> r == s
    ensures s.gamePlaying ==> r.physicsMode == 0 && r.ballText == Count(score) && r.questionIndex == Advanced(s)
    ensures s.gamePlaying ==> PromptText(r.prompt) == if Advanced(s) == QuestionCount then Some(FinalScore) else QuestionAt(Advanced(s))
    ensures r.(physicsMode := s.physicsMode, ballText := s.ballText, questionIndex := s.questionIndex, prompt := s.prompt) == s
    ensures Consistent(s) ==> Consistent(r)
  {
    if !s.gamePlaying then s
    else Asked(s.(physicsMode := 0, ballText := Count(score), questionIndex := Advanced(s)))
  }

  /** The timer list without its `k`-th entry. */
  function Without(ts: seq<Task>, k: nat): (r: seq<Task>)
    requires k < |ts|
    ensures |r| == |ts| - 1
    ensures forall i :: 0 <= i < k ==> r[i] == ts[i]
    ensures forall i :: k <= i < |r| ==> r[i] == ts[i + 1]
  {
    ts[..k] + ts[k + 1..]
  }

  /** The `k`-th waiting callback runs, and leaves the list. */
  function Fired(s: Session, k: nat, hits: set<nat>): (r: Session)
    requires k < |s.timers|
    ensures Consistent(s) ==> Consistent(r)
  {
    var rest := s.(timers := Without(s.timers, k));
    match s.timers[k]
    case CheckGameBall => BallChecked(rest, hits)
    case FinishRound(score) => Finished(rest, score)
  }

  /**
   * One round of the quiz: an answer checked, the balls dropped, and the two
   * timers run. The index moves on exactly when the letter was right, the
   * score moves by the signed labels of the balls collected, and the prompt
   * then asks the next question (or the same one again after a wrong answer).
   */
  lemma {:induction false} RoundOutcome(s: Session, letter: char, width: real, height: real, hits: set<nat>)
    requires s.gamePlaying && s.timers == []
    ensures
      var checked := Dropped(Checked(s, letter, width, height));
      var scored := Fired(checked, 0, hits);
      var done := Fired(scored, 0, {});
      && |checked.timers| == 1 && |scored.timers| == 1
      && done.timers == []
      && done.questionIndex == s.questionIndex + (if IsCorrect(letter, s.questionIndex) then 1 else 0)
      && done.ballText == Count(Value(s.ballText) + RoundTally(hits, IsCorrect(letter, s.questionIndex)))
      && PromptText(done.prompt) == if done.questionIndex == QuestionCount then Some(FinalScore) else QuestionAt(done.questionIndex)
  {
    var checked := Dropped(Checked(s, letter, width, height));
    assert checked.timers == [CheckGameBall];
    var rest := checked.(timers := Without(checked.timers, 0));
    assert rest.timers == [];
    var scored := Fired(checked, 0, hits);
    assert scored == BallChecked(rest, hits);
    var score := Value(s.ballText) + RoundTally(hits, IsCorrect(letter, s.questionIndex));
    assert scored.timers == [FinishRound(score)];
    var rest2 := scored.(timers := Without(scored.timers, 0));
    var done := Fired(scored, 0, {});
    assert done == Finished(rest2, score);
  }

  /** A wrong answer keeps the index, so the same question comes back. */
  lemma WrongAnswerRepeats(s: Session, letter: char, width: real, height: real, hits: set<nat>)
    requires s.gamePlaying && s.timers == [] && s.questionIndex < QuestionCount
    requires !IsCorrect(letter, s.questionIndex)
    ensures
      var done := Fired(Fired(Dropped(Checked(s, letter, width, height)), 0, hits), 0, {});
      done.questionIndex == s.questionIndex && PromptText(done.prompt) == Some(Questions[s.questionIndex])
  {
    RoundOutcome(s, letter, width, height, hits);
  }

  /**
   * A continuation left from an earlier game, run once every question of
   * the current one is answered after a right answer, moves the index past
   * the end: the prompt then has no text, and the buttons are not hidden
   * any more. The source's deadlines run such a leftover within 1750 ms of
   * the restart, long before the last question; `Fired` places no deadline.
   */
  lemma {:induction false} LeftoverPassesEnd(s: Session, k: nat, score: int)
    requires Consistent(s) && AllAnswered(s) && s.answerCorrect
    requires k < |s.timers| && s.timers[k] == FinishRound(score)
    ensures var r := Fired(s, k, {});
      && Consistent(r) && r.gamePlaying
      && r.questionIndex == QuestionCount + 1
      && PromptText(r.prompt).None?
      && !AllAnswered(r)
  {
    var rest := s.(timers := Without(s.timers, k));
    assert Fired(s, k, {}) == Finished(rest, score);
  }

  /** Stopping the game discards it: whatever was waiting on a timer does nothing any more. */
  lemma {:induction false} StoppedGameIgnoresTimers(s: Session, k: nat, hits: set<nat>)
    requires !s.gamePlaying && k < |s.timers|
    ensures Fired(s, k, hits) == s.(timers := Without(s.timers, k))
  {
  }
}
