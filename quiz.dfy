/**
 * The quiz data and the arithmetic of a scoring round: the questions and
 * their answers, the labels of the 45 physics balls, the signed tally
 * `checkGameBall` adds up over the balls inside the game ball, and the text
 * the game ball shows (a number, or a signed change such as `+12` or `-0`).
 */
module Quiz {
  import opened Wrappers

  const Questions: seq<string> := [
    "The answer is B",
    "The answer is C",
    "The answer is neither of the last ones, nor D",
    "You can figure this one out"
  ]

  /** `questions.length`. */
  const QuestionCount: nat := 4

  /** `correctAnswers`, one letter per question. */
  const CorrectAnswers: string := "bcad"

  /** The letter each answer button A, B, C, D passes to `checkAnswer`. */
  const AnswerLetters: string := "abcd"

  /** The prompt shown once every question has been answered correctly. */
  const FinalScore: string := "                        Final Score\n(Restart By Reselecting \"Game\" Button)"

  /** `questions[i]`; past the end JavaScript yields `undefined`, here `None`. */
  function QuestionAt(i: nat): (r: Option<string>)
    ensures r.Some? <==> i < |Questions|
    ensures r.Some? ==> r.value == Questions[i]
  {
    if i < |Questions| then Some(Questions[i]) else None
  }

  /** What the prompt (`gameItems[1]`) says: it starts empty, then shows a question, the final score, or the verdict on an answer. */
  datatype Prompt = Empty | Question(index: nat) | Final | Verdict(correct: bool)

  /** The prompt's text; a question past the end is `undefined`, here `None`. */
  function PromptText(p: Prompt): (r: Option<string>)
    ensures r.None? <==> p.Question? && p.index >= |Questions|
  {
    match p
    case Empty => Some("")
    case Question(i) => QuestionAt(i)
    case Final => Some(FinalScore)
    case Verdict(correct) => Some(if correct then "Correct!" else "Incorrect!")
  }

  /** `answer == correctAnswers[i]`: never true past the end, where the right-hand side is `undefined`. */
  predicate IsCorrect(letter: char, i: nat)
    ensures IsCorrect(letter, i) ==> i < QuestionCount && letter in AnswerLetters
  {
    i < |CorrectAnswers| && CorrectAnswers[i] == letter
  }

  /** `createBalls`: row `i` (from `i` = `row` up to 8) holds `9 - i` balls labelled `i + 1`. */
  function LabelRows(row: nat): (r: seq<nat>)
    ensures forall k :: 0 <= k < |r| ==> row < r[k] <= 9
    decreases 9 - row
  {
    if row >= 9 then [] else seq(9 - row, _ => row + 1) + LabelRows(row + 1)
  }

  /** The labels of `physicsBodies`, in creation order. */
  function BallLabels(): seq<nat> {
    LabelRows(0)
  }

  function Sum(s: seq<nat>): nat {
    if s == [] then 0 else Sum(s[..|s| - 1]) + s[|s| - 1]
  }

  lemma {:induction false} SumAppend(a: seq<nat>, b: seq<nat>)
    ensures Sum(a + b) == Sum(a) + Sum(b)
    decreases |b|
  {
    if b == [] {
      assert a + b == a;
    } else {
      assert (a + b)[..|a + b| - 1] == a + b[..|b| - 1];
      SumAppend(a, b[..|b| - 1]);
    }
  }

  lemma {:induction false} SumConstant(n: nat, v: nat)
    ensures Sum(seq(n, _ => v)) == n * v
  {
    if n > 0 {
      assert seq(n, _ => v)[..n - 1] == seq(n - 1, _ => v);
      SumConstant(n - 1, v);
    }
  }

  lemma {:induction false} LabelRowsShape(row: nat)
    requires row <= 9
    ensures |LabelRows(row)| == RowsCount(row)
    ensures Sum(LabelRows(row)) == RowsTotal(row)
    decreases 9 - row
  {
    if row < 9 {
      LabelRowsShape(row + 1);
      SumConstant(9 - row, row + 1);
      SumAppend(seq(9 - row, _ => row + 1), LabelRows(row + 1));
    }
  }

  /** Sum over rows i = row..8 of 9 - i. */
  function RowsCount(row: nat): nat
    decreases 9 - row
  {
    if row >= 9 then 0 else (9 - row) + RowsCount(row + 1)
  }

  /** Sum over rows i = row..8 of (9 - i)(i + 1). */
  function RowsTotal(row: nat): nat
    decreases 9 - row
  {
    if row >= 9 then 0 else (9 - row) * (row + 1) + RowsTotal(row + 1)
  }

  /** There are 45 balls, labelled 1 to 9, whose labels add up to 165. */
  lemma BallCount()
    ensures |BallLabels()| == 45
    ensures forall k :: 0 <= k < 45 ==> 1 <= BallLabels()[k] <= 9
    ensures Sum(BallLabels()) == 165
  {
    LabelRowsShape(0);
    RowTotals();
  }

  lemma RowTotals()
    ensures RowsCount(0) == 45 && RowsTotal(0) == 165
  {
    assert RowsCount(5) == 10 && RowsTotal(5) == 70;
  }

  function Sign(correct: bool): int {
    if correct then 1 else -1
  }

  /** What the balls among the first `k` that lie inside the game ball add to the score: plus their labels after a right answer, minus after a wrong one. */
  function Tally(labels: seq<nat>, hits: set<nat>, correct: bool, k: nat): int
    requires k <= |labels|
  {
    if k == 0 then 0
    else Tally(labels, hits, correct, k - 1) + (if k - 1 in hits then labels[k - 1] * Sign(correct) else 0)
  }

  /** The indices of the balls among the first `k` that lie inside the game ball, in order (`collectedBalls`). */
  function Collected(hits: set<nat>, k: nat): seq<nat> {
    if k == 0 then [] else Collected(hits, k - 1) + (if k - 1 in hits then [k - 1] else [])
  }

  /** A right answer never lowers the score, a wrong one never raises it, and neither moves it by more than the labels add up to. */
  lemma {:induction false} TallyBounds(labels: seq<nat>, hits: set<nat>, correct: bool, k: nat)
    requires k <= |labels|
    ensures correct ==> 0 <= Tally(labels, hits, correct, k) <= Sum(labels[..k])
    ensures !correct ==> -(Sum(labels[..k]) as int) <= Tally(labels, hits, correct, k) <= 0
  {
    if k > 0 {
      TallyBounds(labels, hits, correct, k - 1);
      assert labels[..k][..k - 1] == labels[..k - 1];
    }
  }

  /** Balls outside the game ball do not count. */
  lemma {:induction false} TallyOfMisses(labels: seq<nat>, hits: set<nat>, correct: bool, k: nat)
    requires k <= |labels|
    requires forall j :: 0 <= j < k ==> j !in hits
    ensures Tally(labels, hits, correct, k) == 0 && Collected(hits, k) == []
  {
    if k > 0 {
      TallyOfMisses(labels, hits, correct, k - 1);
    }
  }

  /** Exactly the balls inside the game ball are collected, each once, in increasing order. */
  lemma {:induction false} CollectedExactly(hits: set<nat>, k: nat)
    ensures forall j :: j in Collected(hits, k) <==> j < k && j in hits
    ensures forall a, b :: 0 <= a < b < |Collected(hits, k)| ==> Collected(hits, k)[a] < Collected(hits, k)[b]
  {
    if k > 0 {
      CollectedExactly(hits, k - 1);
      var c := Collected(hits, k - 1);
      if k - 1 in hits {
        var d := c + [k - 1];
        assert Collected(hits, k) == d;
        forall a, b | 0 <= a < b < |d|
          ensures d[a] < d[b]
        {
          if b == |c| {
            assert c[a] in c;
          }
        }
      }
    }
  }

  /**
   * The score loop of `checkGameBall`: the game ball's running total starts
   * at 0, the score at the number the ball showed, and every ball inside the
   * game ball adds its signed label to both.
   */
  method TallyRound(labels: seq<nat>, hits: set<nat>, correct: bool, start: int)
    returns (shown: int, score: int, collected: seq<nat>)
    ensures shown == Tally(labels, hits, correct, |labels|)
    ensures score == start + shown
    ensures collected == Collected(hits, |labels|)
  {
    shown, score, collected := 0, start, [];
    for k := 0 to |labels|
      invariant shown == Tally(labels, hits, correct, k)
      invariant score == start + shown
      invariant collected == Collected(hits, k)
    {
      if k in hits {
        collected := collected + [k];
        shown := shown + labels[k] * Sign(correct);
        score := score + labels[k] * Sign(correct);
      }
    }
  }

  /** The game ball's text: a plain number, or the signed change of the last round. */
  datatype BallText = Count(n: int) | Change(n: int, correct: bool)

  /** A change is never negative after a right answer nor positive after a wrong one (see `TallyBounds`). */
  predicate SignAgrees(t: BallText) {
    t.Change? ==> (t.correct ==> t.n >= 0) && (!t.correct ==> t.n <= 0)
  }

  /** `Number(gameBall.text)` for the texts the game ball can hold. */
  function Value(t: BallText): int {
    t.n
  }

  function Digit(d: nat): (ch: char)
    requires d < 10
    ensures '0' <= ch <= '9'
  {
    ('0' as int + d) as char
  }

  /** The decimal digits of `n`, without leading zeros. */
  function Digits(n: nat): (s: string)
    ensures 1 <= |s|
    ensures forall i :: 0 <= i < |s| ==> '0' <= s[i] <= '9'
  {
    if n < 10 then [Digit(n)] else Digits(n / 10) + [Digit(n % 10)]
  }

  /** JavaScript's `String(n)` on an integer. */
  function Decimal(n: int): string {
    if n < 0 then "-" + Digits(-n) else Digits(n)
  }

  /** The text `checkGameBall` gives the game ball: `+` and the total after a right answer, the bare total after a wrong one, and `+0` or `-0` for a zero total. */
  function Render(t: BallText): string {
    match t
    case Count(n) => Decimal(n)
    case Change(n, correct) =>
      if n != 0 then (if correct then "+" else "") + Decimal(n)
      else if correct then "+0" else "-0"
  }

  /** The value of a non-empty string of decimal digits; `None` for anything else. */
  function DigitsValue(s: string): Option<nat> {
    if s == [] || !('0' <= s[|s| - 1] <= '9') then None
    else if |s| == 1 then Some(s[0] as int - '0' as int)
    else match DigitsValue(s[..|s| - 1])
      case None => None
      case Some(v) => Some(10 * v + (s[|s| - 1] as int - '0' as int))
  }

  /** JavaScript's `Number(s)` on an optionally signed string of decimal digits; `None` stands for `NaN`. */
  function NumberOf(s: string): Option<int> {
    if |s| >= 1 && s[0] == '+' then DigitsValue(s[1..])
    else if |s| >= 1 && s[0] == '-' then
      match DigitsValue(s[1..])
      case None => None
      case Some(v) => Some(-(v as int))
    else match DigitsValue(s)
      case None => None
      case Some(v) => Some(v as int)
  }

  lemma {:induction false} DigitsRoundTrip(n: nat)
    ensures DigitsValue(Digits(n)) == Some(n)
  {
    if n >= 10 {
      DigitsRoundTrip(n / 10);
      var s := Digits(n);
      assert s[..|s| - 1] == Digits(n / 10);
    }
  }

  lemma UnsignedRoundTrip(n: nat)
    ensures NumberOf(Digits(n)) == Some(n)
  {
    DigitsRoundTrip(n);
    assert '0' <= Digits(n)[0] <= '9';
  }

  lemma SignedRoundTrip(sign: char, n: nat)
    requires sign == '+' || sign == '-'
    ensures NumberOf([sign] + Digits(n)) == Some(if sign == '+' then n as int else -(n as int))
  {
    DigitsRoundTrip(n);
    assert ([sign] + Digits(n))[1..] == Digits(n);
  }

  lemma DecimalRoundTrip(n: int)
    ensures NumberOf(Decimal(n)) == Some(n)
  {
    if n < 0 {
      SignedRoundTrip('-', -n);
      assert Decimal(n) == ['-'] + Digits(-n);
    } else {
      UnsignedRoundTrip(n);
    }
  }

  /** Reading the ball's text back as a number gives the tally it was written from, so the next round starts from the right score. */
  lemma NumberOfRender(t: BallText)
    requires SignAgrees(t)
    ensures NumberOf(Render(t)) == Some(Value(t))
  {
    match t {
      case Count(n) =>
        DecimalRoundTrip(n);
      case Change(n, correct) =>
        if n == 0 {
          SignedRoundTrip(if correct then '+' else '-', 0);
          assert Digits(0) == "0";
        } else if !correct {
          DecimalRoundTrip(n);
          assert Render(t) == Decimal(n);
        } else {
          SignedRoundTrip('+', n);
          assert Render(t) == ['+'] + Digits(n);
        }
    }
  }
}
