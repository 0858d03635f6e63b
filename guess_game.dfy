/** The number-guess component: one submission draws a target in the rule's
    range, scores the guess against it and posts a play report. */
module GuessGame {
  import opened Common

  /** The `rules` payload of a number-guess game. */
  datatype Rules = Rules(minNumber: int, maxNumber: int, pointsForExact: int, pointsForClose: int)

  /** The rules the catalogue is seeded with. */
  const SeededRules := Rules(1, 100, 10, 5)

  /** How far off a guess may be and still count as close. */
  const CloseDistance := 10

  function Abs(x: int): (a: nat) {
    if x < 0 then -x else x
  }

  /** `Math.floor(r * (max - min + 1)) + min`, for a draw `r` of `Math.random()`.
      With `min <= max` it lands in `[min, max]`. Nothing checks the rules, and
      with `max < min` the draw still happens and lands in `(max, min]`. */
  function DrawTarget(rules: Rules, r: real): (target: int)
    requires 0.0 <= r < 1.0
    ensures rules.minNumber <= rules.maxNumber ==> rules.minNumber <= target <= rules.maxNumber
    ensures rules.maxNumber < rules.minNumber ==> rules.maxNumber < target <= rules.minNumber
  {
    FloorTimes(r, rules.maxNumber - rules.minNumber + 1) + rules.minNumber
  }

  /** Every number of the range is drawn by some `r`. */
  lemma DrawReachesEveryTarget(rules: Rules, target: int)
    requires rules.minNumber <= target <= rules.maxNumber
    ensures var n := rules.maxNumber - rules.minNumber + 1;
      var r := (target - rules.minNumber) as real / n as real;
      0.0 <= r < 1.0 && DrawTarget(rules, r) == target
  {
    var n := rules.maxNumber - rules.minNumber + 1;
    var k := target - rules.minNumber;
    var r := k as real / n as real;
    assert r * (n as real) == k as real;
    ProductNonNegative(r, n as real);
    assert FloorTimes(r, n) == k;
  }

  /** The points a guess earns against a target: exact, else close, else none.
      The result is always one of the two rule amounts or 0, and a guess
      farther than the close distance earns nothing. */
  function GuessPoints(rules: Rules, guess: int, target: int): (p: int)
    ensures p == rules.pointsForExact || p == rules.pointsForClose || p == 0
    ensures guess == target ==> p == rules.pointsForExact
    ensures Abs(guess - target) > CloseDistance ==> p == 0
  {
    if guess == target then rules.pointsForExact
    else if Abs(guess - target) <= CloseDistance then rules.pointsForClose
    else 0
  }

  /** The three scoring bands, each stated for every input: an exact guess
      earns `points_for_exact` (whatever the close band says), a guess at
      distance 1 to 10 inclusive earns `points_for_close`, any other earns 0. */
  lemma GuessPointsBands(rules: Rules, guess: int, target: int)
    ensures guess == target ==> GuessPoints(rules, guess, target) == rules.pointsForExact
    ensures 0 < Abs(guess - target) <= 10 ==> GuessPoints(rules, guess, target) == rules.pointsForClose
    ensures Abs(guess - target) > 10 ==> GuessPoints(rules, guess, target) == 0
  {
  }

  /** With non-negative rule points the score is never negative, and it is
      positive exactly when the guess is within 10 and that band pays. */
  lemma GuessPointsNonNegative(rules: Rules, guess: int, target: int)
    requires rules.pointsForExact >= 0 && rules.pointsForClose >= 0
    ensures GuessPoints(rules, guess, target) >= 0
    ensures GuessPoints(rules, guess, target) > 0 <==>
      (guess == target && rules.pointsForExact > 0) || (guess != target && Abs(guess - target) <= 10 && rules.pointsForClose > 0)
  {
  }

  /** Guess 50 against the seeded rules: target 50 scores 10, target 45
      scores 5 and target 70 scores 0. */
  lemma SeededExamples()
    ensures GuessPoints(SeededRules, 50, 50) == 10
    ensures GuessPoints(SeededRules, 50, 45) == 5
    ensures GuessPoints(SeededRules, 50, 70) == 0
    ensures GuessPoints(SeededRules, 50, 60) == 5 && GuessPoints(SeededRules, 50, 61) == 0
  {
  }

  /** Decimal digits of a natural number. */
  function NatToString(n: nat): (s: string)
    ensures |s| > 0
    decreases n
  {
    var digit := "0123456789"[n % 10];
    if n < 10 then [digit] else NatToString(n / 10) + [digit]
  }

  /** A JavaScript template-literal rendering of an integer. */
  function IntToString(i: int): (s: string) {
    if i < 0 then "-" + NatToString(-i) else NatToString(i)
  }

  /** A message built from an opening, a middle part, a tail and a full stop
      starts with the opening and ends with the tail and the full stop. */
  lemma FramedMessage(opening: string, middle: string, tail: string)
    ensures var m := opening + middle + tail + ".";
      m[..|opening|] == opening && m[|m| - 1 - |tail|..|m| - 1] == tail
  {
    var m := opening + middle + tail + ".";
    assert m == opening + (middle + tail + ".");
    assert m[..|m| - 1] == (opening + middle) + tail;
  }

  /** The message shown once the report has been accepted: it opens with the
      guess and closes with the points and a full stop. */
  function ResultMessage(guess: int, target: int, points: int): (m: string)
    ensures |m| > 12 && m[..12] == "Your guess: " && m[|m| - 1] == '.'
    ensures |m| > |IntToString(points)| && m[|m| - 1 - |IntToString(points)|..|m| - 1] == IntToString(points)
  {
    var middle := IntToString(guess) + ". Random number: " + IntToString(target) + ". Points earned: ";
    FramedMessage("Your guess: ", middle, IntToString(points));
    "Your guess: " + middle + IntToString(points) + "."
  }

  const SaveError := "Failed to save game state."

  /** The state of one mounted number-guess component. */
  class Component {
    var message: string
    var pointsEarned: int
    var error: string
    const rules: Rules

    constructor (rules: Rules)
      ensures message == "" && pointsEarned == 0 && error == "" && this.rules == rules
    {
      message := "";
      pointsEarned := 0;
      error := "";
      this.rules := rules;
    }

    /** A submission of `guess`. `r` is the draw for the target and `delivered`
        says whether the report's request succeeded. The report carries only
        `points`. The points shown are updated before the request, so they
        change even when delivery fails; the result message changes only on
        success, and the error only on failure. */
    method HandleSubmit(guess: int, r: real, delivered: bool) returns (report: PlayReport, target: int)
      requires 0.0 <= r < 1.0
      modifies this
      ensures target == DrawTarget(rules, r)
      ensures rules.minNumber <= rules.maxNumber ==> rules.minNumber <= target <= rules.maxNumber
      ensures pointsEarned == GuessPoints(rules, guess, target)
      ensures report == PlayReport(pointsEarned, None)
      ensures message == (if delivered then ResultMessage(guess, target, pointsEarned) else old(message))
      ensures error == (if delivered then old(error) else SaveError)
    {
      target := DrawTarget(rules, r);
      var points := GuessPoints(rules, guess, target);
      pointsEarned := points;
      report := PlayReport(points, None);
      if delivered {
        message := ResultMessage(guess, target, points);
      } else {
        error := SaveError;
      }
    }
  }
}
