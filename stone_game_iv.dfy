/**
  The solver of the StoneGameIV component: the dynamic-programming table with
  its step trace, the perfect-square enumerator, and the input guard with the
  ten-record display window of the calculate handler.
 */
module StoneGameIV {

  import opened Wrappers
  import opened Game
  import opened IntParse

  /** The largest pile the calculate handler accepts. */
  const MaxStones: int := 100000

  /** How many trailing step records the calculate handler displays. */
  const ShownSteps: nat := 10

  /** The error the calculate handler reports for input it refuses. */
  const InvalidInputMessage: string := "Please enter a valid number between 1 and 100,000"

  /** One record of the step trace. A winning record carries the square taken;
      a losing record carries none. The explanatory text is not modelled. */
  datatype Step = Step(stones: nat, canWin: bool, optimalMove: Option<nat>)

  /** What `winnerSquareGame` returns: a bare `false` for an empty pile,
      otherwise the outcome together with the full trace. */
  datatype GameResult =
    | Bare(value: bool)
    | Full(canWin: bool, steps: seq<Step>)

  /** The record the solver emits for a pile of `s` stones. */
  function ExpectedStep(s: nat): Step
  {
    match FirstLosingRoot(s)
    case Some(k) => Step(s, true, Some(Sq(k)))
    case None => Step(s, false, None)
  }

  /** A record states its own pile and its outcome; a winning record carries the
      smallest square whose move leaves the opponent losing (first fit). */
  lemma WinningRecordIsFirstFit(s: nat)
    ensures ExpectedStep(s).stones == s && ExpectedStep(s).canWin == Win(s)
    ensures ExpectedStep(s).canWin <==> ExpectedStep(s).optimalMove.Some?
    ensures ExpectedStep(s).optimalMove.Some? ==>
      var m := ExpectedStep(s).optimalMove.value;
      (exists k: nat :: 1 <= k && m == Sq(k)) && m <= s && !Win(s - m) &&
      forall k: nat :: 1 <= k && Sq(k) < m ==> Win(s - Sq(k))
  {
    FirstLosingRootIsSmallest(s);
  }

  /** A record is losing exactly when every square move leaves the opponent
      winning, and then it carries no move. */
  lemma LosingRecordHasNoMove(s: nat)
    ensures !ExpectedStep(s).canWin <==>
      forall k: nat :: 1 <= k && Sq(k) <= s ==> Win(s - Sq(k))
    ensures !ExpectedStep(s).canWin ==> ExpectedStep(s).optimalMove == None
  {
    WinIffLosingMoveExists(s);
  }

  /** `winnerSquareGame`: fills `dp[0..n]` left to right, probing squares in
      increasing order and stopping at the first that leaves a losing state,
      and pushes one record per pile 1..n. */
  method WinnerSquareGame(n: nat) returns (r: GameResult)
    ensures n == 0 ==> r == Bare(false)
    ensures n >= 1 ==> r.Full? && r.canWin == Win(n) && |r.steps| == n
    ensures n >= 1 ==> forall j :: 0 <= j < n ==> r.steps[j] == ExpectedStep(j + 1)
    ensures n >= 1 ==> r.canWin == r.steps[n - 1].canWin
  {
    if n == 0 {
      return Bare(false);
    }
    var dp := new bool[n + 1](_ => false);
    var steps: seq<Step> := [];
    var i := 1;
    while i <= n
      invariant 1 <= i <= n + 1
      invariant forall j :: 0 <= j < i ==> dp[j] == Win(j)
      invariant |steps| == i - 1
      invariant forall j :: 0 <= j < i - 1 ==> steps[j] == ExpectedStep(j + 1)
    {
      dp[i] := false;
      var k := 1;
      while k * k <= i
        invariant 1 <= k
        invariant !dp[i]
        invariant forall j :: 0 <= j < i ==> dp[j] == Win(j)
        invariant FirstLosingRootFrom(i, k) == FirstLosingRoot(i)
        decreases i + 1 - k
      {
        var square := k * k;
        if !dp[i - square] {
          dp[i] := true;
          steps := steps + [Step(i, true, Some(square))];
          break;
        }
        k := k + 1;
      }
      if !dp[i] {
        steps := steps + [Step(i, false, None)];
      }
      i := i + 1;
    }
    r := Full(dp[n], steps);
  }

  /** `getPerfectSquares`: pushes i*i for i = 1, 2, ... while i*i <= max. */
  method GetPerfectSquares(max: int) returns (squares: seq<nat>)
    ensures ListsSquaresUpTo(squares, max)
  {
    squares := [];
    var i := 1;
    while i * i <= max
      invariant 1 <= i
      invariant |squares| == i - 1
      invariant forall j :: 0 <= j < |squares| ==> squares[j] == Sq(j + 1) <= max
      decreases max - i
    {
      squares := squares + [i * i];
      i := i + 1;
    }
  }

  /** `s` lists Sq(1), Sq(2), ... in order, each within `max`, up to the last
      square within `max`. */
  ghost predicate ListsSquaresUpTo(s: seq<nat>, max: int)
  {
    && (forall j :: 0 <= j < |s| ==> s[j] == Sq(j + 1) <= max)
    && max < Sq(|s| + 1)
  }

  /** The enumerated list holds exactly the perfect squares k*k with 1 <= k and
      k*k <= max, strictly increasing, and is empty when max < 1. */
  lemma SquaresUpToExact(s: seq<nat>, max: int)
    requires ListsSquaresUpTo(s, max)
    ensures forall k: nat :: 1 <= k ==> (Sq(k) <= max <==> Sq(k) in s)
    ensures forall a, b :: 0 <= a < b < |s| ==> s[a] < s[b]
    ensures max < 1 ==> s == []
  {
    forall k: nat | 1 <= k
      ensures Sq(k) <= max <==> Sq(k) in s
    {
      if k <= |s| {
        assert s[k - 1] == Sq(k);
      } else {
        SqStrictlyMonotone(|s| + 1, k);
      }
    }
    forall a, b | 0 <= a < b < |s|
      ensures s[a] < s[b]
    {
      SqStrictlyMonotone(a + 1, b + 1);
    }
    if |s| > 0 {
      assert s[0] == Sq(1) == 1;
    }
  }

  /** The enumerated list has one entry per root m with Sq(m) <= max. */
  lemma SquaresUpToLength(s: seq<nat>, max: int, m: nat)
    requires ListsSquaresUpTo(s, max)
    requires Sq(m) <= max < Sq(m + 1)
    ensures |s| == m
  {
    SqStrictlyMonotone(m, |s| + 1);
    if |s| > 0 {
      assert s[|s| - 1] == Sq(|s|);
      SqStrictlyMonotone(|s|, m + 1);
    }
  }

  /** The range guard of the calculate handler: the parsed value is a number
      (not NaN) in 1..100000. */
  predicate AcceptsCount(num: Option<int>)
  {
    num.Some? && 1 <= num.value <= MaxStones
  }

  /** What the calculate handler leaves on screen. */
  datatype View =
    | Rejected(message: string)
    | Shown(canWin: bool, steps: seq<Step>)

  /** `handleCalculate` without the React state and the timer: parse, guard,
      solve, and keep the last ten records of the trace. */
  method HandleCalculate(input: string) returns (view: View)
    ensures view.Rejected? <==> !AcceptsCount(ParseInt(input))
    ensures view.Rejected? ==> view.message == InvalidInputMessage
    ensures view.Shown? ==>
      var n := ParseInt(input).value;
      && 1 <= n <= MaxStones
      && view.canWin == Win(n)
      && |view.steps| == (if n < ShownSteps then n else ShownSteps)
      && forall j :: 0 <= j < |view.steps| ==>
           view.steps[j] == ExpectedStep(n - |view.steps| + j + 1)
  {
    var num := ParseInt(input);
    if num.None? || num.value < 1 || num.value > MaxStones {
      return Rejected(InvalidInputMessage);
    }
    var gameResult := WinnerSquareGame(num.value);
    var steps := gameResult.steps;
    // slice(-10): start max(length - 10, 0)
    var start := if |steps| > ShownSteps then |steps| - ShownSteps else 0;
    view := Shown(gameResult.canWin, steps[start..]);
  }
}
