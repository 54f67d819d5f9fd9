/**
  The standalone copies of the solver, the enumerator and the input check that
  the component's test file defines, with the facts its core-logic and helper
  suites assert.
 */
module StoneGameIVTests {

  import opened Wrappers
  import opened Game
  import opened IntParse
  import opened StoneGameIV

  /** The test file's `winnerSquareGame`: the same table, returning only the
      outcome. For n >= 1 it agrees with the component's `canWin`, since both
      equal `Win(n)`. */
  method WinnerSquareGame(n: nat) returns (canWin: bool)
    ensures canWin == Win(n)
  {
    if n == 0 {
      return false;
    }
    var dp := new bool[n + 1](_ => false);
    var i := 1;
    while i <= n
      invariant 1 <= i <= n + 1
      invariant forall j :: 0 <= j < i ==> dp[j] == Win(j)
    {
      dp[i] := false;
      var k := 1;
      while k * k <= i
        invariant 1 <= k
        invariant !dp[i]
        invariant forall j :: 0 <= j < i ==> dp[j] == Win(j)
        invariant FirstLosingRootFrom(i, k) == FirstLosingRoot(i)
        decreases i + 1 - k
      {
        if !dp[i - k * k] {
          dp[i] := true;
          break;
        }
        k := k + 1;
      }
      i := i + 1;
    }
    canWin := dp[n];
  }

  /** The test file's `validateInput`: `parseInt` then the range guard. */
  predicate ValidateInput(input: string)
  {
    AcceptsCount(ParseInt(input))
  }

  /** A decimal numeral is accepted exactly when it lies in 1..100000, whatever
      non-digit text follows it ("0" followed by `x` starts a hex numeral
      instead); a negative numeral never is. */
  lemma ValidateInputDecimal(n: nat, t: string)
    requires t == [] || !IsDigit(t[0])
    requires n == 0 ==> t == [] || (t[0] != 'x' && t[0] != 'X')
    ensures ValidateInput(Decimal(n) + t) <==> 1 <= n <= MaxStones
    ensures !ValidateInput("-" + (Decimal(n) + t))
  {
    ParseIntDecimal(n, t);
  }

  /** The inputs the helper suite accepts. */
  lemma ValidateInputAccepts()
    ensures ValidateInput("1") && ValidateInput("100") && ValidateInput("100000")
  {
    assert Decimal(1) == "1";
    assert Decimal(10) == "10";
    assert Decimal(100) == "100";
    assert Decimal(1000) == "1000";
    assert Decimal(10000) == "10000";
    assert Decimal(100000) == "100000";
    ValidateInputDecimal(1, []);
    assert "1" + [] == "1";
    ValidateInputDecimal(100, []);
    assert "100" + [] == "100";
    ValidateInputDecimal(100000, []);
    assert "100000" + [] == "100000";
  }

  /** The numerals below the range that the helper suite rejects: "0" and "-1". */
  lemma ValidateInputRejectsBelowRange()
    ensures !ValidateInput("0") && !ValidateInput("-1")
  {
    assert Decimal(0) == "0";
    ValidateInputDecimal(0, []);
    assert "0" + [] == "0";
    assert Decimal(1) == "1";
    ValidateInputDecimal(1, []);
    assert "-" + ("1" + []) == "-1";
  }

  /** The numeral above the range that the helper suite rejects: "100001". */
  lemma ValidateInputRejectsAboveRange()
    ensures !ValidateInput("100001")
  {
    assert Decimal(1) == "1";
    assert Decimal(10) == "10";
    assert Decimal(100) == "100";
    assert Decimal(1000) == "1000";
    assert Decimal(10000) == "10000";
    assert Decimal(100001) == "100001";
    ValidateInputDecimal(100001, []);
    assert "100001" + [] == "100001";
  }

  /** The inputs without digits that the helper suite rejects: "abc" and "". */
  lemma ValidateInputRejectsNonNumeric()
    ensures !ValidateInput("abc") && !ValidateInput("")
  {
    ParseIntNoDigits("abc");
    ParseIntNoDigits("");
  }

  /** A hex numeral is read in base 16 by the guard: "0x10" is 16 and accepted,
      "0x0" is 0 and rejected, and "0x" alone is NaN. */
  lemma ValidateInputHex()
    ensures ValidateInput("0x10") && !ValidateInput("0x0") && !ValidateInput("0x")
  {
    ParseIntHex("10", []);
    assert "0x" + "10" + [] == "0x10";
    assert "10"[..1] == "1";
    assert DigitsValue("10", 16) == 16;
    ParseIntHex("0", []);
    assert "0x" + "0" + [] == "0x0";
    assert DigitsValue("0", 16) == 0;
    ParseIntHex([], []);
    assert "0x" + [] + [] == "0x";
  }

  /** The enumerator's outputs for 10, 16 and 0, as the helper suite asserts. */
  lemma PerfectSquaresExamples(s10: seq<nat>, s16: seq<nat>, s0: seq<nat>)
    requires ListsSquaresUpTo(s10, 10)
    requires ListsSquaresUpTo(s16, 16)
    requires ListsSquaresUpTo(s0, 0)
    ensures s10 == [1, 4, 9]
    ensures s16 == [1, 4, 9, 16]
    ensures s0 == []
  {
    assert Sq(1) == 1 && Sq(2) == 4 && Sq(3) == 9 && Sq(4) == 16 && Sq(5) == 25;
    SquaresUpToLength(s10, 10, 3);
    SquaresUpToLength(s16, 16, 4);
    SquaresUpToExact(s0, 0);
  }

  /** The perfect squares 1, 4, ..., 100 of the performance suite are all winning. */
  lemma PerfectSquaresUpTo100Win()
    ensures forall k: nat :: 1 <= k <= 10 ==> Win(Sq(k))
  {
    forall k: nat | 1 <= k <= 10
      ensures Win(Sq(k))
    {
      PerfectSquaresWin(k);
    }
  }
}
