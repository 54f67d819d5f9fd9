# Stone Game IV outcome solver, in Dafny

This project models the solver of the StoneGameIV React component. Two players take turns removing a perfect-square number of stones (1, 4, 9, ...). The player who faces an empty pile cannot move and loses. The component decides whether the first player wins a pile of `n` stones. It fills a boolean table `dp[0..n]` from left to right. For each pile `i` it tries the squares `k*k` in increasing order of `k` and stops at the first square that leaves a losing pile. It also records one step per pile: a winning record carries the square it takes, and a losing record carries none.

Modules:

- `Game` (`game.dfy`) holds the classification `Win`. It is the recurrence the solver evaluates: `FirstLosingRootFrom` probes the squares in increasing order. The lemmas prove what this means in the game: a pile is winning exactly when some square move leaves a losing pile, and the probed square is the smallest such move. They also prove the outcomes of small piles and that every perfect square is winning.
- `StoneGameIV` (`stone_game_iv.dfy`) models the component. `WinnerSquareGame` keeps the source's `array<bool>` table, its nested loops with `break` and its growing list of records. It is proved equal to `Win`, and each record is proved equal to `ExpectedStep`. The module also holds the square enumerator `GetPerfectSquares`, the range guard, and `HandleCalculate`. `HandleCalculate` parses the input, applies the guard and keeps the last ten records, as `slice(-10)` does.
- `IntParse` (`int_parse.dfy`) models the part of JavaScript's `parseInt` that the guard relies on. It reads an optional sign. Then it reads either `0x`/`0X` and the longest run of hexadecimal digits, or the longest run of decimal digits. Input with no digits reads as NaN (`None`).
- `StoneGameIVTests` (`stone_game_iv_test.dfy`) models the standalone copies in the test file: the bool-only `winnerSquareGame` and `validateInput`. It also proves the concrete facts that the core-logic and helper suites assert.
- `Wrappers` (`wrappers.dfy`) defines `Option`.

The test file's `getPerfectSquares` (src/StoneGameIV.test.js:25-31) is a line-for-line copy of the component's version, so it is modelled once, as `StoneGameIV.GetPerfectSquares`. Both `winnerSquareGame` versions are proved to return `Win(n)`: the component's through `canWin` for every `n >= 1`, the test copy's for every `n`. So the two agree.

`n === 0` returns a bare `false` instead of an object. It is modelled as the constructor `GameResult.Bare(false)`.

Text that only starts with a number is not rejected. The guard calls `parseInt`, which reads a digit prefix, so input such as "12abc" is accepted as 12. `parseInt` is called without a radix, so "0x10" reads as 16 and is accepted. The model does the same.

## Model

| member | source | states |
|---|---|---|
| `StoneGameIV.WinnerSquareGame` | src/StoneGameIV.js:10-44 | n = 0 gives the bare `false`. For n >= 1: `canWin == Win(n)`. The trace has exactly n records, and record j is `ExpectedStep(j+1)`, so its `stones` is j+1 in increasing order. The outcome equals the last record's `canWin`. The loop invariants say that `dp[j] == Win(j)` for every j < i before `dp[i]` is written, and the array bounds checks show that `i - square` stays in 0..i-1 |
| `Game.WinIffLosingMoveExists` | src/StoneGameIV.js:16-32 | A pile is winning exactly when some square k*k <= i, with k >= 1, leaves a losing pile. This holds in both directions |
| `Game.FirstLosingRootFromNone` | src/StoneGameIV.js:19-31 | When the probe from root k finds nothing, every square move from root k on leaves a winning pile |
| `Game.FirstLosingRootFromSome` | src/StoneGameIV.js:19-31 | When the probe from root k finds r: r >= k, r*r <= i, the move r*r leaves a losing pile, and every root between k and r leaves a winning pile (first fit) |
| `Game.FirstLosingRootIsSmallest` | src/StoneGameIV.js:19-31 | The square the solver picks is the smallest square move that leaves a losing pile. When it picks none, every square move leaves a winning pile |
| `Game.SqStrictlyMonotone` | src/StoneGameIV.js:19 | a < b exactly when a*a < b*b, so probing k in increasing order probes the squares in increasing order |
| `StoneGameIV.WinningRecordIsFirstFit` | src/StoneGameIV.js:22-30 | A record holds its own pile and `canWin == Win(stones)`. It carries a move exactly when it is winning. The move is a perfect square no larger than the pile, it leaves a losing pile, and no smaller square does |
| `StoneGameIV.LosingRecordHasNoMove` | src/StoneGameIV.js:34-39 | A record is losing exactly when every square move leaves a winning pile, and then it carries no move |
| `StoneGameIV.GetPerfectSquares` | src/StoneGameIV.js:80-86 | The result lists 1, 4, 9, ... in order. Each entry is at most max, and the next square exceeds max |
| `StoneGameIV.SquaresUpToExact` | src/StoneGameIV.js:80-86 | The enumerated list holds exactly the squares k*k with k >= 1 and k*k <= max. It is strictly increasing and is empty when max < 1 |
| `StoneGameIV.SquaresUpToLength` | src/StoneGameIV.js:82-84 | The list has m entries when m*m <= max < (m+1)*(m+1) |
| `StoneGameIV.HandleCalculate` | src/StoneGameIV.js:51-64 | The input is rejected, with the range message, exactly when `parseInt` gives NaN or a value outside 1..100000. Otherwise the view shows `Win(n)` and the last min(10, n) records of the trace, which are `ExpectedStep` of piles n-min(10,n)+1 .. n |
| `IntParse.DigitPrefix` | src/StoneGameIV.js:51 | The result is the longest prefix of the text that consists of digits of the given base |
| `IntParse.MagnitudeOfDecimal` | src/StoneGameIV.js:51 | The unsigned part of a decimal numeral followed by a non-digit reads as its number, unless "0" is followed by `x` or `X` |
| `IntParse.ParseIntSigned` | src/StoneGameIV.js:51 | Text starting with a digit reads as its unsigned value, and with a minus sign in front as the negation of that value |
| `IntParse.ParseIntDecimal` | src/StoneGameIV.js:51 | A decimal numeral reads back as its number, with or without a minus sign, whatever non-digit text follows it. The one exception is "0" followed by `x` or `X`, which starts a hex numeral |
| `IntParse.ParseIntHex` | src/StoneGameIV.js:51 | `0x` followed by hex digits reads as their base-16 value, whatever non-hex text follows. `0x` with no hex digit reads as NaN |
| `IntParse.ParseIntNoDigits` | src/StoneGameIV.js:51-53 | Text with no digit after the optional sign reads as NaN |
| `StoneGameIVTests.WinnerSquareGame` | src/StoneGameIV.test.js:6-23 | The test copy returns `Win(n)` for every n, including `false` for n = 0 |
| `StoneGameIVTests.ValidateInputDecimal` | src/StoneGameIV.test.js:33-36 | A decimal numeral is accepted exactly when it lies in 1..100000, and a negative numeral never is. This holds whatever non-digit text follows, except "0" followed by `x` or `X` |
| `StoneGameIVTests.ValidateInputHex` | src/StoneGameIV.test.js:33-36 | "0x10" reads as 16 and is accepted. "0x0" reads as 0 and is rejected. "0x" alone reads as NaN and is rejected |
| `StoneGameIVTests.ValidateInputAccepts` | src/StoneGameIV.test.js:99-103 | "1", "100" and "100000" are accepted |
| `StoneGameIVTests.ValidateInputRejectsBelowRange` | src/StoneGameIV.test.js:105-107 | "0" and "-1" are rejected |
| `StoneGameIVTests.ValidateInputRejectsAboveRange` | src/StoneGameIV.test.js:108 | "100001" is rejected |
| `StoneGameIVTests.ValidateInputRejectsNonNumeric` | src/StoneGameIV.test.js:109-110 | "abc" and "" are rejected |
| `Game.SmallOutcomes` | src/StoneGameIV.test.js:39-73 | 0 loses; 1, 3, 4, 6, 9 and 16 win; 2 and 15 lose. The table for 0..16 is given in full |
| `Game.PerfectSquaresWin` | src/StoneGameIV.test.js:354-359 | Every perfect square k*k with k >= 1 is winning, because taking all the stones leaves 0 |
| `StoneGameIVTests.PerfectSquaresUpTo100Win` | src/StoneGameIV.test.js:355-358 | 1, 4, ..., 100 are all winning |
| `StoneGameIVTests.PerfectSquaresExamples` | src/StoneGameIV.test.js:82-97 | The enumerator gives [1, 4, 9] for 10, [1, 4, 9, 16] for 16, and [] for 0 |

## Left out

- React state hooks, element construction, rendering and `handleReset` (src/StoneGameIV.js:3-9, 73-78, 88-240): presentation only.
- The `setTimeout` delay, the loading flag and the `try/catch` around the solver (src/StoneGameIV.js:58-70): asynchrony with no algorithmic content. The solver is total on 1..100000, so the catch branch's message cannot arise in the model.
- The `reasoning` text of each step record (src/StoneGameIV.js:28, 38): it is display text. A record keeps `stones`, `canWin` and `optimalMove`.
- `parseInt` beyond a sign, a `0x`/`0X` prefix and a digit prefix: leading whitespace and the rounding of values above 2^53. It is a JavaScript builtin, and the model reads digits into an exact integer.
- `StoneGameIV.WinnerSquareGame` takes `n: nat`. The source accepts any JavaScript number, but its only caller passes an integer in 1..100000. JavaScript numbers are doubles, but every value here is at most 10^10, so exact integers match them.
- The UI tests, the wall-clock timing test and the `typeof result` check (src/StoneGameIV.test.js:75-78, 114-338, 347-352): these depend on the DOM, async waiting and `Date.now`.
- The O(n·√n) running time and the 1000 ms bound: running time cannot be stated in the verifier.
