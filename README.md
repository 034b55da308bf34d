# Airdrop analytics: the `summarize` core in Dafny

`airdrop analytics summarize` reads a table of token holders (`address`,
`balance`) and reports:

- how many holders there are;
- the total balance;
- the share of the total held by the `top` largest holders;
- ten decile balances;
- a discrete Gini coefficient.

This project models the numeric part of that command, from the
`balance` column to the summary record, and proves properties of it.
The command computes its summary in six steps:

1. Each balance is coerced to a number. Text that does not parse and
   missing cells both become 0 (`Coercion`).
2. The column is sorted in descending order (`Sorting.SortDescending`,
   an insertion sort specified by permutation and order).
3. The balances are totalled (`Sums.Sum`).
4. The top-N share is the sum of the rows that `head(top)` keeps
   divided by the total, with 0 when the total is not positive
   (`Concentration`). `head` follows pandas: a negative `top` keeps all
   but the last `-top` rows.
5. The decile loop reads the row at `ceil(n*d/10) - 1`, clamped to
   `[0, n-1]`, for `d = 1..10` (`Deciles.DecileBalances`, a method
   with a loop).
6. The Gini loop accumulates `cum += i * x_i` over the ascending
   order, then returns `2*cum/(n*Σx) - (n+1)/n`, or 0 when `Σx = 0`
   (`Gini.ComputeGini`, a method with a loop).

`Summary.Summarize` runs the steps in the command's order.
`Summary.SummaryOf` is the same computation written as a function.

Balances are exact `real` numbers. Addresses are carried in the row but
take no part in any statistic.

On an empty table the clamped index is `max(0, min(-1, -1)) = 0`, and
`df.iloc[0]` (main.py:47) raises an index error before anything is
printed (main.py:69). The model follows the code: `Summarize` and
`SummaryOf` return `Failure(RowOutOfRange(0, 0))` exactly when the table
is empty. Ten zero deciles would arguably be a friendlier fallback, but
the code does not produce them.

Modules:

| module | file |
|---|---|
| `Results` | `results.dfy` |
| `Sums` | `sums.dfy` |
| `Coercion` | `coercion.dfy` |
| `Sorting` | `sorting.dfy` |
| `Concentration` | `concentration.dfy` |
| `Deciles` | `deciles.dfy` |
| `Gini` | `gini.dfy` |
| `Summary` | `summary.dfy` |
| `Scenarios` | `scenarios.dfy` |

`Scenarios` holds worked families of inputs: every holder equal, and
one holder owning everything.

## Model

| member | source | states |
|---|---|---|
| Coercion.CoerceBalances | airdrop_analytics/main.py:33 | the coerced column has one entry per row, and entry i is the coercion of row i's balance |
| Coercion.CoerceKeepsNumbers | airdrop_analytics/main.py:33 | a numeric balance is kept unchanged; an unparseable or missing one becomes 0 |
| Coercion.CoerceNonNegative | airdrop_analytics/main.py:33 | if every numeric balance is non-negative, the whole coerced column is non-negative |
| Coercion.CoercePermutation | airdrop_analytics/main.py:33 | reordering the rows reorders the coerced column (the multisets are equal) |
| Sorting.SortDescending | airdrop_analytics/main.py:34 | the sorted column has the same length and multiset as the input and is non-increasing |
| Sorting.SortedUnique | airdrop_analytics/main.py:34 | two non-increasing sequences with the same multiset are equal, so ties cannot change the sorted column |
| Sorting.SortDescendingCanonical | airdrop_analytics/main.py:34 | inputs that are permutations of each other sort to the same sequence |
| Sorting.SortDescendingIdempotent | airdrop_analytics/main.py:34 | an already non-increasing column is left as it is |
| Sorting.SortAscending | airdrop_analytics/main.py:54 | `sorted(x)` is a permutation of x and is non-decreasing |
| Sums.SumPermutation | airdrop_analytics/main.py:36 | the total is the same for any order of the balances |
| Sums.SumUpdate | airdrop_analytics/main.py:36 | changing one balance changes the total by exactly the difference |
| Sums.SumZeroIffAllZero | airdrop_analytics/main.py:51 | non-negative balances sum to 0 if and only if every balance is 0 |
| Sums.NonNegativePermutation | airdrop_analytics/main.py:34 | reordering a column of non-negative balances leaves every balance non-negative |
| Concentration.HeadLength | airdrop_analytics/main.py:37 | `head(top)` keeps at most n rows |
| Concentration.TopSumBounds | airdrop_analytics/main.py:36-38 | for non-negative balances the rows `head(top)` keeps hold between 0 and the total |
| Concentration.TopShareBounds | airdrop_analytics/main.py:37-39 | for non-negative balances the share lies in [0, 1], including the 0 fallback |
| Concentration.TopShareMonotone | airdrop_analytics/main.py:37-39 | for non-negative balances the share does not decrease as `top` grows (on each side of 0) |
| Concentration.TopShareWholeSet | airdrop_analytics/main.py:37-39 | a window covering every row has share 1 when the total is positive |
| Concentration.PartitionTopSum | airdrop_analytics/main.py:34-38 | if each of the first k balances is at least each later one, the first k rows after sorting hold the same sum as those k balances |
| Concentration.RatioRaise | airdrop_analytics/main.py:38-39 | adding g >= 0 to both a part and a whole of at least that part never lowers their ratio, the 0 fallback included |
| Concentration.RaisedSums | airdrop_analytics/main.py:34-38 | raising a balance that lies inside the `head(top)` window by g adds g both to the window's sum and to the total, after re-sorting |
| Concentration.TopShareRaise | airdrop_analytics/main.py:34-39 | for non-negative balances, raising one balance that is at least the k-th largest (k the number of rows `head(top)` keeps) never lowers the top share |
| Deciles.CeilTenth | airdrop_analytics/main.py:45 | the result is the least r with 10*r >= q, that is ceil(q/10) |
| Deciles.Clamp | airdrop_analytics/main.py:46 | the clamped index is >= 0, below n when n > 0, and unchanged when already in [0, n-1] |
| Deciles.DecileIsRow | airdrop_analytics/main.py:47 | each decile is the balance at an in-range row, the one at the clamped index |
| Deciles.DecileBalances | airdrop_analytics/main.py:42-47 | the loop fails exactly on an empty frame, with row 0 of 0 rows; otherwise it returns 10 values, the rows at the clamped indices |
| Deciles.ClampIsNoOp | airdrop_analytics/main.py:45-46 | for n >= 1 and d in 1..10 the raw index already lies in [0, n-1], so the clamp changes nothing |
| Deciles.DecileIndexMonotone | airdrop_analytics/main.py:45-46 | the decile index does not decrease as d grows |
| Deciles.LastDecileIndex | airdrop_analytics/main.py:45-46 | the tenth decile reads the last row |
| Deciles.DecilesNonIncreasing | airdrop_analytics/main.py:44-47 | over a descending frame the ten deciles are non-increasing |
| Deciles.LastDecileIsMinimum | airdrop_analytics/main.py:44-47 | over a descending frame the tenth decile is the last and smallest balance |
| Deciles.DecileIndicesOfFour | airdrop_analytics/main.py:45-46 | for four rows the indices are 0,0,1,1,1,2,2,3,3,3 |
| Gini.WeightedSumStep | airdrop_analytics/main.py:56-58 | each step of the loop adds i times the i-th smallest balance to `cum` |
| Gini.ComputeGini | airdrop_analytics/main.py:50-59 | the loop computes the coefficient: 0 when the sum is 0, otherwise the closing formula over the weighted sum of the ascending order |
| Gini.GiniOfAscending | airdrop_analytics/main.py:51-59 | the coefficient is the closing formula over the ascending order and its sum, which equals the sum of the balances as given |
| Gini.SpreadOfAscending | airdrop_analytics/main.py:54-59 | over an ascending order 2*Σ i·x_i - (n+1)*Σx is >= 0, and it is 0 exactly when all balances are equal |
| Gini.WeightedSumBound | airdrop_analytics/main.py:56-58 | for non-negative balances Σ i·x_i is at most n·Σx |
| Gini.CoefficientSign | airdrop_analytics/main.py:59 | for a positive sum the formula's sign, and whether it is zero, follow 2*cum - (n+1)*Σx |
| Gini.CoefficientUpper | airdrop_analytics/main.py:59 | if cum <= n·Σx then the formula is at most 1 - 1/n |
| Gini.GiniBounds | airdrop_analytics/main.py:50-59 | for non-negative balances 0 <= gini <= 1 - 1/n |
| Gini.GiniZeroIffEqual | airdrop_analytics/main.py:50-59 | for non-negative balances gini is 0 if and only if all balances are equal, the all-zero case included |
| Gini.GiniOfEqual | airdrop_analytics/main.py:50-59 | equal balances give gini 0 whatever their sign: a zero sum takes the early return, any other sum gives 2*cum = (n+1)*Σx |
| Gini.GiniOfPermutation | airdrop_analytics/main.py:50-59 | gini depends only on the multiset of balances, not on their order |
| Summary.Summarize | airdrop_analytics/main.py:32-59 | the command body computes SummaryOf; it fails exactly on an empty table; on success it reports one holder per row and 10 deciles |
| Summary.SummaryHolders | airdrop_analytics/main.py:73 | a summary exists exactly for a non-empty table, and `holders` is the number of input rows |
| Summary.SummaryShape | airdrop_analytics/main.py:33-47 | the total is the sum of the coerced column, and the 10 deciles are non-increasing with the last at most every balance |
| Summary.SummaryOrderIndependent | airdrop_analytics/main.py:33-59 | reordering the input rows leaves the whole summary unchanged |
| Summary.SummaryBounds | airdrop_analytics/main.py:36-59 | with non-negative numeric balances the share lies in [0, 1] and gini in [0, 1 - 1/n] |
| Scenarios.EqualTopShare | airdrop_analytics/main.py:37-39 | n equal positive balances give a top share of k/n, where k is the number of rows `head(top)` keeps |
| Scenarios.EqualBalances | airdrop_analytics/main.py:36-59 | n equal balances c, of any sign, give total n·c, gini 0, and every decile c |
| Scenarios.OneHolderTopShare | airdrop_analytics/main.py:36-39 | if one holder owns the whole positive total, any `top` >= 1 gives share 1 |
| Scenarios.OnlyOneSorted | airdrop_analytics/main.py:34 | if the holder at any position j has c >= 0 and every other holder 0, the sorted column is c followed by zeros |
| Scenarios.OneHolderGini | airdrop_analytics/main.py:50-59 | if the holder at any position j owns the whole positive total and the others hold 0, gini is 1 - 1/n, the upper bound |
| Scenarios.OneHolderSummary | airdrop_analytics/main.py:32-59 | a table where any one row j holds c > 0 and the others hold 0 summarises to holders n, total c, share 1 for any `top` >= 1, and gini 1 - 1/n |
| Scenarios.EqualRowsSummary | airdrop_analytics/main.py:32-59 | a table of n rows that all hold c > 0 summarises to holders n, gini 0 and ten deciles c |
| Scenarios.FourEqualHolders | airdrop_analytics/main.py:32-59 | four rows of c > 0 with top = 2 give holders 4, total 4c, share 0.5, gini 0 and ten deciles c (for example [100,100,100,100]: total 400) |
| Scenarios.FourHoldersOneWhale | airdrop_analytics/main.py:32-59 | four rows where any one holds c > 0 and the others 0, with top = 1, give total c, share 1, gini 0.75 and deciles c, c, then eight zeros (for example [1000,0,0,0] or [0,0,1000,0]) |
| Scenarios.NonNumericBalance | airdrop_analytics/main.py:33-59 | a single row whose balance does not parse summarises as one holder with zero total, share, gini and deciles |
| Scenarios.EmptyTable | airdrop_analytics/main.py:44-47 | an empty table fails at the first decile lookup, at row 0 of 0 rows |

## Left out

- The command-line wiring (the `cli` group, its options and `--format`) is argument parsing and is not modelled.
- File loading with `read_csv` and `json.load` is I/O and is not modelled. The missing-column check that exits with status 1 is also left out: the model's rows always have both fields.
- Parsing of a balance cell is not modelled. The loader is assumed to hand over a cell that already parsed as a number (`Parsed`), one that did not (`Unparseable`), or an empty cell (`Missing`).
- The rich table, the JSON output and the `:.4f` formatting are presentation and are not modelled.
- IEEE floats, NaN and infinities are not modelled. Balances are exact reals, so no rounding in sums, shares or the Gini formula is captured.
- Deciles.CeilTenth: computes `ceil(n*d/10)` exactly on integers. The source computes `n*d/10` as a float, which could round for astronomically large n; this is not modelled.
- Sorting.SortDescending: the tie order of equal balances is not modelled, because the source's sort is not stable. This loses nothing: `Sorting.SortedUnique` shows that every non-increasing permutation is the same sequence.
- Addresses are carried but never constrained or used.
- Sums.Sum, Concentration.TopShare, Gini.ComputeGini: balances are exact unbounded numbers. When the balance column loads as 64-bit integers, the source's `sum()` (lines 36, 38, 51 and 59) and `cum += i * val` (line 58) wrap around modulo 2^64. For example two rows holding the integer 5000000000000000000 with `top = 10` wrap to a negative total, so the source reports share 0 where the model reports 1. This wrap-around is not modelled.
- Concentration.TopShareBounds, Concentration.TopSumBounds, Gini.GiniBounds, Summary.SummaryBounds: the ranges [0, 1], [0, total] and [0, 1 - 1/n] are proved only for non-negative balances. Coercion keeps negative numbers, and with them the source's window sum, share and coefficient can leave these ranges: for the column [10, -5] with `top = 1` the window holds 10 of a total 5, a share of 2.
- Concentration.TopShareMonotone, Concentration.TopShareRaise: proved only for non-negative balances; with a negative balance both fail in the source too. Raising the top holder of [10, -5] to 20 with `top = 1` lowers the share from 2 to 4/3, and widening the window of [10, -5] from `top = 1` to `top = 2` lowers it from 2 to 1.
- Gini.GiniZeroIffEqual: proved only for non-negative balances. With negative balances the sum can be 0 for unequal balances, for example [1, -1], and the source then reports gini 0 through its early return.
