# Moving-average smoother of the spot_mini_mini training-curve plotter

In its training-curve mode, the plotter script `GMBC_data_plotter.py` smooths
the reward curves (total reward or reward per timestep) with
`moving_average(a, n)`; the survival-distance plots are not smoothed. The
function computes the mean of every window of `n` consecutive samples with
prefix sums, in three steps:

1. a running cumulative sum of the samples into a fresh float array `MA`;
2. `MA[n:] = MA[n:] - MA[:-n]`, an in-place subtraction of `MA` shifted by `n`;
3. `MA[n - 1:] / n`, the tail from `n - 1` on, scaled by the window size.

This project models that function over exact `real` arithmetic.

- `window_spec.dfy` (module `WindowSpec`) holds the specification.
  - `Sum` is the sum of a sample sequence.
  - `WindowMeans` is the naive reference: every window summed on its own, then divided by `n`.
  - The lemmas state the properties of `WindowMeans`: its length, its elements, the `n == 1` and `n == N` cases, shift invariance and two worked examples.
- `data_plotter.dfy` (module `DataPlotter`) holds the three steps as methods over `array<real>`, plus `MovingAverage`, which composes them.
  - Step 2 walks `k` downwards from `N - 1` to `n`. The right-hand side of `MA[n:] = MA[n:] - MA[:-n]` (`GMBC_data_plotter.py` line 50) is evaluated into a temporary before the assignment, so each subtraction reads an original prefix sum. In the downward walk every cell below the cursor still holds its original prefix sum, which gives the same result.
  - `MovingAverage` is proved equal to `WindowMeans` on the input.

Behaviour at the edges, as the code behaves:

- A window longer than the data (`n > N`, including empty data) gives an empty result. Both slices in `MA[n:] = MA[n:] - MA[:-n]` are empty, and so is `MA[n - 1:]` in the return. No unsmoothed prefix sums are returned. One might expect this input to return a tail of raw cumulative sums; the code does not, and the model follows the code.
- A zero window with non-empty data fails in `MA[n:] = MA[n:] - MA[:-n]`, because `MA[:-0]` is empty. For `N >= 2` the subtraction itself fails: shapes `(N,)` and `(0,)` do not broadcast. For `N == 1` the subtraction broadcasts to an empty array, and the assignment of that empty array into the one-cell slice `MA[0:]` fails. The model returns `Err(ShapeMismatch)` for this case.
- A zero window with empty data returns an empty array, because every slice is empty. The model returns `Ok` with an empty array.

## Model

| member | source | states |
|---|---|---|
| `DataPlotter.MovingAverage` | spot_bullet/src/GMBC_data_plotter.py:48-51 | Fails exactly when `n == 0` and the data is non-empty. Otherwise the result is a fresh array. For `n == 0` that array is empty. For `n >= 1` it equals `WindowMeans(a, n)`, the window-by-window means. The method has no `modifies` clause, so the samples are never written, and the fresh result cannot alias them. |
| `DataPlotter.CumulativeSum` | spot_bullet/src/GMBC_data_plotter.py:49 | Returns a fresh array of the same length whose cell `k` is the sum of samples `0..k`. |
| `DataPlotter.SubtractShifted` | spot_bullet/src/GMBC_data_plotter.py:50 | Cells below `n` keep their values. Every cell `k >= n` becomes its old value minus the OLD value of cell `k - n`, as numpy's evaluate-then-assign does. |
| `DataPlotter.ScaledTail` | spot_bullet/src/GMBC_data_plotter.py:51 | Returns a fresh array of length `N - n + 1`, or 0 when `n > N`. Its element `i` is cell `i + n - 1` divided by `n`. |
| `WindowSpec.PrefixSumStep` | spot_bullet/src/GMBC_data_plotter.py:49 | Each cumulative-sum cell is the previous prefix sum plus one sample. |
| `WindowSpec.SumSplit` | spot_bullet/src/GMBC_data_plotter.py:49-50 | A prefix sum up to `j` is the prefix sum up to `i` plus the sum of samples `i..j-1`. |
| `WindowSpec.ShiftedDifferenceIsWindowSum` | spot_bullet/src/GMBC_data_plotter.py:50 | For `n <= k < N`, prefix sum `k` minus prefix sum `k - n` is the sum of the window `a[k-n+1..k]`. That is what cell `k` holds after the shifted subtraction. |
| `WindowSpec.WindowMeans` | spot_bullet/src/GMBC_data_plotter.py:51 | There is one window mean per start position, so the result has length `N - n + 1` when `1 <= n <= N`. It is empty when `n > N`, including empty data. |
| `WindowSpec.WindowMeansAt` | spot_bullet/src/GMBC_data_plotter.py:49-51 | Element `i` is the sum of samples `i..i+n-1` divided by `n`, the arithmetic mean of that window. |
| `WindowSpec.WindowOfOneIsIdentity` | spot_bullet/src/GMBC_data_plotter.py:49-51 | With `n == 1` the smoothed sequence equals the input, element for element. |
| `WindowSpec.WholeWindowIsMean` | spot_bullet/src/GMBC_data_plotter.py:50-51 | With `n == N >= 1` the result is the single value `Sum(a) / N`. |
| `WindowSpec.SumAddConst` | spot_bullet/src/GMBC_data_plotter.py:49 | Adding `c` to every sample adds `N * c` to the sum. |
| `WindowSpec.MeanAddConst` | spot_bullet/src/GMBC_data_plotter.py:51 | Adding `c` to every sample of a non-empty window adds `c` to its mean. |
| `WindowSpec.WindowMeansShift` | spot_bullet/src/GMBC_data_plotter.py:49-51 | Shift invariance: the means of `a + c` are the means of `a`, each plus `c`. |
| `WindowSpec.PairsExample` | spot_bullet/src/GMBC_data_plotter.py:48-51 | Worked example: `[1, 2, 3, 4, 5]` with `n == 2` gives `[1.5, 2.5, 3.5, 4.5]`. |
| `WindowSpec.ConstantExample` | spot_bullet/src/GMBC_data_plotter.py:48-51 | Worked example: `[2, 2, 2, 2]` with `n == 4` gives `[2.0]`. |

## Left out

- Floating point: `np.cumsum(..., dtype=float)` rounds at every step. The model uses exact `real` arithmetic, so rounding error in long prefix sums is not captured. Promoting integer samples to float is likewise not modelled: the samples are already `real`.
- Negative window sizes: Python slicing would accept them and return a meaningless tail. The model takes `n` as a `nat`.
- The default window (`MA_WINDOW`, 150, lines 43-45) and the `-maw` option, which would make the window a string: argument parsing is script glue. The model takes `n` as an explicit argument.
- `main()`: building file paths, creating directories, loading pickled and `.npy` results, the random placeholder data, the `np.average`/`np.std` summaries, DataFrame construction and all plotting and printing. This is file I/O, nondeterministic library calls and calls into plotting libraries, with no local logic.
