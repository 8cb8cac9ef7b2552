/** The moving-average smoother of the training-curve plotter, computed the
    way the plotter computes it: a cumulative sum into a fresh array, an
    in-place subtraction of that array shifted by the window size, and a
    scaled slice of the result. */
module DataPlotter {
  import opened WindowSpec

  datatype Result<T> = Ok(value: T) | Err(error: Error)

  /** The plotter's `MA[n:] = MA[n:] - MA[:-n]` step fails when the window
      size is zero and the data is not empty, because `MA[:-0]` is empty: for
      two or more samples the subtraction cannot broadcast the shapes, and
      for one sample the empty difference cannot be assigned into the
      one-cell slice `MA[0:]`. */
  datatype Error = ShapeMismatch

  /** Step 1: running cumulative sum of the samples into a new array;
      cell `k` holds the sum of samples `0..k`. */
  method CumulativeSum(a: array<real>) returns (ma: array<real>)
    ensures fresh(ma) && ma.Length == a.Length
    ensures forall k :: 0 <= k < ma.Length ==> ma[k] == Sum(a[..k + 1])
  {
    ma := new real[a.Length];
    var acc := 0.0;
    var i := 0;
    while i < a.Length
      invariant 0 <= i <= a.Length
      invariant acc == Sum(a[..i])
      invariant forall k :: 0 <= k < i ==> ma[k] == Sum(a[..k + 1])
    {
      PrefixSumStep(a[..], i);
      assert a[..i + 1] == a[..][..i + 1] && a[..i] == a[..][..i];
      acc := acc + a[i];
      ma[i] := acc;
      i := i + 1;
    }
  }

  /** Step 2: `MA[n:] = MA[n:] - MA[:-n]`. The right-hand side is evaluated
      before the assignment, so every cell `k >= n` loses the ORIGINAL value
      of cell `k - n`. Walking `k` downwards keeps that promise in place:
      the cells below the cursor still hold their original values. */
  method SubtractShifted(ma: array<real>, n: nat)
    requires n >= 1
    modifies ma
    ensures forall k :: 0 <= k < ma.Length && k < n ==> ma[k] == old(ma[k])
    ensures forall k :: n <= k < ma.Length ==> ma[k] == old(ma[k]) - old(ma[k - n])
  {
    var i := ma.Length;
    while i > n
      invariant n <= i <= ma.Length || i == ma.Length
      invariant forall k :: 0 <= k < i ==> ma[k] == old(ma[k])
      invariant forall k :: i <= k < ma.Length ==> ma[k] == old(ma[k]) - old(ma[k - n])
    {
      i := i - 1;
      ma[i] := ma[i] - ma[i - n];
    }
  }

  /** Step 3: `MA[n - 1:] / n`, a new array holding every cell from `n - 1`
      on, divided by the window size; empty when `n - 1` is past the end. */
  method ScaledTail(ma: array<real>, n: nat) returns (r: array<real>)
    requires n >= 1
    ensures fresh(r)
    ensures r.Length == if n <= ma.Length then ma.Length - n + 1 else 0
    ensures forall i :: 0 <= i < r.Length ==> r[i] == ma[i + n - 1] / n as real
  {
    var len := if n <= ma.Length then ma.Length - n + 1 else 0;
    r := new real[len];
    var i := 0;
    while i < len
      invariant 0 <= i <= len
      invariant forall j :: 0 <= j < i ==> r[j] == ma[j + n - 1] / n as real
    {
      r[i] := ma[i + n - 1] / n as real;
      i := i + 1;
    }
  }

  /** `moving_average(a, n)`: the mean of every window of `n` consecutive
      samples, in a fresh array. The samples are only read (the method may
      modify nothing that existed before the call). A zero window fails on
      non-empty data and yields an empty result on empty data. */
  method MovingAverage(a: array<real>, n: nat) returns (r: Result<array<real>>)
    ensures r.Err? <==> n == 0 && a.Length > 0
    ensures r.Ok? ==> fresh(r.value)
    ensures r.Ok? && n == 0 ==> r.value.Length == 0
    ensures r.Ok? && n >= 1 ==> r.value[..] == WindowMeans(a[..], n)
  {
    var ma := CumulativeSum(a);
    if n == 0 {
      if ma.Length > 0 {
        return Err(ShapeMismatch);
      }
      var empty := new real[0];
      return Ok(empty);
    }
    SubtractShifted(ma, n);
    // After the subtraction: the first n cells hold raw prefix sums, every
    // later cell the sum of the window of n samples ending there.
    forall k | n <= k < ma.Length
      ensures ma[k] == Sum(a[..][k + 1 - n..k + 1])
    {
      assert a[..k + 1] == a[..][..k + 1] && a[..k + 1 - n] == a[..][..k + 1 - n];
      ShiftedDifferenceIsWindowSum(a[..], n, k);
    }
    var out := ScaledTail(ma, n);
    forall i | 0 <= i < out.Length
      ensures out[i] == WindowMeans(a[..], n)[i]
    {
      WindowMeansAt(a[..], n, i);
      if i == 0 {
        assert a[..n] == a[..][..n] == a[..][0..n];
      }
    }
    return Ok(out);
  }
}
