/** Boolean-mask selection, flattening and reshaping of sequences: the numpy and pandas
    indexing operations (`a[mask]`, `reshape(-1)`, `reshape(shape)`, `concat`) that the
    notebook helpers are built from. */
module Sequences {

  /** The number of set flags in a mask. */
  function Count(keep: seq<bool>): nat
  {
    if keep == [] then 0
    else Count(keep[..|keep| - 1]) + (if keep[|keep| - 1] then 1 else 0)
  }

  /** `s[keep]`: the elements of `s` whose flag is set, in their original order.
      numpy refuses a mask whose length differs from the array's. */
  function Select<T>(s: seq<T>, keep: seq<bool>): (r: seq<T>)
    requires |s| == |keep|
    ensures |r| == Count(keep)
  {
    if s == [] then []
    else Select(s[..|s| - 1], keep[..|keep| - 1]) + (if keep[|keep| - 1] then [s[|s| - 1]] else [])
  }

  /** The positions of the set flags of a mask, in increasing order. */
  function Indices(keep: seq<bool>): (r: seq<nat>)
    ensures |r| == Count(keep)
    ensures forall a :: 0 <= a < |r| ==> r[a] < |keep| && keep[r[a]]
    ensures forall a, b :: 0 <= a < b < |r| ==> r[a] < r[b]
  {
    if keep == [] then []
    else Indices(keep[..|keep| - 1]) + (if keep[|keep| - 1] then [|keep| - 1] else [])
  }

  /** Every set flag has its position among the indices. */
  lemma {:induction false} IndicesComplete(keep: seq<bool>, k: nat)
    requires k < |keep| && keep[k]
    ensures k in Indices(keep)
  {
    var n := |keep|;
    if k < n - 1 {
      IndicesComplete(keep[..n - 1], k);
    } else {
      assert Indices(keep)[|Indices(keep)| - 1] == k;
    }
  }

  /** The j-th selected element is the element at the j-th set position. */
  lemma {:induction false} SelectAt<T>(s: seq<T>, keep: seq<bool>, j: nat)
    requires |s| == |keep| && j < Count(keep)
    ensures Select(s, keep)[j] == s[Indices(keep)[j]]
  {
    var n := |s|;
    var p, q := s[..n - 1], keep[..n - 1];
    if j < Count(q) {
      SelectAt(p, q, j);
      assert Select(s, keep)[j] == Select(p, q)[j];
      assert Indices(keep)[j] == Indices(q)[j];
    } else {
      assert keep[n - 1] && j == Count(q);
    }
  }

  /** Selection keeps exactly the elements at the set positions, in order: the j-th
      survivor comes from position `Indices(keep)[j]`, the positions increase, and a
      position is among them exactly when its flag is set. */
  lemma SelectExact<T>(s: seq<T>, keep: seq<bool>)
    requires |s| == |keep|
    ensures var r, idx := Select(s, keep), Indices(keep);
      && |r| == |idx|
      && (forall j :: 0 <= j < |r| ==> r[j] == s[idx[j]])
      && (forall a, b :: 0 <= a < b < |idx| ==> idx[a] < idx[b])
      && (forall k :: 0 <= k < |s| ==> (keep[k] <==> k in idx))
  {
    forall j | 0 <= j < Count(keep) ensures Select(s, keep)[j] == s[Indices(keep)[j]] {
      SelectAt(s, keep, j);
    }
    forall k | 0 <= k < |s| && keep[k] ensures k in Indices(keep) {
      IndicesComplete(keep, k);
    }
  }

  /** A property that holds at every set position holds of every selected element. */
  lemma SelectedSatisfy<T>(s: seq<T>, keep: seq<bool>, p: T -> bool)
    requires |s| == |keep|
    requires forall k :: 0 <= k < |s| && keep[k] ==> p(s[k])
    ensures forall j :: 0 <= j < |Select(s, keep)| ==> p(Select(s, keep)[j])
  {
    forall j | 0 <= j < |Select(s, keep)| ensures p(Select(s, keep)[j]) {
      SelectAt(s, keep, j);
    }
  }

  /** The mask `p(u[k])` over a sequence, as a numpy comparison such as `y < c` builds it. */
  function MaskOf<U>(u: seq<U>, p: U -> bool): (m: seq<bool>)
  {
    seq(|u|, k requires 0 <= k < |u| => p(u[k]))
  }

  /** The conjunction of a mask with a condition on a parallel key sequence. */
  function Both<U>(keep: seq<bool>, key: seq<U>, p: U -> bool): (m: seq<bool>)
    requires |keep| == |key|
  {
    seq(|keep|, k requires 0 <= k < |keep| => keep[k] && p(key[k]))
  }

  /** Selecting from a sequence extended by one element: the element survives exactly
      when its flag is set. */
  lemma SelectSnoc<T>(s: seq<T>, keep: seq<bool>, x: T, b: bool)
    requires |s| == |keep|
    ensures Select(s + [x], keep + [b]) == Select(s, keep) + (if b then [x] else [])
  {
    assert (s + [x])[..|s|] == s;
    assert (keep + [b])[..|keep|] == keep;
  }

  /** A mask over a sequence extended by one element is the mask extended by one flag. */
  lemma MaskOfSnoc<U>(u: seq<U>, x: U, p: U -> bool)
    ensures MaskOf(u + [x], p) == MaskOf(u, p) + [p(x)]
  {
  }

  /** The two-stage filter of a sequence extended by one element. */
  lemma SelectTwiceSnoc<T, U>(s: seq<T>, key: seq<U>, keep: seq<bool>, x: T, kx: U, b: bool, p: U -> bool)
    requires |s| == |key| == |keep|
    ensures Select(Select(s + [x], keep + [b]), MaskOf(Select(key + [kx], keep + [b]), p))
         == Select(Select(s, keep), MaskOf(Select(key, keep), p)) + (if b && p(kx) then [x] else [])
  {
    SelectSnoc(s, keep, x, b);
    SelectSnoc(key, keep, kx, b);
    var a, k := Select(s, keep), Select(key, keep);
    if b {
      MaskOfSnoc(k, kx, p);
      SelectSnoc(a, MaskOf(k, p), x, p(kx));
    } else {
      assert a + [] == a && k + [] == k;
    }
  }

  /** The combined mask over a sequence extended by one element. */
  lemma BothSnoc<U>(keep: seq<bool>, key: seq<U>, b: bool, kx: U, p: U -> bool)
    requires |keep| == |key|
    ensures Both(keep + [b], key + [kx], p) == Both(keep, key, p) + [b && p(kx)]
  {
  }

  /** Filtering in two stages — first by `keep`, then by `p` on the surviving keys — is
      filtering once by both conditions. */
  lemma {:induction false} SelectTwice<T, U>(s: seq<T>, key: seq<U>, keep: seq<bool>, p: U -> bool)
    requires |s| == |key| == |keep|
    ensures Select(Select(s, keep), MaskOf(Select(key, keep), p)) == Select(s, Both(keep, key, p))
  {
    var n := |s|;
    if n > 0 {
      var s', key', keep' := s[..n - 1], key[..n - 1], keep[..n - 1];
      var x, kx, b := s[n - 1], key[n - 1], keep[n - 1];
      assert s == s' + [x];
      assert key == key' + [kx];
      assert keep == keep' + [b];
      calc {
        Select(Select(s, keep), MaskOf(Select(key, keep), p));
        Select(Select(s' + [x], keep' + [b]), MaskOf(Select(key' + [kx], keep' + [b]), p));
        { SelectTwiceSnoc(s', key', keep', x, kx, b, p); }
        Select(Select(s', keep'), MaskOf(Select(key', keep'), p)) + (if b && p(kx) then [x] else []);
        { SelectTwice(s', key', keep', p); }
        Select(s', Both(keep', key', p)) + (if b && p(kx) then [x] else []);
        { SelectSnoc(s', Both(keep', key', p), x, b && p(kx)); }
        Select(s' + [x], Both(keep', key', p) + [b && p(kx)]);
        { BothSnoc(keep', key', b, kx, p); }
        Select(s' + [x], Both(keep' + [b], key' + [kx], p));
        Select(s, Both(keep, key, p));
      }
    }
  }

  /** A rectangular grid with the given numbers of rows and columns. */
  predicate IsShape<T>(g: seq<seq<T>>, rows: nat, cols: nat)
  {
    |g| == rows && forall i :: 0 <= i < rows ==> |g[i]| == cols
  }

  /** Row-major concatenation of the rows of a grid (`reshape(-1)`, `pd.concat`). */
  function Flatten<T>(g: seq<seq<T>>): seq<T>
  {
    if g == [] then [] else g[0] + Flatten(g[1..])
  }

  lemma {:induction false} FlattenLength<T>(g: seq<seq<T>>, cols: nat)
    requires IsShape(g, |g|, cols)
    ensures |Flatten(g)| == |g| * cols
  {
    if g != [] {
      FlattenLength(g[1..], cols);
    }
  }

  /** Cell (i, j) of a grid with `cols` columns sits at position i * cols + j once flattened. */
  lemma {:induction false} FlattenAt<T>(g: seq<seq<T>>, cols: nat, i: nat, j: nat)
    requires IsShape(g, |g|, cols) && i < |g| && j < cols
    ensures i * cols + j < |Flatten(g)| && Flatten(g)[i * cols + j] == g[i][j]
  {
    FlattenLength(g, cols);
    if i > 0 {
      FlattenAt(g[1..], cols, i - 1, j);
      assert i * cols + j == cols + ((i - 1) * cols + j);
    }
  }

  /** `flat.reshape(rows, cols)`: consecutive runs of `cols` elements become the rows. */
  function Reshape<T>(flat: seq<T>, rows: nat, cols: nat): (g: seq<seq<T>>)
    requires |flat| == rows * cols
    ensures IsShape(g, rows, cols)
    decreases rows
  {
    if rows == 0 then []
    else
      assert |flat| == cols + (rows - 1) * cols;
      [flat[..cols]] + Reshape(flat[cols..], rows - 1, cols)
  }

  /** Row i of a grid with `cols` columns starts `cols` positions after row i - 1. */
  lemma RowOffset(i: nat, cols: nat)
    requires i > 0
    ensures i * cols == cols + (i - 1) * cols && 0 <= (i - 1) * cols
  {
  }

  /** Cell (i, j) of a reshaped sequence is the element at position i * cols + j. */
  lemma {:induction false} ReshapeAt<T>(flat: seq<T>, rows: nat, cols: nat, i: nat, j: nat)
    requires |flat| == rows * cols && i < rows && j < cols
    ensures i * cols + j < |flat| && Reshape(flat, rows, cols)[i][j] == flat[i * cols + j]
  {
    RowOffset(rows, cols);
    if i == 0 {
      assert Reshape(flat, rows, cols)[0] == flat[..cols];
    } else {
      var rest := flat[cols..];
      ReshapeAt(rest, rows - 1, cols, i - 1, j);
      RowOffset(i, cols);
      assert Reshape(flat, rows, cols)[i] == Reshape(rest, rows - 1, cols)[i - 1];
      assert rest[(i - 1) * cols + j] == flat[cols + ((i - 1) * cols + j)];
    }
  }

  /** Reshaping undoes flattening. */
  lemma ReshapeFlatten<T>(g: seq<seq<T>>, cols: nat)
    requires IsShape(g, |g|, cols)
    ensures |Flatten(g)| == |g| * cols && Reshape(Flatten(g), |g|, cols) == g
  {
    FlattenLength(g, cols);
    var r := Reshape(Flatten(g), |g|, cols);
    forall i | 0 <= i < |g| ensures r[i] == g[i] {
      forall j | 0 <= j < cols ensures r[i][j] == g[i][j] {
        ReshapeAt(Flatten(g), |g|, cols, i, j);
        FlattenAt(g, cols, i, j);
      }
    }
  }
}
