/** The nested `for ... of` loops of generateDomains, over any element types:
    the outer loop walks `xs`, the inner loop walks `ys`, and each pair is
    turned into one output by `f`. Row and Product are built from the back,
    as the loops append. */
module Cartesian {

  /** Inner loop: `x` against every element of `ys`, in order; the j-th
      entry is built from the j-th inner element. */
  function Row<A, B, C>(x: A, ys: seq<B>, f: (A, B) -> C): (r: seq<C>)
    ensures |r| == |ys|
    ensures forall j :: 0 <= j < |ys| ==> r[j] == f(x, ys[j])
    decreases |ys|
  {
    if ys == [] then []
    else Row(x, ys[..|ys| - 1], f) + [f(x, ys[|ys| - 1])]
  }

  /** Outer loop: every element of `xs` in order, each followed by its row;
      one entry per pair. */
  function Product<A, B, C>(xs: seq<A>, ys: seq<B>, f: (A, B) -> C): (r: seq<C>)
    ensures |r| == |xs| * |ys|
    decreases |xs|
  {
    if xs == [] then []
    else Product(xs[..|xs| - 1], ys, f) + Row(xs[|xs| - 1], ys, f)
  }

  /** Where row `i` starts when every row has `width` entries, built up one
      row at a time so that the index proofs stay linear. */
  function Offset(i: nat, width: nat): nat {
    if i == 0 then 0 else Offset(i - 1, width) + width
  }

  /** The row offset is the product of row number and width. */
  lemma {:induction false} OffsetIsProduct(i: nat, width: nat)
    ensures Offset(i, width) == i * width
    decreases i
  {
    if i > 0 {
      OffsetIsProduct(i - 1, width);
      assert i * width == (i - 1) * width + width;
    }
  }

  /** A cell of a row before `n` lies inside the first `n` rows. */
  lemma {:induction false} OffsetBound(i: nat, j: nat, n: nat, width: nat)
    requires i < n && j < width
    ensures Offset(i, width) + j < Offset(n, width)
    decreases n
  {
    if i < n - 1 {
      OffsetBound(i, j, n - 1, width);
    }
  }

  lemma {:induction false} ProductOffsetLength<A, B, C>(xs: seq<A>, ys: seq<B>, f: (A, B) -> C)
    ensures |Product(xs, ys, f)| == Offset(|xs|, |ys|)
    decreases |xs|
  {
    if xs != [] {
      var n := |xs| - 1;
      ProductOffsetLength(xs[..n], ys, f);
    }
  }

  /** The entry at `i*|ys| + j` is `f(xs[i], ys[j])`. */
  lemma ProductCell<A, B, C>(xs: seq<A>, ys: seq<B>, f: (A, B) -> C, i: nat, j: nat)
    requires i < |xs| && j < |ys|
    ensures i * |ys| + j < |Product(xs, ys, f)|
    ensures Product(xs, ys, f)[i * |ys| + j] == f(xs[i], ys[j])
  {
    ProductOffsetCell(xs, ys, f, i, j);
    OffsetIsProduct(i, |ys|);
  }

  lemma {:induction false} ProductOffsetCell<A, B, C>(xs: seq<A>, ys: seq<B>, f: (A, B) -> C, i: nat, j: nat)
    requires i < |xs| && j < |ys|
    ensures Offset(i, |ys|) + j < |Product(xs, ys, f)|
    ensures Product(xs, ys, f)[Offset(i, |ys|) + j] == f(xs[i], ys[j])
    decreases |xs|
  {
    var n := |xs| - 1;
    var k := Offset(i, |ys|) + j;
    var front := xs[..n];
    var head := Product(front, ys, f);
    var row := Row(xs[n], ys, f);
    assert Product(xs, ys, f) == head + row;
    ProductOffsetLength(front, ys, f);
    if i < n {
      ProductOffsetCell(front, ys, f, i, j);
      OffsetBound(i, j, n, |ys|);
      assert (head + row)[k] == head[k];
      assert front[i] == xs[i];
    } else {
      assert (head + row)[k] == row[j];
    }
  }

  /** Every entry of the product is `f` of some pair, so a property every
      `f(x, y)` has holds of every entry. */
  lemma {:induction false} ProductCover<A, B, C>(xs: seq<A>, ys: seq<B>, f: (A, B) -> C, k: nat)
    requires k < |Product(xs, ys, f)|
    ensures exists i, j :: 0 <= i < |xs| && 0 <= j < |ys| && Product(xs, ys, f)[k] == f(xs[i], ys[j])
    decreases |xs|
  {
    var n := |xs| - 1;
    var front := xs[..n];
    var head := Product(front, ys, f);
    var row := Row(xs[n], ys, f);
    assert Product(xs, ys, f) == head + row;
    if k < |head| {
      ProductCover(front, ys, f, k);
      var i, j :| 0 <= i < |front| && 0 <= j < |ys| && head[k] == f(front[i], ys[j]);
      assert (head + row)[k] == head[k];
      assert front[i] == xs[i];
    } else {
      var j := k - |head|;
      assert (head + row)[k] == row[j];
      assert Product(xs, ys, f)[k] == f(xs[n], ys[j]);
    }
  }

}
