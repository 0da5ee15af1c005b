/** Regrouping the flat elements of a multi-dimensional array into nested rows. */
module Reshape {
  import opened Dims

  datatype Nest<T> = Leaf(value: T) | Node(rows: seq<Nest<T>>)

  /** The `r`-th of the consecutive groups of `size` elements. */
  function Chunk<T>(s: seq<T>, size: nat, r: nat): (c: seq<T>)
    requires Times(r, size) + size <= |s|
    ensures |c| == size
  {
    s[Times(r, size)..Times(r, size) + size]
  }

  /** The nested array with the given dimensions whose elements, row after row, are `flat`. */
  function Nested<T>(flat: seq<T>, dims: seq<nat>): Nest<T>
    requires |flat| == Product(dims)
    decreases |dims|
  {
    if dims == [] then Leaf(flat[0])
    else
      var p := Product(dims[1..]);
      Node(seq(dims[0], r requires 0 <= r < dims[0] =>
        RowFits(r, dims[0], p);
        Nested(Chunk(flat, p, r), dims[1..])))
  }

  /** All multi-indices below the dimensions. */
  ghost predicate InRange(index: seq<nat>, dims: seq<nat>)
  {
    |index| == |dims| && forall i :: 0 <= i < |dims| ==> index[i] < dims[i]
  }

  /** The row-major position of a multi-index. */
  function Position(index: seq<nat>, dims: seq<nat>): nat
    requires |index| == |dims|
  {
    if dims == [] then 0 else Times(index[0], Product(dims[1..])) + Position(index[1..], dims[1..])
  }

  /** The element reached by following a multi-index through the rows. */
  function At<T>(n: Nest<T>, index: seq<nat>): (r: seq<T>)
  {
    match n
    case Leaf(v) => if index == [] then [v] else []
    case Node(rows) => if index != [] && index[0] < |rows| then At(rows[index[0]], index[1..]) else []
  }

  /** Every path through the nesting has the given row lengths, outermost first. */
  ghost predicate HasShape<T>(n: Nest<T>, dims: seq<nat>)
    decreases |dims|
  {
    if dims == [] then n.Leaf?
    else n.Node? && |n.rows| == dims[0] && forall r :: 0 <= r < |n.rows| ==> HasShape(n.rows[r], dims[1..])
  }

  function Flatten<T>(n: Nest<T>): seq<T>
    decreases n, 0
  {
    match n
    case Leaf(v) => [v]
    case Node(rows) => FlattenAll(rows)
  }

  function FlattenAll<T>(rows: seq<Nest<T>>): seq<T>
    decreases rows, 1
  {
    if rows == [] then [] else Flatten(rows[0]) + FlattenAll(rows[1..])
  }

  // ---- the regrouping loop

  /** The rows that `n` consecutive groups of `size` views make. */
  function Rows<T>(views: seq<Nest<T>>, size: nat, n: nat): (rows: seq<Nest<T>>)
    requires |views| == Times(n, size)
    ensures |rows| == n
  {
    seq(n, r requires 0 <= r < n => RowFits(r, n, size); Node(Chunk(views, size, r)))
  }

  /** One pass: consecutive groups of `size` views become rows. */
  method Group<T>(views: seq<Nest<T>>, size: nat, ghost n: nat) returns (newViews: seq<Nest<T>>)
    requires size > 0 && |views| == Times(n, size)
    ensures newViews == Rows(views, size, n)
  {
    newViews := [];
    var j := 0;
    ghost var r: nat, rows := 0, Rows(views, size, n);
    while j < |views|
      invariant r <= n && j == Times(r, size) && newViews == rows[..r]
      decreases n - r
    {
      TimesOrder(r, n, size);
      RowFits(r, n, size);
      assert rows[r] == Node(Chunk(views, size, r));
      newViews := newViews + [Node(views[j..j + size])];
      j, r := j + size, r + 1;
    }
    TimesOrder(r, n, size);
  }

  /** The view the decoder builds of a multi-dimensional array. */
  method MultiArrayView<T>(flat: seq<T>, sizes: seq<nat>) returns (view: Nest<T>)
    requires sizes != [] && (forall i :: 1 <= i < |sizes| ==> sizes[i] > 0)
    requires |flat| == Product(sizes)
    ensures view == Nested(flat, sizes)
  {
    var views := seq(|flat|, i requires 0 <= i < |flat| => Leaf(flat[i]));
    var i := |sizes| - 1;
    Leaves(flat, views, sizes);
    while i > 0
      invariant 0 <= i < |sizes|
      invariant Grouped(flat, sizes, i + 1, views)
    {
      var size := sizes[i];
      ghost var n := Product(sizes[..i]);
      ProductSplit(sizes, i);
      ProductSplit(sizes, i + 1);
      assert sizes[..i + 1] == sizes[..i] + [sizes[i]];
      ProductAppend(sizes[..i], sizes[i]);
      var newViews := Group(views, size, n);
      GroupKeeps(flat, sizes, i, views, newViews);
      views := newViews;
      i := i - 1;
    }
    OuterRows(flat, sizes, views);
    view := Node(views);
  }

  /** The views are the sub-arrays of the dimensions from `i` on, in order. */
  ghost predicate Grouped<T>(flat: seq<T>, sizes: seq<nat>, i: nat, views: seq<Nest<T>>)
    requires i <= |sizes| && |flat| == Product(sizes)
  {
    var p := Product(sizes[i..]);
    |views| == Product(sizes[..i]) && Times(|views|, p) == |flat|
    && forall r :: 0 <= r < |views| ==> Times(r, p) + p <= |flat| && views[r] == Nested(Chunk(flat, p, r), sizes[i..])
  }

  lemma Leaves<T>(flat: seq<T>, views: seq<Nest<T>>, sizes: seq<nat>)
    requires |flat| == Product(sizes) == |views|
    requires forall i :: 0 <= i < |flat| ==> views[i] == Leaf(flat[i])
    ensures Grouped(flat, sizes, |sizes|, views)
  {
    assert sizes[|sizes|..] == [] && sizes[..|sizes|] == sizes;
    TimesOne(|views|);
    forall r | 0 <= r < |views| ensures Times(r, 1) + 1 <= |flat| && Chunk(flat, 1, r) == [flat[r]] {
      TimesOne(r);
    }
  }

  lemma ChunkOfChunk<T>(s: seq<T>, size: nat, p: nat, r: nat, t: nat)
    requires t < size && Times(r, Times(size, p)) + Times(size, p) <= |s|
    ensures Times(t, p) + p <= Times(size, p)
    ensures Times(Times(r, size) + t, p) + p <= |s|
    ensures Chunk(Chunk(s, Times(size, p), r), p, t) == Chunk(s, p, Times(r, size) + t)
  {
    RowFits(t, size, p);
    TimesNests(r, size, p);
    TimesAdds(Times(r, size), t, p);
    var a, b, q := Times(r, Times(size, p)), Times(t, p), Times(size, p);
    SliceOfSlice(s, a, a + q, b, b + p);
  }

  lemma SliceOfSlice<T>(s: seq<T>, a: nat, b: nat, c: nat, d: nat)
    requires a <= b <= |s| && c <= d <= b - a
    ensures s[a..b][c..d] == s[a + c..a + d]
  {
    var x, y := s[a..b][c..d], s[a + c..a + d];
    assert |x| == |y|;
    forall i | 0 <= i < |x| ensures x[i] == y[i] { assert s[a..b][c + i] == s[a + c + i]; }
  }

  lemma GroupKeeps<T>(flat: seq<T>, sizes: seq<nat>, i: nat, views: seq<Nest<T>>, newViews: seq<Nest<T>>)
    requires i < |sizes| && |flat| == Product(sizes)
    requires Grouped(flat, sizes, i + 1, views)
    requires |views| == Times(Product(sizes[..i]), sizes[i])
    requires newViews == Rows(views, sizes[i], Product(sizes[..i]))
    ensures Grouped(flat, sizes, i, newViews)
  {
    var q := Product(sizes[i..]);
    ProductSplit(sizes, i);
    forall r | 0 <= r < |newViews|
      ensures Times(r, q) + q <= |flat| && newViews[r] == Nested(Chunk(flat, q, r), sizes[i..])
    {
      RowFits(r, |newViews|, q);
      RowFits(r, |newViews|, sizes[i]);
      RowOfRows(flat, sizes, i, views, r);
    }
  }

  /** Element `t` of row `r` of what is grouped by `dims`. */
  lemma RowAt<T>(flat: seq<T>, size: nat, dims: seq<nat>, views: seq<Nest<T>>, r: nat, t: nat)
    requires t < size && Times(r, size) + size <= |views|
    requires Times(r, Times(size, Product(dims))) + Times(size, Product(dims)) <= |flat|
    requires forall k :: 0 <= k < |views| ==>
      Times(k, Product(dims)) + Product(dims) <= |flat| && views[k] == Nested(Chunk(flat, Product(dims), k), dims)
    ensures var row := Chunk(flat, Times(size, Product(dims)), r);
      && Times(t, Product(dims)) + Product(dims) <= |row|
      && Chunk(views, size, r)[t] == Nested(Chunk(row, Product(dims), t), dims)
  {
    ChunkOfChunk(flat, size, Product(dims), r, t);
  }

  lemma RowOfRows<T>(flat: seq<T>, sizes: seq<nat>, i: nat, views: seq<Nest<T>>, r: nat)
    requires i < |sizes| && |flat| == Product(sizes)
    requires Grouped(flat, sizes, i + 1, views)
    requires Times(r, sizes[i]) + sizes[i] <= |views|
    requires Times(r, Product(sizes[i..])) + Product(sizes[i..]) <= |flat|
    ensures Node(Chunk(views, sizes[i], r)) == Nested(Chunk(flat, Product(sizes[i..]), r), sizes[i..])
  {
    var size, dims := sizes[i], sizes[i + 1..];
    assert sizes[i..][0] == size && sizes[i..][1..] == dims;
    forall t | 0 <= t < size
      ensures var row := Chunk(flat, Product(sizes[i..]), r);
        && Times(t, Product(dims)) + Product(dims) <= |row|
        && Chunk(views, size, r)[t] == Nested(Chunk(row, Product(dims), t), dims)
    {
      RowAt(flat, size, dims, views, r, t);
    }
    assert Chunk(views, size, r) == Nested(Chunk(flat, Product(sizes[i..]), r), sizes[i..]).rows;
  }

  lemma OuterRows<T>(flat: seq<T>, sizes: seq<nat>, views: seq<Nest<T>>)
    requires sizes != [] && |flat| == Product(sizes)
    requires Grouped(flat, sizes, 1, views)
    ensures Node(views) == Nested(flat, sizes)
  {
    assert sizes[..1] == [sizes[0]] && sizes[..1][1..] == [];
    TimesOne(sizes[0]);
    assert Product(sizes[..1]) == sizes[0];
    var rows := Nested(flat, sizes).rows;
    forall r | 0 <= r < sizes[0] ensures views[r] == rows[r] { RowFits(r, sizes[0], Product(sizes[1..])); }
    assert views == rows;
  }

  // ---- what the nesting means

  /** The nesting has the given dimensions. */
  lemma {:induction false} NestedShape<T>(flat: seq<T>, dims: seq<nat>)
    requires |flat| == Product(dims)
    ensures HasShape(Nested(flat, dims), dims)
    decreases |dims|
  {
    if dims != [] {
      var p := Product(dims[1..]);
      forall r | 0 <= r < dims[0] ensures HasShape(Nested(flat, dims).rows[r], dims[1..]) {
        RowFits(r, dims[0], p);
        NestedShape(Chunk(flat, p, r), dims[1..]);
      }
    }
  }

  /** The element at a multi-index is the flat element at its row-major position. */
  lemma {:induction false} NestedAt<T>(flat: seq<T>, dims: seq<nat>, index: seq<nat>)
    requires |flat| == Product(dims) && InRange(index, dims)
    ensures Position(index, dims) < |flat|
    ensures At(Nested(flat, dims), index) == [flat[Position(index, dims)]]
    decreases |dims|
  {
    if dims != [] {
      var p, r := Product(dims[1..]), index[0];
      RowFits(r, dims[0], p);
      NestedAt(Chunk(flat, p, r), dims[1..], index[1..]);
    }
  }

  /** Reading the nesting row by row gives the flat elements back. */
  lemma {:induction false} FlattenNested<T>(flat: seq<T>, dims: seq<nat>)
    requires |flat| == Product(dims)
    ensures Flatten(Nested(flat, dims)) == flat
    decreases |dims|, 0
  {
    if dims != [] {
      FlattenRows(flat, dims, 0);
      var n := Nested(flat, dims);
      assert n.rows[0..] == n.rows;
      assert flat[0..] == flat;
    }
  }

  lemma {:induction false} FlattenRows<T>(flat: seq<T>, dims: seq<nat>, r: nat)
    requires dims != [] && |flat| == Product(dims) && r <= dims[0]
    ensures Times(r, Product(dims[1..])) <= |flat|
    ensures FlattenAll(Nested(flat, dims).rows[r..]) == flat[Times(r, Product(dims[1..]))..]
    decreases |dims|, 0, dims[0] - r
  {
    var p, n := Product(dims[1..]), Nested(flat, dims);
    if r == dims[0] {
      assert n.rows[r..] == [] && flat[Times(r, p)..] == [];
    } else {
      RowFits(r, dims[0], p);
      FlattenRows(flat, dims, r + 1);
      FlattenNested(Chunk(flat, p, r), dims[1..]);
      assert n.rows[r..][0] == n.rows[r] && n.rows[r..][1..] == n.rows[r + 1..];
      assert flat[Times(r, p)..] == Chunk(flat, p, r) + flat[Times(r + 1, p)..];
    }
  }

  /** Distinct multi-indices have distinct positions, so the nesting loses and repeats nothing. */
  lemma {:induction false} PositionInjective(a: seq<nat>, b: seq<nat>, dims: seq<nat>)
    requires InRange(a, dims) && InRange(b, dims) && Position(a, dims) == Position(b, dims)
    ensures a == b
  {
    if dims != [] {
      var p := Product(dims[1..]);
      PositionBound(a[1..], dims[1..]);
      PositionBound(b[1..], dims[1..]);
      if a[0] < b[0] {
        RowFits(a[0], b[0], p);
        assert false;
      } else if b[0] < a[0] {
        RowFits(b[0], a[0], p);
        assert false;
      }
      PositionInjective(a[1..], b[1..], dims[1..]);
      assert a == [a[0]] + a[1..] && b == [b[0]] + b[1..];
    }
  }

  lemma {:induction false} PositionBound(index: seq<nat>, dims: seq<nat>)
    requires InRange(index, dims)
    ensures Position(index, dims) < Product(dims)
  {
    if dims != [] {
      PositionBound(index[1..], dims[1..]);
      RowFits(index[0], dims[0], Product(dims[1..]));
    }
  }
}
