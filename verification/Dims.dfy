/** Element counts of arrays: repeated addition, and products of dimensions built from it. */
module Dims {

  /** n * size, by repeated addition. */
  function Times(n: nat, size: nat): nat
  {
    if n == 0 then 0 else size + Times(n - 1, size)
  }

  /** The number of elements of an array with the given dimensions. */
  function Product(dims: seq<nat>): nat
  {
    if |dims| == 0 then 1 else Times(dims[0], Product(dims[1..]))
  }

  lemma {:induction false} TimesOrder(m: nat, n: nat, size: nat)
    requires size > 0
    ensures m < n <==> Times(m, size) < Times(n, size)
    ensures m == n <==> Times(m, size) == Times(n, size)
    ensures Times(m + 1, size) == Times(m, size) + size
  {
    if m > 0 && n > 0 { TimesOrder(m - 1, n - 1, size); }
  }

  lemma {:induction false} TimesGrows(m: nat, n: nat, size: nat)
    requires m <= n
    ensures Times(m, size) <= Times(n, size)
  {
    if m < n { TimesGrows(m, n - 1, size); }
  }

  lemma {:induction false} TimesOfMore(n: nat, a: nat, b: nat)
    requires a <= b
    ensures Times(n, a) <= Times(n, b)
  {
    if n > 0 { TimesOfMore(n - 1, a, b); }
  }

  lemma {:induction false} TimesAdds(m: nat, n: nat, size: nat)
    ensures Times(m + n, size) == Times(m, size) + Times(n, size)
  {
    if m > 0 { TimesAdds(m - 1, n, size); }
  }

  lemma {:induction false} TimesNests(m: nat, n: nat, size: nat)
    ensures Times(m, Times(n, size)) == Times(Times(m, n), size)
  {
    if m > 0 {
      TimesNests(m - 1, n, size);
      TimesAdds(n, Times(m - 1, n), size);
    }
  }

  lemma {:induction false} TimesOne(n: nat)
    ensures Times(n, 1) == n && Times(1, n) == n
  {
    if n > 0 { TimesOne(n - 1); }
  }

  /** Row `r` of `n` rows lies inside them. */
  lemma RowFits(r: nat, n: nat, size: nat)
    requires r < n
    ensures Times(r, size) + size <= Times(n, size)
  {
    TimesGrows(r + 1, n, size);
  }

  lemma {:induction false} ProductPositive(dims: seq<nat>)
    requires forall i :: 0 <= i < |dims| ==> dims[i] > 0
    ensures Product(dims) > 0
  {
    if dims != [] { ProductPositive(dims[1..]); }
  }

  lemma {:induction false} ProductAppend(dims: seq<nat>, d: nat)
    ensures Product(dims + [d]) == Times(Product(dims), d)
  {
    if dims == [] {
      assert [d][1..] == [];
      TimesOne(d);
    } else {
      ProductAppend(dims[1..], d);
      assert (dims + [d])[1..] == dims[1..] + [d];
      TimesNests(dims[0], Product(dims[1..]), d);
    }
  }

  lemma {:induction false} ProductSplit(dims: seq<nat>, i: nat)
    requires i <= |dims|
    ensures Times(Product(dims[..i]), Product(dims[i..])) == Product(dims)
  {
    if i == 0 {
      assert dims[0..] == dims;
      TimesOne(Product(dims));
    } else {
      ProductSplit(dims[1..], i - 1);
      assert dims[..i][1..] == dims[1..][..i - 1] && dims[i..] == dims[1..][i - 1..];
      TimesNests(dims[0], Product(dims[1..][..i - 1]), Product(dims[i..]));
    }
  }
}
