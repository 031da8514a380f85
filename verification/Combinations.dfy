/** The variant matrix: every combination of one item per dimension, in mixed-radix order. */
module Combinations {
  import opened Arithmetic
  import opened Sequences

  // ---------- The product as a function ----------

  /** One combination continued by each item of a dimension. */
  function ExtendOne<T>(combo: seq<T>, dim: seq<T>): (r: seq<seq<T>>)
    ensures |r| == |dim|
  {
    seq(|dim|, j requires 0 <= j < |dim| => combo + [dim[j]])
  }

  /** Every combination continued by each item, combinations first. */
  function Extend<T>(combos: seq<seq<T>>, dim: seq<T>): seq<seq<T>> {
    if combos == [] then [] else Extend(combos[..|combos| - 1], dim) + ExtendOne(combos[|combos| - 1], dim)
  }

  function Product<T>(dims: seq<seq<T>>): seq<seq<T>> {
    if dims == [] then [] else ProductFrom(dims)
  }

  /** The product with the empty combination as its unit. */
  function ProductFrom<T>(dims: seq<seq<T>>): seq<seq<T>> {
    if dims == [] then [[]] else Extend(ProductFrom(dims[..|dims| - 1]), dims[|dims| - 1])
  }

  // ---------- The builder ----------

  class VariantCombinator<T> {
    var dimensions: seq<seq<T>>

    constructor ()
      ensures dimensions == []
    {
      dimensions := [];
    }

    /** No dimension is empty. */
    ghost predicate Valid()
      reads this
    {
      NonEmptyDims(dimensions)
    }

    /** An empty list of variants is no dimension at all. */
    method AddDimension(variants: seq<T>)
      modifies this
      ensures old(Valid()) ==> Valid()
      ensures dimensions == old(dimensions) + if variants == [] then [] else [variants]
    {
      if |variants| > 0 {
        dimensions := dimensions + [variants];
      }
    }

    method GenerateCombinations() returns (combinations: seq<seq<T>>)
      ensures combinations == Product(dimensions)
    {
      if |dimensions| == 0 {
        return [];
      }
      combinations := [];
      for i := 0 to |dimensions[0]|
        invariant combinations == ExtendOne([], dimensions[0])[..i]
      {
        assert [] + [dimensions[0][i]] == [dimensions[0][i]];
        combinations := combinations + [[dimensions[0][i]]];
      }
      FirstDimension(dimensions[0]);
      assert dimensions[..1][..0] == [];
      for d := 1 to |dimensions|
        invariant combinations == ProductFrom(dimensions[..d])
      {
        assert dimensions[..d + 1][..d] == dimensions[..d];
        combinations := Combine(combinations, dimensions[d]);
      }
      assert dimensions[..|dimensions|] == dimensions;
    }

    /** The two inner loops. */
    static method Combine(combos: seq<seq<T>>, dim: seq<T>) returns (result: seq<seq<T>>)
      ensures result == Extend(combos, dim)
    {
      result := [];
      for i := 0 to |combos|
        invariant result == Extend(combos[..i], dim)
      {
        assert combos[..i + 1][..i] == combos[..i];
        ghost var before := result;
        for j := 0 to |dim|
          invariant result == before + ExtendOne(combos[i], dim)[..j]
        {
          result := result + [combos[i] + [dim[j]]];
        }
      }
      assert combos[..|combos|] == combos;
    }
  }

  lemma FirstDimension<T>(dim: seq<T>)
    ensures ProductFrom([dim]) == ExtendOne([], dim)
  {
    var unit: seq<seq<T>> := [[]];
    assert [dim][..0] == [] && unit[..0] == [];
    assert Extend(unit, dim) == Extend([], dim) + ExtendOne([], dim);
  }

  // ---------- Arithmetic of positions ----------

  ghost predicate NonEmptyDims<T>(dims: seq<seq<T>>) {
    forall d :: 0 <= d < |dims| ==> dims[d] != []
  }

  /** The product of the sizes. */
  function Size<T>(dims: seq<seq<T>>): (n: nat)
    ensures NonEmptyDims(dims) ==> n > 0
  {
    if dims == [] then 1
    else
      var front := dims[..|dims| - 1];
      assert NonEmptyDims(dims) ==> NonEmptyDims(front) && |dims[|dims| - 1]| > 0;
      Size(front) * |dims[|dims| - 1]|
  }

  // ---------- What stands where ----------

  lemma {:induction false} ExtendSize<T>(combos: seq<seq<T>>, dim: seq<T>)
    ensures |Extend(combos, dim)| == |combos| * |dim|
  {
    if combos != [] {
      ExtendSize(combos[..|combos| - 1], dim);
      MulDistributes(|combos|, 1, |dim|);
    }
  }

  /** Row k / m, item k % m. */
  lemma {:induction false} ExtendAt<T>(combos: seq<seq<T>>, dim: seq<T>, k: nat)
    requires dim != [] && k < |Extend(combos, dim)|
    ensures k / |dim| < |combos| && Extend(combos, dim)[k] == combos[k / |dim|] + [dim[k % |dim|]]
  {
    var n := |combos| - 1;
    var front := combos[..n];
    var before := |Extend(front, dim)|;
    ExtendSize(combos, dim);
    ExtendSize(front, dim);
    RowIsInRange(k, |combos|, |dim|);
    if k < before {
      ExtendAt(front, dim, k);
    } else {
      DivModUnique(k, |dim|, n, k - before);
      assert Extend(combos, dim)[k] == ExtendOne(combos[n], dim)[k - before];
    }
  }

  /** Combination k is combination k / m of the earlier dimensions, followed by item k % m of
      the last one, which has m items. */
  lemma ProductAt<T>(dims: seq<seq<T>>, k: nat)
    requires dims != [] && dims[|dims| - 1] != [] && k < |ProductFrom(dims)|
    ensures var front, last := dims[..|dims| - 1], dims[|dims| - 1];
      && k / |last| < |ProductFrom(front)|
      && ProductFrom(dims)[k] == ProductFrom(front)[k / |last|] + [last[k % |last|]]
  {
    ExtendAt(ProductFrom(dims[..|dims| - 1]), dims[|dims| - 1], k);
  }

  lemma {:induction false} ProductSize<T>(dims: seq<seq<T>>)
    ensures |ProductFrom(dims)| == Size(dims)
  {
    if dims != [] {
      ProductSize(dims[..|dims| - 1]);
      ExtendSize(ProductFrom(dims[..|dims| - 1]), dims[|dims| - 1]);
    }
  }

  /** As many combinations as the product of the sizes, none for no dimensions. */
  lemma CombinationCount<T>(dims: seq<seq<T>>)
    ensures |Product(dims)| == if dims == [] then 0 else Size(dims)
  {
    ProductSize(dims);
  }

  /** The index into dimension d of combination k: its mixed-radix digit. */
  function Digit<T>(dims: seq<seq<T>>, k: nat, d: nat): (i: nat)
    requires NonEmptyDims(dims) && d < |dims|
    ensures i < |dims[d]|
  {
    assert NonEmptyDims(dims[d + 1..]);
    (k / Size(dims[d + 1..])) % |dims[d]|
  }

  /** Digits of the earlier dimensions are the digits of the row number. */
  lemma DigitOfRow<T>(dims: seq<seq<T>>, k: nat, d: nat)
    requires NonEmptyDims(dims) && d < |dims| - 1
    ensures Digit(dims, k, d) == Digit(dims[..|dims| - 1], k / |dims[|dims| - 1]|, d)
  {
    var front, last := dims[..|dims| - 1], dims[|dims| - 1];
    var mid := front[d + 1..];
    assert dims[d + 1..] == mid + [last];
    assert NonEmptyDims(mid);
    assert (mid + [last])[..|mid|] == mid;
    DivideTwice(k, |last|, Size(mid));
  }

  lemma DigitOfLast<T>(dims: seq<seq<T>>, k: nat)
    requires NonEmptyDims(dims) && dims != []
    ensures Digit(dims, k, |dims| - 1) == k % |dims[|dims| - 1]|
  {
    assert dims[|dims|..] == [];
    assert Size(dims[|dims|..]) == 1;
  }

  /** Element d of combination k is the item its mixed-radix digit selects. */
  lemma {:induction false} CombinationDigits<T>(dims: seq<seq<T>>, k: nat)
    requires NonEmptyDims(dims) && k < Size(dims)
    ensures |ProductFrom(dims)| == Size(dims)
    ensures |ProductFrom(dims)[k]| == |dims|
    ensures forall d :: 0 <= d < |dims| ==> ProductFrom(dims)[k][d] == dims[d][Digit(dims, k, d)]
  {
    ProductSize(dims);
    if dims != [] {
      var front, last := dims[..|dims| - 1], dims[|dims| - 1];
      ProductSize(front);
      ProductAt(dims, k);
      var row := k / |last|;
      CombinationDigits(front, row);
      forall d | 0 <= d < |dims| ensures ProductFrom(dims)[k][d] == dims[d][Digit(dims, k, d)]
      {
        if d < |front| {
          DigitOfRow(dims, k, d);
        } else {
          DigitOfLast(dims, k);
        }
      }
    }
  }

  /** Every choice of one item per dimension is generated. */
  lemma {:induction false} EveryTupleAppears<T>(dims: seq<seq<T>>, tuple: seq<T>) returns (k: nat)
    requires NonEmptyDims(dims) && |tuple| == |dims| && forall d :: 0 <= d < |dims| ==> tuple[d] in dims[d]
    ensures k < Size(dims) == |ProductFrom(dims)| && ProductFrom(dims)[k] == tuple
  {
    if dims == [] {
      k := 0;
    } else {
      var front, last := dims[..|dims| - 1], dims[|dims| - 1];
      var row := EveryTupleAppears(front, tuple[..|front|]);
      var j :| 0 <= j < |last| && last[j] == tuple[|front|];
      k := row * |last| + j;
      DivModUnique(k, |last|, row, j);
      MulMonotone(row + 1, Size(front), |last|);
      MulDistributes(row, 1, |last|);
      MulMonotone(0, row, |last|);
      ProductSize(front);
      ProductSize(dims);
      ProductAt(dims, k);
      assert tuple == tuple[..|front|] + [tuple[|front|]];
    }
  }

  ghost predicate SameLengths<T>(combos: seq<seq<T>>, n: nat) {
    forall i :: 0 <= i < |combos| ==> |combos[i]| == n
  }

  /** Extending repeats nothing when neither the combinations nor the items repeat. */
  lemma ExtendKeepsDuplicateFree<T>(combos: seq<seq<T>>, dim: seq<T>, n: nat)
    requires SameLengths(combos, n) && DuplicateFree(combos) && DuplicateFree(dim)
    ensures SameLengths(Extend(combos, dim), n + 1) && DuplicateFree(Extend(combos, dim))
  {
    var all := Extend(combos, dim);
    ExtendSize(combos, dim);
    if dim == [] {
      assert all == [];
    } else {
      forall k | 0 <= k < |all| ensures |all[k]| == n + 1 {
        ExtendAt(combos, dim, k);
      }
      forall k, l | 0 <= k < l < |all| ensures all[k] != all[l] {
        RowsDiffer(combos, dim, n, k, l);
      }
    }
  }

  lemma PlaceOf<T>(combos: seq<seq<T>>, dim: seq<T>, k: nat) returns (i: nat, x: nat)
    requires dim != [] && k < |Extend(combos, dim)|
    ensures i < |combos| && x < |dim| && k == i * |dim| + x
    ensures Extend(combos, dim)[k] == combos[i] + [dim[x]]
  {
    ExtendAt(combos, dim, k);
    DivisionLaw(k, |dim|);
    i, x := k / |dim|, k % |dim|;
  }

  lemma RowsDiffer<T>(combos: seq<seq<T>>, dim: seq<T>, n: nat, k: nat, l: nat)
    requires SameLengths(combos, n) && DuplicateFree(combos) && DuplicateFree(dim)
    requires dim != [] && k < l < |Extend(combos, dim)|
    ensures Extend(combos, dim)[k] != Extend(combos, dim)[l]
  {
    var i, x := PlaceOf(combos, dim, k);
    var j, y := PlaceOf(combos, dim, l);
    SnocsDiffer(combos, dim, n, i, x, j, y);
  }

  lemma SnocsDiffer<T>(combos: seq<seq<T>>, dim: seq<T>, n: nat, i: nat, x: nat, j: nat, y: nat)
    requires SameLengths(combos, n) && DuplicateFree(combos) && DuplicateFree(dim)
    requires i < |combos| && j < |combos| && x < |dim| && y < |dim| && (i != j || x != y)
    ensures combos[i] + [dim[x]] != combos[j] + [dim[y]]
  {
    var a, b := combos[i] + [dim[x]], combos[j] + [dim[y]];
    assert a[..n] == combos[i] && b[..n] == combos[j];
    assert a[n] == dim[x] && b[n] == dim[y];
    if i != j {
      assert combos[i] != combos[j];
    } else {
      assert dim[x] != dim[y];
    }
  }

  /** And exactly once when no dimension lists an item twice. */
  lemma {:induction false} NoTupleRepeats<T>(dims: seq<seq<T>>)
    requires forall d :: 0 <= d < |dims| ==> DuplicateFree(dims[d])
    ensures SameLengths(ProductFrom(dims), |dims|) && DuplicateFree(ProductFrom(dims))
  {
    if dims != [] {
      var front := dims[..|dims| - 1];
      NoTupleRepeats(front);
      ExtendKeepsDuplicateFree(ProductFrom(front), dims[|dims| - 1], |front|);
    }
  }

  lemma ExtendItem<T>(combos: seq<seq<T>>, dim: seq<T>, i: nat, x: nat) returns (k: nat)
    requires i < |combos| && x < |dim|
    ensures k == i * |dim| + x && k < |Extend(combos, dim)|
    ensures Extend(combos, dim)[k] == combos[i] + [dim[x]]
  {
    MulMonotone(0, i, |dim|);
    k := i * |dim| + x;
    MulMonotone(i + 1, |combos|, |dim|);
    MulDistributes(i, 1, |dim|);
    ExtendSize(combos, dim);
    DivModUnique(k, |dim|, i, x);
    ExtendAt(combos, dim, k);
  }

  /** Nothing repeats in an extension only if neither a combination nor an item repeats. */
  lemma ExtendReflectsDuplicateFree<T>(combos: seq<seq<T>>, dim: seq<T>)
    requires combos != [] && dim != [] && DuplicateFree(Extend(combos, dim))
    ensures DuplicateFree(combos) && DuplicateFree(dim)
  {
    forall i, j | 0 <= i < j < |combos| ensures combos[i] != combos[j] {
      var k := ExtendItem(combos, dim, i, 0);
      var l := ExtendItem(combos, dim, j, 0);
      MulMonotone(i + 1, j, |dim|);
      MulDistributes(i, 1, |dim|);
    }
    forall x, y | 0 <= x < y < |dim| ensures dim[x] != dim[y] {
      var k := ExtendItem(combos, dim, 0, x);
      var l := ExtendItem(combos, dim, 0, y);
    }
  }

  /** Every tuple is generated exactly once if and only if no dimension lists an item twice. */
  lemma {:induction false} TuplesRepeatExactlyWhenItemsDo<T>(dims: seq<seq<T>>)
    requires NonEmptyDims(dims)
    ensures DuplicateFree(ProductFrom(dims)) <==> forall d :: 0 <= d < |dims| ==> DuplicateFree(dims[d])
  {
    if forall d :: 0 <= d < |dims| ==> DuplicateFree(dims[d]) {
      NoTupleRepeats(dims);
    }
    if dims != [] && DuplicateFree(ProductFrom(dims)) {
      var front := dims[..|dims| - 1];
      ProductSize(front);
      ExtendReflectsDuplicateFree(ProductFrom(front), dims[|dims| - 1]);
      TuplesRepeatExactlyWhenItemsDo(front);
      assert forall d :: 0 <= d < |front| ==> dims[d] == front[d];
    }
  }
}
