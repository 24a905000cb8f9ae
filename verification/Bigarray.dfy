/**
  Big arrays (`runtime/bigarray.c`): multi-dimensional views on a block of elements, in C
  layout (row major, indices from 0) or Fortran layout (column major, indices from 1).
  Offsets number the elements without gaps, and every element of a derived view is the
  matching element of its parent.
 */
module Bigarray {

  import opened Arithmetic
  import opened Common

  // -------------------------------------------------------- row-major offsets

  function Product(dims: seq<nat>): nat {
    if dims == [] then 1 else Product(dims[..|dims| - 1]) * dims[|dims| - 1]
  }

  function OffsetOf(dims: seq<nat>, index: seq<int>): int
    requires |index| == |dims|
  {
    if dims == [] then 0
    else
      var n := |dims| - 1;
      OffsetOf(dims[..n], index[..n]) * dims[n] + index[n]
  }

  predicate Below(dims: seq<nat>, index: seq<int>) {
    |index| == |dims| && forall i :: 0 <= i < |dims| ==> 0 <= index[i] < dims[i]
  }

  /** Offsets are within the number of elements. */
  lemma {:induction false} OffsetBound(dims: seq<nat>, index: seq<int>)
    requires Below(dims, index)
    ensures 0 <= OffsetOf(dims, index) < Product(dims)
    decreases |dims|
  {
    if dims != [] {
      var n := |dims| - 1;
      OffsetBound(dims[..n], index[..n]);
      Successors(OffsetOf(dims[..n], index[..n]), Product(dims[..n]), dims[n]);
    }
  }

  /** Different indices have different offsets. */
  lemma {:induction false} OffsetInjective(dims: seq<nat>, index: seq<int>, index': seq<int>)
    requires Below(dims, index) && Below(dims, index') && OffsetOf(dims, index) == OffsetOf(dims, index')
    ensures index == index'
    decreases |dims|
  {
    if dims != [] {
      var n := |dims| - 1;
      OffsetBound(dims[..n], index[..n]);
      OffsetBound(dims[..n], index'[..n]);
      SameParts(OffsetOf(dims[..n], index[..n]), index[n], OffsetOf(dims[..n], index'[..n]), index'[n], dims[n]);
      OffsetInjective(dims[..n], index[..n], index'[..n]);
      assert index == index[..n] + [index[n]] && index' == index'[..n] + [index'[n]];
    }
  }

  lemma SameParts(q: nat, r: nat, q': nat, r': nat, d: nat)
    requires r < d && r' < d && q * d + r == q' * d + r'
    ensures q == q' && r == r'
  {
    DivideUnique(q * d + r, d, q, r);
    DivideUnique(q * d + r, d, q', r');
  }

  /** Every number below the number of elements is an offset. */
  lemma {:induction false} OffsetSurjective(dims: seq<nat>, o: nat) returns (index: seq<int>)
    requires o < Product(dims)
    ensures Below(dims, index) && OffsetOf(dims, index) == o
    decreases |dims|
  {
    if dims == [] {
      index := [];
    } else {
      var n := |dims| - 1;
      var q, r := SplitOffset(o, Product(dims[..n]), dims[n]);
      var init := OffsetSurjective(dims[..n], q);
      index := init + [r];
      assert index[..n] == init;
    }
  }

  lemma SplitOffset(o: nat, p: nat, d: nat) returns (q: nat, r: nat)
    requires o < p * d
    ensures q < p && r < d && o == q * d + r
  {
    assert d > 0;
    q, r := o / d, o % d;
    assert o == q * d + r;
    if q >= p {
      Monotone(p, q, d);
    }
  }

  lemma {:induction false} ProductAppend(a: seq<nat>, b: seq<nat>)
    ensures Product(a + b) == Product(a) * Product(b)
    decreases |b|
  {
    if b == [] {
      assert a + b == a;
    } else {
      var n := |b| - 1;
      assert (a + b)[..|a| + n] == a + b[..n];
      ProductAppend(a, b[..n]);
      Regroup(Product(a), Product(b[..n]), b[n]);
    }
  }

  /** An index in two parts: the offset of the first part counts blocks of the second. */
  lemma {:induction false} OffsetAppend(a: seq<nat>, b: seq<nat>, i: seq<int>, j: seq<int>)
    requires Below(a, i) && Below(b, j)
    ensures |a + b| == |i + j| && OffsetOf(a + b, i + j) == OffsetOf(a, i) * Product(b) + OffsetOf(b, j)
    decreases |b|
  {
    OffsetBound(a, i);
    if b == [] {
      assert a + b == a && i + j == i;
    } else {
      var n := |b| - 1;
      assert (a + b)[..|a| + n] == a + b[..n] && (i + j)[..|a| + n] == i + j[..n];
      OffsetBound(b[..n], j[..n]);
      OffsetAppend(a, b[..n], i, j[..n]);
      Distribute(OffsetOf(a, i) * Product(b[..n]), OffsetOf(b[..n], j[..n]), b[n]);
      Regroup(OffsetOf(a, i), Product(b[..n]), b[n]);
    }
  }

  // ------------------------------------------------------------------- arrays

  datatype Layout = CLayout | FortranLayout

  /** A view: its layout and dimensions, and where its data start, in elements. */
  datatype Array = Array(layout: Layout, dims: seq<nat>, data: nat)

  function Reverse<T>(s: seq<T>): (r: seq<T>)
    ensures |r| == |s|
  {
    seq(|s|, i requires 0 <= i < |s| => s[|s| - 1 - i])
  }

  /** The dimensions from the slowest one to the fastest. */
  function RowDims(layout: Layout, dims: seq<nat>): seq<nat> {
    if layout == CLayout then dims else Reverse(dims)
  }

  /** An index in the same order, counted from 0. */
  function RowIndex(layout: Layout, index: seq<int>): (r: seq<int>)
    ensures |r| == |index|
  {
    if layout == CLayout then index
    else seq(|index|, i requires 0 <= i < |index| => index[|index| - 1 - i] - 1)
  }

  predicate InBounds(b: Array, index: seq<int>) {
    Below(RowDims(b.layout, b.dims), RowIndex(b.layout, index))
  }

  /** The element that an index designates. */
  function Address(b: Array, index: seq<int>): int
    requires InBounds(b, index)
  {
    b.data + OffsetOf(RowDims(b.layout, b.dims), RowIndex(b.layout, index))
  }

  lemma {:induction false} ProductReverse(dims: seq<nat>)
    ensures Product(Reverse(dims)) == Product(dims)
    decreases |dims|
  {
    if dims != [] {
      var n := |dims| - 1;
      ProductReverse(dims[..n]);
      assert Reverse(dims) == [dims[n]] + Reverse(dims[..n]);
      ProductAppend([dims[n]], Reverse(dims[..n]));
      SingleProduct(dims[n]);
    }
  }

  lemma SingleProduct(d: nat)
    ensures Product([d]) == d
  {
    assert [d][..0] == [] && Product([]) == 1;
  }

  lemma RowProduct(layout: Layout, dims: seq<nat>)
    ensures Product(RowDims(layout, dims)) == Product(dims)
  {
    ProductReverse(dims);
  }

  /** Offsets are in lexicographic order of the indices. */
  lemma {:induction false} OffsetOrder(dims: seq<nat>, index: seq<int>, index': seq<int>, i: nat)
    requires Below(dims, index) && Below(dims, index')
    requires i < |dims| && index[..i] == index'[..i] && index[i] < index'[i]
    ensures OffsetOf(dims, index) < OffsetOf(dims, index')
    decreases |dims|
  {
    var n := |dims| - 1;
    if i < n {
      assert index[..n][..i] == index[..i] && index'[..n][..i] == index'[..i];
      OffsetOrder(dims[..n], index[..n], index'[..n], i);
      OffsetBound(dims[..n], index[..n]);
      Successors(OffsetOf(dims[..n], index[..n]), OffsetOf(dims[..n], index'[..n]), dims[n]);
    }
  }

  /** Indices count from 0 in C layout and from 1 in Fortran layout. */
  lemma BoundsExact(b: Array, index: seq<int>)
    ensures InBounds(b, index) <==>
      |index| == |b.dims| && forall i :: 0 <= i < |index| ==>
        if b.layout == CLayout then 0 <= index[i] < b.dims[i] else 1 <= index[i] <= b.dims[i]
  {
    var n, dims, row := |index|, RowDims(b.layout, b.dims), RowIndex(b.layout, index);
    if b.layout != CLayout && n == |b.dims| {
      forall i | 0 <= i < n
        ensures row[n - 1 - i] == index[i] - 1 && dims[n - 1 - i] == b.dims[i]
      {
      }
    }
  }

  /** The last index is the fastest in C layout, the first in Fortran layout: addresses are in
      lexicographic order of the indices from the left, or from the right. */
  lemma AddressOrder(b: Array, index: seq<int>, index': seq<int>, i: nat)
    requires InBounds(b, index) && InBounds(b, index') && i < |index| && index[i] < index'[i]
    requires if b.layout == CLayout then index[..i] == index'[..i] else index[i + 1..] == index'[i + 1..]
    ensures Address(b, index) < Address(b, index')
  {
    var n, dims := |index|, RowDims(b.layout, b.dims);
    var row, row' := RowIndex(b.layout, index), RowIndex(b.layout, index');
    if b.layout == CLayout {
      OffsetOrder(dims, row, row', i);
    } else {
      forall j | 0 <= j < n - 1 - i ensures row[j] == row'[j] {
        assert index[n - 1 - j] == index[i + 1..][n - 2 - i - j];
      }
      OffsetOrder(dims, row, row', n - 1 - i);
    }
  }

  // ----------------------------------------------------------- caml_ba_offset

  /** caml_ba_offset: None for an index out of bounds. */
  method Offset(b: Array, index: seq<int>) returns (r: Option<int>)
    requires |index| == |b.dims|
    ensures r.Some? <==> InBounds(b, index)
    ensures r.Some? ==> b.data + r.value == Address(b, index)
  {
    ghost var dims, row := RowDims(b.layout, b.dims), RowIndex(b.layout, index);
    var offset, n := 0, |b.dims|;
    if b.layout == CLayout {
      var i := 0;
      while i < n
        invariant 0 <= i <= n && Below(dims[..i], row[..i]) && offset == OffsetOf(dims[..i], row[..i])
      {
        if !(0 <= index[i] < b.dims[i]) {
          assert row[i] == index[i];
          return None;
        }
        OffsetStep(dims, row, i);
        offset := offset * b.dims[i] + index[i];
        i := i + 1;
      }
    } else {
      var i := n;
      while i > 0
        invariant 0 <= i <= n && Below(dims[..n - i], row[..n - i]) && offset == OffsetOf(dims[..n - i], row[..n - i])
      {
        i := i - 1;
        assert row[n - 1 - i] == index[i] - 1 && dims[n - 1 - i] == b.dims[i];
        if !(0 <= index[i] - 1 < b.dims[i]) {
          return None;
        }
        OffsetStep(dims, row, n - 1 - i);
        offset := offset * b.dims[i] + (index[i] - 1);
      }
    }
    assert dims[..n] == dims && row[..n] == row;
    r := Some(offset);
  }

  lemma OffsetStep(dims: seq<nat>, row: seq<int>, i: nat)
    requires i < |dims| == |row| && Below(dims[..i], row[..i]) && 0 <= row[i] < dims[i]
    ensures Below(dims[..i + 1], row[..i + 1])
    ensures OffsetOf(dims[..i + 1], row[..i + 1]) == OffsetOf(dims[..i], row[..i]) * dims[i] + row[i]
  {
    assert dims[..i + 1][..i] == dims[..i] && row[..i + 1][..i] == row[..i];
  }

  /** In either layout, offsets are a bijection from the indices in bounds onto the
      numbers below the number of elements: within range, without clash, without gap. */
  lemma AddressRange(b: Array, index: seq<int>)
    requires InBounds(b, index)
    ensures b.data <= Address(b, index) < b.data + Product(b.dims)
  {
    OffsetBound(RowDims(b.layout, b.dims), RowIndex(b.layout, index));
    RowProduct(b.layout, b.dims);
  }

  lemma AddressInjective(b: Array, index: seq<int>, index': seq<int>)
    requires InBounds(b, index) && InBounds(b, index') && Address(b, index) == Address(b, index')
    ensures index == index'
  {
    var r, r' := RowIndex(b.layout, index), RowIndex(b.layout, index');
    OffsetInjective(RowDims(b.layout, b.dims), r, r');
    if b.layout == FortranLayout {
      forall i | 0 <= i < |index| ensures index[i] == index'[i] {
        assert r[|index| - 1 - i] == index[i] - 1 && r'[|index| - 1 - i] == index'[i] - 1;
      }
    }
  }

  lemma AddressSurjective(b: Array, a: nat) returns (index: seq<int>)
    requires b.data <= a < b.data + Product(b.dims)
    ensures InBounds(b, index) && Address(b, index) == a
  {
    RowProduct(b.layout, b.dims);
    var row := OffsetSurjective(RowDims(b.layout, b.dims), a - b.data);
    index := FromRow(b.layout, row);
    assert RowIndex(b.layout, index) == row;
  }

  /** The index with a given row index. */
  function FromRow(layout: Layout, row: seq<int>): (index: seq<int>)
    ensures |index| == |row|
  {
    if layout == CLayout then row
    else seq(|row|, i requires 0 <= i < |row| => row[|row| - 1 - i] + 1)
  }

  // ------------------------------------------------------------ allocation

  const MAX_NUM_DIMS := 16

  /** No product on the way overflows a word. */
  ghost predicate Allocable(dims: seq<nat>, eltSize: nat) {
    (forall k :: 0 <= k <= |dims| ==> Product(dims[..k]) < WORD) && Product(dims) * eltSize < WORD
  }

  /** The size computation of caml_ba_alloc, with every multiplication checked. */
  method CheckSize(dims: seq<nat>, eltSize: nat) returns (ok: bool)
    ensures ok <==> Allocable(dims, eltSize)
  {
    var numElts, i := 1, 0;
    assert dims[..0] == [];
    while i < |dims|
      invariant 0 <= i <= |dims| && numElts == Product(dims[..i]) < WORD
      invariant forall k :: 0 <= k <= i ==> Product(dims[..k]) < WORD
    {
      assert dims[..i + 1][..i] == dims[..i];
      numElts := numElts * dims[i];
      i := i + 1;
      if numElts >= WORD {
        return false;
      }
    }
    assert dims[..i] == dims;
    ok := numElts * eltSize < WORD;
  }

  // ---------------------------------------------------------------- slices

  /** The index of the parent for an index `j` of a slice: C layout slices from the left,
      Fortran layout from the right. */
  function SliceIndex(layout: Layout, inds: seq<int>, j: seq<int>): seq<int> {
    if layout == CLayout then inds + j else j + inds
  }

  /** The index of the first element of a slice. */
  function SliceStart(b: Array, inds: seq<int>): seq<int>
    requires |inds| <= |b.dims|
  {
    SliceIndex(b.layout, inds, seq(|b.dims| - |inds|, _ => if b.layout == CLayout then 0 else 1))
  }

  function SliceDims(b: Array, inds: seq<int>): seq<nat>
    requires |inds| <= |b.dims|
  {
    if b.layout == CLayout then b.dims[|inds|..] else b.dims[..|b.dims| - |inds|]
  }

  /** caml_ba_slice. It fails if there are too many indices, or the first element of the
      slice would be out of bounds. */
  method Slice(b: Array, inds: seq<int>, eltSize: nat) returns (r: Option<Array>)
    ensures r.Some? <==>
      |inds| <= |b.dims| && InBounds(b, SliceStart(b, inds)) && Allocable(SliceDims(b, inds), eltSize)
    ensures r.Some? ==> IsSlice(b, inds, r.value)
  {
    var n, k := |b.dims|, |inds|;
    if k > n {
      return None;
    }
    var index, subDims;
    if b.layout == CLayout {
      index := inds + seq(n - k, _ => 0);
      subDims := b.dims[k..];
    } else {
      index := seq(n - k, _ => 1) + inds;
      subDims := b.dims[..n - k];
    }
    assert index == SliceStart(b, inds);
    var offset := Offset(b, index);
    if offset == None {
      return None;
    }
    AddressRange(b, index);
    var ok := CheckSize(subDims, eltSize);
    if !ok {
      return None;
    }
    r := Some(Array(b.layout, subDims, b.data + offset.value));
    assert index == SliceIndex(b.layout, inds, seq(|subDims|, _ => if b.layout == CLayout then 0 else 1));
    SliceRight(b, inds, index, r.value);
  }

  /** A slice has the dimensions that are left, and each of its elements is the element
      of the parent at the fixed indices and its own. */
  ghost predicate IsSlice(b: Array, inds: seq<int>, r: Array)
    requires |inds| <= |b.dims|
  {
    && r.layout == b.layout
    && r.dims == SliceDims(b, inds)
    && (forall j :: InBounds(r, j) ==> SameElement(b, SliceIndex(b.layout, inds, j), r, j))
  }

  ghost predicate SameElement(b: Array, index: seq<int>, r: Array, j: seq<int>) {
    InBounds(b, index) && InBounds(r, j) && Address(b, index) == Address(r, j)
  }

  /** The fixed part of the dimensions, slowest first, and the part that is left. */
  lemma SliceParts(b: Array, inds: seq<int>, j: seq<int>, fixed: seq<nat>, rest: seq<nat>)
    requires |inds| + |j| == |b.dims|
    requires fixed == RowDims(b.layout, if b.layout == CLayout then b.dims[..|inds|] else b.dims[|b.dims| - |inds|..])
    requires rest == RowDims(b.layout, if b.layout == CLayout then b.dims[|inds|..] else b.dims[..|b.dims| - |inds|])
    ensures RowDims(b.layout, b.dims) == fixed + rest
    ensures RowIndex(b.layout, SliceIndex(b.layout, inds, j)) == RowIndex(b.layout, inds) + RowIndex(b.layout, j)
    ensures InBounds(b, SliceIndex(b.layout, inds, j)) <==>
              Below(fixed, RowIndex(b.layout, inds)) && Below(rest, RowIndex(b.layout, j))
  {
    var row := RowIndex(b.layout, SliceIndex(b.layout, inds, j));
    assert row == RowIndex(b.layout, inds) + RowIndex(b.layout, j);
    BelowAppend(fixed, rest, RowIndex(b.layout, inds), RowIndex(b.layout, j));
  }

  lemma BelowAppend(a: seq<nat>, b: seq<nat>, i: seq<int>, j: seq<int>)
    requires |a| == |i| && |b| == |j|
    ensures Below(a + b, i + j) <==> Below(a, i) && Below(b, j)
  {
    if Below(a + b, i + j) {
      assert forall k :: 0 <= k < |a| ==> (a + b)[k] == a[k] && (i + j)[k] == i[k];
      assert forall k :: 0 <= k < |b| ==> (a + b)[|a| + k] == b[k] && (i + j)[|a| + k] == j[k];
    }
  }

  lemma SliceRight(b: Array, inds: seq<int>, index: seq<int>, r: Array)
    requires |inds| <= |b.dims| && InBounds(b, index) && r.data == Address(b, index) && r.layout == b.layout
    requires r.dims == SliceDims(b, inds)
    requires index == SliceIndex(b.layout, inds, seq(|r.dims|, _ => if b.layout == CLayout then 0 else 1))
    ensures IsSlice(b, inds, r)
  {
    var zero := seq(|r.dims|, _ => if b.layout == CLayout then 0 else 1);
    var fixed := RowDims(b.layout, if b.layout == CLayout then b.dims[..|inds|] else b.dims[|b.dims| - |inds|..]);
    var rest := RowDims(b.layout, r.dims);
    SliceParts(b, inds, zero, fixed, rest);
    OffsetAppend(fixed, rest, RowIndex(b.layout, inds), RowIndex(b.layout, zero));
    ZeroOffset(rest, RowIndex(b.layout, zero));
    forall j | InBounds(r, j) ensures SameElement(b, SliceIndex(b.layout, inds, j), r, j) {
      SliceParts(b, inds, j, fixed, rest);
      OffsetAppend(fixed, rest, RowIndex(b.layout, inds), RowIndex(b.layout, j));
    }
  }

  lemma {:induction false} ZeroOffset(dims: seq<nat>, index: seq<int>)
    requires |index| == |dims| && forall i :: 0 <= i < |index| ==> index[i] == 0
    ensures OffsetOf(dims, index) == 0
    decreases |dims|
  {
    if dims != [] {
      ZeroOffset(dims[..|dims| - 1], index[..|dims| - 1]);
    }
  }

  // ------------------------------------------------------------- sub-arrays

  /** The dimension that a sub-array shortens: the slowest one. */
  function ChangedDim(b: Array): nat
    requires b.dims != []
  {
    if b.layout == CLayout then 0 else |b.dims| - 1
  }

  /** The loop that multiplies the other dimensions. */
  method Stride(b: Array) returns (mul: nat)
    requires b.dims != []
    ensures mul == Product(RowDims(b.layout, b.dims)[1..])
  {
    var others := if b.layout == CLayout then b.dims[1..] else b.dims[..|b.dims| - 1];
    mul := 1;
    var i := 0;
    assert others[..0] == [];
    while i < |others|
      invariant i <= |others| && mul == Product(others[..i])
    {
      assert others[..i + 1][..i] == others[..i];
      mul := mul * others[i];
      i := i + 1;
    }
    assert others[..i] == others;
    if b.layout == FortranLayout {
      ProductReverse(others);
      assert RowDims(b.layout, b.dims)[1..] == Reverse(others);
    }
  }

  /** caml_ba_sub, of an array with at least one dimension. */
  method Sub(b: Array, vofs: int, len: int, eltSize: nat) returns (r: Option<Array>)
    requires b.dims != []
    ensures var ofs := if b.layout == CLayout then vofs else vofs - 1;
      && (r.Some? <==> 0 <= ofs && 0 <= len && ofs + len <= b.dims[ChangedDim(b)] && Allocable(b.dims, eltSize))
      && (r.Some? ==> IsSub(b, ofs, len, r.value))
  {
    var mul := Stride(b);
    var ofs := if b.layout == CLayout then vofs else vofs - 1;
    if ofs < 0 || len < 0 || ofs + len > b.dims[ChangedDim(b)] {
      return None;
    }
    var ok := CheckSize(b.dims, eltSize);
    if !ok {
      return None;
    }
    r := Some(Array(b.layout, b.dims[ChangedDim(b) := len], b.data + ofs * mul));
    SubRight(b, ofs, len, r.value);
  }

  /** The index of the parent for an index of a sub-array. */
  function SubIndex(b: Array, ofs: nat, j: seq<int>): seq<int>
    requires b.dims != [] && |j| == |b.dims|
  {
    j[ChangedDim(b) := j[ChangedDim(b)] + ofs]
  }

  ghost predicate IsSub(b: Array, ofs: nat, len: nat, r: Array)
    requires b.dims != []
  {
    && r.layout == b.layout && r.dims == b.dims[ChangedDim(b) := len]
    && forall j :: InBounds(r, j) ==> |j| == |b.dims| && SameElement(b, SubIndex(b, ofs, j), r, j)
  }

  lemma SubRight(b: Array, ofs: nat, len: nat, r: Array)
    requires b.dims != [] && ofs + len <= b.dims[ChangedDim(b)]
    requires r == Array(b.layout, b.dims[ChangedDim(b) := len], b.data + ofs * Product(RowDims(b.layout, b.dims)[1..]))
    ensures IsSub(b, ofs, len, r)
  {
    var dims := RowDims(b.layout, b.dims);
    assert RowDims(b.layout, r.dims) == dims[0 := len];
    forall j | InBounds(r, j) ensures |j| == |b.dims| && SameElement(b, SubIndex(b, ofs, j), r, j) {
      var row := RowIndex(b.layout, j);
      assert RowIndex(b.layout, SubIndex(b, ofs, j)) == row[0 := row[0] + ofs];
      ShiftFirst(dims, row, ofs, len);
    }
  }

  /** Moving the slowest index moves the offset by as many blocks. */
  lemma {:induction false} ShiftFirst(dims: seq<nat>, row: seq<int>, ofs: nat, len: nat)
    requires dims != [] && Below(dims[0 := len], row) && ofs + len <= dims[0]
    ensures Below(dims, row[0 := row[0] + ofs])
    ensures OffsetOf(dims, row[0 := row[0] + ofs]) == ofs * Product(dims[1..]) + OffsetOf(dims[0 := len], row)
  {
    SplitFirst(dims, row, len);
    assert row[0 := row[0] + ofs] == [row[0] + ofs] + row[1..];
    ShiftHead(dims[0], len, dims[1..], row[0], row[1..], ofs);
  }

  lemma BelowTail(dims: seq<nat>, row: seq<int>)
    requires dims != [] && Below(dims, row)
    ensures Below(dims[1..], row[1..]) && 0 <= row[0] < dims[0]
  {
    assert forall i :: 0 <= i < |dims| - 1 ==> dims[1..][i] == dims[i + 1] && row[1..][i] == row[i + 1];
  }

  lemma {:induction false} SplitFirst(dims: seq<nat>, row: seq<int>, len: nat)
    requires dims != [] && Below(dims[0 := len], row)
    ensures Below(dims[1..], row[1..]) && 0 <= row[0] < len
    ensures dims == [dims[0]] + dims[1..] && dims[0 := len] == [len] + dims[1..] && row == [row[0]] + row[1..]
  {
    BelowTail(dims[0 := len], row);
    assert dims[0 := len][1..] == dims[1..];
  }

  lemma {:induction false} ShiftHead(d: nat, len: nat, rest: seq<nat>, k: int, tail: seq<int>, ofs: nat)
    requires Below(rest, tail) && 0 <= k < len && ofs + len <= d
    ensures Below([d] + rest, [k + ofs] + tail) && Below([len] + rest, [k] + tail)
    ensures OffsetOf([d] + rest, [k + ofs] + tail) == ofs * Product(rest) + OffsetOf([len] + rest, [k] + tail)
  {
    OffsetHead(len, rest, k, tail);
    OffsetHead(d, rest, k + ofs, tail);
    Distribute(k, ofs, Product(rest));
  }

  lemma {:induction false} OffsetHead(d: nat, rest: seq<nat>, k: int, tail: seq<int>)
    requires 0 <= k < d && Below(rest, tail)
    ensures Below([d] + rest, [k] + tail)
    ensures OffsetOf([d] + rest, [k] + tail) == k * Product(rest) + OffsetOf(rest, tail)
  {
    BelowAppend([d], rest, [k], tail);
    OffsetAppend([d], rest, [k], tail);
    SingleOffset(d, k);
  }

  lemma SingleOffset(d: nat, k: int)
    ensures OffsetOf([d], [k]) == k
  {
    assert [d][..0] == [] && [k][..0] == [];
  }

  // ---------------------------------------------------------- change of layout

  /** caml_ba_change_layout. */
  method ChangeLayout(b: Array, layout: Layout, eltSize: nat) returns (r: Option<Array>)
    ensures r.Some? <==> layout == b.layout || Allocable(Reverse(b.dims), eltSize)
    ensures r.Some? && layout == b.layout ==> r.value == b
    ensures r.Some? && layout != b.layout ==>
      r.value.layout == layout && r.value.dims == Reverse(b.dims) && IsMirror(b, r.value)
  {
    if layout == b.layout {
      return Some(b);
    }
    var newDims: seq<nat> := [];
    var i := 0;
    while i < |b.dims|
      invariant i <= |b.dims| && newDims == Reverse(b.dims)[..i]
    {
      newDims := newDims + [b.dims[|b.dims| - i - 1]];
      i := i + 1;
    }
    assert Reverse(b.dims)[..i] == Reverse(b.dims);
    var ok := CheckSize(newDims, eltSize);
    if !ok {
      return None;
    }
    r := Some(Array(layout, newDims, b.data));
    MirrorRight(b, r.value);
  }

  /** The same element in the other layout: indices reversed, and counted from the
      other origin. */
  function MirrorIndex(layout: Layout, j: seq<int>): seq<int> {
    seq(|j|, i requires 0 <= i < |j| => j[|j| - 1 - i] + if layout == CLayout then -1 else 1)
  }

  ghost predicate IsMirror(b: Array, r: Array) {
    forall j :: InBounds(r, j) ==> SameElement(b, MirrorIndex(b.layout, j), r, j)
  }

  lemma MirrorRight(b: Array, r: Array)
    requires r.layout != b.layout && r.dims == Reverse(b.dims) && r.data == b.data
    ensures IsMirror(b, r)
  {
    assert RowDims(r.layout, r.dims) == RowDims(b.layout, b.dims);
    forall j | InBounds(r, j) ensures SameElement(b, MirrorIndex(b.layout, j), r, j) {
      assert RowIndex(b.layout, MirrorIndex(b.layout, j)) == RowIndex(r.layout, j);
    }
  }

  // ---------------------------------------------------------------- reshaping

  /** caml_ba_reshape. The product of the new dimensions is computed in a word and may
      wrap around; the checked product in caml_ba_alloc then refuses. */
  method Reshape(b: Array, vdim: seq<int>, eltSize: nat) returns (r: Option<Array>)
    requires Allocable(b.dims, eltSize) && Product(b.dims) < WORD
    ensures r.Some? ==> r.value.layout == b.layout && r.value.data == b.data && r.value.dims == vdim
    ensures r.Some? ==> Product(r.value.dims) == Product(b.dims) && IsReshape(b, r.value)
    ensures r.Some? <==>
      && |vdim| <= MAX_NUM_DIMS && (forall i :: 0 <= i < |vdim| ==> vdim[i] >= 0)
      && Product(Naturals(vdim)) == Product(b.dims) && Allocable(Naturals(vdim), eltSize)
  {
    if |vdim| > MAX_NUM_DIMS {
      return None;
    }
    var valid, dims, numElts := ReadDims(vdim);
    if !valid {
      return None;
    }
    assert dims[..|dims|] == dims;
    var expected := NumElts(b);
    if numElts != expected {
      return None;
    }
    var ok := CheckSize(dims, eltSize);
    if !ok {
      return None;
    }
    r := Some(Array(b.layout, dims, b.data));
    ReshapeRight(b, r.value);
  }

  /** The new dimensions, none of them negative, and their product in a word. */
  method ReadDims(vdim: seq<int>) returns (valid: bool, dims: seq<nat>, numElts: nat)
    ensures valid <==> forall i :: 0 <= i < |vdim| ==> vdim[i] >= 0
    ensures valid ==> dims == Naturals(vdim) == vdim && numElts == Product(dims) % WORD
  {
    dims, numElts := [], 1;
    var i := 0;
    while i < |vdim|
      invariant i <= |vdim| && dims == vdim[..i] && numElts == Product(dims) % WORD
      invariant forall k :: 0 <= k < i ==> vdim[k] >= 0
    {
      if vdim[i] < 0 {
        return false, dims, numElts;
      }
      assert (dims + [vdim[i]])[..i] == dims;
      WrappedProduct(Product(dims), vdim[i]);
      dims := dims + [vdim[i]];
      numElts := numElts * vdim[i] % WORD;
      i := i + 1;
    }
    assert dims == vdim && Naturals(vdim) == vdim;
    valid := true;
  }

  function Naturals(vdim: seq<int>): (r: seq<nat>)
    ensures |r| == |vdim|
  {
    seq(|vdim|, i requires 0 <= i < |vdim| => if vdim[i] >= 0 then vdim[i] else 0)
  }

  lemma WrappedProduct(p: nat, d: nat)
    ensures p % WORD * d % WORD == p * d % WORD
  {
    var q, r := p / WORD, p % WORD;
    assert p == q * WORD + r;
    Distribute(q * WORD, r, d);
    assert q * WORD * d == q * d * WORD;
    WrapMultiple(q * d, r * d);
  }

  lemma WrapMultiple(k: nat, x: nat)
    ensures (k * WORD + x) % WORD == x % WORD
  {
  }

  /** caml_ba_num_elts: in a word, which is enough for an array that was allocated. */
  method NumElts(b: Array) returns (n: nat)
    requires Product(b.dims) < WORD
    ensures n == Product(b.dims)
  {
    n := 1;
    var i := 0;
    assert b.dims[..0] == [];
    while i < |b.dims|
      invariant i <= |b.dims| && n == Product(b.dims[..i]) % WORD
    {
      assert b.dims[..i + 1][..i] == b.dims[..i];
      WrappedProduct(Product(b.dims[..i]), b.dims[i]);
      n := n * b.dims[i] % WORD;
      i := i + 1;
    }
    assert b.dims[..i] == b.dims;
  }

  /** Every element of a reshaped array is an element of the parent. */
  ghost predicate IsReshape(b: Array, r: Array) {
    forall j :: InBounds(r, j) ==> exists index :: SameElement(b, index, r, j)
  }

  lemma ReshapeRight(b: Array, r: Array)
    requires r.data == b.data && Product(r.dims) == Product(b.dims)
    ensures IsReshape(b, r)
  {
    forall j | InBounds(r, j) ensures exists index :: SameElement(b, index, r, j) {
      AddressRange(r, j);
      var index := AddressSurjective(b, Address(r, j));
      assert SameElement(b, index, r, j);
    }
  }
}
