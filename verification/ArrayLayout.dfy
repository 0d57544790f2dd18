/**
 The layout arithmetic of `Array` (ucp/_libs/arr.pyx): when the contiguity loops accept an array,
 its elements fill exactly the bytes `ptr[0..nbytes)` that are handed to UCX.
 */
module ArrayLayout {

  function Prod(shape: seq<nat>): nat {
    if shape == [] then 1 else shape[0] * Prod(shape[1..])
  }

  /** Row-major strides. */
  function CStrides(itemsize: nat, shape: seq<nat>): (r: seq<int>)
    ensures |r| == |shape|
  {
    if shape == [] then [] else [itemsize * Prod(shape[1..])] + CStrides(itemsize, shape[1..])
  }

  /** Column-major strides. */
  function FStrides(itemsize: nat, shape: seq<nat>): (r: seq<int>)
    ensures |r| == |shape|
    decreases |shape|
  {
    if shape == [] then [] else [itemsize] + FStrides(itemsize * shape[0], shape[1..])
  }

  function Rev<T>(s: seq<T>): (r: seq<T>)
    ensures |r| == |s| && forall i :: 0 <= i < |s| ==> r[i] == s[|s| - 1 - i]
  {
    if s == [] then [] else Rev(s[1..]) + [s[0]]
  }

  lemma MulStep(a: nat, b: nat, c: nat)
    ensures a * b * c == a * (c * b) == a * (b * c)
  {
  }

  lemma {:induction false} ProdConcat(a: seq<nat>, b: seq<nat>)
    ensures Prod(a + b) == Prod(a) * Prod(b)
  {
    if a == [] {
      assert a + b == b;
    } else {
      assert (a + b)[1..] == a[1..] + b;
      ProdConcat(a[1..], b);
      MulStep(a[0], Prod(a[1..]), Prod(b));
    }
  }

  lemma ProdAppend(s: seq<nat>, e: nat)
    ensures Prod(s + [e]) == Prod(s) * e
  {
    ProdConcat(s, [e]);
    assert [e][1..] == [];
  }

  lemma {:induction false} CStridesSuffix(itemsize: nat, shape: seq<nat>, i: nat)
    requires i <= |shape|
    ensures CStrides(itemsize, shape)[i..] == CStrides(itemsize, shape[i..])
  {
    if i == 0 {
    } else {
      CStridesSuffix(itemsize, shape[1..], i - 1);
      assert shape[1..][i - 1..] == shape[i..];
    }
  }

  // ---------------------------------------------------------------------------------------
  // The loops

  method CContiguous(itemsize: nat, shape: array<nat>, strides: array?<int>) returns (r: bool)
    requires strides != null ==> strides.Length == shape.Length
    ensures r <==> strides == null || strides[..] == CStrides(itemsize, shape[..])
  {
    if strides != null {
      var s := itemsize;
      var i := shape.Length;
      while i > 0
        invariant 0 <= i <= shape.Length
        invariant s == itemsize * Prod(shape[i..])
        invariant strides[i..] == CStrides(itemsize, shape[i..])
      {
        assert shape[i - 1..][1..] == shape[i..];
        CStridesSuffix(itemsize, shape[..], i - 1);
        if s != strides[i - 1] {
          return false;
        }
        MulStep(itemsize, Prod(shape[i..]), shape[i - 1]);
        s := s * shape[i - 1];
        i := i - 1;
      }
      assert shape[0..] == shape[..] && strides[0..] == strides[..];
    }
    return true;
  }

  method FContiguous(itemsize: nat, shape: array<nat>, strides: array?<int>) returns (r: bool)
    requires strides != null ==> strides.Length == shape.Length
    ensures r <==> if strides == null then shape.Length <= 1 else strides[..] == FStrides(itemsize, shape[..])
  {
    if strides != null {
      var s := itemsize;
      var i := 0;
      while i < shape.Length
        invariant 0 <= i <= shape.Length
        invariant FStrides(itemsize, shape[..]) == strides[..i] + FStrides(s, shape[i..])
      {
        assert shape[i..][1..] == shape[i + 1..];
        assert FStrides(itemsize, shape[..])[i] == s;
        if s != strides[i] {
          return false;
        }
        s := s * shape[i];
        i := i + 1;
      }
      assert strides[..i] == strides[..];
    } else if shape.Length > 1 {
      return false;
    }
    return true;
  }

  method Contiguous(itemsize: nat, shape: array<nat>, strides: array?<int>) returns (r: bool)
    requires strides != null ==> strides.Length == shape.Length
    ensures r <==> strides == null || strides[..] == CStrides(itemsize, shape[..])
                                   || strides[..] == FStrides(itemsize, shape[..])
  {
    r := CContiguous(itemsize, shape, strides);
    if !r {
      r := FContiguous(itemsize, shape, strides);
    }
  }

  method Nbytes(itemsize: nat, shape: array<nat>) returns (nbytes: nat)
    ensures nbytes == itemsize * Prod(shape[..])
  {
    nbytes := itemsize;
    var i := 0;
    while i < shape.Length
      invariant 0 <= i <= shape.Length
      invariant nbytes == itemsize * Prod(shape[..i])
    {
      ProdAppend(shape[..i], shape[i]);
      assert shape[..i + 1] == shape[..i] + [shape[i]];
      MulStep(itemsize, Prod(shape[..i]), shape[i]);
      nbytes := nbytes * shape[i];
      i := i + 1;
    }
    assert shape[..i] == shape[..];
  }

  /** The `strides` property: the stored strides, or row-major ones. */
  method Strides(itemsize: nat, shape: array<nat>, strides: array?<int>) returns (r: seq<int>)
    requires strides != null ==> strides.Length == shape.Length
    ensures r == if strides != null then strides[..] else CStrides(itemsize, shape[..])
  {
    if strides != null {
      return strides[..];
    }
    var s := itemsize;
    var i := shape.Length;
    r := [];
    while i > 0
      invariant 0 <= i <= shape.Length
      invariant s == itemsize * Prod(shape[i..]) && r == CStrides(itemsize, shape[i..])
    {
      assert shape[i - 1..][1..] == shape[i..];
      r := [s] + r;
      MulStep(itemsize, Prod(shape[i..]), shape[i - 1]);
      s := s * shape[i - 1];
      i := i - 1;
    }
    assert shape[0..] == shape[..];
  }

  // ---------------------------------------------------------------------------------------
  // A contiguous layout is a bijection onto the bytes that are sent

  predicate ValidIndex(shape: seq<nat>, idx: seq<nat>) {
    |idx| == |shape| && forall k :: 0 <= k < |idx| ==> idx[k] < shape[k]
  }

  /** Byte offset of an element. */
  function Offset(strides: seq<int>, idx: seq<nat>): int
    requires |idx| == |strides|
  {
    if idx == [] then 0 else idx[0] * strides[0] + Offset(strides[1..], idx[1..])
  }

  /** The element, and the byte in it, at byte `o` of a row-major array. */
  function Locate(itemsize: nat, shape: seq<nat>, o: nat): (seq<nat>, nat)
    requires o < itemsize * Prod(shape)
    decreases |shape|
  {
    if shape == [] then ([], o)
    else
      var row := itemsize * Prod(shape[1..]);
      RowsFit(itemsize, shape, o);
      var (idx, b) := Locate(itemsize, shape[1..], o % row);
      ([o / row] + idx, b)
  }

  lemma QuotientBelow(o: nat, row: nat, n: nat)
    requires o < row * n
    ensures row > 0 && o / row < n && o == (o / row) * row + o % row
  {
    var q := o / row;
    if q >= n {
      MulMono(n, q, row);
    }
  }

  lemma RowsFit(itemsize: nat, shape: seq<nat>, o: nat)
    requires shape != [] && o < itemsize * Prod(shape)
    ensures var row := itemsize * Prod(shape[1..]); row > 0 && o / row < shape[0] && o == (o / row) * row + o % row
  {
    MulStep(itemsize, Prod(shape[1..]), shape[0]);
    QuotientBelow(o, itemsize * Prod(shape[1..]), shape[0]);
  }

  lemma MulMono(a: nat, b: nat, c: nat)
    requires a <= b
    ensures a * c <= b * c && c * a <= c * b
  {
  }

  /** Quotient and remainder are unique. */
  lemma DivUnique(q: nat, row: nat, r: nat)
    requires r < row
    ensures (q * row + r) / row == q && (q * row + r) % row == r
  {
    var o := q * row + r;
    assert o == (o / row) * row + o % row;
    if o / row < q {
      MulMono(o / row + 1, q, row);
    } else if o / row > q {
      MulMono(q + 1, o / row, row);
    }
  }

  lemma {:induction false} RowMajorInto(itemsize: nat, shape: seq<nat>, idx: seq<nat>, b: nat)
    requires ValidIndex(shape, idx) && b < itemsize
    ensures var o := Offset(CStrides(itemsize, shape), idx) + b;
      0 <= o < itemsize * Prod(shape) && Locate(itemsize, shape, o) == (idx, b)
    decreases |shape|
  {
    if shape == [] {
    } else {
      RowMajorInto(itemsize, shape[1..], idx[1..], b);
      var row := itemsize * Prod(shape[1..]);
      var r := Offset(CStrides(itemsize, shape[1..]), idx[1..]) + b;
      MulStep(itemsize, Prod(shape[1..]), shape[0]);
      MulMono(idx[0] + 1, shape[0], row);
      DivUnique(idx[0], row, r);
      assert CStrides(itemsize, shape)[1..] == CStrides(itemsize, shape[1..]);
      assert idx == [idx[0]] + idx[1..];
    }
  }

  lemma {:induction false} RowMajorOnto(itemsize: nat, shape: seq<nat>, o: nat)
    requires o < itemsize * Prod(shape)
    ensures var (idx, b) := Locate(itemsize, shape, o);
      ValidIndex(shape, idx) && b < itemsize && Offset(CStrides(itemsize, shape), idx) + b == o
    decreases |shape|
  {
    if shape == [] {
    } else {
      RowsFit(itemsize, shape, o);
      var row := itemsize * Prod(shape[1..]);
      RowMajorOnto(itemsize, shape[1..], o % row);
      assert CStrides(itemsize, shape)[1..] == CStrides(itemsize, shape[1..]);
    }
  }

  // ---------------------------------------------------------------------------------------
  // Column-major is row-major of the reversed shape

  lemma {:induction false} ProdRev(shape: seq<nat>)
    ensures Prod(Rev(shape)) == Prod(shape)
  {
    if shape == [] {
    } else {
      ProdRev(shape[1..]);
      ProdAppend(Rev(shape[1..]), shape[0]);
    }
  }

  lemma {:induction false} FStridesAt(itemsize: nat, shape: seq<nat>, i: nat)
    requires i < |shape|
    ensures FStrides(itemsize, shape)[i] == itemsize * Prod(shape[..i])
    decreases i
  {
    if i == 0 {
    } else {
      FStridesAt(itemsize * shape[0], shape[1..], i - 1);
      assert shape[..i] == [shape[0]] + shape[1..][..i - 1];
      MulStep(itemsize, Prod(shape[1..][..i - 1]), shape[0]);
    }
  }

  lemma {:induction false} CStridesAt(itemsize: nat, shape: seq<nat>, i: nat)
    requires i < |shape|
    ensures CStrides(itemsize, shape)[i] == itemsize * Prod(shape[i + 1..])
  {
    if i == 0 {
    } else {
      CStridesAt(itemsize, shape[1..], i - 1);
      assert shape[1..][i..] == shape[i + 1..];
    }
  }

  lemma ColumnMajorIsReversedRowMajor(itemsize: nat, shape: seq<nat>)
    ensures FStrides(itemsize, shape) == Rev(CStrides(itemsize, Rev(shape)))
    ensures Prod(Rev(shape)) == Prod(shape)
  {
    ProdRev(shape);
    var f, c := FStrides(itemsize, shape), CStrides(itemsize, Rev(shape));
    forall i | 0 <= i < |shape|
      ensures f[i] == Rev(c)[i]
    {
      FStridesAt(itemsize, shape, i);
      CStridesAt(itemsize, Rev(shape), |shape| - 1 - i);
      assert Rev(shape)[|shape| - i..] == Rev(shape[..i]);
      ProdRev(shape[..i]);
    }
  }

  lemma {:induction false} OffsetAppend(strides: seq<int>, idx: seq<nat>, st: int, x: nat)
    requires |strides| == |idx|
    ensures Offset(strides + [st], idx + [x]) == Offset(strides, idx) + x * st
  {
    if idx == [] {
      assert (strides + [st])[1..] == [] && (idx + [x])[1..] == [];
    } else {
      assert (strides + [st])[1..] == strides[1..] + [st] && (idx + [x])[1..] == idx[1..] + [x];
      OffsetAppend(strides[1..], idx[1..], st, x);
    }
  }

  lemma {:induction false} OffsetRev(strides: seq<int>, idx: seq<nat>)
    requires |strides| == |idx|
    ensures Offset(Rev(strides), Rev(idx)) == Offset(strides, idx)
  {
    if idx == [] {
    } else {
      OffsetRev(strides[1..], idx[1..]);
      OffsetAppend(Rev(strides[1..]), Rev(idx[1..]), strides[0], idx[0]);
    }
  }

  // ---------------------------------------------------------------------------------------
  // Main results

  ghost predicate IsContiguous(itemsize: nat, shape: seq<nat>, strides: seq<int>) {
    strides == CStrides(itemsize, shape) || strides == FStrides(itemsize, shape)
  }

  lemma RevRev<T>(s: seq<T>)
    ensures Rev(Rev(s)) == s
  {
  }

  lemma ColumnMajorInto(itemsize: nat, shape: seq<nat>, idx: seq<nat>, b: nat)
    requires ValidIndex(shape, idx) && b < itemsize
    ensures var o := Offset(FStrides(itemsize, shape), idx) + b;
      && 0 <= o < itemsize * Prod(shape) && o < itemsize * Prod(Rev(shape))
      && Locate(itemsize, Rev(shape), o) == (Rev(idx), b)
  {
    ColumnMajorIsReversedRowMajor(itemsize, shape);
    var c := CStrides(itemsize, Rev(shape));
    assert Offset(FStrides(itemsize, shape), idx) == Offset(c, Rev(idx)) by {
      RevRev(idx);
      OffsetRev(c, Rev(idx));
    }
    RowMajorInto(itemsize, Rev(shape), Rev(idx), b);
    assert itemsize * Prod(Rev(shape)) == itemsize * Prod(shape);
  }

  /** Every byte of every element of an accepted array lies in `[0, nbytes)`. */
  lemma AddressInRange(itemsize: nat, shape: seq<nat>, strides: seq<int>, idx: seq<nat>, b: nat)
    requires IsContiguous(itemsize, shape, strides) && ValidIndex(shape, idx) && b < itemsize
    ensures 0 <= Offset(strides, idx) + b < itemsize * Prod(shape)
  {
    if strides == CStrides(itemsize, shape) {
      RowMajorInto(itemsize, shape, idx, b);
    } else {
      ColumnMajorInto(itemsize, shape, idx, b);
    }
  }

  /** Different bytes of an accepted array have different addresses. */
  lemma AddressOneToOne(itemsize: nat, shape: seq<nat>, strides: seq<int>,
                        idx: seq<nat>, b: nat, idx': seq<nat>, b': nat)
    requires IsContiguous(itemsize, shape, strides)
    requires ValidIndex(shape, idx) && b < itemsize && ValidIndex(shape, idx') && b' < itemsize
    requires Offset(strides, idx) + b == Offset(strides, idx') + b'
    ensures idx == idx' && b == b'
  {
    if strides == CStrides(itemsize, shape) {
      RowMajorInto(itemsize, shape, idx, b);
      RowMajorInto(itemsize, shape, idx', b');
    } else {
      ColumnMajorInto(itemsize, shape, idx, b);
      ColumnMajorInto(itemsize, shape, idx', b');
      RevRev(idx);
      RevRev(idx');
    }
  }

  /** And every byte of `[0, nbytes)` is one of them. */
  lemma AddressOnto(itemsize: nat, shape: seq<nat>, strides: seq<int>, o: nat)
      returns (idx: seq<nat>, b: nat)
    requires IsContiguous(itemsize, shape, strides) && o < itemsize * Prod(shape)
    ensures ValidIndex(shape, idx) && b < itemsize && |strides| == |idx| && Offset(strides, idx) + b == o
  {
    if strides == CStrides(itemsize, shape) {
      RowMajorOnto(itemsize, shape, o);
      var l := Locate(itemsize, shape, o);
      idx, b := l.0, l.1;
    } else {
      ColumnMajorIsReversedRowMajor(itemsize, shape);
      RowMajorOnto(itemsize, Rev(shape), o);
      var l := Locate(itemsize, Rev(shape), o);
      idx, b := Rev(l.0), l.1;
      assert Rev(strides) == CStrides(itemsize, Rev(shape)) && Rev(idx) == l.0;
      OffsetRev(strides, idx);
    }
  }

  /** `_f_contiguous` on stored strides is `_c_contiguous` of the reversed array. */
  lemma ColumnMajorIffReversedRowMajor(itemsize: nat, shape: seq<nat>, strides: seq<int>)
    ensures strides == FStrides(itemsize, shape) <==> Rev(strides) == CStrides(itemsize, Rev(shape))
  {
    ColumnMajorIsReversedRowMajor(itemsize, shape);
    if Rev(strides) == CStrides(itemsize, Rev(shape)) {
      assert strides == Rev(Rev(strides));
    }
  }

  // ---------------------------------------------------------------------------------------
  // Machine integers

  /** The extents after the last zero. */
  function Trailing(shape: seq<nat>): seq<nat> {
    if shape == [] then [] else if shape[|shape| - 1] == 0 then []
    else Trailing(shape[..|shape| - 1]) + [shape[|shape| - 1]]
  }

  lemma {:induction false} TrailingProd(shape: seq<nat>, i: nat)
    requires i <= |shape|
    ensures Prod(shape[i..]) <= Prod(Trailing(shape)) && Prod(Trailing(shape)) > 0
    ensures |Trailing(shape)| <= |shape| && Trailing(shape) == shape[|shape| - |Trailing(shape)|..]
  {
    if shape == [] {
    } else {
      var front, e := shape[..|shape| - 1], shape[|shape| - 1];
      TrailingProd(front, if i < |shape| then i else i - 1);
      MulMono(1, Prod(Trailing(front)), e);
      ProdAppend(Trailing(front), e);
      if i < |shape| {
        assert shape[i..] == front[i..] + [e];
        ProdAppend(front[i..], e);
        MulMono(Prod(front[i..]), Prod(Trailing(front)), e);
      }
    }
  }

  /** The extents before the first zero. */
  function Leading(shape: seq<nat>): seq<nat> {
    if shape == [] || shape[0] == 0 then [] else [shape[0]] + Leading(shape[1..])
  }

  lemma {:induction false} LeadingProd(shape: seq<nat>, i: nat)
    requires i <= |shape|
    ensures Prod(shape[..i]) <= Prod(Leading(shape)) && Prod(Leading(shape)) > 0
    ensures |Leading(shape)| <= |shape| && Leading(shape) == shape[..|Leading(shape)|]
  {
    if shape == [] {
    } else {
      LeadingProd(shape[1..], if i > 0 then i - 1 else 0);
      if i > 0 {
        assert shape[..i] == [shape[0]] + shape[1..][..i - 1];
        MulMono(Prod(shape[1..][..i - 1]), Prod(Leading(shape[1..])), shape[0]);
      }
      MulMono(1, Prod(Leading(shape[1..])), shape[0]);
    }
  }

  /** The running products of the row-major loop all fit below `limit` exactly when the product of
      the extents after the last zero does; those of the column-major loop and of `_nbytes`, exactly
      when the product of the extents before the first zero does. That is exact for a loop that runs to
      its end; a contiguity test that meets a wrong stride computes only the products up to there. */
  lemma RunningProductsFitIff(itemsize: nat, shape: seq<nat>, limit: nat)
    ensures (forall i :: 0 <= i <= |shape| ==> itemsize * Prod(shape[i..]) <= limit)
            <==> itemsize * Prod(Trailing(shape)) <= limit
    ensures (forall i :: 0 <= i <= |shape| ==> itemsize * Prod(shape[..i]) <= limit)
            <==> itemsize * Prod(Leading(shape)) <= limit
  {
    TrailingProd(shape, 0);
    LeadingProd(shape, 0);
    forall i | 0 <= i <= |shape|
      ensures itemsize * Prod(shape[i..]) <= itemsize * Prod(Trailing(shape))
      ensures itemsize * Prod(shape[..i]) <= itemsize * Prod(Leading(shape))
    {
      TrailingProd(shape, i);
      LeadingProd(shape, i);
      MulMono(Prod(shape[i..]), Prod(Trailing(shape)), itemsize);
      MulMono(Prod(shape[..i]), Prod(Leading(shape)), itemsize);
    }
  }

  /** With no empty extent they are all bounded by `nbytes`, in either direction. */
  lemma {:induction false} RunningProductsWithinNbytes(itemsize: nat, shape: seq<nat>, i: nat)
    requires i <= |shape| && forall k :: 0 <= k < |shape| ==> shape[k] >= 1
    ensures itemsize * Prod(shape[i..]) <= itemsize * Prod(shape)
    ensures itemsize * Prod(shape[..i]) <= itemsize * Prod(shape)
  {
    assert shape == shape[..i] + shape[i..];
    ProdConcat(shape[..i], shape[i..]);
    ProdPositive(shape[..i]);
    ProdPositive(shape[i..]);
    MulMono(1, Prod(shape[..i]), Prod(shape[i..]));
    MulMono(1, Prod(shape[i..]), Prod(shape[..i]));
    MulMono(Prod(shape[i..]), Prod(shape), itemsize);
    MulMono(Prod(shape[..i]), Prod(shape), itemsize);
  }

  lemma {:induction false} ProdPositive(shape: seq<nat>)
    requires forall k :: 0 <= k < |shape| ==> shape[k] >= 1
    ensures Prod(shape) >= 1
  {
    if shape == [] {
    } else {
      ProdPositive(shape[1..]);
      MulMono(1, Prod(shape[1..]), shape[0]);
    }
  }

  /** With one, `nbytes` is zero and either kind of loop can still leave a 64-bit `Py_ssize_t`. */
  lemma EmptyArrayCanOverflow()
    ensures var shape := [0, 0x4000_0000_0000_0000, 4];
      Prod(shape) == 0 && Prod(shape[1..]) > 0x7fff_ffff_ffff_ffff
    ensures var shape := [0x4000_0000_0000_0000, 4, 0];
      Prod(shape) == 0 && Prod(shape[..2]) > 0x7fff_ffff_ffff_ffff
  {
    var full := [0x4000_0000_0000_0000, 4];
    assert full[1..] == [4] && full[1..][1..] == [];
    assert Prod(full[1..]) == 4;
    assert [0, 0x4000_0000_0000_0000, 4][1..] == full;
    assert [0x4000_0000_0000_0000, 4, 0] == full + [0] && [0x4000_0000_0000_0000, 4, 0][..2] == full;
    ProdAppend(full, 0);
  }
}
