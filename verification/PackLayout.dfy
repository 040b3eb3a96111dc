// FoldPackUnpackConstantsPass.cpp and EliminateRedundantUnpackPackPass.cpp:
// linalg.pack and linalg.unpack on row-major constants of any rank.
module PackLayout {
  import opened Arith
  import opened Basics
  import opened Sequences

  // ----- row-major positions -----

  function Size(shape: seq<nat>): nat {
    if shape == [] then 1 else Size(shape[..|shape| - 1]) * shape[|shape| - 1]
  }

  // Horner's form of a row-major position.
  function Linear(indices: seq<nat>, shape: seq<nat>): nat
    requires |indices| == |shape|
  {
    var n := |shape| - 1;
    if shape == [] then 0 else Linear(indices[..n], shape[..n]) * shape[n] + indices[n]
  }

  function MultiDim(position: nat, shape: seq<nat>): (indices: seq<nat>)
    requires forall k :: 0 <= k < |shape| ==> shape[k] > 0
    ensures |indices| == |shape|
    decreases |shape|
  {
    var n := |shape| - 1;
    if shape == [] then [] else MultiDim(position / shape[n], shape[..n]) + [position % shape[n]]
  }

  ghost predicate InBounds(indices: seq<nat>, shape: seq<nat>) {
    |indices| == |shape| && forall k :: 0 <= k < |shape| ==> indices[k] < shape[k]
  }

  lemma Horner(l: nat, size: nat, dim: nat, index: nat)
    requires l < size && index < dim
    ensures l * dim + index < size * dim
    ensures (l * dim + index) / dim == l && (l * dim + index) % dim == index
  {
    MulMono(l + 1, size, dim);
    assert (l + 1) * dim == l * dim + dim;
    DivModUnique(l * dim + index, l, index, dim);
  }

  lemma {:induction false} LinearInBounds(indices: seq<nat>, shape: seq<nat>)
    requires InBounds(indices, shape)
    ensures Linear(indices, shape) < Size(shape)
    ensures forall k :: 0 <= k < |shape| ==> shape[k] > 0
    ensures MultiDim(Linear(indices, shape), shape) == indices
  {
    var n := |shape| - 1;
    if shape != [] {
      var i, s := indices[..n], shape[..n];
      assert InBounds(i, s);
      LinearInBounds(i, s);
      Horner(Linear(i, s), Size(s), shape[n], indices[n]);
      assert indices == i + [indices[n]];
    }
  }

  // Row-major: a step along a dimension moves by the number of elements inside it.
  lemma {:induction false} LinearStride(indices: seq<nat>, shape: seq<nat>, k: nat)
    requires |indices| == |shape| && k < |shape|
    ensures Linear(indices[k := indices[k] + 1], shape) == Linear(indices, shape) + Size(shape[k + 1..])
  {
    var n := |shape| - 1;
    var i, s := indices[..n], shape[..n];
    var next := indices[k := indices[k] + 1];
    if k == n {
      assert next[..n] == i && shape[k + 1..] == [];
    } else {
      LinearStride(i, s, k);
      assert next[..n] == i[k := i[k] + 1];
      assert shape[k + 1..][..n - k - 1] == s[k + 1..] && shape[k + 1..][n - k - 1] == shape[n];
      Distribute(Linear(i, s), Size(s[k + 1..]), shape[n]);
    }
  }

  lemma Distribute(a: nat, b: nat, n: nat)
    ensures (a + b) * n == a * n + b * n
  {
  }

  lemma {:induction false} NoEmptyDim(shape: seq<nat>)
    requires Size(shape) > 0
    ensures forall k :: 0 <= k < |shape| ==> shape[k] > 0
  {
    if shape != [] {
      var n := |shape| - 1;
      assert Size(shape[..n]) > 0 && shape[n] > 0;
      NoEmptyDim(shape[..n]);
      assert forall k :: 0 <= k < n ==> shape[k] == shape[..n][k];
    }
  }

  lemma LastDigit(position: nat, shape: seq<nat>) returns (q: nat, r: nat)
    requires shape != [] && position < Size(shape) && forall k :: 0 <= k < |shape| ==> shape[k] > 0
    ensures q < Size(shape[..|shape| - 1]) && r < shape[|shape| - 1]
    ensures q * shape[|shape| - 1] + r == position
    ensures MultiDim(position, shape) == MultiDim(q, shape[..|shape| - 1]) + [r]
  {
    var n := |shape| - 1;
    DivBound(position, Size(shape[..n]), shape[n]);
    q, r := position / shape[n], position % shape[n];
  }

  lemma {:induction false} MultiDimInBounds(position: nat, shape: seq<nat>)
    requires position < Size(shape)
    requires forall k :: 0 <= k < |shape| ==> shape[k] > 0
    ensures InBounds(MultiDim(position, shape), shape)
    ensures Linear(MultiDim(position, shape), shape) == position
    decreases |shape|
  {
    if shape != [] {
      hide MultiDim, Size;
      var n := |shape| - 1;
      var q, r := LastDigit(position, shape);
      MultiDimInBounds(q, shape[..n]);
      var indices := MultiDim(position, shape);
      assert indices[..n] == MultiDim(q, shape[..n]);
      assert forall k :: 0 <= k < n ==> shape[k] == shape[..n][k] && indices[k] == indices[..n][k];
    }
  }

  lemma StrideStep(l: nat, dim: nat, index: nat, stride: nat, low: nat)
    ensures (l * dim + index) * stride + low == l * (stride * dim) + (low + index * stride)
  {
    assert (l * dim) * stride == l * (stride * dim);
    assert (l * dim + index) * stride == (l * dim) * stride + index * stride;
  }

  // computeLinearIndex: strides accumulated from the innermost dimension.
  method ComputeLinearIndex(indices: seq<nat>, shape: seq<nat>) returns (linearIdx: nat)
    requires |indices| == |shape|
    ensures linearIdx == Linear(indices, shape)
  {
    linearIdx := 0;
    var stride: nat := 1;
    var i: nat := |shape|;
    assert indices[..i] == indices && shape[..i] == shape;
    while i > 0
      invariant i <= |shape|
      invariant Linear(indices, shape) == Linear(indices[..i], shape[..i]) * stride + linearIdx
    {
      i := i - 1;
      assert indices[..i + 1][..i] == indices[..i] && shape[..i + 1][..i] == shape[..i];
      StrideStep(Linear(indices[..i], shape[..i]), shape[i], indices[i], stride, linearIdx);
      linearIdx := linearIdx + indices[i] * stride;
      stride := stride * shape[i];
    }
  }

  // computeMultiDimIndices: digits peeled off from the innermost dimension.
  method ComputeMultiDimIndices(position: nat, shape: seq<nat>) returns (indices: seq<nat>)
    requires forall k :: 0 <= k < |shape| ==> shape[k] > 0
    ensures indices == MultiDim(position, shape)
  {
    var buffer := new nat[|shape|];
    var rest := position;
    var i: nat := |shape|;
    assert shape[..i] == shape;
    while i > 0
      invariant i <= |shape|
      invariant MultiDim(position, shape) == MultiDim(rest, shape[..i]) + buffer[i..]
    {
      i := i - 1;
      assert shape[..i + 1][..i] == shape[..i];
      ghost var tail := buffer[i + 1..];
      buffer[i] := rest % shape[i];
      assert buffer[i..] == [rest % shape[i]] + tail;
      rest := rest / shape[i];
    }
    return buffer[..];
  }

  // ----- pack attributes -----

  // inner_dims_pos, inner tiles, and outer_dims_perm (empty when absent).
  datatype Attrs = Attrs(pos: seq<nat>, tiles: seq<int>, perm: seq<nat>)

  ghost predicate Permutation(s: seq<nat>) {
    && Distinct(s)
    && (forall i :: 0 <= i < |s| ==> s[i] < |s|)
    && (forall v :: 0 <= v < |s| ==> v in s)
  }

  // What the op verifier ensures.
  ghost predicate WellFormed(a: Attrs, rank: nat) {
    && |a.tiles| == |a.pos|
    && Distinct(a.pos)
    && (forall i :: 0 <= i < |a.pos| ==> a.pos[i] < rank)
    && (|a.perm| == rank ==> Permutation(a.perm))
  }

  // What both patterns check for themselves.
  predicate Supported(a: Attrs, rank: nat) {
    && (forall t :: 0 <= t < |a.tiles| ==> a.tiles[t] > 0)
    && (a.perm != [] ==> |a.perm| == rank)
  }

  // A tile of no or negative size, or a permutation of another rank.
  ghost predicate Unsupported(a: Attrs, rank: nat) {
    (exists t :: t in a.tiles && t <= 0) || (a.perm != [] && |a.perm| != rank)
  }

  ghost predicate Valid(a: Attrs, rank: nat) { WellFormed(a, rank) && Supported(a, rank) }

  lemma UnsupportedIff(a: Attrs, rank: nat)
    requires WellFormed(a, rank)
    ensures Unsupported(a, rank) <==> !Valid(a, rank)
  {
    if t :| 0 <= t < |a.tiles| && a.tiles[t] <= 0 { assert a.tiles[t] in a.tiles; }
  }

  function TileOf(a: Attrs, d: nat): nat
    requires |a.tiles| == |a.pos| && forall t :: 0 <= t < |a.tiles| ==> a.tiles[t] > 0
    ensures TileOf(a, d) > 0
  {
    if d in a.pos then a.tiles[Find(a.pos, d)] else 1
  }

  // The source dimension stored as the j-th outer dimension, and back.
  function OuterDim(a: Attrs, j: nat): nat
    requires a.perm == [] || j < |a.perm|
  {
    if a.perm == [] then j else a.perm[j]
  }

  function OuterSlot(a: Attrs, d: nat): nat
    requires a.perm == [] || d in a.perm
  {
    if a.perm == [] then d else Find(a.perm, d)
  }

  lemma OuterInverse(a: Attrs, rank: nat, d: nat)
    requires Valid(a, rank) && d < rank
    ensures a.perm == [] || d in a.perm
    ensures OuterSlot(a, d) < rank && OuterDim(a, OuterSlot(a, d)) == d
    ensures OuterDim(a, d) < rank
    ensures a.perm == [] || OuterDim(a, d) in a.perm
    ensures OuterSlot(a, OuterDim(a, d)) == d
  {
    if a.perm != [] { FindAt(a.perm, d); }
  }

  // The packed shape holds every tile: outer dimensions may be larger than needed.
  ghost predicate Fits(a: Attrs, shape: seq<nat>, packed: seq<nat>) {
    Valid(a, |shape|) && |packed| == |shape| + |a.pos| && HoldsTiles(a, shape, packed)
  }

  ghost predicate HoldsTiles(a: Attrs, shape: seq<nat>, packed: seq<nat>)
    requires Valid(a, |shape|) && |packed| == |shape| + |a.pos|
  {
    && (forall j :: 0 <= j < |shape| ==> FitsDim(a, shape, packed, j))
    && (forall k :: 0 <= k < |a.pos| ==> packed[|shape| + k] == a.tiles[k])
  }

  ghost predicate FitsDim(a: Attrs, shape: seq<nat>, packed: seq<nat>, j: nat)
    requires Valid(a, |shape|) && j < |shape| <= |packed|
  {
    OuterInverse(a, |shape|, j);
    shape[OuterDim(a, j)] <= packed[j] * TileOf(a, OuterDim(a, j))
  }

  // ----- the index maps -----

  function OuterIndex(a: Attrs, u: seq<nat>, d: nat): nat
    requires |a.tiles| == |a.pos| && (forall t :: 0 <= t < |a.tiles| ==> a.tiles[t] > 0) && d < |u|
  {
    u[d] / TileOf(a, d)
  }

  ghost predicate IsPackedIndex(a: Attrs, u: seq<nat>, p: seq<nat>)
    requires Valid(a, |u|)
  {
    && |p| == |u| + |a.pos|
    && (forall j :: 0 <= j < |u| ==> PackedOuter(a, u, p, j))
    && (forall k :: 0 <= k < |a.pos| ==> p[|u| + k] == u[a.pos[k]] % a.tiles[k])
  }

  ghost predicate PackedOuter(a: Attrs, u: seq<nat>, p: seq<nat>, j: nat)
    requires Valid(a, |u|) && j < |u| <= |p|
  {
    OuterInverse(a, |u|, j);
    p[j] == OuterIndex(a, u, OuterDim(a, j))
  }

  function InnerIndex(a: Attrs, rank: nat, p: seq<nat>, d: nat): nat
    requires |p| == rank + |a.pos|
  {
    if d in a.pos then p[rank + Find(a.pos, d)] else 0
  }

  ghost predicate IsUnpackedIndex(a: Attrs, p: seq<nat>, u: seq<nat>)
    requires Valid(a, |u|)
  {
    && |p| == |u| + |a.pos|
    && forall d :: 0 <= d < |u| ==> UnpackedAt(a, p, u, d)
  }

  ghost predicate UnpackedAt(a: Attrs, p: seq<nat>, u: seq<nat>, d: nat)
    requires Valid(a, |u|) && |p| == |u| + |a.pos| && d < |u|
  {
    OuterInverse(a, |u|, d);
    u[d] == p[OuterSlot(a, d)] * TileOf(a, d) + InnerIndex(a, |u|, p, d)
  }

  // The two maps are inverse: reading off the packed index and putting it together again.
  lemma Recompose(x: nat, t: nat)
    requires t > 0
    ensures x / t * t + x % t == x
  {
  }

  lemma UnpackOfPack(a: Attrs, u: seq<nat>, p: seq<nat>)
    requires Valid(a, |u|) && IsPackedIndex(a, u, p)
    ensures IsUnpackedIndex(a, p, u)
  {
    forall d | 0 <= d < |u| ensures UnpackedAt(a, p, u, d) {
      OuterInverse(a, |u|, d);
      assert PackedOuter(a, u, p, OuterSlot(a, d));
      assert p[OuterSlot(a, d)] == u[d] / TileOf(a, d);
      assert InnerIndex(a, |u|, p, d) == u[d] % TileOf(a, d) by { InnerOfPacked(a, u, p, d); }
      Recompose(u[d], TileOf(a, d));
    }
  }

  lemma InnerOfPacked(a: Attrs, u: seq<nat>, p: seq<nat>, d: nat)
    requires Valid(a, |u|) && IsPackedIndex(a, u, p) && d < |u|
    ensures InnerIndex(a, |u|, p, d) == u[d] % TileOf(a, d)
  {
    if d !in a.pos { DivModUnique(u[d], u[d], 0, 1); }
  }

  lemma PackOfUnpack(a: Attrs, p: seq<nat>, u: seq<nat>)
    requires Valid(a, |u|) && IsUnpackedIndex(a, p, u)
    requires forall k :: 0 <= k < |a.pos| ==> p[|u| + k] < a.tiles[k]
    ensures IsPackedIndex(a, u, p)
  {
    forall d: nat | d < |u|
      ensures u[d] / TileOf(a, d) == (OuterInverse(a, |u|, d); p[OuterSlot(a, d)])
      ensures u[d] % TileOf(a, d) == InnerIndex(a, |u|, p, d)
    {
      OuterInverse(a, |u|, d);
      assert UnpackedAt(a, p, u, d);
      DivModUnique(u[d], p[OuterSlot(a, d)], InnerIndex(a, |u|, p, d), TileOf(a, d));
    }
    forall j | 0 <= j < |u| ensures PackedOuter(a, u, p, j) {
      OuterInverse(a, |u|, j);
    }
    forall k | 0 <= k < |a.pos| ensures p[|u| + k] == u[a.pos[k]] % a.tiles[k] {
      FindAt(a.pos, k);
    }
  }

  ghost function PackedIndex(a: Attrs, u: seq<nat>): (p: seq<nat>)
    requires Valid(a, |u|)
    ensures IsPackedIndex(a, u, p)
  {
    var outer := seq(|u|, j requires 0 <= j < |u| => (OuterInverse(a, |u|, j); OuterIndex(a, u, OuterDim(a, j))));
    var inner := seq(|a.pos|, k requires 0 <= k < |a.pos| => u[a.pos[k]] % a.tiles[k]);
    assert forall j :: 0 <= j < |u| ==> PackedOuter(a, u, outer + inner, j);
    outer + inner
  }

  ghost function UnpackedIndex(a: Attrs, rank: nat, p: seq<nat>): (u: seq<nat>)
    requires Valid(a, rank) && |p| == rank + |a.pos|
    ensures |u| == rank && IsUnpackedIndex(a, p, u)
  {
    var u := seq(rank, d requires 0 <= d < rank =>
      (OuterInverse(a, rank, d); p[OuterSlot(a, d)] * TileOf(a, d) + InnerIndex(a, rank, p, d)));
    assert forall d :: 0 <= d < rank ==> UnpackedAt(a, p, u, d);
    u
  }

  lemma PackedIndexUnique(a: Attrs, u: seq<nat>, p: seq<nat>)
    requires Valid(a, |u|) && IsPackedIndex(a, u, p)
    ensures p == PackedIndex(a, u)
  {
    var q := PackedIndex(a, u);
    forall j: nat | j < |p| ensures p[j] == q[j] {
      if j < |u| {
        assert PackedOuter(a, u, p, j) && PackedOuter(a, u, q, j);
      } else {
        assert p[|u| + (j - |u|)] == u[a.pos[j - |u|]] % a.tiles[j - |u|];
        assert q[|u| + (j - |u|)] == u[a.pos[j - |u|]] % a.tiles[j - |u|];
      }
    }
  }

  lemma UnpackedIndexUnique(a: Attrs, p: seq<nat>, u: seq<nat>)
    requires Valid(a, |u|) && IsUnpackedIndex(a, p, u)
    ensures u == UnpackedIndex(a, |u|, p)
  {
    hide OuterSlot, InnerIndex, TileOf, Valid;
    var v := UnpackedIndex(a, |u|, p);
    forall d: nat | d < |u| ensures u[d] == v[d] {
      assert UnpackedAt(a, p, u, d) && UnpackedAt(a, p, v, d);
    }
  }

  lemma OuterFits(a: Attrs, u: seq<nat>, shape: seq<nat>, packed: seq<nat>, j: nat)
    requires Fits(a, shape, packed) && InBounds(u, shape) && j < |u|
    ensures |PackedIndex(a, u)| == |packed| && PackedIndex(a, u)[j] < packed[j]
  {
    hide TileOf;
    assert PackedOuter(a, u, PackedIndex(a, u), j) && FitsDim(a, shape, packed, j);
    OuterInverse(a, |u|, j);
    DivBound(u[OuterDim(a, j)], packed[j], TileOf(a, OuterDim(a, j)));
  }

  lemma InnerFits(a: Attrs, u: seq<nat>, shape: seq<nat>, packed: seq<nat>, k: nat)
    requires Fits(a, shape, packed) && InBounds(u, shape) && k < |a.pos|
    ensures |PackedIndex(a, u)| == |packed| && PackedIndex(a, u)[|u| + k] < packed[|u| + k]
  {
    hide PackedOuter, FitsDim;
    assert packed[|shape| + k] == a.tiles[k];
  }

  // An element's packed index lies inside the packed shape.
  lemma PackedInBounds(a: Attrs, u: seq<nat>, shape: seq<nat>, packed: seq<nat>)
    requires Fits(a, shape, packed) && InBounds(u, shape)
    ensures InBounds(PackedIndex(a, u), packed)
  {
    hide IsPackedIndex, HoldsTiles, WellFormed, Supported;
    var p := PackedIndex(a, u);
    assert |p| == |packed| by { PackedLength(a, u); }
    forall j: nat | j < |p| ensures p[j] < packed[j] {
      if j < |u| { OuterFits(a, u, shape, packed, j); } else { InnerFits(a, u, shape, packed, j - |u|); }
    }
  }

  lemma PackedLength(a: Attrs, u: seq<nat>)
    requires Valid(a, |u|)
    ensures |PackedIndex(a, u)| == |u| + |a.pos|
  {
  }

  // ----- packed cells -----

  // The source index a packed cell stands for; outside the source it is padding.
  ghost function SourceOf(a: Attrs, rank: nat, packed: seq<nat>, i: nat): (u: seq<nat>)
    requires Valid(a, rank) && |packed| == rank + |a.pos| && i < Size(packed)
    ensures |u| == rank
  {
    NoEmptyDim(packed);
    UnpackedIndex(a, rank, MultiDim(i, packed))
  }

  ghost predicate IsPadding(a: Attrs, shape: seq<nat>, packed: seq<nat>, i: nat)
    requires Valid(a, |shape|) && |packed| == |shape| + |a.pos| && i < Size(packed)
  {
    !InBounds(SourceOf(a, |shape|, packed, i), shape)
  }

  ghost function CellOf(a: Attrs, u: seq<nat>, packed: seq<nat>): nat
    requires Valid(a, |u|) && |packed| == |u| + |a.pos|
  {
    Linear(PackedIndex(a, u), packed)
  }

  // Every source element has a packed cell of its own, and it is not padding.
  lemma ElementHasCell(a: Attrs, u: seq<nat>, shape: seq<nat>, packed: seq<nat>)
    requires Fits(a, shape, packed) && InBounds(u, shape)
    ensures CellOf(a, u, packed) < Size(packed)
    ensures SourceOf(a, |u|, packed, CellOf(a, u, packed)) == u
    ensures !IsPadding(a, shape, packed, CellOf(a, u, packed))
  {
    hide IsPackedIndex, IsUnpackedIndex;
    var p := PackedIndex(a, u);
    PackedInBounds(a, u, shape, packed);
    LinearInBounds(p, packed);
    UnpackOfPack(a, u, p);
    UnpackedIndexUnique(a, p, u);
  }

  lemma CellIsOwn(a: Attrs, shape: seq<nat>, packed: seq<nat>, i: nat)
    requires Fits(a, shape, packed) && i < Size(packed)
    ensures CellOf(a, SourceOf(a, |shape|, packed, i), packed) == i
  {
    hide IsPackedIndex, IsUnpackedIndex;
    NoEmptyDim(packed);
    MultiDimInBounds(i, packed);
    var p := MultiDim(i, packed);
    var u := SourceOf(a, |shape|, packed, i);
    forall k | 0 <= k < |a.pos| ensures p[|u| + k] < a.tiles[k] {
      assert packed[|shape| + k] == a.tiles[k];
    }
    PackOfUnpack(a, p, u);
    PackedIndexUnique(a, u, p);
  }

  ghost function CellOfElement(a: Attrs, shape: seq<nat>, packed: seq<nat>, i: nat): nat
    requires Valid(a, |shape|) && |packed| == |shape| + |a.pos| && i < Size(shape)
  {
    NoEmptyDim(shape);
    CellOf(a, MultiDim(i, shape), packed)
  }

  // linalg.pack: each cell holds the element it stands for, or the pad value.
  ghost predicate IsPackOf<T>(a: Attrs, shape: seq<nat>, packed: seq<nat>, src: seq<T>, pad: Option<T>, dest: seq<T>)
    requires Valid(a, |shape|) && |packed| == |shape| + |a.pos|
  {
    && |src| == Size(shape) && |dest| == Size(packed)
    && forall i :: 0 <= i < |dest| ==> CellHolds(a, shape, packed, src, pad, i, dest[i])
  }

  ghost predicate CellHolds<T>(a: Attrs, shape: seq<nat>, packed: seq<nat>, src: seq<T>, pad: Option<T>, i: nat, v: T)
    requires Valid(a, |shape|) && |packed| == |shape| + |a.pos| && |src| == Size(shape) && i < Size(packed)
  {
    if IsPadding(a, shape, packed, i) then pad == Some(v)
    else
      (LinearInBounds(SourceOf(a, |shape|, packed, i), shape);
       v == src[Linear(SourceOf(a, |shape|, packed, i), shape)])
  }

  // linalg.unpack: each element is read from its packed cell.
  ghost predicate IsUnpackOf<T>(a: Attrs, shape: seq<nat>, packed: seq<nat>, src: seq<T>, dest: seq<T>)
    requires Valid(a, |shape|) && |packed| == |shape| + |a.pos|
  {
    && |src| == Size(packed) && |dest| == Size(shape)
    && forall i :: 0 <= i < |dest| ==> ElementReads(a, shape, packed, src, i, dest[i])
  }

  ghost predicate ElementReads<T>(a: Attrs, shape: seq<nat>, packed: seq<nat>, src: seq<T>, i: nat, v: T)
    requires Valid(a, |shape|) && |packed| == |shape| + |a.pos| && i < Size(shape)
  {
    var cell := CellOfElement(a, shape, packed, i);
    cell < |src| && v == src[cell]
  }

  // Where the packed constant holds a given source element.
  lemma PackPlaces<T>(a: Attrs, shape: seq<nat>, packed: seq<nat>, src: seq<T>, pad: Option<T>, dest: seq<T>,
                      u: seq<nat>)
    requires Fits(a, shape, packed) && IsPackOf(a, shape, packed, src, pad, dest) && InBounds(u, shape)
    ensures CellOf(a, u, packed) < |dest| && Linear(u, shape) < |src|
    ensures dest[CellOf(a, u, packed)] == src[Linear(u, shape)]
  {
    hide HoldsTiles, WellFormed, Supported, IsPadding, SourceOf, CellOf, InBounds;
    ElementHasCell(a, u, shape, packed);
    LinearInBounds(u, shape);
    assert CellHolds(a, shape, packed, src, pad, CellOf(a, u, packed), dest[CellOf(a, u, packed)]);
  }

  // Folding unpack after pack gives the constant back, whatever the padding.
  lemma UnpackAfterPack<T>(a: Attrs, shape: seq<nat>, packed: seq<nat>,
                           src: seq<T>, pad: Option<T>, mid: seq<T>, dest: seq<T>)
    requires Fits(a, shape, packed)
    requires IsPackOf(a, shape, packed, src, pad, mid) && IsUnpackOf(a, shape, packed, mid, dest)
    ensures dest == src
  {
    hide HoldsTiles, WellFormed, Supported, CellOf, InBounds, CellHolds;
    forall i: nat | i < |dest| ensures dest[i] == src[i] {
      assert ElementReads(a, shape, packed, mid, i, dest[i]);
      NoEmptyDim(shape);
      MultiDimInBounds(i, shape);
      PackPlaces(a, shape, packed, src, pad, mid, MultiDim(i, shape));
    }
  }

  lemma RepackCell<T>(a: Attrs, shape: seq<nat>, packed: seq<nat>,
                      src: seq<T>, mid: seq<T>, pad: Option<T>, i: nat, v: T)
    requires Fits(a, shape, packed) && IsUnpackOf(a, shape, packed, src, mid)
    requires i < |src| && CellHolds(a, shape, packed, mid, pad, i, v)
    ensures IsPadding(a, shape, packed, i) ==> pad == Some(v)
    ensures !IsPadding(a, shape, packed, i) ==> v == src[i]
  {
    hide HoldsTiles, WellFormed, Supported, CellOf, SourceOf, Linear;
    if !IsPadding(a, shape, packed, i) {
      var u := SourceOf(a, |shape|, packed, i);
      LinearInBounds(u, shape);
      CellIsOwn(a, shape, packed, i);
      assert ElementReads(a, shape, packed, src, Linear(u, shape), mid[Linear(u, shape)]);
    }
  }

  // Repacking what was unpacked agrees on every cell that is not padding, and is
  // the source itself exactly when every padding cell already held the pad value.
  lemma PackAfterUnpack<T>(a: Attrs, shape: seq<nat>, packed: seq<nat>,
                           src: seq<T>, mid: seq<T>, pad: Option<T>, dest: seq<T>)
    requires Fits(a, shape, packed)
    requires IsUnpackOf(a, shape, packed, src, mid) && IsPackOf(a, shape, packed, mid, pad, dest)
    ensures |dest| == |src|
    ensures forall i: nat :: i < |src| && !IsPadding(a, shape, packed, i) ==> dest[i] == src[i]
    ensures dest == src <==>
            forall i: nat :: i < |src| && IsPadding(a, shape, packed, i) ==> pad == Some(src[i])
  {
    hide HoldsTiles, WellFormed, Supported, IsPadding, CellHolds, IsUnpackOf;
    assert |src| == Size(packed) by { UnpackSize(a, shape, packed, src, mid); }
    forall i: nat | i < |src|
      ensures IsPadding(a, shape, packed, i) ==> pad == Some(dest[i])
      ensures !IsPadding(a, shape, packed, i) ==> dest[i] == src[i]
    {
      RepackCell(a, shape, packed, src, mid, pad, i, dest[i]);
    }
  }

  lemma UnpackSize<T>(a: Attrs, shape: seq<nat>, packed: seq<nat>, src: seq<T>, mid: seq<T>)
    requires Fits(a, shape, packed) && IsUnpackOf(a, shape, packed, src, mid)
    ensures |src| == Size(packed) && |mid| == Size(shape)
  {
  }

  // ----- the folding patterns -----

  // Precomputed map from dimension to tile, -1 where untiled.
  method MapDimsToTiles(a: Attrs, rank: nat) returns (dimToTile: seq<int>)
    requires Valid(a, rank)
    ensures |dimToTile| == rank
    ensures forall d :: 0 <= d < rank ==> dimToTile[d] == if d in a.pos then Find(a.pos, d) else -1
  {
    var table := new int[rank](_ => -1);
    for k := 0 to |a.pos|
      invariant forall d :: 0 <= d < rank ==>
                 (if d in a.pos[..k] then 0 <= table[d] < k && a.pos[table[d]] == d else table[d] == -1)
    {
      table[a.pos[k]] := k;
      assert a.pos[..k + 1] == a.pos[..k] + [a.pos[k]];
    }
    assert a.pos[..|a.pos|] == a.pos;
    forall d: nat | d < rank && d in a.pos ensures table[d] == Find(a.pos, d) { FindAt(a.pos, table[d]); }
    return table[..];
  }

  method InvertPermutation(perm: seq<nat>) returns (inverse: seq<nat>)
    requires Permutation(perm)
    ensures |inverse| == |perm|
    ensures forall d :: 0 <= d < |perm| ==> inverse[d] == Find(perm, d)
  {
    var invPerm := new nat[|perm|];
    for j := 0 to |perm|
      invariant forall i :: 0 <= i < j ==> invPerm[perm[i]] == i
    {
      invPerm[perm[j]] := j;
    }
    forall d: nat | d < |perm| ensures invPerm[d] == Find(perm, d) {
      assert perm[Find(perm, d)] == d;
    }
    return invPerm[..];
  }

  // Outer tile indices in source order, undoing the permutation.
  method ComputeOuterIndices(a: Attrs, rank: nat, p: seq<nat>) returns (outer: seq<nat>)
    requires Valid(a, rank) && |p| == rank + |a.pos|
    ensures |outer| == rank
    ensures forall d: nat :: d < rank ==> (OuterInverse(a, rank, d); outer[d] == p[OuterSlot(a, d)])
  {
    outer := [];
    if a.perm != [] {
      var invPerm := InvertPermutation(a.perm);
      for j := 0 to rank
        invariant |outer| == j
        invariant forall d: nat :: d < j ==> outer[d] == p[Find(a.perm, d)]
      {
        outer := outer + [p[invPerm[j]]];
      }
    } else {
      for j := 0 to rank
        invariant |outer| == j
        invariant forall d: nat :: d < j ==> outer[d] == p[d]
      {
        outer := outer + [p[j]];
      }
    }
  }

  // The element a packed index stands for, as FoldPackConstant computes it.
  method ComputeUnpackedIndices(a: Attrs, rank: nat, dimToTile: seq<int>, p: seq<nat>) returns (u: seq<nat>)
    requires Valid(a, rank) && |p| == rank + |a.pos|
    requires |dimToTile| == rank
    requires forall d :: 0 <= d < rank ==> dimToTile[d] == if d in a.pos then Find(a.pos, d) else -1
    ensures u == UnpackedIndex(a, rank, p)
  {
    hide OuterSlot;
    var outer := ComputeOuterIndices(a, rank, p);
    var unpacked := new nat[rank];
    ghost var v := UnpackedIndex(a, rank, p);
    for j := 0 to rank
      invariant forall d :: 0 <= d < j ==> unpacked[d] == v[d]
    {
      assert UnpackedAt(a, p, v, j);
      var t := dimToTile[j];
      if t >= 0 {
        unpacked[j] := outer[j] * a.tiles[t] + p[rank + t];
      } else {
        unpacked[j] := outer[j];
      }
    }
    assert unpacked[..] == v;
    return unpacked[..];
  }

  // computePackedIndices: outer tile indices, permuted, then the inner ones.
  method ComputePackedIndices(a: Attrs, u: seq<nat>) returns (p: seq<nat>)
    requires Valid(a, |u|)
    ensures p == PackedIndex(a, u)
    ensures |p| == |u| + |a.pos| && forall k :: 0 <= k < |a.pos| ==> p[|u| + k] == u[a.pos[k]] % a.tiles[k]
    ensures a.perm == [] ==> forall j :: 0 <= j < |u| && j !in a.pos ==> p[j] == u[j]
    ensures a.perm == [] ==> forall t :: 0 <= t < |a.pos| ==> p[a.pos[t]] == u[a.pos[t]] / a.tiles[t]
    ensures a.perm != [] ==> forall j :: 0 <= j < |u| && a.perm[j] !in a.pos ==> p[j] == u[a.perm[j]]
    ensures a.perm != [] ==> forall j, t ::
              0 <= j < |u| && 0 <= t < |a.pos| && a.pos[t] == a.perm[j] ==> p[j] == u[a.perm[j]] / a.tiles[t]
  {
    var rank := |u|;
    var outer: seq<nat> := [];
    for i := 0 to rank
      invariant |outer| == i
      invariant forall d :: 0 <= d < i ==> outer[d] == OuterIndex(a, u, d)
    {
      if i in a.pos {
        var t := Find(a.pos, i);
        outer := outer + [u[i] / a.tiles[t]];
      } else {
        outer := outer + [u[i]];
      }
    }
    if a.perm != [] {
      var permuted := new nat[rank];
      for i := 0 to rank
        invariant forall j :: 0 <= j < i ==> permuted[j] == outer[a.perm[j]]
      {
        permuted[i] := outer[a.perm[i]];
      }
      outer := permuted[..];
    }
    forall j: nat | j < rank ensures PackedOuter(a, u, outer, j) { OuterInverse(a, rank, j); }
    p := outer;
    for i := 0 to |a.pos|
      invariant |p| == rank + i && p[..rank] == outer
      invariant forall k :: 0 <= k < i ==> p[rank + k] == u[a.pos[k]] % a.tiles[k]
    {
      p := p + [u[a.pos[i]] % a.tiles[i]];
    }
    forall j: nat | j < rank ensures PackedOuter(a, u, p, j) {
      assert PackedOuter(a, u, outer, j) && p[j] == p[..rank][j];
    }
    PackedIndexUnique(a, u, p);
    PackedSpelledOut(a, u);
  }

  lemma PackedSpelledOut(a: Attrs, u: seq<nat>)
    requires Valid(a, |u|)
    ensures var p := PackedIndex(a, u);
      && (a.perm == [] ==> forall j :: 0 <= j < |u| && j !in a.pos ==> p[j] == u[j])
      && (a.perm == [] ==> forall t :: 0 <= t < |a.pos| ==> p[a.pos[t]] == u[a.pos[t]] / a.tiles[t])
      && (a.perm != [] ==> forall j :: 0 <= j < |u| && a.perm[j] !in a.pos ==> p[j] == u[a.perm[j]])
      && (a.perm != [] ==> forall j, t ::
            0 <= j < |u| && 0 <= t < |a.pos| && a.pos[t] == a.perm[j] ==> p[j] == u[a.perm[j]] / a.tiles[t])
  {
    var p := PackedIndex(a, u);
    forall t: nat | t < |a.pos| ensures Find(a.pos, a.pos[t]) == t { FindAt(a.pos, t); }
    forall j | 0 <= j < |u| ensures p[j] == OuterIndex(a, u, OuterDim(a, j)) { assert PackedOuter(a, u, p, j); }
  }

  // The op's padding operand: absent, a constant of the element type, or anything else.
  datatype Padding<T> = NoPadding | Constant(value: T) | NotConstant

  function PadValue<T>(p: Padding<T>): Option<T> {
    match p
    case Constant(v) => Some(v)
    case _ => None
  }

  method FoldPackConstant<T(0)>(a: Attrs, shape: seq<nat>, packed: seq<nat>, src: seq<T>, padding: Padding<T>)
    returns (r: Option<seq<T>>)
    requires WellFormed(a, |shape|) && |packed| == |shape| + |a.pos| && |src| == Size(shape)
    ensures r.Some? ==> Valid(a, |shape|) && IsPackOf(a, shape, packed, src, PadValue(padding), r.value)
    ensures !Valid(a, |shape|) <==> Unsupported(a, |shape|)
    ensures r.None? <==> !Valid(a, |shape|) || padding.NotConstant?
                         || (padding.NoPadding? && exists i: nat :: i < Size(packed) && IsPadding(a, shape, packed, i))
  {
    hide IsPadding, CellHolds;
    UnsupportedIff(a, |shape|);
    if !Supported(a, |shape|) { return None; }
    if padding.NotConstant? { return None; }
    var pad := PadValue(padding);
    var dimToTile := MapDimsToTiles(a, |shape|);
    var count := Size(packed);
    var values := new T[count];
    for i := 0 to count
      invariant forall k :: 0 <= k < i ==> CellHolds(a, shape, packed, src, pad, k, values[k])
      invariant padding.NoPadding? ==> forall k: nat :: k < i ==> !IsPadding(a, shape, packed, k)
    {
      var v := PackCell(a, shape, packed, src, pad, dimToTile, i);
      if v.None? { return None; }
      values[i] := v.value;
    }
    return Some(values[..]);
  }

  // One iteration of the folding loop; None where a padded cell has no pad value.
  method PackCell<T>(a: Attrs, shape: seq<nat>, packed: seq<nat>, src: seq<T>, pad: Option<T>, dimToTile: seq<int>,
                     i: nat)
    returns (v: Option<T>)
    requires Valid(a, |shape|) && |packed| == |shape| + |a.pos| && |src| == Size(shape) && i < Size(packed)
    requires |dimToTile| == |shape|
    requires forall d :: 0 <= d < |shape| ==> dimToTile[d] == if d in a.pos then Find(a.pos, d) else -1
    ensures v.Some? ==> CellHolds(a, shape, packed, src, pad, i, v.value)
    ensures v.None? <==> pad.None? && IsPadding(a, shape, packed, i)
  {
    NoEmptyDim(packed);
    var p := ComputeMultiDimIndices(i, packed);
    var u := ComputeUnpackedIndices(a, |shape|, dimToTile, p);
    var isPadded := false;
    for j := 0 to |shape|
      invariant isPadded <==> exists d :: 0 <= d < j && u[d] >= shape[d]
    {
      if u[j] >= shape[j] { isPadded := true; }
    }
    if isPadded {
      return pad;
    }
    LinearInBounds(u, shape);
    var l := ComputeLinearIndex(u, shape);
    return Some(src[l]);
  }

  method FoldUnpackConstant<T(0)>(a: Attrs, shape: seq<nat>, packed: seq<nat>, src: seq<T>) returns (r: Option<seq<T>>)
    requires WellFormed(a, |shape|) && |packed| == |shape| + |a.pos| && |src| == Size(packed)
    ensures r.Some? ==> Valid(a, |shape|) && IsUnpackOf(a, shape, packed, src, r.value)
    ensures !Valid(a, |shape|) <==> Unsupported(a, |shape|)
    ensures r.None? <==> !Valid(a, |shape|)
                         || exists i: nat :: i < Size(shape) && CellOfElement(a, shape, packed, i) >= Size(packed)
  {
    hide CellOfElement;
    UnsupportedIff(a, |shape|);
    if !Supported(a, |shape|) { return None; }
    var count := Size(shape);
    var values := new T[count];
    for i := 0 to count
      invariant forall k :: 0 <= k < i ==> ElementReads(a, shape, packed, src, k, values[k])
      invariant forall k: nat :: k < i ==> CellOfElement(a, shape, packed, k) < |src|
    {
      var l := LocateCell(a, shape, packed, i);
      if l >= |src| { return None; }
      values[i] := src[l];
    }
    return Some(values[..]);
  }

  // One iteration of the unpack loop: where the element's cell is.
  method LocateCell(a: Attrs, shape: seq<nat>, packed: seq<nat>, i: nat) returns (l: nat)
    requires Valid(a, |shape|) && |packed| == |shape| + |a.pos| && i < Size(shape)
    ensures l == CellOfElement(a, shape, packed, i)
  {
    hide IsPackedIndex, Linear, MultiDim;
    NoEmptyDim(shape);
    var u := ComputeMultiDimIndices(i, shape);
    var p := ComputePackedIndices(a, u);
    l := ComputeLinearIndex(p, packed);
  }

  // The fold of unpack never takes its out-of-range exit on a packed shape that holds the tiles.
  lemma UnpackFoldSucceeds(a: Attrs, shape: seq<nat>, packed: seq<nat>, i: nat)
    requires Fits(a, shape, packed) && i < Size(shape)
    ensures CellOfElement(a, shape, packed, i) < Size(packed)
  {
    NoEmptyDim(shape);
    MultiDimInBounds(i, shape);
    ElementHasCell(a, MultiDim(i, shape), shape, packed);
  }

  // ----- EliminateRedundantUnpackPack -----

  // A mixed tile size: a static attribute or an SSA value.
  datatype OpFoldResult = Attribute(n: int) | Value(id: nat)

  method AreOpFoldResultsEqual(x: seq<OpFoldResult>, y: seq<OpFoldResult>) returns (r: bool)
    ensures r <==> x == y
  {
    if |x| != |y| { return false; }
    for i := 0 to |x|
      invariant x[..i] == y[..i]
    {
      if x[i].Attribute? && y[i].Attribute? {
        if x[i].n != y[i].n { return false; }
      } else if x[i].Value? && y[i].Value? {
        if x[i].id != y[i].id { return false; }
      } else {
        return false;
      }
    }
    assert x[..|x|] == y[..|y|];
    return true;
  }

  // A pack or unpack op: attributes, mixed tiles, and the type of its packed side, with None
  // for a dynamic dimension.
  datatype LayoutOp = LayoutOp(pos: seq<nat>, tiles: seq<OpFoldResult>, perm: seq<nat>, packed: seq<Option<nat>>)

  // A tensor as it is at run time.
  datatype Tensor<T> = Tensor(shape: seq<nat>, data: seq<T>)

  ghost predicate HasType(shape: seq<nat>, dims: seq<Option<nat>>) {
    |shape| == |dims| && forall d :: 0 <= d < |dims| && dims[d].Some? ==> shape[d] == dims[d].value
  }

  // The op's attributes under the run-time values of its tile sizes.
  ghost function AttrsOf(op: LayoutOp, env: nat -> int): Attrs {
    Attrs(op.pos, seq(|op.tiles|, k requires 0 <= k < |op.tiles| =>
      match op.tiles[k] case Attribute(n) => n case Value(id) => env(id)), op.perm)
  }

  method CanEliminate(unpack: LayoutOp, pack: LayoutOp) returns (r: bool)
    ensures r <==> unpack == pack
  {
    if pack.pos != unpack.pos { return false; }
    var same := AreOpFoldResultsEqual(pack.tiles, unpack.tiles);
    if !same { return false; }
    if pack.perm != unpack.perm { return false; }
    return unpack.packed == pack.packed;
  }

  // dest is pack(unpack(src)), by way of a tensor of this shape.
  ghost predicate Repacks<T>(unpack: LayoutOp, pack: LayoutOp, env: nat -> int, shape: seq<nat>, src: Tensor<T>,
                             mid: seq<T>, pad: Option<T>, dest: Tensor<T>) {
    && HasType(src.shape, unpack.packed) && HasType(dest.shape, pack.packed)
    && Fits(AttrsOf(unpack, env), shape, src.shape) && Fits(AttrsOf(pack, env), shape, dest.shape)
    && IsUnpackOf(AttrsOf(unpack, env), shape, src.shape, src.data, mid)
    && IsPackOf(AttrsOf(pack, env), shape, dest.shape, mid, pad, dest.data)
  }

  ghost predicate PaddingHolds<T>(a: Attrs, shape: seq<nat>, src: Tensor<T>, pad: Option<T>)
    requires Valid(a, |shape|) && |src.shape| == |shape| + |a.pos| && |src.data| == Size(src.shape)
  {
    forall i: nat :: i < |src.data| && IsPadding(a, shape, src.shape, i) ==> pad == Some(src.data[i])
  }

  // The rewrite replaces pack(unpack(src)) by src.  Whenever it fires, for all run-time tile
  // sizes and shapes, that is exact iff the two packed tensors have one shape, as they have
  // when their type is static, and each padding cell of src holds the pad value.
  lemma EliminationIsExactIff<T>(unpack: LayoutOp, pack: LayoutOp, env: nat -> int, shape: seq<nat>,
                                 src: Tensor<T>, mid: seq<T>, pad: Option<T>, dest: Tensor<T>)
    requires unpack == pack && Repacks(unpack, pack, env, shape, src, mid, pad, dest)
    ensures dest == src <==> src.shape == dest.shape && PaddingHolds(AttrsOf(unpack, env), shape, src, pad)
    ensures src.shape == dest.shape ==>
      forall i: nat :: i < |src.data| && !IsPadding(AttrsOf(pack, env), shape, src.shape, i) ==>
        dest.data[i] == src.data[i]
    ensures (forall d :: 0 <= d < |unpack.packed| ==> unpack.packed[d].Some?) ==> src.shape == dest.shape
  {
    hide IsPadding, IsPackOf, IsUnpackOf, Fits;
    if src.shape == dest.shape {
      PackAfterUnpack(AttrsOf(pack, env), shape, src.shape, src.data, mid, pad, dest.data);
    }
  }

  // Tiles of two along a dynamic dimension: three tiles of room hold four elements, and so do
  // two; the rewrite fires and the result has another shape, whatever the padding holds.
  lemma EliminationCanChangeShape<T>(data: seq<T>, pad: Option<T>)
    requires |data| == 6
    ensures var op := LayoutOp([0], [Value(0)], [], [None, None]);
      var src, dest := Tensor([3, 2], data), Tensor([2, 2], data[..4]);
      Repacks(op, op, (id: nat) => 2, [4], src, data[..4], pad, dest) && src != dest
  {
    var op := LayoutOp([0], [Value(0)], [], [None, None]);
    var env := (id: nat) => 2;
    var a := Attrs([0], [2], []);
    assert AttrsOf(op, env) == a;
    PairShape(3);
    PairShape(2);
    assert Size([4]) == 4 by { assert Size([]) == 1; }
    hide Fits, CellHolds, ElementReads, Size;
    forall i: nat | i < 4
      ensures ElementReads(a, [4], [3, 2], data, i, data[i]) && CellHolds(a, [4], [2, 2], data[..4], pad, i, data[i])
    {
      PairReads(data, i);
      PairHolds(data[..4], pad, i);
    }
  }

  lemma PairShape(n: nat)
    requires n >= 2
    ensures Size([n, 2]) == n * 2 && Fits(Attrs([0], [2], []), [4], [n, 2])
  {
    var a := Attrs([0], [2], []);
    assert [n, 2][..1] == [n] && [n][..0] == [] && Size([n]) == n;
    assert Permutation(a.perm);
    assert TileOf(a, 0) == 2;
    assert FitsDim(a, [4], [n, 2], 0);
  }

  lemma PairDigits(n: nat, i: nat)
    requires 0 < n && i < n * 2
    ensures MultiDim(i, [n, 2]) == [i / 2, i % 2] && Linear([i / 2, i % 2], [n, 2]) == i
  {
    OneDigit(n, i / 2);
    DigitAfter(n, i / 2, i % 2);
    DigitsAfter(n, i);
  }

  lemma DigitAfter(n: nat, q: nat, r: nat)
    requires Linear([q], [n]) == q
    ensures Linear([q, r], [n, 2]) == q * 2 + r
  {
    assert [n, 2][..1] == [n] && [q, r][..1] == [q];
  }

  lemma DigitsAfter(n: nat, i: nat)
    requires n > 0 && MultiDim(i / 2, [n]) == [i / 2]
    ensures MultiDim(i, [n, 2]) == [i / 2, i % 2]
  {
    assert [n, 2][..1] == [n];
  }

  lemma OneDigit(n: nat, i: nat)
    requires i < n
    ensures MultiDim(i, [n]) == [i] && Linear([i], [n]) == i
  {
    assert [n][..0] == [] && [i][..0] == [];
    DivModUnique(i, 0, i, n);
    NoRows(n);
    assert MultiDim(0, []) == [] && Linear([], []) == 0;
  }

  lemma NoRows(n: nat)
    ensures 0 * n == 0
  {
  }

  lemma PairIndices(i: nat)
    ensures Valid(Attrs([0], [2], []), 1)
    ensures PackedIndex(Attrs([0], [2], []), [i]) == [i / 2, i % 2]
    ensures UnpackedIndex(Attrs([0], [2], []), 1, [i / 2, i % 2]) == [i]
  {
    var a := Attrs([0], [2], []);
    assert Permutation(a.perm);
    assert TileOf(a, 0) == 2;
    assert PackedOuter(a, [i], [i / 2, i % 2], 0);
    PackedIndexUnique(a, [i], [i / 2, i % 2]);
    assert UnpackedAt(a, [i / 2, i % 2], [i], 0);
    UnpackedIndexUnique(a, [i / 2, i % 2], [i]);
  }

  lemma PairReads<T>(data: seq<T>, i: nat)
    requires |data| == 6 && i < 4 && Size([4]) == 4
    ensures Valid(Attrs([0], [2], []), 1) && ElementReads(Attrs([0], [2], []), [4], [3, 2], data, i, data[i])
  {
    hide PackedIndex, Linear, MultiDim, Size, Valid;
    PairIndices(i);
    OneDigit(4, i);
    PairDigits(3, i);
  }

  lemma PairHolds<T>(data: seq<T>, pad: Option<T>, i: nat)
    requires i < |data| && |data| == 4 && Size([4]) == 4 && Size([2, 2]) == 4
    ensures Valid(Attrs([0], [2], []), 1) && CellHolds(Attrs([0], [2], []), [4], [2, 2], data, pad, i, data[i])
  {
    hide UnpackedIndex, Linear, MultiDim, Size, Valid;
    PairIndices(i);
    OneDigit(4, i);
    PairDigits(2, i);
  }

  // One element in a tile of two: the rewrite keeps whatever the padding cell held.
  lemma EliminationCanChangePadding(x: int, garbage: int, pad: int)
    requires garbage != pad
    ensures var a := Attrs([0], [2], []);
            Fits(a, [1], [1, 2]) && IsUnpackOf(a, [1], [1, 2], [x, garbage], [x])
            && IsPackOf(a, [1], [1, 2], [x], Some(pad), [x, pad])
  {
    hide MultiDim, Linear, Size, Fits, IsPadding, IsPackedIndex, IsUnpackedIndex;
    var a := Attrs([0], [2], []);
    OneElementShape();
    OneElementIndices(a, 0);
    OneElementIndices(a, 1);
    assert ElementReads(a, [1], [1, 2], [x, garbage], 0, x);
    assert SourceOf(a, 1, [1, 2], 0) == [0] && SourceOf(a, 1, [1, 2], 1) == [1];
    assert !IsPadding(a, [1], [1, 2], 0) && IsPadding(a, [1], [1, 2], 1) by { OneElementPadding(a); }
    assert CellHolds(a, [1], [1, 2], [x], Some(pad), 0, x);
    assert CellHolds(a, [1], [1, 2], [x], Some(pad), 1, pad);
  }

  lemma OneElementShape()
    ensures Size([1]) == 1 && Size([1, 2]) == 2
    ensures MultiDim(0, [1]) == [0] && Linear([0], [1]) == 0
    ensures MultiDim(0, [1, 2]) == [0, 0] && MultiDim(1, [1, 2]) == [0, 1]
    ensures Linear([0, 0], [1, 2]) == 0
  {
    assert [1, 2][..1] == [1] && [0, 0][..1] == [0];
    assert Size([]) == 1 && Size([1]) == 1;
    assert Linear([0], [1]) == 0 && MultiDim(0, [1]) == [0];
  }

  lemma OneElementIndices(a: Attrs, i: nat)
    requires a == Attrs([0], [2], []) && i < 2
    ensures Fits(a, [1], [1, 2])
    ensures UnpackedIndex(a, 1, [0, i]) == [i]
    ensures PackedIndex(a, [0]) == [0, 0]
  {
    assert Permutation(a.perm);
    assert TileOf(a, 0) == 2;
    assert FitsDim(a, [1], [1, 2], 0);
    assert UnpackedAt(a, [0, i], [i], 0);
    UnpackedIndexUnique(a, [0, i], [i]);
    assert PackedOuter(a, [0], [0, 0], 0);
    PackedIndexUnique(a, [0], [0, 0]);
  }

  lemma OneElementPadding(a: Attrs)
    requires Valid(a, 1) && |a.pos| == 1 && Size([1, 2]) == 2
    requires SourceOf(a, 1, [1, 2], 0) == [0] && SourceOf(a, 1, [1, 2], 1) == [1]
    ensures !IsPadding(a, [1], [1, 2], 0) && IsPadding(a, [1], [1, 2], 1)
  {
  }
}
