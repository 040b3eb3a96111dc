// PackUnpackUtils.cpp, SeedLayoutConversions.cpp and PreprocessTiledConv2D.cpp: the
// crouton layouts of images and filters, and slices of tensors kept in them.
module Crouton {
  import opened Arith
  import opened Basics
  import opened Sequences
  import opened PackLayout

  const F16_CROUTON: seq<nat> := [8, 2, 32, 2]

  function CeilDiv(x: nat, t: nat): nat
    requires t > 0
  {
    (x + t - 1) / t
  }

  // As many tiles as cover x, and no more.
  lemma CeilDivCovers(x: nat, t: nat)
    requires t > 0
    ensures x <= CeilDiv(x, t) * t < x + t
  {
  }

  // ----- images -----

  // NHWC packed over H, W, C; then the inner W split in two.
  const F16_FIRST := Attrs([1, 2, 3], [8, 4, 32], [])
  const F16_SECOND := Attrs([5], [2], [])

  function TempShape(s: seq<nat>): seq<nat>
    requires |s| == 4
  {
    [s[0], CeilDiv(s[1], F16_CROUTON[0]), CeilDiv(s[2], F16_CROUTON[1] * F16_CROUTON[3]), CeilDiv(s[3], F16_CROUTON[2]),
     F16_CROUTON[0], F16_CROUTON[1] * F16_CROUTON[3], F16_CROUTON[2]]
  }

  function PackedShape(s: seq<nat>): seq<nat>
    requires |s| == 4
  {
    [s[0], CeilDiv(s[1], F16_CROUTON[0]), CeilDiv(s[2], F16_CROUTON[1] * F16_CROUTON[3]), CeilDiv(s[3], F16_CROUTON[2]),
     F16_CROUTON[0], F16_CROUTON[1], F16_CROUTON[2], F16_CROUTON[3]]
  }

  lemma ThreeTiles(a: Attrs)
    requires a.pos == [1, 2, 3] && |a.tiles| == 3 && a.perm == [] && forall t :: 0 <= t < 3 ==> a.tiles[t] > 0
    ensures Valid(a, 4)
    ensures TileOf(a, 0) == 1 && TileOf(a, 1) == a.tiles[0] && TileOf(a, 2) == a.tiles[1] && TileOf(a, 3) == a.tiles[2]
  {
    FindAt(a.pos, 0);
    FindAt(a.pos, 1);
    FindAt(a.pos, 2);
  }

  lemma ThreeTilesFit(a: Attrs, s: seq<nat>, x: nat, y: nat, z: nat)
    requires a.pos == [1, 2, 3] && |a.tiles| == 3 && a.perm == [] && (forall t :: 0 <= t < 3 ==> a.tiles[t] > 0)
             && |s| == 4
    requires s[1] <= x * a.tiles[0] && s[2] <= y * a.tiles[1] && s[3] <= z * a.tiles[2]
    ensures Fits(a, s, [s[0], x, y, z, a.tiles[0], a.tiles[1], a.tiles[2]])
  {
    ThreeTiles(a);
    hide TileOf;
    var p: seq<nat> := [s[0], x, y, z, a.tiles[0], a.tiles[1], a.tiles[2]];
    assert FitsDim(a, s, p, 0) && FitsDim(a, s, p, 1) && FitsDim(a, s, p, 2) && FitsDim(a, s, p, 3);
  }

  lemma FirstFits(s: seq<nat>)
    requires |s| == 4
    ensures Fits(F16_FIRST, s, TempShape(s))
  {
    hide CeilDiv, Fits;
    CeilDivCovers(s[1], 8);
    CeilDivCovers(s[2], 4);
    CeilDivCovers(s[3], 32);
    ThreeTilesFit(F16_FIRST, s, CeilDiv(s[1], 8), CeilDiv(s[2], 4), CeilDiv(s[3], 32));
  }

  lemma SecondTiles()
    ensures Valid(F16_SECOND, 7)
    ensures forall d: nat :: d < 7 ==> TileOf(F16_SECOND, d) == if d == 5 then 2 else 1
  {
    FindAt([5], 0);
  }

  lemma SecondFits(s: seq<nat>)
    requires |s| == 4
    ensures Fits(F16_SECOND, TempShape(s), PackedShape(s))
  {
    SecondTiles();
    var t, p := TempShape(s), PackedShape(s);
    forall j | 0 <= j < 7 ensures FitsDim(F16_SECOND, t, p, j) {
      assert j != 5 ==> p[j] == t[j];
    }
  }

  // The layout both stages together give an element.
  function CroutonIndex(u: seq<nat>): seq<nat>
    requires |u| == 4
  {
    [u[0], u[1] / 8, u[2] / 4, u[3] / 32, u[1] % 8, u[2] % 4 / 2, u[3] % 32, u[2] % 2]
  }

  lemma FirstIndex(u: seq<nat>)
    requires |u| == 4
    ensures Valid(F16_FIRST, 4)
    ensures PackedIndex(F16_FIRST, u) == [u[0], u[1] / 8, u[2] / 4, u[3] / 32, u[1] % 8, u[2] % 4, u[3] % 32]
  {
    ThreeTiles(F16_FIRST);
    var p := [u[0], u[1] / 8, u[2] / 4, u[3] / 32, u[1] % 8, u[2] % 4, u[3] % 32];
    forall j | 0 <= j < 4 ensures PackedOuter(F16_FIRST, u, p, j) {}
    forall k | 0 <= k < 3 ensures p[4 + k] == u[F16_FIRST.pos[k]] % F16_FIRST.tiles[k] {}
    PackedIndexUnique(F16_FIRST, u, p);
  }

  lemma SecondIndex(v: seq<nat>)
    requires |v| == 7
    ensures Valid(F16_SECOND, 7)
    ensures PackedIndex(F16_SECOND, v) == [v[0], v[1], v[2], v[3], v[4], v[5] / 2, v[6], v[5] % 2]
  {
    SecondTiles();
    var p := [v[0], v[1], v[2], v[3], v[4], v[5] / 2, v[6], v[5] % 2];
    forall j | 0 <= j < 7 ensures PackedOuter(F16_SECOND, v, p, j) {}
    PackedIndexUnique(F16_SECOND, v, p);
  }

  lemma LowDigits(x: nat)
    ensures x % 2 == x % 4 % 2 && x / 2 % 16 == x % 32 / 2 && x % 2 == x % 32 % 2
  {
    ModOfMod(x, 2, 2);
    ModOfMod(x, 16, 2);
    HalfDigit(x);
  }

  lemma HalfDigit(x: nat)
    ensures x / 2 % 16 == x % 32 / 2
  {
  }

  lemma TwoStagesAreCrouton(u: seq<nat>)
    requires |u| == 4
    ensures Valid(F16_FIRST, 4) && Valid(F16_SECOND, 7) && |PackedIndex(F16_FIRST, u)| == 7
    ensures PackedIndex(F16_SECOND, PackedIndex(F16_FIRST, u)) == CroutonIndex(u)
  {
    hide PackedIndex, IsPackedIndex, WellFormed, Supported;
    FirstIndex(u);
    SecondIndex([u[0], u[1] / 8, u[2] / 4, u[3] / 32, u[1] % 8, u[2] % 4, u[3] % 32]);
    LowDigits(u[2]);
  }

  // The second stage has nothing to pad, so it needs no pad value.
  lemma SecondStageFull(s: seq<nat>, i: nat)
    requires |s| == 4 && i < Size(PackedShape(s))
    ensures Valid(F16_SECOND, 7) && !IsPadding(F16_SECOND, TempShape(s), PackedShape(s), i)
  {
    hide CeilDiv, Size, MultiDim, IsUnpackedIndex;
    SecondTiles();
    var packed := PackedShape(s);
    NoEmptyDim(packed);
    MultiDimInBounds(i, packed);
    SecondElement(s, MultiDim(i, packed), SourceOf(F16_SECOND, 7, packed, i));
  }

  lemma SecondElement(s: seq<nat>, p: seq<nat>, v: seq<nat>)
    requires |s| == 4 && |v| == 7 && InBounds(p, PackedShape(s)) && Valid(F16_SECOND, 7)
             && IsUnpackedIndex(F16_SECOND, p, v)
    ensures InBounds(v, TempShape(s))
  {
    hide CeilDiv;
    SecondTiles();
    var packed, temp := PackedShape(s), TempShape(s);
    forall d: nat | d < 7 ensures v[d] < temp[d] {
      assert UnpackedAt(F16_SECOND, p, v, d);
      assert d != 5 ==> v[d] == p[d] && packed[d] == temp[d];
    }
  }

  // Unpacking the packed image gives the image back, whatever was padded with.
  lemma ImageRoundTrip<T>(s: seq<nat>, src: seq<T>, pad: Option<T>, temp: seq<T>, packed: seq<T>, temp': seq<T>,
                          dst: seq<T>)
    requires |s| == 4 && Valid(F16_FIRST, 4) && Valid(F16_SECOND, 7)
    requires IsPackOf(F16_FIRST, s, TempShape(s), src, pad, temp)
    requires IsPackOf(F16_SECOND, TempShape(s), PackedShape(s), temp, None, packed)
    requires IsUnpackOf(F16_SECOND, TempShape(s), PackedShape(s), packed, temp')
    requires IsUnpackOf(F16_FIRST, s, TempShape(s), temp', dst)
    ensures dst == src
  {
    FirstFits(s);
    SecondFits(s);
    UnpackAfterPack(F16_SECOND, TempShape(s), PackedShape(s), temp, None, packed, temp');
    UnpackAfterPack(F16_FIRST, s, TempShape(s), src, pad, temp, dst);
  }

  // ----- slices of packed tensors -----

  datatype Layout = Image | Filter

  // [F, H, W, C] to [F/32, C/32, H, W, (C/2)%16, F%32, C%2].
  function FilterIndex(u: seq<nat>): seq<nat>
    requires |u| == 4
  {
    [u[0] / 32, u[3] / 32, u[1], u[2], u[3] / 2 % 16, u[0] % 32, u[3] % 2]
  }

  function FilterShape(s: seq<nat>): (p: seq<nat>)
    requires |s| == 4
    ensures |p| == 7
  {
    [CeilDiv(s[0], 32), CeilDiv(s[3], 32), s[1], s[2], 16, 32, 2]
  }

  function CellRank(l: Layout): nat { if l.Image? then 8 else 7 }

  function Cell(l: Layout, u: seq<nat>): (r: seq<nat>)
    requires |u| == 4
    ensures |r| == CellRank(l)
  {
    if l.Image? then CroutonIndex(u) else FilterIndex(u)
  }

  // Packed shape of a tensor, and packed sizes of a slice.
  function CellShape(l: Layout, s: seq<nat>): (r: seq<nat>)
    requires |s| == 4
    ensures |r| == CellRank(l)
  {
    if l.Image? then PackedShape(s) else FilterShape(s)
  }

  function CellOffsets(l: Layout, o: seq<nat>): (r: seq<nat>)
    requires |o| == 4
    ensures |r| == CellRank(l)
  {
    if l.Image? then [o[0], o[1] / 8, o[2] / 4, o[3] / 32, 0, 0, 0, 0]
    else [o[0] / 32, o[3] / 32, o[1], o[2], 0, 0, 0]
  }

  predicate Aligned(l: Layout, o: seq<nat>)
    requires |o| == 4
  {
    if l.Image? then o[1] % 8 == 0 && o[2] % 4 == 0 && o[3] % 32 == 0 else o[0] % 32 == 0 && o[3] % 32 == 0
  }

  function Add(a: seq<nat>, b: seq<nat>): (r: seq<nat>)
    requires |a| == |b|
    ensures |r| == |a| && forall k :: 0 <= k < |a| ==> r[k] == a[k] + b[k]
  {
    seq(|a|, k requires 0 <= k < |a| => a[k] + b[k])
  }

  ghost predicate Fitting(s: seq<nat>, o: seq<nat>, z: seq<nat>) {
    |s| == |o| == |z| && forall k :: 0 <= k < |s| ==> o[k] + z[k] <= s[k]
  }

  lemma CeilDivBound(x: nat, s: nat, t: nat)
    requires t > 0 && x < s
    ensures x / t < CeilDiv(s, t)
  {
    CeilDivCovers(s, t);
    DivBound(x, CeilDiv(s, t), t);
  }

  lemma CellInBounds(l: Layout, u: seq<nat>, s: seq<nat>)
    requires |s| == 4 && InBounds(u, s)
    ensures InBounds(Cell(l, u), CellShape(l, s))
  {
    hide CeilDiv;
    CeilDivBound(u[0], s[0], 32);
    CeilDivBound(u[1], s[1], 8);
    CeilDivBound(u[2], s[2], 4);
    CeilDivBound(u[3], s[3], 32);
  }

  lemma ShiftDigits(x: nat, o: nat, t: nat)
    requires t > 0 && o % t == 0
    ensures (x + o) / t == x / t + o / t && (x + o) % t == x % t
  {
    assert (x / t + o / t) * t == x / t * t + o / t * t;
    DivModUnique(x + o, x / t + o / t, x % t, t);
  }

  lemma ShiftCell(l: Layout, u: seq<nat>, o: seq<nat>)
    requires |u| == |o| == 4 && Aligned(l, o)
    ensures Cell(l, Add(u, o)) == Add(Cell(l, u), CellOffsets(l, o))
  {
    if l.Image? { ShiftImageCell(u, o); } else { ShiftFilterCell(u, o); }
  }

  lemma ShiftImageCell(u: seq<nat>, o: seq<nat>)
    requires |u| == |o| == 4 && Aligned(Image, o)
    ensures Cell(Image, Add(u, o)) == Add(Cell(Image, u), CellOffsets(Image, o))
  {
    ShiftDigits(u[1], o[1], 8);
    ShiftDigits(u[2], o[2], 4);
    ShiftDigits(u[3], o[3], 32);
    LowDigits(u[2] + o[2]);
    LowDigits(u[2]);
  }

  lemma ShiftFilterCell(u: seq<nat>, o: seq<nat>)
    requires |u| == |o| == 4 && Aligned(Filter, o)
    ensures Cell(Filter, Add(u, o)) == Add(Cell(Filter, u), CellOffsets(Filter, o))
  {
    ShiftDigits(u[0], o[0], 32);
    ShiftDigits(u[3], o[3], 32);
    LowDigits(u[3] + o[3]);
    LowDigits(u[3]);
  }

  // The element a tile starts with.
  function TileStart(l: Layout, o: seq<nat>): (r: seq<nat>)
    requires |o| == 4
    ensures |r| == 4 && Aligned(l, r)
  {
    if l.Image? then [o[0], o[1] - o[1] % 8, o[2] - o[2] % 4, o[3] - o[3] % 32]
    else [o[0] - o[0] % 32, o[1], o[2], o[3] - o[3] % 32]
  }

  lemma StartDigit(x: nat, t: nat)
    requires t > 0
    ensures (x - x % t) / t == x / t && (x - x % t) % t == 0
  {
    Recompose(x, t);
    DivModUnique(x - x % t, x / t, 0, t);
  }

  // The packed offsets are the first cell of the tile the slice starts in.
  lemma OffsetsAreTileStart(l: Layout, o: seq<nat>)
    requires |o| == 4
    ensures Cell(l, TileStart(l, o)) == CellOffsets(l, o)
  {
    StartDigit(o[0], 32);
    StartDigit(o[1], 8);
    StartDigit(o[2], 4);
    StartDigit(o[3], 32);
    var u := TileStart(l, o);
    LowDigits(u[2]);
    LowDigits(u[3]);
  }

  // The packed offsets of a slice at o: the first cell of its first tile, and for a slice
  // that starts on a tile, the distance from each element's cell in the slice to its cell.
  ghost predicate LineUp(l: Layout, o: seq<nat>, packed: seq<nat>)
    requires |o| == 4
  {
    && packed == Cell(l, TileStart(l, o))
    && (Aligned(l, o) ==> forall u: seq<nat> :: |u| == 4 ==> Cell(l, Add(u, o)) == Add(Cell(l, u), packed))
  }

  lemma OffsetsLineUp(l: Layout, o: seq<nat>)
    requires |o| == 4
    ensures LineUp(l, o, CellOffsets(l, o))
  {
    OffsetsAreTileStart(l, o);
    if Aligned(l, o) {
      forall u: seq<nat> | |u| == 4 ensures Cell(l, Add(u, o)) == Add(Cell(l, u), CellOffsets(l, o)) {
        ShiftCell(l, u, o);
      }
    }
  }

  // The last element of a tensor, or the first one of a dimension without any.
  function LastElement(z: seq<nat>): (r: seq<nat>)
    requires |z| == 4
    ensures |r| == 4
  {
    seq(4, k requires 0 <= k < 4 => if z[k] > 0 then z[k] - 1 else 0)
  }

  // The unpacked dimension the k-th outer dimension counts the tiles of.
  function CountedDim(l: Layout, k: nat): (d: nat)
    requires k < 4
    ensures d < 4
  {
    if l.Image? then k else [0, 3, 1, 2][k]
  }

  // The packed sizes of a slice hold the cell of every element, whole tiles of them, and
  // reach along each outer dimension just to the cell of the last element.
  ghost predicate Holds(l: Layout, z: seq<nat>, packed: seq<nat>)
    requires |z| == 4 && |packed| == CellRank(l)
  {
    && packed[4..] == (if l.Image? then F16_CROUTON else [16, 32, 2])
    && (forall u :: InBounds(u, z) ==> InBounds(Cell(l, u), packed))
    && forall k: nat {:trigger packed[k]} :: k < 4 ==>
         packed[k] == if z[CountedDim(l, k)] > 0 then Cell(l, LastElement(z))[k] + 1 else 0
  }

  lemma CeilDivLast(x: nat, t: nat)
    requires t > 0
    ensures CeilDiv(x, t) == if x > 0 then (x - 1) / t + 1 else 0
  {
    if x > 0 {
      Recompose(x - 1, t);
      DivModUnique(x + t - 1, (x - 1) / t + 1, (x - 1) % t, t);
    } else {
      DivModUnique(t - 1, 0, t - 1, t);
    }
  }

  lemma OuterSize(l: Layout, z: seq<nat>, k: nat)
    requires |z| == 4 && k < 4
    ensures CellShape(l, z)[k] == if z[CountedDim(l, k)] > 0 then Cell(l, LastElement(z))[k] + 1 else 0
  {
    var d := CountedDim(l, k);
    var u := LastElement(z);
    assert u[d] == if z[d] > 0 then z[d] - 1 else 0;
    if l.Image? { CeilDivLast(z[d], [1, 8, 4, 32][k]); } else { CeilDivLast(z[d], [32, 32, 1, 1][k]); }
    hide CeilDiv;
  }

  lemma SizesHold(l: Layout, z: seq<nat>)
    requires |z| == 4
    ensures Holds(l, z, CellShape(l, z))
  {
    forall u | InBounds(u, z) ensures InBounds(Cell(l, u), CellShape(l, z)) { CellInBounds(l, u, z); }
    var tile := if l.Image? then F16_CROUTON else [16, 32, 2];
    assert CellShape(l, z)[4..] == tile;
    hide CellShape, Cell, InBounds, CountedDim, LastElement;
    forall k: nat | k < 4
      ensures CellShape(l, z)[k] == if z[CountedDim(l, k)] > 0 then Cell(l, LastElement(z))[k] + 1 else 0
    {
      OuterSize(l, z, k);
    }
  }

  // The slice helpers, appending one dimension after the other.
  method PackedImageSliceOffsets(offsets: seq<nat>) returns (packed: seq<nat>)
    requires |offsets| == 4
    ensures LineUp(Image, offsets, packed)
  {
    packed := [offsets[0]];
    packed := packed + [offsets[1] / F16_CROUTON[0]];
    packed := packed + [offsets[2] / (F16_CROUTON[1] * F16_CROUTON[3])];
    packed := packed + [offsets[3] / F16_CROUTON[2]];
    packed := packed + [0];
    packed := packed + [packed[4]];
    packed := packed + [packed[5]];
    packed := packed + [packed[6]];
    OffsetsLineUp(Image, offsets);
    assert packed == CellOffsets(Image, offsets);
  }

  method PackedImageSliceSizes(sizes: seq<nat>) returns (packed: seq<nat>)
    requires |sizes| == 4
    ensures |packed| == 8 && Holds(Image, sizes, packed)
  {
    hide Holds;
    packed := [sizes[0]];
    packed := packed + [CeilDiv(sizes[1], F16_CROUTON[0])];
    packed := packed + [CeilDiv(sizes[2], F16_CROUTON[1] * F16_CROUTON[3])];
    packed := packed + [CeilDiv(sizes[3], F16_CROUTON[2])];
    packed := packed + [F16_CROUTON[0], F16_CROUTON[1], F16_CROUTON[2], F16_CROUTON[3]];
    SizesHold(Image, sizes);
    assert packed == CellShape(Image, sizes);
  }

  method PackedFilterSliceOffsets(offsets: seq<nat>) returns (packed: seq<nat>)
    requires |offsets| == 4
    ensures LineUp(Filter, offsets, packed)
  {
    packed := [offsets[0] / 32];
    packed := packed + [offsets[3] / 32];
    packed := packed + [offsets[1]];
    packed := packed + [offsets[2]];
    packed := packed + [0, 0, 0];
    OffsetsLineUp(Filter, offsets);
    assert packed == CellOffsets(Filter, offsets);
  }

  method PackedFilterSliceSizes(sizes: seq<nat>) returns (packed: seq<nat>)
    requires |sizes| == 4
    ensures |packed| == 7 && Holds(Filter, sizes, packed)
  {
    hide Holds;
    packed := [CeilDiv(sizes[0], 32)];
    packed := packed + [CeilDiv(sizes[3], 32)];
    packed := packed + [sizes[1]];
    packed := packed + [sizes[2]];
    packed := packed + [16, 32, 2];
    SizesHold(Filter, sizes);
    assert packed == CellShape(Filter, sizes);
  }

  ghost predicate CellsShift(l: Layout, o: seq<nat>, u: seq<nat>)
    requires |u| == |o| == 4
  {
    Cell(l, Add(u, o)) == Add(Cell(l, u), CellOffsets(l, o))
  }

  // A packed slice lines up with the slice exactly when the slice starts on a tile.
  lemma ShiftIffAligned(l: Layout, o: seq<nat>, z: seq<nat>)
    requires |o| == |z| == 4 && forall k :: 0 <= k < 4 ==> z[k] > 0
    ensures (forall u :: InBounds(u, z) ==> CellsShift(l, o, u)) <==> Aligned(l, o)
  {
    if Aligned(l, o) {
      forall u | InBounds(u, z) ensures CellsShift(l, o, u) { ShiftCell(l, u, o); }
    } else {
      var u: seq<nat> := [0, 0, 0, 0];
      assert InBounds(u, z);
      assert Add(u, o) == o;
      var a, b := Cell(l, o), Add(Cell(l, u), CellOffsets(l, o));
      OffTile(l, o);
      assert !CellsShift(l, o, u);
    }
  }

  lemma OffTile(l: Layout, o: seq<nat>)
    requires |o| == 4 && !Aligned(l, o)
    ensures Cell(l, o) != Add(Cell(l, [0, 0, 0, 0]), CellOffsets(l, o))
  {
    var a, b := Cell(l, o), Add(Cell(l, [0, 0, 0, 0]), CellOffsets(l, o));
    if l.Image? {
      assert a[4] != b[4] || a[5] != b[5] || a[6] != b[6] || a[7] != b[7];
    } else {
      assert a[4] != b[4] || a[5] != b[5] || a[6] != b[6];
    }
  }

  lemma CeilDivSum(o: nat, z: nat, s: nat, t: nat)
    requires t > 0 && o % t == 0 && o + z <= s
    ensures o / t + CeilDiv(z, t) <= CeilDiv(s, t)
  {
    ShiftDigits(z + t - 1, o, t);
    DivMono(o + z + t - 1, s + t - 1, t);
  }

  lemma DivMono(x: nat, y: nat, t: nat)
    requires t > 0 && x <= y
    ensures x / t <= y / t
  {
    if x / t > y / t { MulMono(y / t + 1, x / t, t); }
  }

  // The packed slice is inside the packed tensor.
  lemma PackedSliceFits(l: Layout, s: seq<nat>, o: seq<nat>, z: seq<nat>)
    requires |s| == |o| == |z| == 4 && Fitting(s, o, z) && Aligned(l, o)
    ensures Fitting(CellShape(l, s), CellOffsets(l, o), CellShape(l, z))
  {
    hide CeilDiv;
    if l.Image? {
      CeilDivSum(o[1], z[1], s[1], 8);
      CeilDivSum(o[2], z[2], s[2], 4);
      CeilDivSum(o[3], z[3], s[3], 32);
    } else {
      CeilDivSum(o[0], z[0], s[0], 32);
      CeilDivSum(o[3], z[3], s[3], 32);
    }
  }

  // ----- contents: unpacking, extracting and inserting -----

  ghost function Read<T>(x: seq<T>, s: seq<nat>, u: seq<nat>): T
    requires |x| == Size(s) && InBounds(u, s)
  {
    LinearInBounds(u, s);
    x[Linear(u, s)]
  }

  ghost predicate UnpacksTo<T>(l: Layout, s: seq<nat>, packed: seq<T>, x: seq<T>)
    requires |s| == 4
  {
    && |packed| == Size(CellShape(l, s)) && |x| == Size(s)
    && forall u :: InBounds(u, s) ==> UnpacksAt(l, s, packed, x, u)
  }

  ghost predicate UnpacksAt<T>(l: Layout, s: seq<nat>, packed: seq<T>, x: seq<T>, u: seq<nat>)
    requires |s| == 4 && |packed| == Size(CellShape(l, s)) && |x| == Size(s) && InBounds(u, s)
  {
    CellInBounds(l, u, s);
    Read(x, s, u) == Read(packed, CellShape(l, s), Cell(l, u))
  }

  ghost predicate ExtractsTo<T>(s: seq<nat>, o: seq<nat>, z: seq<nat>, x: seq<T>, slice: seq<T>)
    requires |s| == |o| == |z|
  {
    |x| == Size(s) && |slice| == Size(z) && forall u :: InBounds(u, z) ==> ExtractsAt(s, o, z, x, slice, u)
  }

  ghost predicate ExtractsAt<T>(s: seq<nat>, o: seq<nat>, z: seq<nat>, x: seq<T>, slice: seq<T>, u: seq<nat>)
    requires |s| == |o| == |z| && |x| == Size(s) && |slice| == Size(z) && InBounds(u, z)
  {
    InBounds(Add(u, o), s) && Read(slice, z, u) == Read(x, s, Add(u, o))
  }

  lemma SameContents<T>(s: seq<nat>, x: seq<T>, y: seq<T>)
    requires |x| == |y| == Size(s) && forall u :: InBounds(u, s) ==> Read(x, s, u) == Read(y, s, u)
    ensures x == y
  {
    forall i: nat | i < |x| ensures x[i] == y[i] {
      NoEmptyDim(s);
      MultiDimInBounds(i, s);
      assert Read(x, s, MultiDim(i, s)) == Read(y, s, MultiDim(i, s));
    }
  }

  // Slicing commutes with packing: unpacking the packed slice is the slice of the unpacked tensor.
  lemma SliceCommutes<T>(l: Layout, s: seq<nat>, o: seq<nat>, z: seq<nat>,
                         packed: seq<T>, x: seq<T>, packedSlice: seq<T>, unpackedSlice: seq<T>, slice: seq<T>)
    requires |s| == |o| == |z| == 4 && Fitting(s, o, z) && Aligned(l, o)
    requires UnpacksTo(l, s, packed, x) && ExtractsTo(s, o, z, x, slice)
    requires ExtractsTo(CellShape(l, s), CellOffsets(l, o), CellShape(l, z), packed, packedSlice)
    requires UnpacksTo(l, z, packedSlice, unpackedSlice)
    ensures unpackedSlice == slice
  {
    hide CellShape, CellOffsets, Cell, Read, Aligned;
    forall u | InBounds(u, z) ensures Read(unpackedSlice, z, u) == Read(slice, z, u) {
      var v := Add(u, o);
      assert InBounds(v, s);
      CellInBounds(l, u, z);
      CellInBounds(l, v, s);
      ShiftCell(l, u, o);
      assert UnpacksAt(l, z, packedSlice, unpackedSlice, u) && UnpacksAt(l, s, packed, x, v);
      assert ExtractsAt(s, o, z, x, slice, u);
      assert ExtractsAt(CellShape(l, s), CellOffsets(l, o), CellShape(l, z), packed, packedSlice, Cell(l, u));
    }
    SameContents(z, unpackedSlice, slice);
  }

  ghost predicate InWindow(p: seq<nat>, o: seq<nat>, z: seq<nat>)
    requires |p| == |o| == |z|
  {
    forall k :: 0 <= k < |p| ==> o[k] <= p[k] < o[k] + z[k]
  }

  function Sub(a: seq<nat>, b: seq<nat>): (r: seq<nat>)
    requires |a| == |b| && forall k :: 0 <= k < |a| ==> b[k] <= a[k]
    ensures |r| == |a| && forall k :: 0 <= k < |a| ==> r[k] == a[k] - b[k]
  {
    seq(|a|, k requires 0 <= k < |a| => a[k] - b[k])
  }

  ghost predicate InsertsTo<T>(s: seq<nat>, o: seq<nat>, z: seq<nat>, x: seq<T>, slice: seq<T>, r: seq<T>)
    requires |s| == |o| == |z|
  {
    |x| == |r| == Size(s) && |slice| == Size(z) && forall p :: InBounds(p, s) ==> InsertsAt(s, o, z, x, slice, r, p)
  }

  ghost predicate InsertsAt<T>(s: seq<nat>, o: seq<nat>, z: seq<nat>, x: seq<T>, slice: seq<T>, r: seq<T>, p: seq<nat>)
    requires |s| == |o| == |z| && |x| == |r| == Size(s) && |slice| == Size(z) && InBounds(p, s)
  {
    Read(r, s, p) == if InWindow(p, o, z) then Read(slice, z, Sub(p, o)) else Read(x, s, p)
  }

  // An element outside the slice whose cell the packed insertion overwrites.
  ghost predicate Clobbered(l: Layout, s: seq<nat>, o: seq<nat>, z: seq<nat>, u: seq<nat>)
    requires |s| == |o| == |z| == 4
  {
    InBounds(u, s) && !InWindow(u, o, z) && InWindow(Cell(l, u), CellOffsets(l, o), CellShape(l, z))
  }

  // What the packed insertion puts there, against what was there.
  ghost predicate Harmless<T>(l: Layout, s: seq<nat>, o: seq<nat>, z: seq<nat>, packed: seq<T>, packedSlice: seq<T>,
                              u: seq<nat>)
    requires |s| == |o| == |z| == 4 && |packed| == Size(CellShape(l, s)) && |packedSlice| == Size(CellShape(l, z))
    requires Clobbered(l, s, o, z, u)
  {
    CellInBounds(l, u, s);
    Read(packedSlice, CellShape(l, z), Sub(Cell(l, u), CellOffsets(l, o))) == Read(packed, CellShape(l, s), Cell(l, u))
  }

  lemma TileOfWindow(x: nat, o: nat, z: nat, t: nat)
    requires t > 0 && o % t == 0 && o <= x < o + z
    ensures o / t <= x / t < o / t + CeilDiv(z, t)
  {
    ShiftDigits(x - o, o, t);
    CeilDivBound(x - o, z, t);
  }

  lemma ExactTiles(z: nat, t: nat)
    requires t > 0 && z % t == 0
    ensures CeilDiv(z, t) == z / t
  {
    Recompose(z, t);
    DivModUnique(z + t - 1, z / t, t - 1, t);
  }

  lemma TileAfterEnd(x: nat, o: nat, z: nat, t: nat)
    requires t > 0 && o % t == 0 && z % t == 0 && x >= o + z
    ensures x / t >= o / t + CeilDiv(z, t)
  {
    hide CeilDiv;
    ShiftDigits(x - o, o, t);
    ExactTiles(z, t);
    DivMono(z, x - o, t);
  }

  lemma TileBeforeStart(x: nat, o: nat, t: nat)
    requires t > 0 && o % t == 0 && x < o
    ensures x / t < o / t
  {
    Recompose(o, t);
    DivBound(x, o / t, t);
  }

  lemma WindowOfTile(x: nat, o: nat, z: nat, s: nat, t: nat)
    requires t > 0 && o % t == 0 && x < s && o + z <= s && (z % t == 0 || o + z == s)
    requires o / t <= x / t < o / t + CeilDiv(z, t)
    ensures o <= x < o + z
  {
    hide CeilDiv;
    if x < o { TileBeforeStart(x, o, t); }
    if x >= o + z { TileAfterEnd(x, o, z, t); }
  }

  lemma Overhang(o: nat, z: nat, t: nat)
    requires t > 0 && o % t == 0 && z % t != 0
    ensures o / t <= (o + z) / t < o / t + CeilDiv(z, t)
  {
    ShiftDigits(z, o, t);
    DivModUnique(z + t - 1, z / t + 1, z % t - 1, t);
  }

  // Along one dimension the slice ends on a tile or at the tensor's edge.
  predicate EndsWell(s: seq<nat>, o: seq<nat>, z: seq<nat>, k: nat, t: nat)
    requires k < |s| == |o| == |z| && t > 0
  {
    z[k] % t == 0 || o[k] + z[k] == s[k]
  }

  predicate EndsWellEverywhere(l: Layout, s: seq<nat>, o: seq<nat>, z: seq<nat>)
    requires |s| == |o| == |z| == 4
  {
    if l.Image? then EndsWell(s, o, z, 1, 8) && EndsWell(s, o, z, 2, 4) && EndsWell(s, o, z, 3, 32)
    else EndsWell(s, o, z, 0, 32) && EndsWell(s, o, z, 3, 32)
  }

  lemma CellOfWindow(l: Layout, o: seq<nat>, z: seq<nat>, u: seq<nat>)
    requires |u| == |o| == |z| == 4 && Aligned(l, o) && InWindow(u, o, z)
    ensures InWindow(Cell(l, u), CellOffsets(l, o), CellShape(l, z))
  {
    hide CeilDiv;
    if l.Image? {
      TileOfWindow(u[1], o[1], z[1], 8);
      TileOfWindow(u[2], o[2], z[2], 4);
      TileOfWindow(u[3], o[3], z[3], 32);
    } else {
      TileOfWindow(u[0], o[0], z[0], 32);
      TileOfWindow(u[3], o[3], z[3], 32);
    }
  }

  lemma NotClobbered(l: Layout, s: seq<nat>, o: seq<nat>, z: seq<nat>, u: seq<nat>)
    requires |s| == |o| == |z| == 4 && Fitting(s, o, z) && Aligned(l, o) && EndsWellEverywhere(l, s, o, z)
    ensures !Clobbered(l, s, o, z, u)
  {
    hide CeilDiv;
    if Clobbered(l, s, o, z, u) {
      var p, q, n := Cell(l, u), CellOffsets(l, o), CellShape(l, z);
      assert q[0] <= p[0] < q[0] + n[0] && q[1] <= p[1] < q[1] + n[1];
      assert q[2] <= p[2] < q[2] + n[2] && q[3] <= p[3] < q[3] + n[3];
      if l.Image? {
        WindowOfTile(u[1], o[1], z[1], s[1], 8);
        WindowOfTile(u[2], o[2], z[2], s[2], 4);
        WindowOfTile(u[3], o[3], z[3], s[3], 32);
      } else {
        WindowOfTile(u[0], o[0], z[0], s[0], 32);
        WindowOfTile(u[3], o[3], z[3], s[3], 32);
      }
    }
  }

  // The element just past a ragged end that is not the tensor's edge.
  lemma PastTheEnd(l: Layout, s: seq<nat>, o: seq<nat>, z: seq<nat>, k: nat, t: nat) returns (u: seq<nat>)
    requires |s| == |o| == |z| == 4 && Fitting(s, o, z) && Aligned(l, o) && (forall d :: 0 <= d < 4 ==> z[d] > 0)
    requires k < 4 && t > 1 && !EndsWell(s, o, z, k, t)
    requires if l.Image? then (k == 1 && t == 8) || (k == 2 && t == 4) || (k == 3 && t == 32)
             else (k == 0 || k == 3) && t == 32
    ensures Clobbered(l, s, o, z, u)
  {
    u := o[k := o[k] + z[k]];
    Overhang(o[k], z[k], t);
    forall d: nat | d < 4 ensures o[d] <= o[d] < o[d] + z[d] {}
    TileOfWindow(o[0], o[0], z[0], 1);
    if l.Image? {
      TileOfWindow(o[1], o[1], z[1], 8);
      TileOfWindow(o[2], o[2], z[2], 4);
      TileOfWindow(o[3], o[3], z[3], 32);
    } else {
      TileOfWindow(o[0], o[0], z[0], 32);
      TileOfWindow(o[3], o[3], z[3], 32);
    }
    assert !(o[k] <= u[k] < o[k] + z[k]);
    CellBounds(l, o, z, u);
  }

  lemma CellBounds(l: Layout, o: seq<nat>, z: seq<nat>, u: seq<nat>)
    requires |u| == |o| == |z| == 4
    requires if l.Image?
             then o[0] <= u[0] < o[0] + z[0] && o[1] / 8 <= u[1] / 8 < o[1] / 8 + CeilDiv(z[1], 8)
                  && o[2] / 4 <= u[2] / 4 < o[2] / 4 + CeilDiv(z[2], 4)
                  && o[3] / 32 <= u[3] / 32 < o[3] / 32 + CeilDiv(z[3], 32)
             else o[1] <= u[1] < o[1] + z[1] && o[2] <= u[2] < o[2] + z[2]
                  && o[0] / 32 <= u[0] / 32 < o[0] / 32 + CeilDiv(z[0], 32)
                  && o[3] / 32 <= u[3] / 32 < o[3] / 32 + CeilDiv(z[3], 32)
    ensures InWindow(Cell(l, u), CellOffsets(l, o), CellShape(l, z))
  {
    hide CeilDiv;
  }

  // A packed insertion overwrites nothing but the slice exactly when, along every tiled
  // dimension, the slice ends on a tile or at the edge of the tensor.
  lemma NothingClobberedIff(l: Layout, s: seq<nat>, o: seq<nat>, z: seq<nat>)
    requires |s| == |o| == |z| == 4 && Fitting(s, o, z) && Aligned(l, o) && forall d :: 0 <= d < 4 ==> z[d] > 0
    ensures (forall u :: !Clobbered(l, s, o, z, u)) <==> EndsWellEverywhere(l, s, o, z)
  {
    hide Clobbered, EndsWell;
    if EndsWellEverywhere(l, s, o, z) {
      forall u ensures !Clobbered(l, s, o, z, u) { NotClobbered(l, s, o, z, u); }
    } else if l.Image? {
      if !EndsWell(s, o, z, 1, 8) { var u := PastTheEnd(l, s, o, z, 1, 8); }
      else if !EndsWell(s, o, z, 2, 4) { var u := PastTheEnd(l, s, o, z, 2, 4); }
      else { var u := PastTheEnd(l, s, o, z, 3, 32); }
    } else {
      if !EndsWell(s, o, z, 0, 32) { var u := PastTheEnd(l, s, o, z, 0, 32); }
      else { var u := PastTheEnd(l, s, o, z, 3, 32); }
    }
  }

  // One element after a packed insertion, against the same element after a plain one.
  lemma InsertedElement<T>(l: Layout, s: seq<nat>, o: seq<nat>, z: seq<nat>, packed: seq<T>, packedSlice: seq<T>,
                           r: seq<T>, x: seq<T>, slice: seq<T>, v: seq<T>, w: seq<T>,
                           u: seq<nat>)
    requires |s| == |o| == |z| == 4 && Fitting(s, o, z) && Aligned(l, o) && InBounds(u, s)
    requires UnpacksTo(l, s, packed, x) && UnpacksTo(l, z, packedSlice, slice)
    requires InsertsTo(CellShape(l, s), CellOffsets(l, o), CellShape(l, z), packed, packedSlice, r)
    requires UnpacksTo(l, s, r, v) && InsertsTo(s, o, z, x, slice, w)
    ensures Read(v, s, u) == Read(w, s, u)
            <==> (Clobbered(l, s, o, z, u) ==> Harmless(l, s, o, z, packed, packedSlice, u))
  {
    hide CellShape, CellOffsets, Cell, Read, Aligned;
    CellInBounds(l, u, s);
    assert UnpacksAt(l, s, r, v, u) && UnpacksAt(l, s, packed, x, u);
    assert InsertsAt(s, o, z, x, slice, w, u);
    assert InsertsAt(CellShape(l, s), CellOffsets(l, o), CellShape(l, z), packed, packedSlice, r, Cell(l, u));
    if InWindow(u, o, z) {
      CellOfWindow(l, o, z, u);
      var u' := Sub(u, o);
      assert Add(u', o) == u;
      ShiftCell(l, u', o);
      assert InBounds(u', z);
      CellInBounds(l, u', z);
      assert Sub(Cell(l, u), CellOffsets(l, o)) == Cell(l, u');
      assert UnpacksAt(l, z, packedSlice, slice, u');
    }
  }

  // Inserting a packed slice is inserting the slice, exactly when every element overwritten
  // outside the slice happens to keep its value.
  lemma InsertionIsExactIff<T>(l: Layout, s: seq<nat>, o: seq<nat>, z: seq<nat>, packed: seq<T>, packedSlice: seq<T>,
                               r: seq<T>, x: seq<T>, slice: seq<T>, v: seq<T>, w: seq<T>)
    requires |s| == |o| == |z| == 4 && Fitting(s, o, z) && Aligned(l, o)
    requires UnpacksTo(l, s, packed, x) && UnpacksTo(l, z, packedSlice, slice)
    requires InsertsTo(CellShape(l, s), CellOffsets(l, o), CellShape(l, z), packed, packedSlice, r)
    requires UnpacksTo(l, s, r, v) && InsertsTo(s, o, z, x, slice, w)
    ensures v == w <==> forall u :: Clobbered(l, s, o, z, u) ==> Harmless(l, s, o, z, packed, packedSlice, u)
    ensures EndsWellEverywhere(l, s, o, z) ==> v == w
  {
    hide CellShape, CellOffsets, Cell, Read, Aligned, EndsWellEverywhere, Harmless;
    forall u | InBounds(u, s)
      ensures Read(v, s, u) == Read(w, s, u)
              <==> (Clobbered(l, s, o, z, u) ==> Harmless(l, s, o, z, packed, packedSlice, u))
    {
      InsertedElement(l, s, o, z, packed, packedSlice, r, x, slice, v, w, u);
    }
    if forall u :: Clobbered(l, s, o, z, u) ==> Harmless(l, s, o, z, packed, packedSlice, u) {
      SameContents(s, v, w);
    }
    if EndsWellEverywhere(l, s, o, z) {
      forall u ensures !Clobbered(l, s, o, z, u) { NotClobbered(l, s, o, z, u); }
    }
  }

  // ----- what the packed tensors hold -----

  lemma PackedElement<T>(a: Attrs, s: seq<nat>, p: seq<nat>, packed: seq<T>, x: seq<T>, u: seq<nat>)
    requires Fits(a, s, p) && IsUnpackOf(a, s, p, packed, x) && InBounds(u, s)
    ensures CellOf(a, u, p) < |packed| && Read(x, s, u) == packed[CellOf(a, u, p)]
  {
    hide CellOf, HoldsTiles;
    LinearInBounds(u, s);
    assert ElementReads(a, s, p, packed, Linear(u, s), x[Linear(u, s)]);
  }

  // The two unpack stages read each element from its crouton cell.
  lemma TwoStageUnpack<T>(s: seq<nat>, packed: seq<T>, temp: seq<T>, x: seq<T>)
    requires |s| == 4 && Valid(F16_FIRST, 4) && Valid(F16_SECOND, 7)
    ensures IsUnpackOf(F16_SECOND, TempShape(s), PackedShape(s), packed, temp)
            && IsUnpackOf(F16_FIRST, s, TempShape(s), temp, x)
            ==> UnpacksTo(Image, s, packed, x)
  {
    FirstFits(s);
    SecondFits(s);
    forall u | IsUnpackOf(F16_SECOND, TempShape(s), PackedShape(s), packed, temp)
      && IsUnpackOf(F16_FIRST, s, TempShape(s), temp, x)
               && InBounds(u, s)
      ensures UnpacksAt(Image, s, packed, x, u)
    {
      hide Fits, TempShape, PackedShape, CroutonIndex, PackedIndex, IsUnpackOf;
      var v := PackedIndex(F16_FIRST, u);
      PackedInBounds(F16_FIRST, u, s, TempShape(s));
      TwoStagesAreCrouton(u);
      PackedElement(F16_FIRST, s, TempShape(s), temp, x, u);
      PackedElement(F16_SECOND, TempShape(s), PackedShape(s), packed, temp, v);
    }
  }

  // ----- filters: pad, reshape, transpose -----

  function PaddingEnd(x: nat): nat { (32 - x % 32) % 32 }

  function PaddedFilter(s: seq<nat>): (p: seq<nat>)
    requires |s| == 4
    ensures |p| == 4
  {
    [s[0] + PaddingEnd(s[0]), s[1], s[2], s[3] + PaddingEnd(s[3])]
  }

  function ReshapedFilter(s: seq<nat>): (p: seq<nat>)
    requires |s| == 4
    ensures |p| == 7
  {
    var p := PaddedFilter(s);
    [p[0] / 32, 32, p[1], p[2], p[3] / 32, 16, 2]
  }

  lemma PaddedDim(x: nat)
    ensures x + PaddingEnd(x) == 32 * CeilDiv(x, 32) && (x + PaddingEnd(x)) / 32 == CeilDiv(x, 32)
  {
  }

  // tensor.pad with zero low padding.
  ghost predicate IsPadOf<T>(s: seq<nat>, p: seq<nat>, src: seq<T>, pad: T, dst: seq<T>) {
    |src| == Size(s) && |dst| == Size(p) && forall u :: InBounds(u, p) ==> PadsAt(s, p, src, pad, dst, u)
  }

  ghost predicate PadsAt<T>(s: seq<nat>, p: seq<nat>, src: seq<T>, pad: T, dst: seq<T>, u: seq<nat>)
    requires |src| == Size(s) && |dst| == Size(p) && InBounds(u, p)
  {
    Read(dst, p, u) == if InBounds(u, s) then Read(src, s, u) else pad
  }

  function Permuted(d: seq<nat>, perm: seq<nat>): (r: seq<nat>)
    requires forall j :: 0 <= j < |perm| ==> perm[j] < |d|
    ensures |r| == |perm| && forall j :: 0 <= j < |perm| ==> r[j] == d[perm[j]]
  {
    seq(|perm|, j requires 0 <= j < |perm| => d[perm[j]])
  }

  const FILTER_PERM: seq<nat> := [0, 4, 2, 3, 5, 1, 6]

  // linalg.transpose by the filter permutation.
  ghost predicate IsTransposeOf<T>(s: seq<nat>, src: seq<T>, t: seq<nat>, dst: seq<T>)
    requires |s| == |t| == 7
  {
    |src| == Size(s) && |dst| == Size(t) && forall d :: InBounds(d, s) ==> TransposesAt(s, src, t, dst, d)
  }

  ghost predicate TransposesAt<T>(s: seq<nat>, src: seq<T>, t: seq<nat>, dst: seq<T>, d: seq<nat>)
    requires |s| == |t| == 7 && |src| == Size(s) && |dst| == Size(t) && InBounds(d, s)
  {
    InBounds(Permuted(d, FILTER_PERM), t) && Read(dst, t, Permuted(d, FILTER_PERM)) == Read(src, s, d)
  }

  lemma LinearSnoc(p: seq<nat>, s: seq<nat>, x: nat, d: nat)
    requires |p| == |s|
    ensures Linear(p + [x], s + [d]) == Linear(p, s) * d + x
    ensures Size(s + [d]) == Size(s) * d
  {
    assert (p + [x])[..|p|] == p && (s + [d])[..|s|] == s;
  }

  // Digits of a padded filter index in the reshaped tensor.
  function ReshapedIndex(u: seq<nat>): seq<nat>
    requires |u| == 4
  {
    [u[0] / 32, u[0] % 32, u[1], u[2], u[3] / 32, u[3] / 2 % 16, u[3] % 2]
  }

  // Two indices of two shapes that are the same row-major position.
  ghost predicate SamePosition(p: seq<nat>, ps: seq<nat>, q: seq<nat>, qs: seq<nat>) {
    |p| == |ps| && |q| == |qs| && Linear(p, ps) == Linear(q, qs) && Size(ps) == Size(qs)
  }

  lemma SameSnoc(p: seq<nat>, ps: seq<nat>, q: seq<nat>, qs: seq<nat>, x: nat, d: nat)
    requires SamePosition(p, ps, q, qs)
    ensures SamePosition(p + [x], ps + [d], q + [x], qs + [d])
  {
    LinearSnoc(p, ps, x, d);
    LinearSnoc(q, qs, x, d);
  }

  // One dimension of m * t split in two.
  lemma SplitSnoc(p: seq<nat>, ps: seq<nat>, q: seq<nat>, qs: seq<nat>, x: nat, d: nat, i: nat, r: nat, m: nat, t: nat)
    requires SamePosition(p, ps, q, qs) && x == i * t + r && d == m * t
    ensures SamePosition(p + [x], ps + [d], q + [i] + [r], qs + [m] + [t])
  {
    hide Linear, Size;
    LinearSnoc(p, ps, x, d);
    LinearSnoc(q, qs, i, m);
    LinearSnoc(q + [i], qs + [m], r, t);
    SplitProduct(Linear(p, ps), i, r, m, t);
    SplitProduct(Size(ps), 0, 0, m, t);
  }

  lemma SplitProduct(l: nat, i: nat, r: nat, m: nat, t: nat)
    ensures (l * m + i) * t + r == l * (m * t) + (i * t + r)
  {
    assert l * m * t == l * (m * t);
    assert (l * m + i) * t == l * m * t + i * t;
  }

  // A row-major reshape: padded and reshaped index are the same position.
  lemma ReshapeKeepsPosition(s: seq<nat>, u: seq<nat>)
    requires |s| == |u| == 4
    ensures SamePosition(u, PaddedFilter(s), ReshapedIndex(u), ReshapedFilter(s))
  {
    PaddedDim(s[0]);
    PaddedDim(s[3]);
    var f, n := CeilDiv(s[0], 32), CeilDiv(s[3], 32);
    hide CeilDiv, PaddingEnd, Linear, Size, SamePosition;
    var h, w, c := u[1], u[2], u[3];
    assert SamePosition([], [], [], []) by { NoPosition(); }
    Recompose(u[0], 32);
    SplitSnoc([], [], [], [], u[0], f * 32, u[0] / 32, u[0] % 32, f, 32);
    var p, ps, q, qs := [] + [u[0]], [] + [f * 32], [] + [u[0] / 32] + [u[0] % 32], [] + [f] + [32];
    SameSnoc(p, ps, q, qs, h, s[1]);
    p, ps, q, qs := p + [h], ps + [s[1]], q + [h], qs + [s[1]];
    SameSnoc(p, ps, q, qs, w, s[2]);
    p, ps, q, qs := p + [w], ps + [s[2]], q + [w], qs + [s[2]];
    ChannelSplit(p, ps, q, qs, c, n);
    assert p + [c] == u && ps + [n * 32] == PaddedFilter(s);
    assert q + [c / 32] + [c / 2 % 16] + [c % 2] == ReshapedIndex(u);
    assert qs + [n] + [16] + [2] == ReshapedFilter(s);
  }

  lemma NoPosition()
    ensures SamePosition([], [], [], [])
  {
  }

  // The channel dimension split in three.
  lemma ChannelSplit(p: seq<nat>, ps: seq<nat>, q: seq<nat>, qs: seq<nat>, c: nat, n: nat)
    requires SamePosition(p, ps, q, qs)
    ensures SamePosition(p + [c], ps + [n * 32], q + [c / 32] + [c / 2 % 16] + [c % 2], qs + [n] + [16] + [2])
  {
    LinearSnoc(p, ps, c, n * 32);
    LinearSnoc(q, qs, c / 32, n);
    LinearSnoc(q + [c / 32], qs + [n], c / 2 % 16, 16);
    LinearSnoc(q + [c / 32] + [c / 2 % 16], qs + [n] + [16], c % 2, 2);
    hide Linear, Size;
    ChannelDigits(c);
    SplitProduct(Linear(p, ps), c / 32, 0, n, 32);
    SplitProduct(Size(ps), 0, 0, n, 32);
  }

  lemma ChannelDigits(c: nat)
    ensures c / 32 * 32 + c / 2 % 16 * 2 + c % 2 == c
  {
  }

  lemma ReshapedInBounds(s: seq<nat>, u: seq<nat>)
    requires |s| == 4 && InBounds(u, PaddedFilter(s))
    ensures InBounds(ReshapedIndex(u), ReshapedFilter(s))
    ensures Permuted(ReshapedIndex(u), FILTER_PERM) == FilterIndex(u)
    ensures Permuted(ReshapedFilter(s), FILTER_PERM) == FilterShape(s)
    ensures InBounds(FilterIndex(u), FilterShape(s))
  {
    PaddedDim(s[0]);
    PaddedDim(s[3]);
    hide CeilDiv, PaddingEnd;
    var r := ReshapedIndex(u);
    var p := Permuted(ReshapedFilter(s), FILTER_PERM);
    assert forall j :: 0 <= j < 7 ==> p[j] == FilterShape(s)[j];
    assert forall j :: 0 <= j < 7 ==> Permuted(r, FILTER_PERM)[j] == FilterIndex(u)[j];
    assert u[0] < 32 * CeilDiv(s[0], 32) && u[3] < 32 * CeilDiv(s[3], 32);
  }

  // Pad, reshape and transpose put each filter element in the closed-form cell, and the
  // pad value in every other cell.
  lemma FilterClosedForm<T>(s: seq<nat>, src: seq<T>, pad: T, padded: seq<T>, packed: seq<T>, u: seq<nat>)
    requires |s| == 4 && InBounds(u, PaddedFilter(s)) && IsPadOf(s, PaddedFilter(s), src, pad, padded)
    requires IsTransposeOf(ReshapedFilter(s), padded, FilterShape(s), packed)
    ensures InBounds(FilterIndex(u), FilterShape(s))
    ensures Read(packed, FilterShape(s), FilterIndex(u)) == if InBounds(u, s) then Read(src, s, u) else pad
  {
    hide PaddedFilter, ReshapedFilter, FilterShape, FilterIndex, ReshapedIndex, Linear, Size, Permuted;
    ReshapedInBounds(s, u);
    ReshapeKeepsPosition(s, u);
    assert PadsAt(s, PaddedFilter(s), src, pad, padded, u);
    assert TransposesAt(ReshapedFilter(s), padded, FilterShape(s), packed, ReshapedIndex(u));
  }

  // The padded filter element a packed cell stands for.
  function FilterElement(p: seq<nat>): (u: seq<nat>)
    requires |p| == 7
    ensures |u| == 4
  {
    [32 * p[0] + p[5], p[2], p[3], 32 * p[1] + 2 * p[4] + p[6]]
  }

  lemma FilterDigits(a: nat, b: nat)
    requires b < 32
    ensures (32 * a + b) / 32 == a && (32 * a + b) % 32 == b
  {
  }

  lemma FromChannelDigits(a: nat, m: nat, r: nat)
    requires m < 16 && r < 2
    ensures (32 * a + 2 * m + r) / 32 == a && (32 * a + 2 * m + r) / 2 % 16 == m && (32 * a + 2 * m + r) % 2 == r
  {
  }

  lemma CellOfElementIs(p: seq<nat>)
    requires |p| == 7 && p[4] < 16 && p[5] < 32 && p[6] < 2
    ensures FilterIndex(FilterElement(p)) == p
  {
    FilterDigits(p[0], p[5]);
    FromChannelDigits(p[1], p[4], p[6]);
    var q := FilterIndex(FilterElement(p));
    assert q == [p[0], p[1], p[2], p[3], p[4], p[5], p[6]] == p;
  }

  lemma ElementOfCellIs(v: seq<nat>)
    requires |v| == 4
    ensures FilterElement(FilterIndex(v)) == v
  {
    ChannelDigits(v[3]);
    Recompose(v[0], 32);
    assert v == [v[0], v[1], v[2], v[3]];
  }

  lemma ElementInBounds(s: seq<nat>, p: seq<nat>)
    requires |s| == 4 && InBounds(p, FilterShape(s))
    ensures InBounds(FilterElement(p), PaddedFilter(s)) && p[4] < 16 && p[5] < 32 && p[6] < 2
  {
    PaddedDim(s[0]);
    PaddedDim(s[3]);
    hide CeilDiv, PaddingEnd;
    assert p[0] < CeilDiv(s[0], 32) && p[1] < CeilDiv(s[3], 32) && p[2] < s[1] && p[3] < s[2];
  }

  // Every packed cell is the cell of exactly one padded filter element.
  lemma FilterCellSource(s: seq<nat>, p: seq<nat>)
    requires |s| == 4 && InBounds(p, FilterShape(s))
    ensures InBounds(FilterElement(p), PaddedFilter(s)) && FilterIndex(FilterElement(p)) == p
    ensures forall v :: |v| == 4 && FilterIndex(v) == p ==> v == FilterElement(p)
  {
    hide FilterElement, FilterIndex, FilterShape, PaddedFilter;
    ElementInBounds(s, p);
    CellOfElementIs(p);
    forall v | |v| == 4 && FilterIndex(v) == p ensures v == FilterElement(p) { ElementOfCellIs(v); }
  }

  // So slices of a packed filter behave as slices of the filter.
  lemma PackedFilterUnpacks<T>(s: seq<nat>, src: seq<T>, pad: T, padded: seq<T>, packed: seq<T>)
    requires |s| == 4
    ensures IsPadOf(s, PaddedFilter(s), src, pad, padded)
            && IsTransposeOf(ReshapedFilter(s), padded, FilterShape(s), packed)
            ==> UnpacksTo(Filter, s, packed, src)
  {
    if IsPadOf(s, PaddedFilter(s), src, pad, padded)
      && IsTransposeOf(ReshapedFilter(s), padded, FilterShape(s), packed) {
      forall u | InBounds(u, s) ensures UnpacksAt(Filter, s, packed, src, u) {
        assert InBounds(u, PaddedFilter(s));
        FilterClosedForm(s, src, pad, padded, packed, u);
      }
    }
  }
}
