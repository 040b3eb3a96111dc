// DMATransferUtil.cpp, the layout tests of Common.cpp and the lowering of DMAToLLVMPass.cpp:
// for which buffers the start of a DMA transfer is created, and when the transfer moves what
// the copy it stands for moves.
module DmaTransfers {
  import opened Arith
  import opened Basics

  // A memory space is left out, an integer, or some other attribute.
  datatype Space = Unset | Number(n: int) | Attribute

  // A stride as it is at run time, and whether the type tells it.
  datatype Stride = Stride(value: int, known: bool)

  // The type of a buffer: its shape, with None for a dynamic dimension, the width of an
  // element in bits, its memory space, whether its layout is the identity, and its strides
  // where they can be had.
  datatype BufferType =
    | Unranked
    | Ranked(shape: seq<Option<nat>>, bits: nat, space: Space, identity: bool, strides: Option<seq<Stride>>)

  const VTCM_ADDRESS_SPACE := 1
  // Fields of the descriptors: 24 bits of length, 16 bits for each number of a box.
  const LENGTH_LIMIT := 0xFF_FFFF
  const FIELD_LIMIT := 0xFFFF

  // ----- creating the start -----

  predicate IsSafe(b: BufferType) {
    b.Ranked? && |b.shape| <= 2 && forall i :: 0 <= i < |b.shape| ==> b.shape[i].Some?
  }

  // Space 0 when left out; of other attributes the number is not looked at in the end.
  function SpaceNumber(m: Space): int { if m.Number? then m.n else 0 }

  // Otherwise no start is created, and the caller is told so.
  predicate CreatesDmaStart(src: BufferType, dst: BufferType) {
    && IsSafe(src) && IsSafe(dst) && SpaceNumber(src.space) != SpaceNumber(dst.space)
    && src.strides.Some? && dst.strides.Some?
    && !src.space.Attribute? && !dst.space.Attribute?
  }

  // One stride for each dimension; an identity layout is row-major.
  predicate WellFormed(b: BufferType) {
    IsSafe(b) && b.strides.Some? ==>
      && |b.strides.value| == |b.shape|
      && (b.identity && |b.shape| > 0 ==> HasStride(b, |b.shape| - 1, 1))
      && (b.identity && |b.shape| == 2 ==> HasStride(b, 0, Cols(b)))
  }

  predicate HasStride(b: BufferType, d: nat, value: int)
    requires b.Ranked? && b.strides.Some? && d < |b.strides.value|
  {
    b.strides.value[d] == Stride(value, true)
  }

  function Rows(b: BufferType): nat
    requires IsSafe(b)
  {
    if |b.shape| == 2 then b.shape[0].value else 1
  }

  function Cols(b: BufferType): nat
    requires IsSafe(b)
  {
    if b.shape == [] then 1 else b.shape[|b.shape| - 1].value
  }

  function Elements(b: BufferType): nat
    requires IsSafe(b)
  {
    Rows(b) * Cols(b)
  }

  // Inner dimensions with unit strides, and nothing but ones outside them.
  predicate RowMajor(b: BufferType)
    requires IsSafe(b) && b.strides.Some? && |b.strides.value| == |b.shape|
  {
    || b.shape == []
    || (|b.shape| == 1 && (HasStride(b, 0, 1) || Cols(b) == 1))
    || (|b.shape| == 2 && HasStride(b, 1, 1) && (HasStride(b, 0, Cols(b)) || Rows(b) == 1))
    || (|b.shape| == 2 && !HasStride(b, 1, 1) && Cols(b) == 1 && Rows(b) == 1)
  }

  predicate IsContiguous(b: BufferType)
    requires IsSafe(b) && b.strides.Some? && |b.strides.value| == |b.shape|
  {
    b.identity || (Elements(b) > 0 && RowMajor(b))
  }

  // Rows further apart than they are long.
  predicate IsRowStrided(b: BufferType)
    requires IsSafe(b) && b.strides.Some? && |b.strides.value| == |b.shape|
  {
    && |b.shape| == 2 && b.strides.value[0].known
    && HasStride(b, 1, 1) && b.strides.value[0].value > Cols(b)
  }

  // ----- the transfer that is started -----

  predicate InVtcm(b: BufferType) { b.Ranked? && b.space == Number(VTCM_ADDRESS_SPACE) }

  // The stride of the start goes to the side outside VTCM; the other side has rows as far
  // apart as they are long, and so have both when the two are on the same side of VTCM.
  function RowStride(b: BufferType, other: BufferType, stride: int, width: nat): int {
    if InVtcm(other) && !InVtcm(b) then stride else width
  }

  // Where the j-th element of a buffer is, from its first one.
  function ElementPlace(b: BufferType, j: nat): int
    requires IsSafe(b) && b.strides.Some? && |b.strides.value| == |b.shape| && Cols(b) > 0
  {
    if b.shape == [] then 0
    else if |b.shape| == 1 then j * b.strides.value[0].value
    else j / Cols(b) * b.strides.value[0].value + j % Cols(b) * b.strides.value[1].value
  }

  // Where the engine takes or puts the j-th element of a box.
  function BoxPlace(stride: int, width: nat, j: nat): int
    requires width > 0
  {
    j / width * stride + j % width
  }

  // The buffer's rows are whole, and this far apart.
  predicate InRows(b: BufferType, stride: int)
    requires IsSafe(b) && b.strides.Some? && |b.strides.value| == |b.shape| == 2
  {
    (Rows(b) > 0 && Cols(b) > 1 ==> b.strides.value[1].value == 1)
      && (Rows(b) > 1 ==> b.strides.value[0].value == stride)
  }

  // A box of these rows fits a descriptor, and has the rows of both buffers.
  predicate RightBox(src: BufferType, dst: BufferType, stride: int, bytes: nat)
    requires IsSafe(src) && src.strides.Some? && |src.strides.value| == |src.shape| == 2
    requires IsSafe(dst) && dst.strides.Some? && |dst.strides.value| == |dst.shape| == 2
  {
    var width := Cols(src);
    var s, d := RowStride(src, dst, stride, width), RowStride(dst, src, stride, width);
    && 0 < width && width * bytes <= FIELD_LIMIT && Rows(src) <= FIELD_LIMIT
    && s * bytes <= FIELD_LIMIT && d * bytes <= FIELD_LIMIT
    && InRows(src, s) && InRows(dst, d)
  }

  // The transfer moves exactly what the copy moves. The stride and width of a transfer that
  // is not between two contiguous buffers are computed inside an assertion, and unset in a
  // build without assertions.
  predicate RightStart(asserts: bool, src: BufferType, dst: BufferType)
    requires CreatesDmaStart(src, dst) && WellFormed(src) && WellFormed(dst)
  {
    && src.shape == dst.shape && src.bits == dst.bits && src.bits > 0 && src.bits % 8 == 0
    && if IsContiguous(src) && IsContiguous(dst) then Elements(src) * (src.bits / 8) <= LENGTH_LIMIT
       else
         && asserts && |src.shape| == 2 && (IsRowStrided(src) || IsRowStrided(dst))
         && RightBox(src, dst, (if IsRowStrided(src) then src else dst).strides.value[0].value, src.bits / 8)
  }

  // The assertions on the way to a start: memory spaces are integers, and one of two buffers
  // that are not both contiguous is row-strided.
  predicate StartAsserted(src: BufferType, dst: BufferType)
    requires WellFormed(src) && WellFormed(dst)
  {
    && (IsSafe(src) && IsSafe(dst) ==> !src.space.Attribute? && !dst.space.Attribute?)
    && (CreatesDmaStart(src, dst) ==>
          (IsContiguous(src) && IsContiguous(dst)) || IsRowStrided(src) || IsRowStrided(dst))
  }

  // ----- why it moves the right elements -----

  // A linear transfer takes the elements of a contiguous buffer in their order.
  lemma ContiguousPlaces(b: BufferType, j: nat)
    requires IsSafe(b) && b.strides.Some? && WellFormed(b) && IsContiguous(b) && j < Elements(b)
    ensures Cols(b) > 0 && ElementPlace(b, j) == j
  {
    if |b.shape| == 2 {
      RowMajorPlace(Rows(b), Cols(b), b.strides.value[0].value, b.strides.value[1].value, j);
    }
  }

  lemma RowMajorPlace(rows: nat, cols: nat, s0: int, s1: int, j: nat)
    requires j < rows * cols && (s0 == cols || rows == 1) && (s1 == 1 || (rows == 1 && cols == 1))
    ensures cols > 0 && j / cols * s0 + j % cols * s1 == j
  {
    if rows == 1 { SmallDigits(j, cols); } else { Digits(j, cols); }
  }

  lemma Digits(j: nat, n: nat)
    requires n > 0
    ensures j / n * n + j % n * 1 == j
  {
  }

  lemma SmallDigits(j: nat, n: nat)
    requires j < n
    ensures j / n == 0 && j % n == j
  {
  }

  // The rows of a box are the rows of a buffer exactly when the buffer's rows are whole and
  // as far apart.
  lemma BoxPlacesIff(b: BufferType, stride: int)
    requires IsSafe(b) && b.strides.Some? && |b.strides.value| == |b.shape| == 2 && Cols(b) > 0
    ensures (forall j: nat :: j < Elements(b) ==> ElementPlace(b, j) == BoxPlace(stride, Cols(b), j))
            <==> InRows(b, stride)
  {
    var n, s0, s1 := Cols(b), b.strides.value[0].value, b.strides.value[1].value;
    if InRows(b, stride) {
      forall j: nat | j < Elements(b) ensures ElementPlace(b, j) == BoxPlace(stride, n, j) { PlaceInBox(b, stride, j); }
    } else if Rows(b) > 0 && n > 1 && s1 != 1 {
      MulMono(1, Rows(b), n);
      SmallDigits(1, n);
      assert ElementPlace(b, 1) == s1 && BoxPlace(stride, n, 1) == 1;
    } else {
      MulMono(2, Rows(b), n);
      DivModUnique(n, 1, 0, n);
      assert ElementPlace(b, n) == s0 && BoxPlace(stride, n, n) == stride;
    }
  }

  lemma PlaceInBox(b: BufferType, stride: int, j: nat)
    requires IsSafe(b) && b.strides.Some? && |b.strides.value| == |b.shape| == 2 && Cols(b) > 0
    requires InRows(b, stride) && j < Elements(b)
    ensures ElementPlace(b, j) == BoxPlace(stride, Cols(b), j)
  {
    DivBound(j, Rows(b), Cols(b));
    if Cols(b) == 1 { assert j % 1 == 0; }
    if Rows(b) == 1 { assert j / Cols(b) == 0; }
  }

  // Exactly which buffers the test accepts, of those with elements and known strides: the
  // elements lie one after the other, but a column of single elements needs a unit inner stride.
  lemma ContiguousIff(b: BufferType)
    requires IsSafe(b) && b.strides.Some? && WellFormed(b) && !b.identity && Elements(b) > 0
    requires forall d :: 0 <= d < |b.strides.value| ==> b.strides.value[d].known
    ensures Cols(b) > 0
    ensures IsContiguous(b) <==>
            InOrder(b) && (|b.shape| == 2 && Cols(b) == 1 && Rows(b) > 1 ==> b.strides.value[1].value == 1)
  {
    if |b.shape| == 2 { NoElements(Rows(b)); }
    if IsContiguous(b) {
      forall j: nat | j < Elements(b) ensures ElementPlace(b, j) == j { ContiguousPlaces(b, j); }
    } else if InOrder(b) && (|b.shape| == 2 && Cols(b) == 1 && Rows(b) > 1 ==> b.strides.value[1].value == 1) {
      LinearIsRowMajor(b);
    }
  }

  ghost predicate InOrder(b: BufferType)
    requires IsSafe(b) && b.strides.Some? && |b.strides.value| == |b.shape| && Cols(b) > 0
  {
    forall j: nat :: j < Elements(b) ==> ElementPlace(b, j) == j
  }

  lemma NoElements(rows: nat)
    ensures rows * 0 == 0
  {
  }

  lemma LinearIsRowMajor(b: BufferType)
    requires IsSafe(b) && b.strides.Some? && WellFormed(b) && Cols(b) > 0 && Elements(b) > 0
    requires forall d :: 0 <= d < |b.strides.value| ==> b.strides.value[d].known
    requires InOrder(b)
    requires |b.shape| == 2 && Cols(b) == 1 && Rows(b) > 1 ==> b.strides.value[1].value == 1
    ensures RowMajor(b)
  {
    if |b.shape| == 1 {
      if Cols(b) > 1 { assert ElementPlace(b, 1) == b.strides.value[0].value; }
    } else if |b.shape| == 2 {
      BoxOfRows(b);
    }
  }

  lemma BoxOfRows(b: BufferType)
    requires IsSafe(b) && b.strides.Some? && |b.strides.value| == |b.shape| == 2 && Cols(b) > 0
    requires InOrder(b)
    ensures InRows(b, Cols(b))
  {
    forall j: nat | j < Elements(b) ensures ElementPlace(b, j) == BoxPlace(Cols(b), Cols(b), j) { Digits(j, Cols(b)); }
    BoxPlacesIff(b, Cols(b));
  }

  // ----- the start as it is created -----

  // A start of that many elements, with the stride and width of its rows if it has them.
  datatype StartOp = LinearStart(n: nat) | BoxStart(n: nat, stride: int, width: nat) | UnsetStart(n: nat)

  // Returns None where no start is created; a build without assertions skips the calls that
  // set the stride and the width.
  method CreateDmaStartOp(asserts: bool, src: BufferType, dst: BufferType) returns (op: Option<StartOp>)
    requires WellFormed(src) && WellFormed(dst) && (asserts ==> StartAsserted(src, dst))
    ensures op.Some? <==>
            && src.Ranked? && |src.shape| <= 2 && (forall d :: d in src.shape ==> d.Some?)
            && dst.Ranked? && |dst.shape| <= 2 && (forall d :: d in dst.shape ==> d.Some?)
            && (src.space.Number? || src.space.Unset?) && (dst.space.Number? || dst.space.Unset?)
            && (if src.space.Number? then src.space.n else 0) != (if dst.space.Number? then dst.space.n else 0)
            && src.strides.Some? && dst.strides.Some?
    ensures op.Some? ==> CreatesDmaStart(src, dst) && op.value == StartOpOf(asserts, src, dst)
  {
    CreatedWhen(src, dst);
    if !IsSafe(src) || !IsSafe(dst) || SpaceNumber(src.space) == SpaceNumber(dst.space) {
      return None;
    }
    if src.strides.None? || dst.strides.None? || src.space.Attribute? || dst.space.Attribute? {
      return None;
    }
    var numElements := Elements(src);
    if IsContiguous(src) && IsContiguous(dst) {
      return Some(LinearStart(numElements));
    }
    if !asserts {
      return Some(UnsetStart(numElements));
    }
    var strided := if IsRowStrided(src) then src else dst;
    return Some(BoxStart(numElements, strided.strides.value[0].value, Cols(strided)));
  }

  lemma CreatedWhen(src: BufferType, dst: BufferType)
    ensures CreatesDmaStart(src, dst) <==>
            && src.Ranked? && |src.shape| <= 2 && (forall d :: d in src.shape ==> d.Some?)
            && dst.Ranked? && |dst.shape| <= 2 && (forall d :: d in dst.shape ==> d.Some?)
            && (src.space.Number? || src.space.Unset?) && (dst.space.Number? || dst.space.Unset?)
            && (if src.space.Number? then src.space.n else 0) != (if dst.space.Number? then dst.space.n else 0)
            && src.strides.Some? && dst.strides.Some?
  {
  }

  ghost function StartOpOf(asserts: bool, src: BufferType, dst: BufferType): StartOp
    requires WellFormed(src) && WellFormed(dst) && CreatesDmaStart(src, dst) && (asserts ==> StartAsserted(src, dst))
  {
    if IsContiguous(src) && IsContiguous(dst) then LinearStart(Elements(src))
    else if !asserts then UnsetStart(Elements(src))
    else
      var strided := if IsRowStrided(src) then src else dst;
      BoxStart(Elements(src), strided.strides.value[0].value, Cols(strided))
  }

  // Where the lowered start takes or puts its j-th element on the side of b.
  ghost function StartPlace(op: StartOp, b: BufferType, other: BufferType, j: nat): int
    requires !op.UnsetStart? && (op.BoxStart? ==> op.width > 0)
  {
    match op
    case LinearStart(_) => j
    case BoxStart(_, stride, width) => BoxPlace(RowStride(b, other, stride, width), width, j)
  }

  // A descriptor holds the length, or the rows, their number and both strides.
  ghost predicate FitsDescriptor(op: StartOp, src: BufferType, dst: BufferType, bytes: nat) {
    match op
    case LinearStart(n) => n * bytes <= LENGTH_LIMIT
    case BoxStart(n, stride, width) =>
      && 0 < width && width * bytes <= FIELD_LIMIT && n / width <= FIELD_LIMIT
      && RowStride(src, dst, stride, width) * bytes <= FIELD_LIMIT
      && RowStride(dst, src, stride, width) * bytes <= FIELD_LIMIT
    case UnsetStart(_) => false
  }

  // The started transfer moves, element by element, what the copy moves.
  ghost predicate MovesTheCopy(op: StartOp, src: BufferType, dst: BufferType)
    requires IsSafe(src) && src.strides.Some? && |src.strides.value| == |src.shape|
    requires IsSafe(dst) && dst.strides.Some? && |dst.strides.value| == |dst.shape|
  {
    && src.shape == dst.shape && src.bits == dst.bits && src.bits > 0 && src.bits % 8 == 0
    && FitsDescriptor(op, src, dst, src.bits / 8)
    && (Elements(src) > 0 ==> Cols(src) > 0)
    && forall j: nat :: j < Elements(src) ==> SamePlaces(op, src, dst, j)
  }

  ghost predicate SamePlaces(op: StartOp, src: BufferType, dst: BufferType, j: nat)
    requires IsSafe(src) && src.strides.Some? && |src.strides.value| == |src.shape| && Cols(src) > 0
    requires IsSafe(dst) && dst.strides.Some? && |dst.strides.value| == |dst.shape| && Cols(dst) > 0
    requires !op.UnsetStart? && (op.BoxStart? ==> op.width > 0)
  {
    StartPlace(op, src, dst, j) == ElementPlace(src, j) && StartPlace(op, dst, src, j) == ElementPlace(dst, j)
  }

  // The condition the results about whole programs use is that, and nothing less.
  lemma RightStartIff(asserts: bool, src: BufferType, dst: BufferType)
    requires WellFormed(src) && WellFormed(dst) && CreatesDmaStart(src, dst) && (asserts ==> StartAsserted(src, dst))
    ensures RightStart(asserts, src, dst) <==> MovesTheCopy(StartOpOf(asserts, src, dst), src, dst)
  {
    if src.shape == dst.shape {
      if IsContiguous(src) && IsContiguous(dst) {
        LinearStartMoves(src, dst);
      } else if asserts && |src.shape| == 2 {
        BoxStartMoves(src, dst, if IsRowStrided(src) then src else dst);
      }
    }
  }

  lemma LinearStartMoves(src: BufferType, dst: BufferType)
    requires WellFormed(src) && WellFormed(dst) && CreatesDmaStart(src, dst) && src.shape == dst.shape
    requires IsContiguous(src) && IsContiguous(dst)
    ensures Elements(src) > 0 ==> Cols(src) > 0
    ensures forall j: nat :: j < Elements(src) ==> SamePlaces(LinearStart(Elements(src)), src, dst, j)
  {
    if |src.shape| == 2 { NoElements(Rows(src)); }
    forall j: nat | j < Elements(src) ensures SamePlaces(LinearStart(Elements(src)), src, dst, j) {
      ContiguousPlaces(src, j);
      ContiguousPlaces(dst, j);
    }
  }

  lemma BoxStartMoves(src: BufferType, dst: BufferType, strided: BufferType)
    requires WellFormed(src) && WellFormed(dst) && CreatesDmaStart(src, dst) && src.shape == dst.shape
             && |src.shape| == 2
    requires strided == src || strided == dst
    ensures var op := BoxStart(Elements(src), strided.strides.value[0].value, Cols(strided));
      RightBox(src, dst, op.stride, src.bits / 8) <==>
      && FitsDescriptor(op, src, dst, src.bits / 8) && (Elements(src) > 0 ==> Cols(src) > 0)
      && forall j: nat :: j < Elements(src) ==> SamePlaces(op, src, dst, j)
  {
    var stride, width := strided.strides.value[0].value, Cols(src);
    var op := BoxStart(Elements(src), stride, width);
    if width > 0 {
      var s, d := RowStride(src, dst, stride, width), RowStride(dst, src, stride, width);
      BoxPlacesIff(src, s);
      BoxPlacesIff(dst, d);
      ModMultiple(Rows(src), width);
      if InRows(src, s) && InRows(dst, d) {
        forall j: nat | j < Elements(src) ensures SamePlaces(op, src, dst, j) { }
      } else if (forall j: nat :: j < Elements(src) ==> SamePlaces(op, src, dst, j)) {
        forall j: nat | j < Elements(src)
          ensures ElementPlace(src, j) == BoxPlace(s, width, j) && ElementPlace(dst, j) == BoxPlace(d, width, j)
        {
          assert SamePlaces(op, src, dst, j);
        }
      }
    }
  }
}
