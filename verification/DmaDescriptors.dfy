// The descriptor words of UserDMADescriptors.h.  Each setter is specified by
// the field it sets and the bits it leaves alone.
module DmaDescriptors {

  const STATE_MASK: bv32 := 0x0000_000F
  const NEXT_MASK: bv32 := 0xFFFF_FFF0
  const LENGTH_MASK: bv32 := 0x00FF_FFFF
  const DESCTYPE_MASK: bv32 := 0x0300_0000
  const DSTCOMP_MASK: bv32 := 0x0400_0000
  const SRCCOMP_MASK: bv32 := 0x0800_0000
  const BYPASSDST_MASK: bv32 := 0x1000_0000
  const BYPASSSRC_MASK: bv32 := 0x2000_0000
  const ORDER_MASK: bv32 := 0x4000_0000
  const DONE_MASK: bv32 := 0x8000_0000
  const LOW_HALF: bv32 := 0x0000_FFFF
  const HIGH_HALF: bv32 := 0xFFFF_0000

  // The fields of the second descriptor word; between them they use every bit.
  datatype Flags = Flags(length: bv32, descType: bv32, dstComp: bv32, srcComp: bv32,
                         bypassDst: bv32, bypassSrc: bv32, order: bv32, done: bv32)

  function Decode(w: bv32): Flags {
    Flags(w & LENGTH_MASK, (w & DESCTYPE_MASK) >> 24, (w & DSTCOMP_MASK) >> 26, (w & SRCCOMP_MASK) >> 27,
          (w & BYPASSDST_MASK) >> 28, (w & BYPASSSRC_MASK) >> 29, (w & ORDER_MASK) >> 30, (w & DONE_MASK) >> 31)
  }

  datatype Halves = Halves(low: bv32, high: bv32)

  function Split(w: bv32): Halves { Halves(w & LOW_HALF, (w & HIGH_HALF) >> 16) }

  // A transfer as its caller asked for it.
  datatype Request =
    | Linear(src: bv32, dst: bv32, length: bv32, bypassSrc: bool, bypassDst: bool)
    | Box(src: bv32, dst: bv32, width: bv32, height: bv32, srcStride: bv32, dstStride: bv32, bypassSrc: bool,
      bypassDst: bool)

  function Bit(b: bool): bv32 { if b then 1 else 0 }

  lemma LengthFits(v: bv32)
    requires v <= LENGTH_MASK
    ensures v & 0x00FF_FFFF == v
  {
  }

  // The state and the successor's address make up the first word.
  lemma BothParts(w: bv32)
    requires w & STATE_MASK == 0 && w & NEXT_MASK == 0
    ensures w == 0
  {
  }

  lemma LinkWord(address: bv32)
    requires address & NEXT_MASK != 0
    ensures var w := (0 & STATE_MASK) | (address & NEXT_MASK); w & STATE_MASK == 0 && w & NEXT_MASK != 0
  {
  }

  class DmaDesc2D {
    var nextState: bv32
    var flags: bv32
    var src: bv32
    var dst: bv32
    var allocationPadding: bv32
    var roi: bv32
    var stride: bv32
    var widthOffset: bv32
    // The descriptor whose address the first word holds.
    ghost var successor: DmaDesc2D?

    constructor ()
      ensures flags == 0
    {
      nextState, flags, src, dst, allocationPadding, roi, stride, widthOffset := 0, 0, 0, 0, 0, 0, 0, 0;
      successor := null;
    }

    // Ready for the engine, and the last of its chain.
    ghost predicate Ends()
      reads this`nextState, this`successor
    {
      nextState == 0 && successor == null
    }

    // Ready for the engine, which goes on to that descriptor.
    ghost predicate LinkedTo(next: DmaDesc2D)
      reads this`nextState, this`successor
    {
      nextState & STATE_MASK == 0 && nextState & NEXT_MASK != 0 && successor == next
    }

    function GetDone(): bv32
      reads this`flags
    {
      Decode(flags).done
    }

    predicate Done()
      reads this`flags
    {
      GetDone() == 1
    }

    // The descriptor asks the engine for exactly this transfer, with no
    // compression and no ordering, whatever the slot held before.
    ghost predicate Asks(r: Request)
      reads this`flags, this`src, this`dst, this`allocationPadding, this`roi, this`stride, this`widthOffset
    {
      && src == r.src && dst == r.dst
      && Decode(flags).dstComp == 0 && Decode(flags).srcComp == 0
      && Decode(flags).order == 0
      && Decode(flags).bypassDst == Bit(r.bypassDst) && Decode(flags).bypassSrc == Bit(r.bypassSrc)
      && match r
         case Linear(_, _, length, _, _) =>
           Decode(flags).descType == 0 && Decode(flags).length == length
         case Box(_, _, width, height, srcStride, dstStride, _, _) =>
           && Decode(flags).descType == 1 && Decode(flags).length == 0
           && Split(roi).low == width && Split(roi).high == height
           && Split(stride).low == srcStride && Split(stride).high == dstStride
           && allocationPadding == 0 && widthOffset == 0
    }

    method SetState(v: bv32)
      modifies this`nextState
      ensures nextState & STATE_MASK == v & STATE_MASK && nextState & !STATE_MASK == old(nextState) & !STATE_MASK
    {
      nextState := (nextState & !STATE_MASK) | ((v << 0) & STATE_MASK);
    }

    // v is the address of that descriptor, or null.
    method SetNext(v: bv32, ghost next: DmaDesc2D?)
      requires next == null <==> v & NEXT_MASK == 0
      modifies this`nextState, this`successor
      ensures nextState & NEXT_MASK == v & NEXT_MASK && nextState & !NEXT_MASK == old(nextState) & !NEXT_MASK
      ensures successor == next
    {
      nextState := (nextState & !NEXT_MASK) | ((v << 0) & NEXT_MASK);
      successor := next;
    }

    // What the engine writes when another descriptor is linked behind this one.
    method Link(address: bv32, next: DmaDesc2D)
      requires address & NEXT_MASK != 0
      modifies this`nextState, this`successor
      ensures successor == next && (old(Ends()) ==> LinkedTo(next))
    {
      LinkWord(address);
      nextState := (nextState & STATE_MASK) | (address & NEXT_MASK);
      successor := next;
    }

    method SetLength(v: bv32)
      modifies this`flags
      ensures Decode(flags) == old(Decode(flags)).(length := v & 0x00FF_FFFF)
    {
      flags := (flags & !LENGTH_MASK) | ((v << 0) & LENGTH_MASK);
    }

    method SetDescType(v: bv32)
      modifies this`flags
      ensures Decode(flags) == old(Decode(flags)).(descType := v & 3)
    {
      flags := (flags & !DESCTYPE_MASK) | ((v << 24) & DESCTYPE_MASK);
    }

    method SetDstComp(v: bv32)
      modifies this`flags
      ensures Decode(flags) == old(Decode(flags)).(dstComp := v & 1)
    {
      flags := (flags & !DSTCOMP_MASK) | ((v << 26) & DSTCOMP_MASK);
    }

    method SetSrcComp(v: bv32)
      modifies this`flags
      ensures Decode(flags) == old(Decode(flags)).(srcComp := v & 1)
    {
      flags := (flags & !SRCCOMP_MASK) | ((v << 27) & SRCCOMP_MASK);
    }

    method SetBypassDst(v: bv32)
      modifies this`flags
      ensures Decode(flags) == old(Decode(flags)).(bypassDst := v & 1)
    {
      flags := (flags & !BYPASSDST_MASK) | ((v << 28) & BYPASSDST_MASK);
    }

    method SetBypassSrc(v: bv32)
      modifies this`flags
      ensures Decode(flags) == old(Decode(flags)).(bypassSrc := v & 1)
    {
      flags := (flags & !BYPASSSRC_MASK) | ((v << 29) & BYPASSSRC_MASK);
    }

    method SetOrder(v: bv32)
      modifies this`flags
      ensures Decode(flags) == old(Decode(flags)).(order := v & 1)
    {
      flags := (flags & !ORDER_MASK) | ((v << 30) & ORDER_MASK);
    }

    method SetDone(v: bv32)
      modifies this`flags
      ensures Decode(flags) == old(Decode(flags)).(done := v & 1)
    {
      flags := (flags & !DONE_MASK) | ((v << 31) & DONE_MASK);
    }

    method SetRoiWidth(v: bv32)
      modifies this`roi
      ensures Split(roi) == old(Split(roi)).(low := v & 0xFFFF)
    {
      roi := (roi & !LOW_HALF) | ((v << 0) & LOW_HALF);
    }

    method SetRoiHeight(v: bv32)
      modifies this`roi
      ensures Split(roi) == old(Split(roi)).(high := v & 0xFFFF)
    {
      roi := (roi & !HIGH_HALF) | ((v << 16) & HIGH_HALF);
    }

    method SetSrcStride(v: bv32)
      modifies this`stride
      ensures Split(stride) == old(Split(stride)).(low := v & 0xFFFF)
    {
      stride := (stride & !LOW_HALF) | ((v << 0) & LOW_HALF);
    }

    method SetDstStride(v: bv32)
      modifies this`stride
      ensures Split(stride) == old(Split(stride)).(high := v & 0xFFFF)
    {
      stride := (stride & !HIGH_HALF) | ((v << 16) & HIGH_HALF);
    }

    // The setters `copy` calls, in its order, on a slot of any content.
    method ProgramLinear(r: Request)
      requires r.Linear? && r.length <= LENGTH_MASK
      modifies this
      ensures Asks(r) && !Done() && Ends()
    {
      hide Decode, Split, Ends;
      LengthFits(r.length);
      SetReady();
      SetLength(r.length);
      SetTypeUncompressed(0);
      SetBypassAndOrder(r.bypassDst, r.bypassSrc);
      src := r.src;
      dst := r.dst;
    }

    // The setters `copy2D` calls after clearing the slot.
    method ProgramBox(r: Request)
      requires r.Box?
      modifies this
      ensures !Done() && Asks(Truncated(r)) && Ends()
    {
      hide Decode, Split, Ends;
      Reset();
      SetTypeUncompressed(1);
      SetShape(r.width, r.height, r.srcStride, r.dstStride);
      SetBypassAndOrder(r.bypassDst, r.bypassSrc);
      src := r.src;
      dst := r.dst;
    }

    // The first setters of both copies.
    method SetReady()
      modifies this`nextState, this`flags, this`successor
      ensures Ends() && Decode(flags) == old(Decode(flags)).(done := 0)
    {
      hide Decode;
      SetState(0);
      SetDone(0);
      SetNext(0, null);
      BothParts(nextState);
    }

    method Reset()
      modifies this
      ensures Decode(flags) == Flags(0, 0, 0, 0, 0, 0, 0, 0) && allocationPadding == 0 && widthOffset == 0 && Ends()
    {
      hide Decode, Ends;
      Clear();
      SetReady();
    }

    method Clear()
      modifies this
      ensures Decode(flags) == Flags(0, 0, 0, 0, 0, 0, 0, 0) && allocationPadding == 0 && widthOffset == 0
    {
      nextState, flags, src, dst, allocationPadding, roi, stride, widthOffset := 0, 0, 0, 0, 0, 0, 0, 0;
      successor := null;
    }

    method SetTypeUncompressed(descType: bv32)
      requires descType <= 3
      modifies this`flags
      ensures Decode(flags) == old(Decode(flags)).(descType := descType, dstComp := 0, srcComp := 0)
    {
      SetDescType(descType);
      SetDstComp(0);
      SetSrcComp(0);
    }

    // The last flag setters of both copies.
    method SetBypassAndOrder(bypassDst: bool, bypassSrc: bool)
      modifies this`flags
      ensures Decode(flags) == old(Decode(flags)).(
                bypassDst := Bit(bypassDst), bypassSrc := Bit(bypassSrc), order := 0, done := 0)
    {
      SetBypassDst(Bit(bypassDst));
      SetBypassSrc(Bit(bypassSrc));
      SetOrder(0);
      SetDone(0);
    }

    method SetShape(width: bv32, height: bv32, srcStride: bv32, dstStride: bv32)
      modifies this`roi, this`stride
      ensures Split(roi).low == width & LOW_HALF && Split(roi).high == height & LOW_HALF
      ensures Split(stride).low == srcStride & LOW_HALF && Split(stride).high == dstStride & LOW_HALF
    {
      SetRoiWidth(width);
      SetRoiHeight(height);
      SetSrcStride(srcStride);
      SetDstStride(dstStride);
    }

    // What the engine does when it finishes a transfer.
    method Complete(ghost r: Request)
      modifies this`flags
      ensures Done() && (old(Asks(r)) ==> Asks(r))
    {
      SetDone(1);
    }
  }

  // Shapes go into 16-bit fields; copy2D does not check that they fit.
  function Truncated(r: Request): Request {
    match r
    case Linear(_, _, _, _, _) => r
    case Box(src, dst, width, height, srcStride, dstStride, bypassSrc, bypassDst) =>
      Box(src, dst, width & LOW_HALF, height & LOW_HALF, srcStride & LOW_HALF, dstStride & LOW_HALF, bypassSrc,
        bypassDst)
  }

  ghost predicate FitsFields(r: Request) {
    match r
    case Linear(_, _, length, _, _) => length <= LENGTH_MASK
    case Box(_, _, width, height, srcStride, dstStride, _, _) =>
      width <= LOW_HALF && height <= LOW_HALF && srcStride <= LOW_HALF && dstStride <= LOW_HALF
  }

  // A 2-D transfer of the requested shape is programmed exactly when every
  // dimension is below 2^16; otherwise a smaller one is, without an error.
  lemma BoxProgrammedIff(r: Request)
    requires r.Box?
    ensures Truncated(r) == r <==> FitsFields(r)
  {
  }
}
