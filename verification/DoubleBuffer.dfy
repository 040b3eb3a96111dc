// DoubleBufferGenericS1.cpp and DoubleBufferGenericS2.cpp: recognising a
// "load tiles, compute, store" loop, rewriting it with ping and pong buffers,
// and turning the copies of the result into DMA starts and waits.
module DoubleBuffer {
  import opened Arith
  import opened DmaMachine
  import opened Basics

  // ----- recognising the loop -----

  // An operation of the loop body; values are named by number.
  datatype BodyOp =
    | SubViewOp(id: nat)
    | AllocOp(id: nat)
    | CopyOp(src: nat, dst: nat)
    | ForallOp
    | ForOp
    | YieldOp
    | OtherOp

  datatype LoopHead = LoopHead(hasInitArgs: bool, tiledGeneric: bool, allParallel: bool,
                               lb: Option<int>, ub: Option<int>, step: Option<int>)

  datatype Triplet = Triplet(view: nat, alloc: nat, copySrc: nat, copyDst: nat)
  datatype Store = Store(src: nat, dst: nat)
  datatype Schedule = Schedule(triplets: seq<Triplet>, stores: seq<Store>)
  datatype Stage = ViewStage | AllocStage | CopyStage | StoreStage

  predicate IsZeroBasedEvenlyDivisible(head: LoopHead) {
    && head.lb.Some? && head.ub.Some? && head.step.Some?
    && head.lb.value == 0 && head.step.value != 0 && head.ub.value % head.step.value == 0
  }

  predicate IsCompute(op: BodyOp, head: LoopHead) {
    op.ForallOp? || (op.ForOp? && head.tiledGeneric && head.allParallel)
  }

  // n (view, alloc, copy) triplets, a computation, m copies, then the yield; the computation
  // is an scf.forall, or an scf.for when the loop is marked as tiled and all parallel.
  ghost predicate Shape(head: LoopHead, body: seq<BodyOp>, n: nat, m: nat) {
    && 0 < n && 0 < m && 3 * n + m + 1 < |body|
    && (forall q :: 0 <= q < n ==> body[3 * q].SubViewOp? && body[3 * q + 1].AllocOp? && body[3 * q + 2].CopyOp?)
    && (body[3 * n].ForallOp? || (body[3 * n].ForOp? && head.tiledGeneric && head.allParallel))
    && (forall q :: 3 * n < q <= 3 * n + m ==> body[q].CopyOp?)
    && body[3 * n + m + 1].YieldOp?
  }

  ghost predicate TripletsOf(ts: seq<Triplet>, body: seq<BodyOp>) {
    && 3 * |ts| <= |body|
    && forall q :: 0 <= q < |ts| ==>
         && body[3 * q] == SubViewOp(ts[q].view)
         && body[3 * q + 1] == AllocOp(ts[q].alloc)
         && body[3 * q + 2] == CopyOp(ts[q].copySrc, ts[q].copyDst)
  }

  ghost predicate StoresOf(ss: seq<Store>, body: seq<BodyOp>, first: nat) {
    && first + |ss| <= |body|
    && forall q :: first <= q < first + |ss| ==> body[q] == CopyOp(ss[q - first].src, ss[q - first].dst)
  }

  // Once the store stage is reached, only one shape is left to hope for.
  lemma NoOtherShape(head: LoopHead, body: seq<BodyOp>, ts: seq<Triplet>, ss: seq<Store>)
    requires TripletsOf(ts, body) && 3 * |ts| < |body| && IsCompute(body[3 * |ts|], head)
    requires StoresOf(ss, body, 3 * |ts| + 1)
    requires 3 * |ts| + 1 + |ss| < |body| ==> !body[3 * |ts| + 1 + |ss|].CopyOp?
    ensures forall n: nat, m: nat :: Shape(head, body, n, m) ==> n == |ts| && m == |ss|
  {
    forall n: nat, m: nat | Shape(head, body, n, m) ensures n == |ts| && m == |ss| {
      if n < |ts| {
        TripletAt(ts, body, n);
      }
    }
  }

  lemma TripletAt(ts: seq<Triplet>, body: seq<BodyOp>, q: nat)
    requires TripletsOf(ts, body) && q < |ts|
    ensures body[3 * q].SubViewOp? && body[3 * q + 1].AllocOp? && body[3 * q + 2].CopyOp?
  {
    assert body[3 * q] == SubViewOp(ts[q].view);
  }

  lemma ShapeFound(head: LoopHead, body: seq<BodyOp>, ts: seq<Triplet>, ss: seq<Store>)
    requires TripletsOf(ts, body) && 0 < |ts| && 3 * |ts| < |body| && IsCompute(body[3 * |ts|], head)
    requires StoresOf(ss, body, 3 * |ts| + 1) && 0 < |ss| && 3 * |ts| + 1 + |ss| < |body|
             && body[3 * |ts| + 1 + |ss|].YieldOp?
    ensures Shape(head, body, |ts|, |ss|)
  {
    forall q | 0 <= q < |ts| ensures body[3 * q].SubViewOp? && body[3 * q + 1].AllocOp? && body[3 * q + 2].CopyOp? {
      TripletAt(ts, body, q);
    }
    forall q | 3 * |ts| < q <= 3 * |ts| + |ss| ensures body[q].CopyOp? { }
  }

  method GenerateSchedule(head: LoopHead, body: seq<BodyOp>) returns (r: Option<Schedule>)
    ensures r.Some? <==>
            && !head.hasInitArgs && head.lb == Some(0) && head.ub.Some? && head.step.Some?
            && head.step.value != 0 && head.ub.value % head.step.value == 0
            && exists n: nat, m: nat :: Shape(head, body, n, m)
    ensures r.Some? ==>
      && Shape(head, body, |r.value.triplets|, |r.value.stores|)
      && TripletsOf(r.value.triplets, body)
      && StoresOf(r.value.stores, body, 3 * |r.value.triplets| + 1)
  {
    if head.hasInitArgs || !IsZeroBasedEvenlyDivisible(head) {
      return None;
    }
    var triplets: seq<Triplet>, stores: seq<Store> := [], [];
    var view: nat, alloc: nat := 0, 0;
    var stage := ViewStage;
    for i := 0 to |body|
      invariant TripletsOf(triplets, body)
      invariant stage == ViewStage ==> i == 3 * |triplets| && stores == []
      invariant stage == AllocStage ==> i == 3 * |triplets| + 1 && stores == [] && body[i - 1] == SubViewOp(view)
      invariant stage == CopyStage ==>
        && i == 3 * |triplets| + 2 && stores == []
        && body[i - 2] == SubViewOp(view) && body[i - 1] == AllocOp(alloc)
      invariant stage == StoreStage ==>
        && 0 < |triplets| && i == 3 * |triplets| + 1 + |stores|
        && IsCompute(body[3 * |triplets|], head) && StoresOf(stores, body, 3 * |triplets| + 1)
    {
      var op := body[i];
      match stage
      case ViewStage =>
        if !op.SubViewOp? {
          if triplets == [] || !IsCompute(op, head) {
            return None;
          }
          stage := StoreStage;
        } else {
          view, stage := op.id, AllocStage;
        }
      case AllocStage =>
        if !op.AllocOp? {
          return None;
        }
        alloc, stage := op.id, CopyStage;
      case CopyStage =>
        if !op.CopyOp? {
          return None;
        }
        triplets := triplets + [Triplet(view, alloc, op.src, op.dst)];
        stage := ViewStage;
      case StoreStage =>
        if !op.CopyOp? {
          NoOtherShape(head, body, triplets, stores);
        }
        if op.YieldOp? {
          if stores == [] {
            return None;
          }
          ShapeFound(head, body, triplets, stores);
          return Some(Schedule(triplets, stores));
        }
        if !op.CopyOp? {
          return None;
        }
        stores := stores + [Store(op.src, op.dst)];
    }
    if stage == StoreStage {
      NoOtherShape(head, body, triplets, stores);
    }
    return None;
  }

  // ----- the loop being rewritten -----

  // View v of tile iv covers addr(v, iv, 0), addr(v, iv, 1), ... of main memory;
  // value id from outside the loop covers the addresses outer(id); stray(tag, iv) is where a
  // transfer goes whose start describes other places than its operands.
  datatype Tiling = Tiling(kernel: Kernel, addr: (nat, int, nat) -> int, outer: nat -> seq<int>,
                           stray: (Tag, int) -> Transfer, ub: int, step: int) {
    function ViewLocs(v: nat, iv: int): (r: seq<Loc>)
      ensures |r| == if v < |kernel.sizes| then kernel.sizes[v] else 0
    {
      if v >= |kernel.sizes| then []
      else seq(kernel.sizes[v], j requires 0 <= j < kernel.sizes[v] => Ddr(addr(v, iv, j)))
    }

    function BufLocs(side: Side, b: nat): (r: seq<Loc>)
      ensures |r| == if b < |kernel.sizes| then kernel.sizes[b] else 0
    {
      if b < |kernel.sizes| then seq(kernel.sizes[b], j requires 0 <= j < kernel.sizes[b] => Cell(side, b, j)) else []
    }

    function OuterLocs(id: nat): (r: seq<Loc>)
      ensures |r| == |outer(id)|
    {
      seq(|outer(id)|, j requires 0 <= j < |outer(id)| => Ddr(outer(id)[j]))
    }
  }

  // Position of the triplet that defines a value, or their number.
  ghost function AllocIndex(ts: seq<Triplet>, id: nat): (i: nat)
    ensures i <= |ts| && (i < |ts| ==> ts[i].alloc == id)
  {
    if ts == [] then 0 else if ts[0].alloc == id then 0 else 1 + AllocIndex(ts[1..], id)
  }

  ghost function ViewIndex(ts: seq<Triplet>, id: nat): (i: nat)
    ensures i <= |ts| && (i < |ts| ==> ts[i].view == id)
  {
    if ts == [] then 0 else if ts[0].view == id then 0 else 1 + ViewIndex(ts[1..], id)
  }

  lemma {:induction false} IndexFound(ts: seq<Triplet>, q: nat)
    requires q < |ts|
    ensures AllocIndex(ts, ts[q].alloc) < |ts| && ViewIndex(ts, ts[q].view) < |ts|
  {
    if q > 0 { IndexFound(ts[1..], q - 1); }
  }

  // The rewrite drops the copies' own operands; it is about loops in which
  // each copy fills its alloc from its view.
  ghost predicate Wired(s: Schedule, sizes: seq<nat>) {
    && |s.triplets| == |sizes|
    && (forall i, j :: 0 <= i < j < |s.triplets| ==>
         s.triplets[i].view != s.triplets[j].view && s.triplets[i].alloc != s.triplets[j].alloc)
    && (forall i, j :: 0 <= i < |s.triplets| && 0 <= j < |s.triplets| ==> s.triplets[i].view != s.triplets[j].alloc)
    && (forall i :: 0 <= i < |s.triplets| ==>
         s.triplets[i].copySrc == s.triplets[i].view && s.triplets[i].copyDst == s.triplets[i].alloc)
  }

  // Where a value of the body, or one from outside, lives in the single-buffered loop.
  ghost function BodyLocs(t: Tiling, s: Schedule, id: nat, iv: int): seq<Loc> {
    if AllocIndex(s.triplets, id) < |s.triplets| then t.BufLocs(Single, AllocIndex(s.triplets, id))
    else if ViewIndex(s.triplets, id) < |s.triplets| then t.ViewLocs(ViewIndex(s.triplets, id), iv)
    else t.OuterLocs(id)
  }

  ghost function SbLoads(t: Tiling, s: Schedule, iv: int): seq<Action> {
    seq(|s.triplets|, i requires 0 <= i < |s.triplets| =>
      Copy(BodyLocs(t, s, s.triplets[i].copySrc, iv), BodyLocs(t, s, s.triplets[i].copyDst, iv)))
  }

  ghost function SbStores(t: Tiling, s: Schedule, iv: int): seq<Action> {
    seq(|s.stores|, q requires 0 <= q < |s.stores| =>
      Copy(BodyLocs(t, s, s.stores[q].src, iv), BodyLocs(t, s, s.stores[q].dst, iv)))
  }

  // The single-buffered loop, from iteration iv on.
  ghost function SbTrace(t: Tiling, s: Schedule, iv: int): seq<Action>
    requires t.step > 0
    decreases t.ub - iv
  {
    if iv >= t.ub then []
    else SbLoads(t, s, iv) + [Compute(Single, iv)] + SbStores(t, s, iv) + SbTrace(t, s, iv + t.step)
  }

  // ----- stage 1 -----

  datatype When = First | Now | Next
  datatype Ref = View(v: nat, at: When) | Buf(side: Side, b: nat) | Outer(id: nat)

  datatype Stmt =
    | CopyStmt(src: Ref, dst: Ref)
    | DmaStart(tag: Tag, src: Ref, dst: Ref)
    | StrayStart(tag: Tag)
    | DmaWait(tag: Tag)
    | ComputeStmt(side: Side)

  // if (nextExists) { prefetch }; body; toggle = toggleNext
  datatype SubKernel = SubKernel(prefetch: seq<Stmt>, body: seq<Stmt>, toggleNext: bool)

  // if (0 < ub) { prologue }; toggle = true; for iv { if (toggle) ping; if (!toggle) pong }
  datatype DbProgram = DbProgram(prologue: seq<Stmt>, ping: SubKernel, pong: SubKernel)

  ghost function MapValue(s: Schedule, id: nat, side: Side): Ref {
    if AllocIndex(s.triplets, id) < |s.triplets| then Buf(side, AllocIndex(s.triplets, id))
    else if ViewIndex(s.triplets, id) < |s.triplets| then View(ViewIndex(s.triplets, id), Now)
    else Outer(id)
  }

  ghost function Loads(n: nat, at: When, side: Side): (r: seq<Stmt>)
    ensures |r| == n
  {
    seq(n, i requires 0 <= i < n => CopyStmt(View(i, at), Buf(side, i)))
  }

  ghost function Stores(s: Schedule, side: Side): (r: seq<Stmt>)
    ensures |r| == |s.stores|
  {
    seq(|s.stores|, q requires 0 <= q < |s.stores| =>
      CopyStmt(MapValue(s, s.stores[q].src, side), MapValue(s, s.stores[q].dst, side)))
  }

  ghost function PingPongSubKernel(s: Schedule, this_: Side, next: Side, toggleNext: bool): SubKernel {
    SubKernel(Loads(|s.triplets|, Next, next), [ComputeStmt(this_)] + Stores(s, this_), toggleNext)
  }

  ghost function AsDoubleBuffered(s: Schedule): DbProgram {
    DbProgram(Loads(|s.triplets|, First, Ping),
              PingPongSubKernel(s, Ping, Pong, false),
              PingPongSubKernel(s, Pong, Ping, true))
  }

  // ----- meaning of a double-buffered program -----

  function RefLocs(t: Tiling, r: Ref, iv: int): seq<Loc> {
    match r
    case View(v, First) => t.ViewLocs(v, 0)
    case View(v, Now) => t.ViewLocs(v, iv)
    case View(v, Next) => t.ViewLocs(v, iv + t.step)
    case Buf(side, b) => t.BufLocs(side, b)
    case Outer(id) => t.OuterLocs(id)
  }

  function StmtAction(t: Tiling, c: Stmt, iv: int): Action {
    match c
    case CopyStmt(src, dst) => Copy(RefLocs(t, src, iv), RefLocs(t, dst, iv))
    case DmaStart(tag, src, dst) => Start(tag, RefLocs(t, src, iv), RefLocs(t, dst, iv))
    case StrayStart(tag) => Start(tag, t.stray(tag, iv).src, t.stray(tag, iv).dst)
    case DmaWait(tag) => Wait(tag)
    case ComputeStmt(side) => Compute(side, iv)
  }

  function Actions(t: Tiling, cs: seq<Stmt>, iv: int): (r: seq<Action>)
    ensures |r| == |cs|
  {
    seq(|cs|, i requires 0 <= i < |cs| => StmtAction(t, cs[i], iv))
  }

  predicate NextExists(t: Tiling, iv: int) { iv + t.step + t.step <= t.ub }

  function KernelTrace(t: Tiling, k: SubKernel, iv: int): seq<Action> {
    (if NextExists(t, iv) then Actions(t, k.prefetch, iv) else []) + Actions(t, k.body, iv)
  }

  // Both conditionals test the toggle as it was when the iteration began.
  function IterTrace(t: Tiling, p: DbProgram, iv: int, toggle: bool): seq<Action> {
    (if toggle then KernelTrace(t, p.ping, iv) else []) + (if !toggle then KernelTrace(t, p.pong, iv) else [])
  }

  function LoopTrace(t: Tiling, p: DbProgram, iv: int, toggle: bool): seq<Action>
    requires t.step > 0
    decreases t.ub - iv
  {
    if iv >= t.ub then []
    else IterTrace(t, p, iv, toggle)
         + LoopTrace(t, p, iv + t.step, if toggle then p.ping.toggleNext else p.pong.toggleNext)
  }

  function ProgramTrace(t: Tiling, p: DbProgram): seq<Action>
    requires t.step > 0
  {
    (if 0 < t.ub then Actions(t, p.prologue, 0) else []) + LoopTrace(t, p, 0, true)
  }

  // The rewritten loop as it runs: the toggle cell picks the sub-kernel, and
  // the other buffers are filled ahead whenever a next tile exists.
  method RunHost(t: Tiling, p: DbProgram) returns (trace: seq<Action>, kernels: seq<Side>, prefetched: seq<bool>)
    requires t.step > 0 && !p.ping.toggleNext && p.pong.toggleNext
    ensures trace == ProgramTrace(t, p)
    ensures |prefetched| == |kernels| && (0 < |kernels| <==> 0 < t.ub)
    ensures forall n :: 0 <= n < |kernels| ==> kernels[n] == if n % 2 == 0 then Ping else Pong
    ensures (t.ub > 0 ==> Multiple(t.ub, t.step)) ==>
      forall n :: 0 <= n < |prefetched| ==> (prefetched[n] <==> n + 1 < |kernels|)
  {
    hide Actions, Multiple, KernelTrace;
    trace, kernels, prefetched := [], [], [];
    if 0 < t.ub {
      trace := Actions(t, p.prologue, 0);
    }
    ghost var whole := t.ub > 0 && Multiple(t.ub, t.step);
    var toggle := true;
    var iv := 0;
    MultipleStart(t.step);
    while iv < t.ub
      invariant 0 <= iv && Multiple(iv, t.step) && |prefetched| == |kernels|
      invariant (iv > 0 <==> 0 < |kernels|) && (iv == 0 || 0 < t.ub)
      invariant trace + LoopTrace(t, p, iv, toggle) == ProgramTrace(t, p)
      invariant toggle == (|kernels| % 2 == 0)
      invariant forall n :: 0 <= n < |kernels| ==> kernels[n] == if n % 2 == 0 then Ping else Pong
      invariant whole ==> forall n :: 0 <= n < |kernels| ==> (prefetched[n] <==> n + 1 < |kernels| || iv < t.ub)
      decreases t.ub - iv
    {
      if whole { NextTile(iv, t.ub, t.step); }
      var toggleVal := toggle;
      var nextExists := iv + t.step + t.step <= t.ub;
      ghost var before := trace;
      if toggleVal {
        var acts := RunSubKernel(t, p.ping, iv, nextExists);
        trace, kernels, toggle := trace + acts, kernels + [Ping], p.ping.toggleNext;
      }
      if !toggleVal {
        var acts := RunSubKernel(t, p.pong, iv, nextExists);
        trace, kernels, toggle := trace + acts, kernels + [Pong], p.pong.toggleNext;
      }
      assert trace == before + IterTrace(t, p, iv, toggleVal);
      prefetched := prefetched + [nextExists];
      MultipleNext(iv, t.step);
      iv := iv + t.step;
    }
  }

  method RunSubKernel(t: Tiling, k: SubKernel, iv: int, nextExists: bool) returns (acts: seq<Action>)
    requires nextExists == NextExists(t, iv)
    ensures acts == KernelTrace(t, k, iv)
  {
    acts := [];
    if nextExists {
      acts := Actions(t, k.prefetch, iv);
    }
    acts := acts + Actions(t, k.body, iv);
  }

  lemma MultipleStart(n: nat)
    requires n > 0
    ensures Multiple(0, n)
  {
  }

  lemma MultipleNext(x: nat, n: nat)
    requires n > 0 && Multiple(x, n)
    ensures Multiple(x + n, n)
  {
  }

  lemma NextTile(iv: nat, ub: nat, step: nat)
    requires step > 0 && Multiple(iv, step) && Multiple(ub, step) && iv < ub
    ensures iv + 2 * step <= ub <==> iv + step < ub
    ensures iv + step <= ub
  {
    MultipleGap(iv, ub, step);
    if iv + step < ub { MultipleGap(iv + step, ub, step); }
  }
}
