// Stage 2 replaces the copies of a double-buffered program by DMA transfers;
// the result is race-free, and the engine cannot be told from the copies.
module DoubleBufferStage2 {
  import opened Arith
  import opened DmaMachine
  import opened DmaTransfers
  import opened DoubleBuffer
  import opened DoubleBufferStage1
  import opened Basics

  // ----- the rewrite -----

  // The types of the triplets' views and allocs and of values from outside the loop, and
  // whether the compiler is built with assertions.
  datatype Types = Types(view: nat -> BufferType, alloc: nat -> BufferType, outer: nat -> BufferType, asserts: bool) {
    // Ping and pong buffers have the type of the alloc they stand for.
    function Of(r: Ref): BufferType {
      match r
      case View(v, _) => view(v)
      case Buf(_, b) => alloc(b)
      case Outer(id) => outer(id)
    }
  }

  // No start is created, one that moves what the copy moves, or one that moves something else.
  datatype StartKind = NoStart | RightOne | StrayOne

  function StartOf(asserts: bool, src: BufferType, dst: BufferType): StartKind {
    if !CreatesDmaStart(src, dst) then NoStart
    else if WellFormed(src) && WellFormed(dst) && RightStart(asserts, src, dst) then RightOne
    else StrayOne
  }

  // What a copy is replaced by; it is erased in any case.
  ghost function Starting(tag: Tag, src: Ref, dst: Ref, ty: Types): seq<Stmt> {
    match StartOf(ty.asserts, ty.Of(src), ty.Of(dst))
    case NoStart => []
    case RightOne => [DmaStart(tag, src, dst)]
    case StrayOne => [StrayStart(tag)]
  }

  // The i-th copy of a prologue or prefetch block starts under the i-th tag.
  ghost function StartLoad(c: Stmt, side: Side, i: nat, ty: Types): seq<Stmt> {
    if c.CopyStmt? then Starting(LoadTag(side, i), c.src, c.dst, ty) else [c]
  }

  ghost function StartLoads(cs: seq<Stmt>, side: Side, ty: Types): seq<Stmt> {
    if cs == [] then []
    else StartLoads(cs[..|cs| - 1], side, ty) + StartLoad(cs[|cs| - 1], side, |cs| - 1, ty)
  }

  ghost function Waits(n: nat, side: Side): (r: seq<Stmt>)
    ensures |r| == n
  {
    seq(n, i requires 0 <= i < n => DmaWait(LoadTag(side, i)))
  }

  // A store becomes its start, if any, and in any case a wait.
  ghost function StoreDma(c: Stmt, side: Side, q: nat, ty: Types): seq<Stmt> {
    if c.CopyStmt? then Starting(StoreTag(side, q), c.src, c.dst, ty) + [DmaWait(StoreTag(side, q))] else [c]
  }

  ghost function StoresDma(cs: seq<Stmt>, side: Side, ty: Types): seq<Stmt> {
    if cs == [] then []
    else StoresDma(cs[..|cs| - 1], side, ty) + StoreDma(cs[|cs| - 1], side, |cs| - 1, ty)
  }

  ghost function SubKernelDma(k: SubKernel, side: Side, next: Side, loads: nat, ty: Types): SubKernel
    requires k.body != []
  {
    SubKernel(StartLoads(k.prefetch, next, ty),
              Waits(loads, side) + [k.body[0]] + StoresDma(k.body[1..], side, ty),
              k.toggleNext)
  }

  ghost function AsDma(p: DbProgram, ty: Types): DbProgram
    requires p.ping.body != [] && p.pong.body != []
  {
    DbProgram(StartLoads(p.prologue, Ping, ty),
              SubKernelDma(p.ping, Ping, Pong, |p.prologue|, ty),
              SubKernelDma(p.pong, Pong, Ping, |p.prologue|, ty))
  }

  // Both passes, on a recognised schedule.
  ghost function DmaProgram(s: Schedule, ty: Types): DbProgram {
    AsDma(AsDoubleBuffered(s), ty)
  }

  ghost function LoadKind(ty: Types, i: nat): StartKind { StartOf(ty.asserts, ty.view(i), ty.alloc(i)) }

  ghost function StoreKind(s: Schedule, ty: Types, q: nat): StartKind
    requires q < |s.stores|
  {
    StartOf(ty.asserts, ty.Of(MapValue(s, s.stores[q].src, Ping)), ty.Of(MapValue(s, s.stores[q].dst, Ping)))
  }

  // Every load and every store is started, whatever the transfer moves.
  ghost predicate AllStart(s: Schedule, ty: Types) {
    && (forall i: nat :: i < |s.triplets| ==> !LoadKind(ty, i).NoStart?)
    && (forall q: nat :: q < |s.stores| ==> !StoreKind(s, ty, q).NoStart?)
  }

  ghost predicate LoadsMove(n: nat, ty: Types) { forall i: nat :: i < n ==> LoadKind(ty, i).RightOne? }

  ghost predicate StoresMove(s: Schedule, ty: Types) {
    forall q: nat :: q < |s.stores| ==> StoreKind(s, ty, q).RightOne?
  }

  // Every load and every store becomes a transfer that moves what the copy moved.
  ghost predicate AllMove(s: Schedule, ty: Types) { LoadsMove(|s.triplets|, ty) && StoresMove(s, ty) }

  // The loads as transfers, when every one of them moves what it should.
  ghost function Started(n: nat, at: When, side: Side): (r: seq<Stmt>)
    ensures |r| == n
  {
    seq(n, i requires 0 <= i < n => DmaStart(LoadTag(side, i), View(i, at), Buf(side, i)))
  }

  lemma {:induction false} StartLoadsAre(n: nat, at: When, side: Side, ty: Types)
    requires LoadsMove(n, ty)
    ensures StartLoads(Loads(n, at, side), side, ty) == Started(n, at, side)
  {
    hide StartOf, LoadsMove;
    if n > 0 {
      var all := Loads(n, at, side);
      assert all[..n - 1] == Loads(n - 1, at, side);
      FewerMove(n, ty);
      StartLoadsAre(n - 1, at, side, ty);
      LoadStarted(n - 1, at, side, ty);
      assert all[n - 1] == CopyStmt(View(n - 1, at), Buf(side, n - 1));
    }
  }

  lemma FewerMove(n: nat, ty: Types)
    requires n > 0 && LoadsMove(n, ty)
    ensures LoadsMove(n - 1, ty) && LoadKind(ty, n - 1).RightOne?
  {
  }

  lemma LoadStarted(i: nat, at: When, side: Side, ty: Types)
    requires LoadKind(ty, i).RightOne?
    ensures StartLoad(CopyStmt(View(i, at), Buf(side, i)), side, i, ty)
            == [DmaStart(LoadTag(side, i), View(i, at), Buf(side, i))]
  {
    hide StartOf;
  }

  // ----- sets of outstanding loads -----

  ghost function LoadXfer(t: Tiling, side: Side, iv: int, i: nat): Transfer {
    Transfer(t.ViewLocs(i, iv), t.BufLocs(side, i))
  }

  ghost function LoadTags(side: Side, n: nat): (r: set<Tag>)
    ensures forall g :: g in r <==> g.LoadTag? && g.side == side && g.i < n
  {
    if n == 0 then {} else LoadTags(side, n - 1) + {LoadTag(side, n - 1)}
  }

  // The first n loads of a tile, all outstanding.
  ghost function LoadsOut(t: Tiling, side: Side, iv: int, n: nat): map<Tag, Transfer> {
    map g | g in LoadTags(side, n) :: LoadXfer(t, side, iv, g.i)
  }

  // Some loads of a tile are outstanding, and nothing else.
  ghost predicate OnlyLoads(t: Tiling, out: map<Tag, Transfer>, side: Side, iv: int) {
    forall g :: g in out ==> g.LoadTag? && g.side == side && out[g] == LoadXfer(t, side, iv, g.i)
  }

  // ----- starting, awaiting, storing -----

  ghost predicate StartsFrom(t: Tiling, acts: seq<Action>, side: Side, iv: int, lo: nat) {
    forall i :: 0 <= i < |acts| ==>
      acts[i] == Start(LoadTag(side, lo + i), t.ViewLocs(lo + i, iv), t.BufLocs(side, lo + i))
  }

  lemma LoadsIndependent(t: Tiling, side: Side, iv: int, i: nat, side': Side, iv': int, i': nat)
    requires side != side' || i != i'
    ensures Independent(LoadXfer(t, side, iv, i), LoadXfer(t, side', iv', i'))
  {
  }

  lemma LoadSelfContained(t: Tiling, side: Side, iv: int, i: nat)
    ensures SelfContained(LoadXfer(t, side, iv, i))
  {
  }

  lemma StartSafe(t: Tiling, base: map<Tag, Transfer>, side: Side, iv: int, other: Side, iv': int, lo: nat)
    requires side != other && OnlyLoads(t, base, other, iv')
    ensures Safe(t.kernel, base + LoadsOut(t, side, iv, lo),
            Start(LoadTag(side, lo), t.ViewLocs(lo, iv), t.BufLocs(side, lo)))
  {
    hide SelfContained, Independent;
    var out := base + LoadsOut(t, side, iv, lo);
    LoadSelfContained(t, side, iv, lo);
    forall h | h in out ensures Independent(LoadXfer(t, side, iv, lo), out[h]) {
      LoadsIndependent(t, side, iv, lo, h.side, if h in base then iv' else iv, h.i);
    }
  }

  lemma StartAdds(t: Tiling, base: map<Tag, Transfer>, side: Side, iv: int, lo: nat)
    ensures (base + LoadsOut(t, side, iv, lo))[LoadTag(side, lo) := LoadXfer(t, side, iv, lo)] ==
            base + LoadsOut(t, side, iv, lo + 1)
  {
    hide LoadXfer;
  }

  lemma {:induction false} StartsClean(t: Tiling, base: map<Tag, Transfer>, acts: seq<Action>, side: Side, iv: int,
                                       other: Side, iv': int, lo: nat)
    requires side != other && OnlyLoads(t, base, other, iv') && StartsFrom(t, acts, side, iv, lo)
    ensures Clean(t.kernel, base + LoadsOut(t, side, iv, lo), acts, base + LoadsOut(t, side, iv, lo + |acts|))
    decreases |acts|
  {
    hide Safe, LoadsOut, OnlyLoads;
    var out := base + LoadsOut(t, side, iv, lo);
    if acts != [] {
      assert acts[0] == Start(LoadTag(side, lo + 0), t.ViewLocs(lo + 0, iv), t.BufLocs(side, lo + 0));
      StartSafe(t, base, side, iv, other, iv', lo);
      StartAdds(t, base, side, iv, lo);
      forall i | 0 <= i < |acts[1..]|
        ensures acts[1..][i]
                == Start(LoadTag(side, lo + 1 + i), t.ViewLocs(lo + 1 + i, iv), t.BufLocs(side, lo + 1 + i))
      {
        assert acts[1..][i] == acts[i + 1];
      }
      StartsClean(t, base, acts[1..], side, iv, other, iv', lo + 1);
    }
  }

  ghost function Without(out: map<Tag, Transfer>, side: Side, lo: nat, hi: nat): map<Tag, Transfer> {
    map g | g in out && !(g.LoadTag? && g.side == side && lo <= g.i < hi) :: out[g]
  }

  lemma {:induction false} WaitsClean(k: Kernel, out: map<Tag, Transfer>, acts: seq<Action>, side: Side, lo: nat)
    requires forall i :: 0 <= i < |acts| ==> acts[i] == Wait(LoadTag(side, lo + i)) && LoadTag(side, lo + i) in out
    ensures Clean(k, out, acts, Without(out, side, lo, lo + |acts|))
    decreases |acts|
  {
    if acts == [] {
      assert Without(out, side, lo, lo) == out;
    } else {
      var out1 := OutAfter(out, acts[0]);
      assert acts[0] == Wait(LoadTag(side, lo + 0));
      forall i | 0 <= i < |acts[1..]|
        ensures acts[1..][i] == Wait(LoadTag(side, lo + 1 + i)) && LoadTag(side, lo + 1 + i) in out1
      {
        assert acts[1..][i] == acts[i + 1];
      }
      WaitsClean(k, out1, acts[1..], side, lo + 1);
      assert Without(out1, side, lo + 1, lo + |acts|) == Without(out, side, lo, lo + |acts|);
    }
  }

  lemma StorePairClean(k: Kernel, out: map<Tag, Transfer>, g: Tag, src: seq<Loc>, dst: seq<Loc>)
    requires Safe(k, out, Start(g, src, dst))
    ensures Clean(k, out, [Start(g, src, dst), Wait(g)], out)
  {
    var acts := [Start(g, src, dst), Wait(g)];
    var out1 := OutAfter(out, acts[0]);
    assert acts[1..] == [Wait(g)] && acts[1..][1..] == [];
    assert OutAfter(out1, Wait(g)) == out;
    assert Clean(k, out, [], out);
    assert Clean(k, out1, acts[1..], out);
  }

  lemma StoreIndependent(t: Tiling, s: Schedule, side: Side, next: Side, iv: int, q: nat, i: nat)
    requires Wired(s, t.kernel.sizes) && NoHazardAt(t, s, iv) && q < |s.stores| && side != next
    ensures Independent(StoreXfer(t, s, side, iv, q), LoadXfer(t, next, iv + t.step, i))
  {
    hide Wired, NoHazardAt, StoredFrom, StoredTo;
    SideLocs(t, s, side, iv, q);
    BufLocsAre(t, next, i);
    ViewLocsAre(t, i, iv + t.step);
    var from, to := StoredFrom(t, s, side, iv, q), StoredTo(t, s, side, iv, q);
    var view := t.ViewLocs(i, iv + t.step);
    forall a, b | 0 <= a < |to| && 0 <= b < |view| ensures to[a] != view[b] {
      HazardApart(t, s, iv, q, i);
      StoreTargets(t, s, side, iv, q, to[a]);
      ApartFrom(StoredTo(t, s, Single, iv, q), view, b);
    }
  }

  // A store touches main memory and buffers of its own side.
  lemma SideLocs(t: Tiling, s: Schedule, side: Side, iv: int, q: nat)
    requires Wired(s, t.kernel.sizes) && q < |s.stores|
    ensures forall j :: 0 <= j < |StoredFrom(t, s, side, iv, q)| ==> OfSide(StoredFrom(t, s, side, iv, q)[j], side)
    ensures forall j :: 0 <= j < |StoredTo(t, s, side, iv, q)| ==> OfSide(StoredTo(t, s, side, iv, q)[j], side)
  {
    hide Wired, StoredFrom, StoredTo;
    StoreValueTwins(t, s, side, side, iv, q);
  }

  ghost predicate OfSide(l: Loc, side: Side) { l.Ddr? || l.side == side }

  lemma BufLocsAre(t: Tiling, side: Side, b: nat)
    ensures forall j :: 0 <= j < |t.BufLocs(side, b)| ==>
            t.BufLocs(side, b)[j].Cell? && t.BufLocs(side, b)[j].side == side
  {
  }

  lemma ViewLocsAre(t: Tiling, v: nat, iv: int)
    ensures forall j :: 0 <= j < |t.ViewLocs(v, iv)| ==> t.ViewLocs(v, iv)[j].Ddr?
  {
  }

  lemma HazardApart(t: Tiling, s: Schedule, iv: int, q: nat, i: nat)
    requires NoHazardAt(t, s, iv) && q < |s.stores|
    ensures Disjoint(StoredTo(t, s, Single, iv, q), t.ViewLocs(i, iv + t.step))
  {
    if i < |t.kernel.sizes| { assert NoHazardPair(t, s, iv, q, i); }
  }

  lemma StoreSafe(t: Tiling, s: Schedule, out: map<Tag, Transfer>, side: Side, next: Side, iv: int, q: nat)
    requires Wired(s, t.kernel.sizes) && StoresAllowedAt(t, s, iv) && q < |s.stores| && side != next
    requires OnlyLoads(t, out, next, iv + t.step) && (out != map[] ==> NoHazardAt(t, s, iv))
    ensures Safe(t.kernel, out, Start(StoreTag(side, q), StoredFrom(t, s, side, iv, q), StoredTo(t, s, side, iv, q)))
  {
    hide Wired, StoresAllowedAt, NoHazardAt, SelfContained, Independent, LoadXfer, StoredFrom, StoredTo;
    StoreShape(t, s, side, iv, q);
    forall g | g in out ensures Independent(StoreXfer(t, s, side, iv, q), out[g]) {
      assert out != map[];
      StoreIndependent(t, s, side, next, iv, q, g.i);
    }
  }

  // ----- one iteration is clean -----

  ghost function StorePair(t: Tiling, s: Schedule, side: Side, iv: int, q: nat): seq<Action>
    requires q < |s.stores|
  {
    [Start(StoreTag(side, q), StoredFrom(t, s, side, iv, q), StoredTo(t, s, side, iv, q)), Wait(StoreTag(side, q))]
  }

  ghost function StoreActs(t: Tiling, s: Schedule, side: Side, iv: int, n: nat): seq<Action>
    requires n <= |s.stores|
  {
    if n == 0 then [] else StoreActs(t, s, side, iv, n - 1) + StorePair(t, s, side, iv, n - 1)
  }

  lemma {:induction false} StoresClean(t: Tiling, s: Schedule, out: map<Tag, Transfer>, side: Side, next: Side, iv: int,
                                       n: nat)
    requires Wired(s, t.kernel.sizes) && StoresAllowedAt(t, s, iv) && n <= |s.stores| && side != next
    requires OnlyLoads(t, out, next, iv + t.step) && (out != map[] ==> NoHazardAt(t, s, iv))
    ensures Clean(t.kernel, out, StoreActs(t, s, side, iv, n), out)
  {
    hide Safe, OnlyLoads, NoHazardAt, Wired, StoresAllowedAt, StoredFrom, StoredTo;
    if n > 0 {
      StoresClean(t, s, out, side, next, iv, n - 1);
      StoreSafe(t, s, out, side, next, iv, n - 1);
      StorePairClean(t.kernel, out, StoreTag(side, n - 1), StoredFrom(t, s, side, iv, n - 1),
        StoredTo(t, s, side, iv, n - 1));
      CleanAppend(t.kernel, out, StoreActs(t, s, side, iv, n - 1), out, StorePair(t, s, side, iv, n - 1), out);
    }
  }

  lemma ComputeClean(t: Tiling, out: map<Tag, Transfer>, side: Side, next: Side, iv: int, iv': int)
    requires side != next && OnlyLoads(t, out, next, iv')
    ensures Clean(t.kernel, out, [Compute(side, iv)], out)
  {
    forall g | g in out ensures Untouched(t.kernel, side, out[g]) {
      assert out[g] == LoadXfer(t, next, iv', g.i);
    }
    assert [Compute(side, iv)][1..] == [];
    assert Clean(t.kernel, out, [], out);
  }

  ghost function StartActs(t: Tiling, s: Schedule, iv: int, toggle: bool): seq<Action> {
    Actions(t, Started(|s.triplets|, Next, This(!toggle)), iv)
  }

  ghost function DmaIteration(t: Tiling, s: Schedule, iv: int, toggle: bool): seq<Action> {
    (if NextExists(t, iv) then StartActs(t, s, iv, toggle) else [])
    + Actions(t, Waits(|s.triplets|, This(toggle)), iv)
    + [Compute(This(toggle), iv)]
    + StoreActs(t, s, This(toggle), iv, |s.stores|)
  }

  ghost function Prefetched(t: Tiling, s: Schedule, iv: int, toggle: bool): map<Tag, Transfer> {
    if iv < t.ub then LoadsOut(t, This(toggle), iv, |s.triplets|) else map[]
  }

  lemma StartActsAre(t: Tiling, s: Schedule, iv: int, toggle: bool)
    ensures |StartActs(t, s, iv, toggle)| == |s.triplets|
    ensures StartsFrom(t, StartActs(t, s, iv, toggle), This(!toggle), iv + t.step, 0)
  {
  }

  lemma StartStepClean(t: Tiling, s: Schedule, iv: int, toggle: bool)
    ensures var base := LoadsOut(t, This(toggle), iv, |s.triplets|);
      Clean(t.kernel, base, StartActs(t, s, iv, toggle), base + LoadsOut(t, This(!toggle), iv + t.step, |s.triplets|))
  {
    hide LoadXfer, StartActs, Clean, StartsFrom;
    var base := LoadsOut(t, This(toggle), iv, |s.triplets|);
    StartActsAre(t, s, iv, toggle);
    assert base + LoadsOut(t, This(!toggle), iv + t.step, 0) == base;
    StartsClean(t, base, StartActs(t, s, iv, toggle), This(!toggle), iv + t.step, This(toggle), iv, 0);
  }

  lemma WaitStepClean(t: Tiling, iv: int, n: nat, toggle: bool, next: map<Tag, Transfer>)
    requires OnlyLoads(t, next, This(!toggle), iv + t.step)
    ensures Clean(t.kernel, LoadsOut(t, This(toggle), iv, n) + next, Actions(t, Waits(n, This(toggle)), iv), next)
  {
    hide LoadXfer;
    var out := LoadsOut(t, This(toggle), iv, n) + next;
    WaitsClean(t.kernel, out, Actions(t, Waits(n, This(toggle)), iv), This(toggle), 0);
    assert Without(out, This(toggle), 0, n) == next;
  }

  lemma IterationClean(t: Tiling, s: Schedule, iv: int, toggle: bool)
    requires Eligible(t, s) && IsTile(t, iv)
    ensures Clean(t.kernel, Prefetched(t, s, iv, toggle), DmaIteration(t, s, iv, toggle),
            Prefetched(t, s, iv + t.step, !toggle))
  {
    hide Wired, StoresAllowed, StoresAllowedAt, NoHazard, Safe, Clean, LoadXfer, StartActs, StoreActs, Actions;
    var k, this_, next := t.kernel, This(toggle), This(!toggle);
    var n := |s.triplets|;
    var base, out := LoadsOut(t, this_, iv, n), Prefetched(t, s, iv + t.step, !toggle);
    var starts := if NextExists(t, iv) then StartActs(t, s, iv, toggle) else [];
    var waits, compute := Actions(t, Waits(n, this_), iv), [Compute(this_, iv)];
    var stores := StoreActs(t, s, this_, iv, |s.stores|);
    NextExistsIff(t, iv);
    AllowedHere(t, s, iv);
    if NextExists(t, iv) {
      StartStepClean(t, s, iv, toggle);
      NoHazardHere(t, s, iv);
    } else {
      assert base + out == base;
      EmptyClean(k, base);
    }
    WaitStepClean(t, iv, n, toggle, out);
    ComputeClean(t, out, this_, next, iv, iv + t.step);
    StoresClean(t, s, out, this_, next, iv, |s.stores|);
    CleanAppend(k, base, starts, base + out, waits, out);
    CleanAppend(k, base, starts + waits, out, compute, out);
    CleanAppend(k, base, starts + waits + compute, out, stores, out);
  }

  lemma EmptyClean(k: Kernel, out: map<Tag, Transfer>)
    ensures Clean(k, out, [], out)
  {
  }

  // ----- the trace of the rewritten program -----

  lemma {:induction false} StoresDmaActs(t: Tiling, s: Schedule, side: Side, iv: int, ty: Types, n: nat)
    requires StoresMove(s, ty) && n <= |s.stores|
    ensures Actions(t, StoresDma(Stores(s, side)[..n], side, ty), iv) == StoreActs(t, s, side, iv, n)
  {
    hide StorePair, StoreDma, StoresMove;
    if n > 0 {
      var cs := Stores(s, side)[..n];
      assert cs[..n - 1] == Stores(s, side)[..n - 1];
      StoresDmaActs(t, s, side, iv, ty, n - 1);
      ActionsAppend(t, StoresDma(cs[..n - 1], side, ty), StoreDma(cs[n - 1], side, n - 1, ty), iv);
      OneStoreDmaActs(t, s, side, iv, ty, n - 1);
    }
  }

  lemma SameTypeEitherSide(s: Schedule, ty: Types, id: nat, side: Side)
    ensures ty.Of(MapValue(s, id, side)) == ty.Of(MapValue(s, id, Ping))
  {
  }

  lemma OneStoreDmaActs(t: Tiling, s: Schedule, side: Side, iv: int, ty: Types, q: nat)
    requires StoresMove(s, ty) && q < |s.stores|
    ensures Actions(t, StoreDma(Stores(s, side)[q], side, q, ty), iv) == StorePair(t, s, side, iv, q)
  {
    hide MapValue, StartOf;
    assert StoreKind(s, ty, q).RightOne?;
    SameTypeEitherSide(s, ty, s.stores[q].src, side);
    SameTypeEitherSide(s, ty, s.stores[q].dst, side);
  }

  lemma DmaIterationIs(t: Tiling, s: Schedule, iv: int, toggle: bool, ty: Types)
    requires AllMove(s, ty)
    ensures IterTrace(t, DmaProgram(s, ty), iv, toggle) == DmaIteration(t, s, iv, toggle)
  {
    hide Actions, StoresDma, StoreActs, Loads, Waits, Stores, StartLoads, StoresMove, LoadsMove, Started;
    var side, n := This(toggle), |s.triplets|;
    var stores := Stores(s, side);
    StartLoadsAre(n, Next, This(!toggle), ty);
    StoresDmaActs(t, s, side, iv, ty, |s.stores|);
    assert stores[..|s.stores|] == stores;
    assert ([ComputeStmt(side)] + stores)[1..] == stores;
    ActionsAppend(t, Waits(n, side) + [ComputeStmt(side)], StoresDma(stores, side, ty), iv);
    ActionsAppend(t, Waits(n, side), [ComputeStmt(side)], iv);
    ComputeAct(t, side, iv);
  }

  lemma ComputeAct(t: Tiling, side: Side, iv: int)
    ensures Actions(t, [ComputeStmt(side)], iv) == [Compute(side, iv)]
  {
  }

  lemma DmaLoopUnfolds(t: Tiling, s: Schedule, iv: int, toggle: bool, ty: Types)
    requires AllMove(s, ty) && t.step > 0 && iv < t.ub
    ensures LoopTrace(t, DmaProgram(s, ty), iv, toggle) ==
      DmaIteration(t, s, iv, toggle) + LoopTrace(t, DmaProgram(s, ty), iv + t.step, !toggle)
  {
    hide IterTrace, DmaIteration, AllMove;
    DmaIterationIs(t, s, iv, toggle, ty);
  }

  lemma {:induction false} LoopClean(t: Tiling, s: Schedule, iv: int, toggle: bool, ty: Types)
    requires Eligible(t, s) && AllMove(s, ty) && 0 <= iv && Multiple(iv, t.step)
    ensures Clean(t.kernel, Prefetched(t, s, iv, toggle), LoopTrace(t, DmaProgram(s, ty), iv, toggle), map[])
    decreases t.ub - iv
  {
    hide Wired, StoresAllowed, StoresAllowedAt, NoHazard, LoadsMove, StoresMove, DmaIteration, DmaProgram, LoadsOut,
      Clean;
    EmptyClean(t.kernel, map[]);
    if iv < t.ub {
      IterationClean(t, s, iv, toggle);
      NextExistsIff(t, iv);
      LoopClean(t, s, iv + t.step, !toggle, ty);
      DmaLoopUnfolds(t, s, iv, toggle, ty);
      CleanAppend(t.kernel, Prefetched(t, s, iv, toggle), DmaIteration(t, s, iv, toggle),
        Prefetched(t, s, iv + t.step, !toggle),
                  LoopTrace(t, DmaProgram(s, ty), iv + t.step, !toggle), map[]);
    }
  }

  // For every trip count the DMA program is race-free, awaits every transfer
  // it starts exactly once, and leaves none outstanding.
  lemma DmaProgramIsRaceFree(t: Tiling, s: Schedule, ty: Types)
    requires Eligible(t, s) && AllMove(s, ty)
    ensures RaceFree(t.kernel, ProgramTrace(t, DmaProgram(s, ty)))
  {
    hide Wired, StoresAllowed, StoresAllowedAt, NoHazard, LoadsMove, StoresMove, LoadXfer;
    LoopClean(t, s, 0, true, ty);
    StartLoadsAre(|s.triplets|, First, Ping, ty);
    if 0 < t.ub {
      PrologueClean(t, s);
      CleanAppend(t.kernel, map[], Actions(t, Started(|s.triplets|, First, Ping), 0), Prefetched(t, s, 0, true),
                  LoopTrace(t, DmaProgram(s, ty), 0, true), map[]);
    } else {
      assert [] + LoopTrace(t, DmaProgram(s, ty), 0, true) == LoopTrace(t, DmaProgram(s, ty), 0, true);
    }
  }

  lemma PrologueClean(t: Tiling, s: Schedule)
    ensures Clean(t.kernel, map[], Actions(t, Started(|s.triplets|, First, Ping), 0),
                  LoadsOut(t, Ping, 0, |s.triplets|))
  {
    hide LoadXfer;
    var acts := Actions(t, Started(|s.triplets|, First, Ping), 0);
    assert map[] + LoadsOut(t, Ping, 0, 0) == map[];
    StartsClean(t, map[], acts, Ping, 0, Pong, 0, 0);
    assert map[] + LoadsOut(t, Ping, 0, |s.triplets|) == LoadsOut(t, Ping, 0, |s.triplets|);
  }

  // ----- starts for copies, waits for nothing -----

  ghost function Erase(trace: seq<Action>): seq<Action> {
    if trace == [] then []
    else
      (match trace[0] case Start(_, src, dst) => [Copy(src, dst)] case Wait(_) => [] case a => [a]) + Erase(trace[1..])
  }

  lemma {:induction false} EraseExec(k: Kernel, m: Mem, trace: seq<Action>)
    ensures ExecAll(k, m, Erase(trace)) == ExecAll(k, m, trace)
    decreases trace
  {
    if trace != [] {
      EraseExec(k, Exec(k, m, trace[0]), trace[1..]);
      if !trace[0].Wait? {
        var a := if trace[0].Start? then Copy(trace[0].src, trace[0].dst) else trace[0];
        assert Erase(trace)[0] == a && Erase(trace)[1..] == Erase(trace[1..]);
      } else {
        assert Erase(trace) == Erase(trace[1..]);
      }
    }
  }

  lemma {:induction false} EraseAppend(a: seq<Action>, b: seq<Action>)
    ensures Erase(a + b) == Erase(a) + Erase(b)
  {
    if a == [] {
      assert a + b == b;
    } else {
      assert (a + b)[0] == a[0] && (a + b)[1..] == a[1..] + b;
      EraseAppend(a[1..], b);
    }
  }

  lemma {:induction false} EraseStarts(acts: seq<Action>)
    requires forall i :: 0 <= i < |acts| ==> acts[i].Start?
    ensures Erase(acts) == seq(|acts|, i requires 0 <= i < |acts| => Copy(acts[i].src, acts[i].dst))
  {
    if acts != [] { EraseStarts(acts[1..]); }
  }

  lemma {:induction false} EraseWaits(acts: seq<Action>)
    requires forall i :: 0 <= i < |acts| ==> acts[i].Wait?
    ensures Erase(acts) == []
  {
    if acts != [] { EraseWaits(acts[1..]); }
  }

  ghost function StoreCopies(t: Tiling, s: Schedule, side: Side, iv: int, n: nat): seq<Action>
    requires n <= |s.stores|
  {
    seq(n, q requires 0 <= q < n => StoreAction(t, s, side, iv, q))
  }

  lemma {:induction false} EraseStoreActs(t: Tiling, s: Schedule, side: Side, iv: int, n: nat)
    requires n <= |s.stores|
    ensures Erase(StoreActs(t, s, side, iv, n)) == StoreCopies(t, s, side, iv, n)
  {
    hide StoredFrom, StoredTo, Erase;
    if n > 0 {
      EraseStoreActs(t, s, side, iv, n - 1);
      EraseAppend(StoreActs(t, s, side, iv, n - 1), StorePair(t, s, side, iv, n - 1));
      ErasePair(StoreTag(side, n - 1), StoredFrom(t, s, side, iv, n - 1), StoredTo(t, s, side, iv, n - 1));
      assert StorePair(t, s, side, iv, n - 1) ==
        [Start(StoreTag(side, n - 1), StoredFrom(t, s, side, iv, n - 1), StoredTo(t, s, side, iv, n - 1)),
          Wait(StoreTag(side, n - 1))];
      assert StoreCopies(t, s, side, iv, n) == StoreCopies(t, s, side, iv, n - 1)
             + [StoreAction(t, s, side, iv, n - 1)];
    } else {
      EraseNothing();
    }
  }

  lemma EraseNothing()
    ensures Erase([]) == []
  {
  }

  lemma ErasePair(g: Tag, src: seq<Loc>, dst: seq<Loc>)
    ensures Erase([Start(g, src, dst), Wait(g)]) == [Copy(src, dst)]
  {
    assert [Start(g, src, dst), Wait(g)][1..] == [Wait(g)];
    assert Erase([Wait(g)]) == [] by { assert [Wait(g)][1..] == []; }
  }

  lemma EraseStartLoads(t: Tiling, n: nat, at: When, side: Side, iv: int)
    ensures Erase(Actions(t, Started(n, at, side), iv)) == Actions(t, Loads(n, at, side), iv)
  {
    EraseStarts(Actions(t, Started(n, at, side), iv));
  }

  lemma EraseIteration(t: Tiling, s: Schedule, iv: int, toggle: bool)
    ensures Erase(DmaIteration(t, s, iv, toggle)) == DbIteration(t, s, iv, toggle)
  {
    hide Erase, Actions, StoreActs, Wired, StartLoads, Loads, Waits, StoreCopies, StoresTile;
    var side, n := This(toggle), |s.triplets|;
    var starts := if NextExists(t, iv) then StartActs(t, s, iv, toggle) else [];
    var waits, stores := Actions(t, Waits(n, side), iv), StoreActs(t, s, side, iv, |s.stores|);
    EraseAppend(starts + waits + [Compute(side, iv)], stores);
    EraseAppend(starts + waits, [Compute(side, iv)]);
    EraseAppend(starts, waits);
    EraseStartLoads(t, n, Next, This(!toggle), iv);
    EraseSmall(t, n, side, iv);
    EraseStoreActs(t, s, side, iv, |s.stores|);
    StoreCopiesAre(t, s, side, iv);
  }

  lemma EraseSmall(t: Tiling, n: nat, side: Side, iv: int)
    ensures Erase(Actions(t, Waits(n, side), iv)) == [] && Erase([Compute(side, iv)]) == [Compute(side, iv)]
            && Erase([]) == []
  {
    EraseWaits(Actions(t, Waits(n, side), iv));
    assert [Compute(side, iv)][1..] == [];
  }

  lemma StoreCopiesAre(t: Tiling, s: Schedule, side: Side, iv: int)
    ensures StoreCopies(t, s, side, iv, |s.stores|) == Actions(t, Stores(s, side), iv)
  {
    StoreOps(t, s, side, iv);
  }

  lemma {:induction false} EraseLoop(t: Tiling, s: Schedule, iv: int, toggle: bool, ty: Types)
    requires AllMove(s, ty) && t.step > 0
    ensures Erase(LoopTrace(t, DmaProgram(s, ty), iv, toggle)) == LoopTrace(t, AsDoubleBuffered(s), iv, toggle)
    decreases t.ub - iv
  {
    hide AllMove, DmaIteration, DbIteration, DmaProgram, AsDoubleBuffered, Erase;
    if iv >= t.ub {
      EraseNothing();
    } else {
      EraseLoop(t, s, iv + t.step, !toggle, ty);
      DmaLoopUnfolds(t, s, iv, toggle, ty);
      LoopTraceUnfolds(t, s, iv, toggle);
      EraseAppend(DmaIteration(t, s, iv, toggle), LoopTrace(t, DmaProgram(s, ty), iv + t.step, !toggle));
      EraseIteration(t, s, iv, toggle);
    }
  }

  lemma EraseProgram(t: Tiling, s: Schedule, ty: Types)
    requires AllMove(s, ty) && t.step > 0
    ensures Erase(ProgramTrace(t, DmaProgram(s, ty))) == ProgramTrace(t, AsDoubleBuffered(s))
  {
    hide LoadsMove, StoresMove, Erase, LoopTrace;
    StartLoadsAre(|s.triplets|, First, Ping, ty);
    EraseLoop(t, s, 0, true, ty);
    EraseStartLoads(t, |s.triplets|, First, Ping, 0);
    EraseAppend(if 0 < t.ub then Actions(t, Started(|s.triplets|, First, Ping), 0) else [],
                LoopTrace(t, DmaProgram(s, ty), 0, true));
    EraseSmall(t, 0, Ping, 0);
  }

  // ----- a start that was not created -----

  ghost predicate NoStartOf(acts: seq<Action>, g: Tag) {
    forall i :: 0 <= i < |acts| ==> !(acts[i].Start? && acts[i].tag == g)
  }

  lemma {:induction false} MissingStartNotClean(k: Kernel, out: map<Tag, Transfer>, a: seq<Action>, g: Tag,
                                                b: seq<Action>, out': map<Tag, Transfer>)
    requires NoStartOf(a, g) && g !in out
    ensures !Clean(k, out, a + [Wait(g)] + b, out')
    decreases a
  {
    var trace := a + [Wait(g)] + b;
    if a != [] {
      assert trace[1..] == a[1..] + [Wait(g)] + b;
      MissingStartNotClean(k, OutAfter(out, a[0]), a[1..], g, b, out');
    }
  }

  // A statement that starts a load of n triplets, right or stray, under its own tag.
  ghost predicate StartsALoad(c: Stmt, n: nat, at: When, side: Side, ty: Types) {
    || (c.DmaStart? && c.tag.LoadTag? && c.tag.side == side && c.tag.i < n && LoadKind(ty, c.tag.i).RightOne?
        && c.src == View(c.tag.i, at) && c.dst == Buf(side, c.tag.i))
    || (c.StrayStart? && c.tag.LoadTag? && c.tag.side == side && c.tag.i < n && LoadKind(ty, c.tag.i).StrayOne?)
  }

  ghost predicate LoadStartsOnly(cs: seq<Stmt>, n: nat, at: When, side: Side, ty: Types) {
    forall i :: 0 <= i < |cs| ==> StartsALoad(cs[i], n, at, side, ty)
  }

  lemma {:induction false} OnlyLoadStarts(n: nat, at: When, side: Side, ty: Types)
    ensures LoadStartsOnly(StartLoads(Loads(n, at, side), side, ty), n, at, side, ty)
  {
    if n > 0 {
      assert Loads(n, at, side)[..n - 1] == Loads(n - 1, at, side);
      OnlyLoadStarts(n - 1, at, side, ty);
      var before, last := StartLoads(Loads(n - 1, at, side), side, ty),
          StartLoad(Loads(n, at, side)[n - 1], side, n - 1, ty);
      LastLoadStart(n, at, side, ty);
      MoreLoadStarts(before, last, n, at, side, ty);
    }
  }

  lemma MoreLoadStarts(before: seq<Stmt>, last: seq<Stmt>, n: nat, at: When, side: Side, ty: Types)
    requires n > 0 && LoadStartsOnly(before, n - 1, at, side, ty) && LoadStartsOnly(last, n, at, side, ty)
    ensures LoadStartsOnly(before + last, n, at, side, ty)
  {
    forall i | 0 <= i < |before| ensures StartsALoad(before[i], n, at, side, ty) {
      assert StartsALoad(before[i], n - 1, at, side, ty);
    }
  }

  lemma LastLoadStart(n: nat, at: When, side: Side, ty: Types)
    requires n > 0
    ensures LoadStartsOnly(StartLoad(Loads(n, at, side)[n - 1], side, n - 1, ty), n, at, side, ty)
  {
    hide StartOf;
  }

  // A statement a store of the first n became.
  ghost predicate OfAStore(c: Stmt, s: Schedule, n: nat, side: Side, ty: Types)
    requires n <= |s.stores|
  {
    || (c.DmaStart? && c.tag.StoreTag? && c.tag.side == side && c.tag.i < n && StoreKind(s, ty, c.tag.i).RightOne?
        && c.src == MapValue(s, s.stores[c.tag.i].src, side) && c.dst == MapValue(s, s.stores[c.tag.i].dst, side))
    || (c.StrayStart? && c.tag.StoreTag? && c.tag.side == side && c.tag.i < n && StoreKind(s, ty, c.tag.i).StrayOne?)
    || (c.DmaWait? && c.tag.StoreTag? && c.tag.side == side && c.tag.i < n)
  }

  ghost predicate StoresOnly(cs: seq<Stmt>, s: Schedule, n: nat, side: Side, ty: Types)
    requires n <= |s.stores|
  {
    forall i :: 0 <= i < |cs| ==> OfAStore(cs[i], s, n, side, ty)
  }

  lemma {:induction false} OnlyStores(s: Schedule, n: nat, side: Side, ty: Types)
    requires n <= |s.stores|
    ensures StoresOnly(StoresDma(Stores(s, side)[..n], side, ty), s, n, side, ty)
  {
    hide StartOf, MapValue;
    if n > 0 {
      OnlyStores(s, n - 1, side, ty);
      assert Stores(s, side)[..n][..n - 1] == Stores(s, side)[..n - 1];
      var before := StoresDma(Stores(s, side)[..n - 1], side, ty);
      var last := StoreDma(Stores(s, side)[n - 1], side, n - 1, ty);
      LastStore(s, n, side, ty);
      MoreStores(before, last, s, n, side, ty);
    }
  }

  lemma MoreStores(before: seq<Stmt>, last: seq<Stmt>, s: Schedule, n: nat, side: Side, ty: Types)
    requires 0 < n <= |s.stores| && StoresOnly(before, s, n - 1, side, ty) && StoresOnly(last, s, n, side, ty)
    ensures StoresOnly(before + last, s, n, side, ty)
  {
    forall i | 0 <= i < |before| ensures OfAStore(before[i], s, n, side, ty) {
      assert OfAStore(before[i], s, n - 1, side, ty);
    }
  }

  lemma LastStore(s: Schedule, n: nat, side: Side, ty: Types)
    requires 0 < n <= |s.stores|
    ensures StoresOnly(StoreDma(Stores(s, side)[n - 1], side, n - 1, ty), s, n, side, ty)
  {
    hide StartOf, MapValue;
    SameTypeEitherSide(s, ty, s.stores[n - 1].src, side);
    SameTypeEitherSide(s, ty, s.stores[n - 1].dst, side);
  }

  lemma {:induction false} StoresDmaSplit(cs: seq<Stmt>, side: Side, q: nat, ty: Types) returns (post: seq<Stmt>)
    requires q < |cs|
    ensures StoresDma(cs, side, ty) == StoresDma(cs[..q], side, ty) + StoreDma(cs[q], side, q, ty) + post
  {
    hide StoreDma;
    var n := |cs| - 1;
    if q == n {
      post := [];
    } else {
      post := StoresDmaSplit(cs[..n], side, q, ty);
      assert cs[..n][..q] == cs[..q];
      post := post + StoreDma(cs[n], side, n, ty);
    }
  }

  // What runs before the first kernel awaits anything.
  ghost function Lead(t: Tiling, s: Schedule, ty: Types): seq<Action> {
    Actions(t, DmaProgram(s, ty).prologue, 0)
    + if NextExists(t, 0) then Actions(t, DmaProgram(s, ty).ping.prefetch, 0) else []
  }

  // The first kernel up to its wait for load i, and up to its wait for store q.
  ghost function BeforeLoadWait(t: Tiling, s: Schedule, ty: Types, i: nat): seq<Action>
    requires i < |s.triplets|
  {
    Lead(t, s, ty) + Actions(t, Waits(|s.triplets|, Ping)[..i], 0)
  }

  ghost function BeforeStoreWait(t: Tiling, s: Schedule, ty: Types, q: nat): seq<Action>
    requires q < |s.stores|
  {
    Lead(t, s, ty)
    + Actions(t, Waits(|s.triplets|, Ping) + [ComputeStmt(Ping)] + StoresDma(Stores(s, Ping)[..q], Ping, ty), 0)
  }

  lemma BodyOfPing(s: Schedule, ty: Types)
    ensures var waits, rest := Waits(|s.triplets|, Ping), StoresDma(Stores(s, Ping), Ping, ty);
      DmaProgram(s, ty).ping.body == waits + [ComputeStmt(Ping)] + rest == waits + ([ComputeStmt(Ping)] + rest)
  {
    hide Waits, StoresDma, Stores;
    var waits, rest := Waits(|s.triplets|, Ping), StoresDma(Stores(s, Ping), Ping, ty);
    Associate(waits, [ComputeStmt(Ping)], rest);
    PingBody(s, ty);
  }

  lemma PingBody(s: Schedule, ty: Types)
    ensures DmaProgram(s, ty).ping.body
         == Waits(|s.triplets|, Ping) + [ComputeStmt(Ping)] + StoresDma(Stores(s, Ping), Ping, ty)
  {
    hide Waits, StoresDma, Stores, Loads, StartLoads;
    assert ([ComputeStmt(Ping)] + Stores(s, Ping))[1..] == Stores(s, Ping);
  }

  lemma Associate<T>(a: seq<T>, b: seq<T>, c: seq<T>)
    ensures a + b + c == a + (b + c)
  {
  }

  lemma SplitAt<T>(a: seq<T>, i: nat, rest: seq<T>)
    requires i < |a|
    ensures a + rest == a[..i] + [a[i]] + (a[i + 1..] + rest)
  {
  }

  lemma Reassociate<T>(a: seq<T>, b: seq<T>, c: seq<T>, d: seq<T>)
    ensures a + (b + c + d) == a + b + c + d
  {
  }

  lemma WaitAction(t: Tiling, pre: seq<Stmt>, g: Tag, post: seq<Stmt>, iv: int)
    ensures Actions(t, pre + [DmaWait(g)] + post, iv) == Actions(t, pre, iv) + [Wait(g)] + Actions(t, post, iv)
  {
  }

  lemma FirstIteration(t: Tiling, p: DbProgram)
    requires t.step > 0 && 0 < t.ub
    ensures ProgramTrace(t, p) == Actions(t, p.prologue, 0) +
      ((if NextExists(t, 0) then Actions(t, p.ping.prefetch, 0) else []) + Actions(t, p.ping.body, 0)
       + LoopTrace(t, p, 0 + t.step, p.ping.toggleNext))
  {
    hide Actions;
    assert KernelTrace(t, p.ping, 0) + [] == KernelTrace(t, p.ping, 0);
  }

  lemma Flatten<T>(a: seq<T>, b: seq<T>, c: seq<T>, d: seq<T>, e: seq<T>, f: seq<T>)
    ensures a + (b + (c + d + e) + f) == a + b + c + d + (e + f)
  {
  }

  // Splits the program at a wait of the first kernel.
  lemma PingWait(t: Tiling, s: Schedule, ty: Types, pre: seq<Stmt>, g: Tag, post: seq<Stmt>) returns (b: seq<Action>)
    requires t.step > 0 && 0 < t.ub && DmaProgram(s, ty).ping.body == pre + [DmaWait(g)] + post
    ensures ProgramTrace(t, DmaProgram(s, ty)) == Lead(t, s, ty) + Actions(t, pre, 0) + [Wait(g)] + b
  {
    hide DmaProgram, Actions, LoopTrace;
    var p := DmaProgram(s, ty);
    WaitAction(t, pre, g, post, 0);
    var prefetch := if NextExists(t, 0) then Actions(t, p.ping.prefetch, 0) else [];
    var rest := LoopTrace(t, p, 0 + t.step, p.ping.toggleNext);
    b := Actions(t, post, 0) + rest;
    FirstIteration(t, p);
    hide *;
    Flatten(Actions(t, p.prologue, 0), prefetch, Actions(t, pre, 0), [Wait(g)], Actions(t, post, 0), rest);
    LeadIs(t, s, ty);
  }

  lemma LeadIs(t: Tiling, s: Schedule, ty: Types)
    ensures Lead(t, s, ty) == Actions(t, DmaProgram(s, ty).prologue, 0)
      + if NextExists(t, 0) then Actions(t, DmaProgram(s, ty).ping.prefetch, 0) else []
  {
  }

  lemma LoadWait(t: Tiling, s: Schedule, ty: Types, i: nat) returns (b: seq<Action>)
    requires t.step > 0 && 0 < t.ub && i < |s.triplets|
    ensures ProgramTrace(t, DmaProgram(s, ty)) == BeforeLoadWait(t, s, ty, i) + [Wait(LoadTag(Ping, i))] + b
  {
    hide ProgramTrace, DmaProgram, StoresDma, Lead;
    var waits, rest := Waits(|s.triplets|, Ping), [ComputeStmt(Ping)] + StoresDma(Stores(s, Ping), Ping, ty);
    BodyOfPing(s, ty);
    SplitAt(waits, i, rest);
    assert waits[i] == DmaWait(LoadTag(Ping, i));
    b := PingWait(t, s, ty, waits[..i], LoadTag(Ping, i), waits[i + 1..] + rest);
  }

  lemma LoneWait(s: Schedule, ty: Types, q: nat)
    requires q < |s.stores| && StoreKind(s, ty, q).NoStart?
    ensures StoreDma(Stores(s, Ping)[q], Ping, q, ty) == [DmaWait(StoreTag(Ping, q))]
  {
    hide StartOf, MapValue;
  }

  lemma StoreWait(t: Tiling, s: Schedule, ty: Types, q: nat) returns (b: seq<Action>)
    requires t.step > 0 && 0 < t.ub && q < |s.stores| && StoreKind(s, ty, q).NoStart?
    ensures ProgramTrace(t, DmaProgram(s, ty)) == BeforeStoreWait(t, s, ty, q) + [Wait(StoreTag(Ping, q))] + b
  {
    hide ProgramTrace, DmaProgram, StoresDma, StoreDma, Lead, Actions, StoreKind;
    var waits, stores := Waits(|s.triplets|, Ping) + [ComputeStmt(Ping)], Stores(s, Ping);
    BodyOfPing(s, ty);
    var post := StoresDmaSplit(stores, Ping, q, ty);
    LoneWait(s, ty, q);
    Reassociate(waits, StoresDma(stores[..q], Ping, ty), [DmaWait(StoreTag(Ping, q))], post);
    b := PingWait(t, s, ty, waits + StoresDma(stores[..q], Ping, ty), StoreTag(Ping, q), post);
  }

  lemma LeadStarts(t: Tiling, s: Schedule, ty: Types, g: Tag)
    requires g.LoadTag? && g.side == Ping ==> LoadKind(ty, g.i).NoStart?
    requires g.LoadTag? ==> g.side == Ping
    ensures NoStartOf(Lead(t, s, ty), g)
  {
    hide StartLoads, LoadKind, NoStartOf, Actions;
    var p := DmaProgram(s, ty);
    LoadStartsOf(t, s, First, Ping, ty, g);
    LoadStartsOf(t, s, Next, Pong, ty, g);
    if NextExists(t, 0) {
      NoStartAppend(Actions(t, p.prologue, 0), Actions(t, p.ping.prefetch, 0), g);
    } else {
      assert Lead(t, s, ty) == Actions(t, p.prologue, 0);
    }
  }

  lemma LoadStartsOf(t: Tiling, s: Schedule, at: When, side: Side, ty: Types, g: Tag)
    requires g.LoadTag? && g.side == side ==> LoadKind(ty, g.i).NoStart?
    ensures NoStartOf(Actions(t, StartLoads(Loads(|s.triplets|, at, side), side, ty), 0), g)
  {
    hide StartLoads, LoadKind;
    OnlyLoadStarts(|s.triplets|, at, side, ty);
  }

  lemma NoStartAppend(a: seq<Action>, b: seq<Action>, g: Tag)
    requires NoStartOf(a, g) && NoStartOf(b, g)
    ensures NoStartOf(a + b, g)
  {
  }

  lemma NothingStartsStore(t: Tiling, s: Schedule, ty: Types, q: nat)
    requires q < |s.stores|
    ensures NoStartOf(Actions(t, Waits(|s.triplets|, Ping) + [ComputeStmt(Ping)]
            + StoresDma(Stores(s, Ping)[..q], Ping, ty), 0),
                      StoreTag(Ping, q))
  {
    hide StoresDma, Stores;
    OnlyStores(s, q, Ping, ty);
  }

  // The first kernel waits for a transfer that nothing before the wait starts.
  lemma DroppedStart(t: Tiling, s: Schedule, ty: Types) returns (a: seq<Action>, g: Tag, b: seq<Action>)
    requires t.step > 0 && 0 < t.ub && !AllStart(s, ty)
    ensures ProgramTrace(t, DmaProgram(s, ty)) == a + [Wait(g)] + b && NoStartOf(a, g)
  {
    hide ProgramTrace, DmaProgram, StoresDma, Lead, LoadKind, StoreKind;
    if i: nat :| i < |s.triplets| && LoadKind(ty, i).NoStart? {
      g := LoadTag(Ping, i);
      a := BeforeLoadWait(t, s, ty, i);
      b := LoadWait(t, s, ty, i);
      LeadStarts(t, s, ty, g);
    } else {
      var q: nat :| q < |s.stores| && StoreKind(s, ty, q).NoStart?;
      g := StoreTag(Ping, q);
      a := BeforeStoreWait(t, s, ty, q);
      b := StoreWait(t, s, ty, q);
      LeadStarts(t, s, ty, g);
      NothingStartsStore(t, s, ty, q);
      hide NoStartOf;
      NoStartAppend(Lead(t, s, ty),
        Actions(t, Waits(|s.triplets|, Ping) + [ComputeStmt(Ping)] + StoresDma(Stores(s, Ping)[..q], Ping, ty), 0), g);
    }
  }

  // ----- a transfer of other places -----

  lemma {:induction false} UnfitNotClean(k: Kernel, out: map<Tag, Transfer>, trace: seq<Action>, p: nat,
                                         out': map<Tag, Transfer>)
    requires p < |trace| && trace[p].Start? && !SelfContained(Transfer(trace[p].src, trace[p].dst))
    ensures !Clean(k, out, trace, out')
    decreases trace
  {
    hide SelfContained;
    if p > 0 {
      assert trace[1..][p - 1] == trace[p];
      UnfitNotClean(k, OutAfter(out, trace[0]), trace[1..], p - 1, out');
    }
  }

  lemma {:induction false} StrayLoadIn(n: nat, at: When, side: Side, ty: Types, i: nat) returns (p: nat)
    requires i < n && LoadKind(ty, i).StrayOne?
    ensures var cs := StartLoads(Loads(n, at, side), side, ty); p < |cs| && cs[p] == StrayStart(LoadTag(side, i))
  {
    assert Loads(n, at, side)[..n - 1] == Loads(n - 1, at, side);
    if i == n - 1 {
      p := |StartLoads(Loads(n - 1, at, side), side, ty)|;
    } else {
      p := StrayLoadIn(n - 1, at, side, ty, i);
    }
  }

  lemma StrayStoreIn(s: Schedule, ty: Types, q: nat) returns (p: nat)
    requires q < |s.stores| && StoreKind(s, ty, q).StrayOne?
    ensures var cs := StoresDma(Stores(s, Ping), Ping, ty); p < |cs| && cs[p] == StrayStart(StoreTag(Ping, q))
  {
    hide StoresDma;
    var stores := Stores(s, Ping);
    var post := StoresDmaSplit(stores, Ping, q, ty);
    p := |StoresDma(stores[..q], Ping, ty)|;
  }

  // Both kinds of stray start are among the program's actions.
  lemma StrayStartIn(t: Tiling, s: Schedule, ty: Types) returns (p: nat, g: Tag)
    requires t.step > 0 && 0 < t.ub && AllStart(s, ty) && !AllMove(s, ty)
    ensures var trace := ProgramTrace(t, DmaProgram(s, ty));
      p < |trace| && trace[p] == Start(g, t.stray(g, 0).src, t.stray(g, 0).dst)
  {
    hide Actions, StoresDma, StartLoads, LoopTrace, LoadKind, StoreKind;
    var prog := DmaProgram(s, ty);
    FirstIteration(t, prog);
    if i: nat :| i < |s.triplets| && LoadKind(ty, i).StrayOne? {
      g := LoadTag(Ping, i);
      p := StrayLoadIn(|s.triplets|, First, Ping, ty, i);
      ActionAt(t, prog.prologue, 0, p);
    } else {
      var q: nat :| q < |s.stores| && StoreKind(s, ty, q).StrayOne?;
      g := StoreTag(Ping, q);
      p := StrayStoreIn(s, ty, q);
      BodyOfPing(s, ty);
      p := |s.triplets| + 1 + p;
      ActionAt(t, prog.ping.body, 0, p);
      p := |prog.prologue| + (if NextExists(t, 0) then |prog.ping.prefetch| else 0) + p;
    }
  }

  lemma ActionAt(t: Tiling, cs: seq<Stmt>, iv: int, p: nat)
    requires p < |cs|
    ensures |Actions(t, cs, iv)| == |cs| && Actions(t, cs, iv)[p] == StmtAction(t, cs[p], iv)
  {
  }

  // ----- a store racing the prefetch -----

  ghost predicate NoWaitOf(acts: seq<Action>, g: Tag) {
    forall i :: 0 <= i < |acts| ==> acts[i] != Wait(g)
  }

  lemma {:induction false} RacingStarts(k: Kernel, out: map<Tag, Transfer>, a: seq<Action>, g: Tag, x: Transfer,
                                        b: seq<Action>,
                                        h: Tag, y: Transfer, c: seq<Action>, out': map<Tag, Transfer>)
    requires NoWaitOf(b, g) && !Independent(y, x)
    ensures !Clean(k, out, a + [Start(g, x.src, x.dst)] + b + [Start(h, y.src, y.dst)] + c, out')
    decreases a
  {
    var trace := a + [Start(g, x.src, x.dst)] + b + [Start(h, y.src, y.dst)] + c;
    if a == [] {
      assert trace[1..] == b + [Start(h, y.src, y.dst)] + c;
      RacingStart(k, OutAfter(out, trace[0]), g, x, b, h, y, c, out');
    } else {
      assert trace[1..] == a[1..] + [Start(g, x.src, x.dst)] + b + [Start(h, y.src, y.dst)] + c;
      RacingStarts(k, OutAfter(out, a[0]), a[1..], g, x, b, h, y, c, out');
    }
  }

  lemma {:induction false} RacingStart(k: Kernel, out: map<Tag, Transfer>, g: Tag, x: Transfer, b: seq<Action>,
                                       h: Tag, y: Transfer, c: seq<Action>, out': map<Tag, Transfer>)
    requires NoWaitOf(b, g) && !Independent(y, x) && g in out && out[g] == x
    ensures !Clean(k, out, b + [Start(h, y.src, y.dst)] + c, out')
    decreases b
  {
    var trace := b + [Start(h, y.src, y.dst)] + c;
    if b != [] {
      assert b[0] != Wait(g);
      assert trace[1..] == b[1..] + [Start(h, y.src, y.dst)] + c;
      if Safe(k, out, b[0]) { RacingStart(k, OutAfter(out, b[0]), g, x, b[1..], h, y, c, out'); }
    }
  }

  lemma {:induction false} StoreActsSplit(t: Tiling, s: Schedule, side: Side, iv: int, q: nat, n: nat)
    returns (rest: seq<Action>)
    requires q < n <= |s.stores|
    ensures StoreActs(t, s, side, iv, n) == StoreActs(t, s, side, iv, q) + StorePair(t, s, side, iv, q) + rest
  {
    hide StorePair;
    if n == q + 1 {
      rest := [];
    } else {
      rest := StoreActsSplit(t, s, side, iv, q, n - 1);
      rest := rest + StorePair(t, s, side, iv, n - 1);
    }
  }

  lemma {:induction false} StoreActsNoLoadWait(t: Tiling, s: Schedule, side: Side, iv: int, n: nat, g: Tag)
    requires n <= |s.stores| && g.LoadTag?
    ensures NoWaitOf(StoreActs(t, s, side, iv, n), g)
  {
    hide StoredFrom, StoredTo;
    if n > 0 { StoreActsNoLoadWait(t, s, side, iv, n - 1, g); }
  }

  lemma StoreHitsLoad(t: Tiling, s: Schedule, side: Side, next: Side, iv: int, q: nat, v: nat)
    requires Wired(s, t.kernel.sizes) && q < |s.stores| && !NoHazardPair(t, s, iv, q, v)
    ensures !Independent(StoreXfer(t, s, side, iv, q), LoadXfer(t, next, iv + t.step, v))
  {
    hide Wired, StoredTo, StoredFrom;
    var to, view := StoredTo(t, s, Single, iv, q), t.ViewLocs(v, iv + t.step);
    var i, j :| 0 <= i < |to| && 0 <= j < |view| && to[i] == view[j];
    ViewLocsAre(t, v, iv + t.step);
    StoreTargets(t, s, side, iv, q, to[i]);
    var to' := StoredTo(t, s, side, iv, q);
    var i' :| 0 <= i' < |to'| && to'[i'] == to[i];
  }

  // Load v of the next tile and store q of this one, in the order an iteration starts them.
  lemma LoadThenStore(t: Tiling, s: Schedule, iv: int, toggle: bool, q: nat, v: nat, later: seq<Action>)
    returns (a: seq<Action>, b: seq<Action>, c: seq<Action>)
    requires NextExists(t, iv) && q < |s.stores| && v < |s.triplets|
    ensures var x, y := LoadXfer(t, This(!toggle), iv + t.step, v), StoreXfer(t, s, This(toggle), iv, q);
      DmaIteration(t, s, iv, toggle) + later ==
      a + [Start(LoadTag(This(!toggle), v), x.src, x.dst)] + b + [Start(StoreTag(This(toggle), q), y.src, y.dst)] + c
    ensures NoWaitOf(b, LoadTag(This(!toggle), v))
  {
    hide StoreActs, StartActs, Actions, NoWaitOf, StoredFrom, StoredTo, Waits, StorePair, StoreXfer, LoadXfer,
      StartsFrom;
    var side, next, n := This(toggle), This(!toggle), |s.triplets|;
    var g, h := LoadTag(next, v), StoreTag(side, q);
    var x, y := LoadXfer(t, next, iv + t.step, v), StoreXfer(t, s, side, iv, q);
    var starts, waits, stores := StartActs(t, s, iv, toggle), Actions(t, Waits(n, side), iv),
        StoreActs(t, s, side, iv, q);
    StartActsAre(t, s, iv, toggle);
    StartAt(t, starts, next, iv + t.step, v);
    PairIs(t, s, side, iv, q);
    var rest := StoreActsSplit(t, s, side, iv, q, |s.stores|);
    StoreActsNoLoadWait(t, s, side, iv, q, g);
    StartsAreNoWaits(t, starts, next, iv + t.step, v, g);
    a, b, c := starts[..v], starts[v + 1..] + (waits + [Compute(side, iv)]) + stores, [Wait(h)] + rest + later;
    NoWaitsBetween(starts[v + 1..], n, t, side, iv, stores, g);
    Regroup(starts, v, waits, Compute(side, iv), stores, Start(h, y.src, y.dst), Wait(h), rest, later);
  }

  lemma StartAt(t: Tiling, acts: seq<Action>, side: Side, iv: int, v: nat)
    requires StartsFrom(t, acts, side, iv, 0) && v < |acts|
    ensures acts[v] == Start(LoadTag(side, v), LoadXfer(t, side, iv, v).src, LoadXfer(t, side, iv, v).dst)
  {
    assert acts[v] == Start(LoadTag(side, 0 + v), t.ViewLocs(0 + v, iv), t.BufLocs(side, 0 + v));
  }

  lemma PairIs(t: Tiling, s: Schedule, side: Side, iv: int, q: nat)
    requires q < |s.stores|
    ensures StorePair(t, s, side, iv, q) ==
      [Start(StoreTag(side, q), StoreXfer(t, s, side, iv, q).src, StoreXfer(t, s, side, iv, q).dst),
        Wait(StoreTag(side, q))]
  {
  }

  // Where a store hits what the next tile loads, the two transfers race.
  lemma HazardRaces(t: Tiling, s: Schedule, iv: int, toggle: bool, out: map<Tag, Transfer>, later: seq<Action>,
                    out': map<Tag, Transfer>)
    requires Wired(s, t.kernel.sizes) && t.step > 0 && NextExists(t, iv) && !NoHazardAt(t, s, iv)
    ensures !Clean(t.kernel, out, DmaIteration(t, s, iv, toggle) + later, out')
  {
    var q: nat, v: nat :| q < |s.stores| && v < |t.kernel.sizes| && !NoHazardPair(t, s, iv, q, v);
    hide Wired, NoHazardPair, NoHazardAt, Clean, Independent, DmaIteration, NoWaitOf, StoreXfer, LoadXfer;
    var side, next := This(toggle), This(!toggle);
    StoreHitsLoad(t, s, side, next, iv, q, v);
    TripletCount(s, t.kernel.sizes);
    var a, b, c := LoadThenStore(t, s, iv, toggle, q, v, later);
    RacingStarts(t.kernel, out, a, LoadTag(next, v), LoadXfer(t, next, iv + t.step, v), b,
                 StoreTag(side, q), StoreXfer(t, s, side, iv, q), c, out');
  }

  lemma NoWaitsBetween(starts: seq<Action>, n: nat, t: Tiling, side: Side, iv: int, stores: seq<Action>, g: Tag)
    requires NoWaitOf(starts, g) && NoWaitOf(stores, g) && g.LoadTag? && g.side != side
    ensures NoWaitOf(starts + (Actions(t, Waits(n, side), iv) + [Compute(side, iv)]) + stores, g)
  {
  }

  lemma Regroup<T>(a: seq<T>, v: nat, b: seq<T>, x: T, c: seq<T>, y: T, z: T, d: seq<T>, e: seq<T>)
    requires v < |a|
    ensures a + b + [x] + (c + [y, z] + d) + e == a[..v] + [a[v]] + (a[v + 1..] + (b + [x]) + c) + [y] + ([z] + d + e)
  {
    SplitAt(a, v, b + [x] + (c + [y, z] + d) + e);
    assert a + b + [x] + (c + [y, z] + d) + e == a + (b + [x] + (c + [y, z] + d) + e);
    assert a[v + 1..] + (b + [x] + (c + [y, z] + d) + e) == (a[v + 1..] + (b + [x]) + c) + [y] + ([z] + d + e);
  }

  lemma TripletCount(s: Schedule, sizes: seq<nat>)
    requires Wired(s, sizes)
    ensures |s.triplets| == |sizes|
  {
  }

  lemma StartsAreNoWaits(t: Tiling, acts: seq<Action>, side: Side, iv: int, v: nat, g: Tag)
    requires StartsFrom(t, acts, side, iv, 0) && v < |acts|
    ensures NoWaitOf(acts[v + 1..], g)
  {
  }

  lemma {:induction false} CleanSplit(k: Kernel, out: map<Tag, Transfer>, a: seq<Action>, b: seq<Action>,
                                      out': map<Tag, Transfer>)
    returns (mid: map<Tag, Transfer>)
    requires Clean(k, out, a + b, out')
    ensures Clean(k, mid, b, out')
    decreases a
  {
    if a == [] {
      assert a + b == b;
      mid := out;
    } else {
      assert (a + b)[1..] == a[1..] + b;
      mid := CleanSplit(k, OutAfter(out, a[0]), a[1..], b, out');
    }
  }

  lemma {:induction false} LoopRaces(t: Tiling, s: Schedule, from: int, toggle: bool, iv: int, ty: Types,
                                     out: map<Tag, Transfer>, out': map<Tag, Transfer>)
    requires Wired(s, t.kernel.sizes) && WholeTiles(t) && AllMove(s, ty) && IsTile(t, iv) && IsTile(t, iv + t.step)
    requires !NoHazardAt(t, s, iv) && 0 <= from <= iv && Multiple(from, t.step)
    ensures !Clean(t.kernel, out, LoopTrace(t, DmaProgram(s, ty), from, toggle), out')
    decreases iv - from
  {
    hide Wired, AllMove, NoHazardAt, Clean, DmaIteration, DmaProgram, LoopTrace;
    DmaLoopUnfolds(t, s, from, toggle, ty);
    var rest := LoopTrace(t, DmaProgram(s, ty), from + t.step, !toggle);
    if from == iv {
      RacesHere(t, s, iv, toggle, out, rest, out');
    } else if Clean(t.kernel, out, LoopTrace(t, DmaProgram(s, ty), from, toggle), out') {
      MultipleGap(from, iv, t.step);
      NextExistsIff(t, from);
      var mid := CleanSplit(t.kernel, out, DmaIteration(t, s, from, toggle), rest, out');
      LoopRaces(t, s, from + t.step, !toggle, iv, ty, mid, out');
    }
  }

  lemma RacesHere(t: Tiling, s: Schedule, iv: int, toggle: bool, out: map<Tag, Transfer>, later: seq<Action>,
                  out': map<Tag, Transfer>)
    requires Wired(s, t.kernel.sizes) && WholeTiles(t) && IsTile(t, iv) && IsTile(t, iv + t.step)
             && !NoHazardAt(t, s, iv)
    ensures !Clean(t.kernel, out, DmaIteration(t, s, iv, toggle) + later, out')
  {
    hide Wired, NoHazardAt, Clean, DmaIteration;
    NextExistsIff(t, iv);
    HazardRaces(t, s, iv, toggle, out, later, out');
  }

  // The same loop, with stray transfers going elsewhere.
  ghost function Straying(t: Tiling, stray: (Tag, int) -> Transfer): Tiling { t.(stray := stray) }

  ghost predicate AlwaysRaceFree(t: Tiling, s: Schedule, ty: Types)
    requires t.step > 0
  {
    forall stray: (Tag, int) -> Transfer :: RaceFree(t.kernel, ProgramTrace(Straying(t, stray), DmaProgram(s, ty)))
  }

  lemma StrayingIsEligible(t: Tiling, s: Schedule, stray: (Tag, int) -> Transfer)
    requires WholeTiles(t) && Wired(s, t.kernel.sizes) && StoresAllowed(t, s)
    ensures var t' := Straying(t, stray);
      WholeTiles(t') && Wired(s, t'.kernel.sizes) && StoresAllowed(t', s) && (NoHazard(t, s) <==> NoHazard(t', s))
  {
    SameAllowed(t, Straying(t, stray), s);
    SameHazards(t, Straying(t, stray), s);
  }

  // The DMA program keeps the protocol, wherever stray transfers go, exactly when the loop
  // runs no iteration, or every load and store becomes a transfer that moves what the copy
  // moved and no store hits what the next tile loads: the pass erases each copy and keeps
  // each wait whether or not a start was created.
  lemma RaceFreeIff(t: Tiling, s: Schedule, ty: Types)
    requires WholeTiles(t) && Wired(s, t.kernel.sizes) && StoresAllowed(t, s)
    ensures AlwaysRaceFree(t, s, ty) <==> t.ub <= 0 || (AllMove(s, ty) && NoHazard(t, s))
  {
    hide Wired, StoresAllowed, AllStart, AllMove, NoHazard, ProgramTrace, RaceFree;
    if t.ub <= 0 || (AllMove(s, ty) && NoHazard(t, s)) {
      forall stray: (Tag, int) -> Transfer
        ensures RaceFree(t.kernel, ProgramTrace(Straying(t, stray), DmaProgram(s, ty)))
      {
        StrayingIsEligible(t, s, stray);
        if t.ub <= 0 { NoTrace(Straying(t, stray), s, ty); } else { DmaProgramIsRaceFree(Straying(t, stray), s, ty); }
      }
    } else {
      var stray := (g: Tag, iv: int) => Transfer([Ddr(0)], [Ddr(0)]);
      StrayingIsEligible(t, s, stray);
      NotRaceFree(Straying(t, stray), s, ty);
    }
  }

  lemma NotRaceFree(t: Tiling, s: Schedule, ty: Types)
    requires WholeTiles(t) && Wired(s, t.kernel.sizes) && 0 < t.ub && !(AllMove(s, ty) && NoHazard(t, s))
    requires forall g, iv :: t.stray(g, iv) == Transfer([Ddr(0)], [Ddr(0)])
    ensures !RaceFree(t.kernel, ProgramTrace(t, DmaProgram(s, ty)))
  {
    hide Wired, AllStart, AllMove, DmaProgram, Clean, LoopTrace, Disjoint;
    if !AllStart(s, ty) {
      var a, g, b := DroppedStart(t, s, ty);
      MissingStartNotClean(t.kernel, map[], a, g, b, map[]);
    } else if !AllMove(s, ty) {
      var p, g := StrayStartIn(t, s, ty);
      assert !SelfContained(Transfer([Ddr(0)], [Ddr(0)])) by { Overlapping(); }
      UnfitNotClean(t.kernel, map[], ProgramTrace(t, DmaProgram(s, ty)), p, map[]);
    } else {
      var iv :| IsTile(t, iv) && IsTile(t, iv + t.step) && !NoHazardAt(t, s, iv);
      var loop := LoopTrace(t, DmaProgram(s, ty), 0, true);
      if Clean(t.kernel, map[], ProgramTrace(t, DmaProgram(s, ty)), map[]) {
        var mid := CleanSplit(t.kernel, map[], Actions(t, DmaProgram(s, ty).prologue, 0), loop, map[]);
        LoopRaces(t, s, 0, true, iv, ty, mid, map[]);
      }
    }
  }

  lemma Overlapping()
    ensures !Disjoint([Ddr(0)], [Ddr(0)])
  {
    assert [Ddr(0)][0] == [Ddr(0)][0];
  }

  lemma NoTrace(t: Tiling, s: Schedule, ty: Types)
    requires t.step > 0 && t.ub <= 0
    ensures ProgramTrace(t, DmaProgram(s, ty)) == [] && RaceFree(t.kernel, ProgramTrace(t, DmaProgram(s, ty)))
  {
    EmptyClean(t.kernel, map[]);
  }

  // ----- builds with assertions, and builds without -----

  // The compiler with assertions gets through: every load's start is created, every store's
  // source has a static shape of rank 2 at most, and the assertions on the way to each start hold.
  ghost predicate AssertionsHold(s: Schedule, ty: Types) {
    && (forall i: nat :: i < |s.triplets| ==> LoadAsserted(ty, i))
    && forall q: nat :: q < |s.stores| ==> StoreAsserted(s, ty, q)
  }

  ghost predicate LoadAsserted(ty: Types, i: nat) {
    && WellFormed(ty.view(i)) && WellFormed(ty.alloc(i))
    && CreatesDmaStart(ty.view(i), ty.alloc(i)) && StartAsserted(ty.view(i), ty.alloc(i))
  }

  ghost predicate StoreAsserted(s: Schedule, ty: Types, q: nat)
    requires q < |s.stores|
  {
    var src, dst := ty.Of(MapValue(s, s.stores[q].src, Ping)), ty.Of(MapValue(s, s.stores[q].dst, Ping));
    WellFormed(src) && WellFormed(dst) && IsSafe(src) && StartAsserted(src, dst)
  }

  // A store writes an alloc to a view of another memory space; the two may be of different triplets.
  ghost predicate SpacesDiffer(s: Schedule, ty: Types, st: Store) {
    var a, v := AllocIndex(s.triplets, st.src), ViewIndex(s.triplets, st.dst);
    && a < |s.triplets| && v < |s.triplets| && ty.alloc(a).Ranked? && ty.view(v).Ranked?
    && SpaceNumber(ty.alloc(a).space) != SpaceNumber(ty.view(v).space)
  }

  ghost predicate StoresToViews(s: Schedule) {
    forall q: nat :: q < |s.stores| ==> StoresToView(s, s.stores[q])
  }

  ghost predicate StoresToView(s: Schedule, st: Store) {
    && AllocIndex(s.triplets, st.src) < |s.triplets| && AllocIndex(s.triplets, st.dst) == |s.triplets|
    && ViewIndex(s.triplets, st.dst) < |s.triplets|
  }

  // What the assertions leave to chance, for stores from allocs to views: their memory spaces.
  lemma AssertedStoreStartsIff(s: Schedule, ty: Types, q: nat)
    requires AssertionsHold(s, ty) && q < |s.stores| && StoresToView(s, s.stores[q])
    ensures !StoreKind(s, ty, q).NoStart? <==> SpacesDiffer(s, ty, s.stores[q])
  {
    assert LoadAsserted(ty, AllocIndex(s.triplets, s.stores[q].src))
           && LoadAsserted(ty, ViewIndex(s.triplets, s.stores[q].dst));
  }

  // No start that is created describes other places than its operands.
  ghost predicate NoneStray(s: Schedule, ty: Types) {
    && (forall i: nat :: i < |s.triplets| ==> !LoadKind(ty, i).StrayOne?)
    && forall q: nat :: q < |s.stores| ==> !StoreKind(s, ty, q).StrayOne?
  }

  // For a program the compiler with assertions lets through.
  lemma AssertedRaceFreeIff(t: Tiling, s: Schedule, ty: Types)
    requires WholeTiles(t) && Wired(s, t.kernel.sizes) && StoresAllowed(t, s) && StoresToViews(s)
    requires ty.asserts && AssertionsHold(s, ty)
    ensures AlwaysRaceFree(t, s, ty) <==>
      t.ub <= 0 || ((forall q: nat :: q < |s.stores| ==> SpacesDiffer(s, ty, s.stores[q])) && NoneStray(s, ty)
        && NoHazard(t, s))
  {
    hide AlwaysRaceFree, NoHazard, Wired, StoresAllowed, SpacesDiffer, LoadKind, StoreKind;
    RaceFreeIff(t, s, ty);
    forall i: nat | i < |s.triplets| ensures !LoadKind(ty, i).NoStart? { AssertedLoadStarts(s, ty, i); }
    forall q: nat | q < |s.stores| ensures !StoreKind(s, ty, q).NoStart? <==> SpacesDiffer(s, ty, s.stores[q]) {
      AssertedStoreStartsIff(s, ty, q);
    }
  }

  lemma AssertedLoadStarts(s: Schedule, ty: Types, i: nat)
    requires AssertionsHold(s, ty) && i < |s.triplets|
    ensures !LoadKind(ty, i).NoStart?
  {
    assert LoadAsserted(ty, i);
  }

  // A transfer between two contiguous buffers, which fits a descriptor.
  predicate ContiguousMove(src: BufferType, dst: BufferType) {
    && WellFormed(src) && WellFormed(dst) && CreatesDmaStart(src, dst) && IsContiguous(src) && IsContiguous(dst)
    && src.shape == dst.shape && src.bits == dst.bits && src.bits > 0 && src.bits % 8 == 0
    && Elements(src) * (src.bits / 8) <= LENGTH_LIMIT
  }

  ghost predicate AllContiguous(s: Schedule, ty: Types) {
    && (forall i: nat :: i < |s.triplets| ==> ContiguousMove(ty.view(i), ty.alloc(i)))
    && forall q: nat :: q < |s.stores| ==>
         ContiguousMove(ty.Of(MapValue(s, s.stores[q].src, Ping)), ty.Of(MapValue(s, s.stores[q].dst, Ping)))
  }

  // For a program of a compiler without assertions, which never sets a stride.
  lemma PlainRaceFreeIff(t: Tiling, s: Schedule, ty: Types)
    requires WholeTiles(t) && Wired(s, t.kernel.sizes) && StoresAllowed(t, s) && !ty.asserts
    ensures AlwaysRaceFree(t, s, ty) <==> t.ub <= 0 || (AllContiguous(s, ty) && NoHazard(t, s))
  {
    hide AlwaysRaceFree, NoHazard, Wired, StoresAllowed, MapValue, ContiguousMove, StartOf;
    RaceFreeIff(t, s, ty);
    forall i: nat | i < |s.triplets| ensures LoadKind(ty, i).RightOne? <==> ContiguousMove(ty.view(i), ty.alloc(i)) {
      PlainMove(ty.view(i), ty.alloc(i));
    }
    forall q: nat | q < |s.stores|
      ensures StoreKind(s, ty, q).RightOne? <==>
              ContiguousMove(ty.Of(MapValue(s, s.stores[q].src, Ping)), ty.Of(MapValue(s, s.stores[q].dst, Ping)))
    {
      PlainMove(ty.Of(MapValue(s, s.stores[q].src, Ping)), ty.Of(MapValue(s, s.stores[q].dst, Ping)));
    }
    MovesAreContiguous(s, ty);
  }

  lemma MovesAreContiguous(s: Schedule, ty: Types)
    requires forall i: nat :: i < |s.triplets| ==>
             (LoadKind(ty, i).RightOne? <==> ContiguousMove(ty.view(i), ty.alloc(i)))
    requires forall q: nat :: q < |s.stores| ==> (StoreKind(s, ty, q).RightOne? <==>
               ContiguousMove(ty.Of(MapValue(s, s.stores[q].src, Ping)), ty.Of(MapValue(s, s.stores[q].dst, Ping))))
    ensures AllMove(s, ty) <==> AllContiguous(s, ty)
  {
    hide LoadKind, StoreKind, ContiguousMove, MapValue;
  }

  lemma PlainMove(src: BufferType, dst: BufferType)
    ensures StartOf(false, src, dst).RightOne? <==> ContiguousMove(src, dst)
  {
  }

  // ----- the two passes together -----

  // Whatever the trip count and however the engine times its moves, every run
  // of the DMA program stops, and then it has reached the end, with nothing
  // outstanding and the main memory of the single-buffered loop.
  lemma DmaRunsLikeTheLoop(t: Tiling, s: Schedule, ty: Types, m: Mem, cs: seq<Choice>, end: State)
    requires Eligible(t, s) && AllMove(s, ty)
    requires Runs(t.kernel, Initial(ProgramTrace(t, DmaProgram(s, ty)), m), cs, end)
    ensures |cs| <= Work(Initial(ProgramTrace(t, DmaProgram(s, ty)), m))
    ensures (forall c :: !Enabled(end, c)) ==>
            end.todo == [] && end.out == map[] && SameDdr(ExecAll(t.kernel, m, SbTrace(t, s, 0)), end.mem)
  {
    hide Wired, StoresAllowed, NoHazard, AllMove, ProgramTrace, Runs, SbTrace, Erase, ExecAll, Work, Enabled;
    DmaProgramIsRaceFree(t, s, ty);
    EveryRunCompletes(t.kernel, ProgramTrace(t, DmaProgram(s, ty)), m, cs, end);
    EraseExec(t.kernel, m, ProgramTrace(t, DmaProgram(s, ty)));
    EraseProgram(t, s, ty);
    DoubleBufferingPreservesMemory(t, s, m);
  }
}
