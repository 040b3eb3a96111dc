// Stage 1 leaves the memory that the single-buffered loop leaves.
module DoubleBufferStage1 {
  import opened Arith
  import opened DmaMachine
  import opened DoubleBuffer
  import opened Basics

  // What a store copies, when the buffers of a side stand for the allocs.
  ghost function StoredFrom(t: Tiling, s: Schedule, side: Side, iv: int, q: nat): seq<Loc>
    requires q < |s.stores|
  {
    RefLocs(t, MapValue(s, s.stores[q].src, side), iv)
  }

  ghost function StoredTo(t: Tiling, s: Schedule, side: Side, iv: int, q: nat): seq<Loc>
    requires q < |s.stores|
  {
    RefLocs(t, MapValue(s, s.stores[q].dst, side), iv)
  }

  ghost function StoreXfer(t: Tiling, s: Schedule, side: Side, iv: int, q: nat): Transfer
    requires q < |s.stores|
  {
    Transfer(StoredFrom(t, s, side, iv, q), StoredTo(t, s, side, iv, q))
  }

  // A copy needs as many elements on either side, no target twice, and no overlap.
  ghost predicate StoresAllowedAt(t: Tiling, s: Schedule, iv: int) {
    forall q :: 0 <= q < |s.stores| ==> SelfContained(StoreXfer(t, s, Single, iv, q))
  }

  // Prefetching tile iv + step runs ahead of the stores of tile iv, so no
  // store of a tile may hit what the next tile loads.
  ghost predicate NoHazardAt(t: Tiling, s: Schedule, iv: int) {
    forall q, v :: 0 <= q < |s.stores| && 0 <= v < |t.kernel.sizes| ==> NoHazardPair(t, s, iv, q, v)
  }

  ghost predicate NoHazardPair(t: Tiling, s: Schedule, iv: int, q: nat, v: nat)
    requires q < |s.stores|
  {
    Disjoint(StoredTo(t, s, Single, iv, q), t.ViewLocs(v, iv + t.step))
  }

  lemma ApartFrom(a: seq<Loc>, b: seq<Loc>, j: nat)
    requires Disjoint(a, b) && j < |b|
    ensures b[j] !in a
  {
  }

  // iv is an induction variable value of the loop.
  ghost predicate IsTile(t: Tiling, iv: int)
    requires t.step > 0
  {
    0 <= iv < t.ub && Multiple(iv, t.step)
  }

  ghost predicate NoHazard(t: Tiling, s: Schedule)
    requires t.step > 0
  {
    forall iv {:trigger NoHazardAt(t, s, iv)} ::
      IsTile(t, iv) && IsTile(t, iv + t.step) ==> NoHazardAt(t, s, iv)
  }

  ghost predicate StoresAllowed(t: Tiling, s: Schedule)
    requires t.step > 0
  {
    forall iv {:trigger StoresAllowedAt(t, s, iv)} :: IsTile(t, iv) ==> StoresAllowedAt(t, s, iv)
  }

  // The step divides the bound, so that tiles are complete.
  ghost predicate WholeTiles(t: Tiling) {
    t.step > 0 && (t.ub > 0 ==> Multiple(t.ub, t.step))
  }

  // What the pass requires of a loop it accepts, beyond its shape.
  ghost predicate Eligible(t: Tiling, s: Schedule) {
    WholeTiles(t) && Wired(s, t.kernel.sizes) && StoresAllowed(t, s) && NoHazard(t, s)
  }

  // A loop GenerateSchedule accepts, counting upwards, has whole tiles.
  lemma AcceptedHasWholeTiles(head: LoopHead, t: Tiling)
    requires IsZeroBasedEvenlyDivisible(head) && head.ub.value == t.ub && head.step.value == t.step > 0
    ensures WholeTiles(t)
  {
    if t.ub > 0 { MultipleIsMod(t.ub, t.step); }
  }

  // The buffers of a side hold tile iv of the current main memory.
  ghost predicate Loaded(t: Tiling, m: Mem, side: Side, iv: int) {
    forall b: nat, j: nat :: b < |t.kernel.sizes| && j < t.kernel.sizes[b] ==>
      m[Cell(side, b, j)] == m[Ddr(t.addr(b, iv, j))]
  }

  // The buffers of a side hold tile iv of an earlier memory m.
  ghost predicate Captured(t: Tiling, m: Mem, m': Mem, side: Side, iv: int) {
    forall b: nat, j: nat :: b < |t.kernel.sizes| && j < t.kernel.sizes[b] ==>
      m'[Cell(side, b, j)] == m[Ddr(t.addr(b, iv, j))]
  }

  ghost predicate OnlyOwned(k: Kernel, side: Side, m: Mem, m': Mem) {
    forall l: Loc :: !k.Owns(side, l) ==> m'[l] == m[l]
  }

  ghost function LoadAction(t: Tiling, side: Side, iv: int, i: nat): Action {
    Copy(t.ViewLocs(i, iv), t.BufLocs(side, i))
  }

  ghost predicate LoadsTile(t: Tiling, acts: seq<Action>, side: Side, iv: int) {
    |acts| == |t.kernel.sizes| && forall i :: 0 <= i < |acts| ==> acts[i] == LoadAction(t, side, iv, i)
  }

  ghost function StoreAction(t: Tiling, s: Schedule, side: Side, iv: int, q: nat): Action
    requires q < |s.stores|
  {
    Copy(StoredFrom(t, s, side, iv, q), StoredTo(t, s, side, iv, q))
  }

  ghost predicate StoresTile(t: Tiling, s: Schedule, acts: seq<Action>, side: Side, iv: int) {
    |acts| == |s.stores| && forall q :: 0 <= q < |acts| ==> acts[q] == StoreAction(t, s, side, iv, q)
  }

  // ----- loading -----

  lemma LoadsAreParallel(t: Tiling, acts: seq<Action>, side: Side, iv: int)
    requires LoadsTile(t, acts, side, iv)
    ensures Batch(acts) && Parallel(acts)
  {
    forall i | 0 <= i < |acts| ensures IsCopy(acts[i]) {
      assert acts[i] == LoadAction(t, side, iv, i);
    }
    forall p, q | 0 <= p < |acts| && 0 <= q < |acts| && p != q
      ensures Disjoint(acts[p].dst, acts[q].dst) && Disjoint(acts[p].dst, acts[q].src)
    {
      assert acts[p] == LoadAction(t, side, iv, p) && acts[q] == LoadAction(t, side, iv, q);
    }
  }

  lemma LoadEffect(t: Tiling, m: Mem, acts: seq<Action>, side: Side, iv: int)
    requires LoadsTile(t, acts, side, iv)
    ensures OnlyOwned(t.kernel, side, m, ExecAll(t.kernel, m, acts))
    ensures Loaded(t, ExecAll(t.kernel, m, acts), side, iv)
  {
    LoadsAreParallel(t, acts, side, iv);
    var m' := ExecAll(t.kernel, m, acts);
    forall l: Loc | !t.kernel.Owns(side, l) ensures m'[l] == m[l] {
      forall i | 0 <= i < |acts| ensures l !in acts[i].dst {
        assert acts[i] == LoadAction(t, side, iv, i);
      }
      BatchFrame(t.kernel, m, acts, l);
    }
    forall b: nat, j: nat | b < |t.kernel.sizes| && j < t.kernel.sizes[b]
      ensures m'[Cell(side, b, j)] == m'[Ddr(t.addr(b, iv, j))]
    {
      assert acts[b] == LoadAction(t, side, iv, b);
      assert acts[b].dst[j] == Cell(side, b, j) && acts[b].src[j] == Ddr(t.addr(b, iv, j));
      BatchValue(t.kernel, m, acts, b, j);
    }
  }

  // ----- storing -----

  lemma ValueTwins(t: Tiling, s: Schedule, id: nat, side: Side, side': Side, iv: int)
    requires Wired(s, t.kernel.sizes)
    ensures TwinSeqs(t.kernel, RefLocs(t, MapValue(s, id, side), iv), side,
                     RefLocs(t, MapValue(s, id, side'), iv), side')
  {
  }

  lemma TwinSelfContained(k: Kernel, x: Transfer, side: Side, x': Transfer, side': Side)
    requires SelfContained(x) && TwinSeqs(k, x.src, side, x'.src, side') && TwinSeqs(k, x.dst, side, x'.dst, side')
    ensures SelfContained(x')
  {
    forall i, j | 0 <= i < j < |x'.dst| ensures x'.dst[i] != x'.dst[j] {
      assert TwinLocs(k, x.dst[i], side, x'.dst[i], side') && TwinLocs(k, x.dst[j], side, x'.dst[j], side');
    }
    forall i, j | 0 <= i < |x'.src| && 0 <= j < |x'.dst| ensures x'.src[i] != x'.dst[j] {
      assert TwinLocs(k, x.src[i], side, x'.src[i], side') && TwinLocs(k, x.dst[j], side, x'.dst[j], side');
    }
  }

  lemma StoreShape(t: Tiling, s: Schedule, side: Side, iv: int, q: nat)
    requires q < |s.stores| && Wired(s, t.kernel.sizes) && StoresAllowedAt(t, s, iv)
    ensures IsCopy(StoreAction(t, s, side, iv, q)) && SelfContained(StoreXfer(t, s, side, iv, q))
  {
    hide Wired, SelfContained, TwinSeqs, StoredFrom, StoredTo;
    StoreValueTwins(t, s, Single, side, iv, q);
    TwinSelfContained(t.kernel, StoreXfer(t, s, Single, iv, q), Single, StoreXfer(t, s, side, iv, q), side);
  }

  lemma StoreValueTwins(t: Tiling, s: Schedule, side: Side, side': Side, iv: int, q: nat)
    requires q < |s.stores| && Wired(s, t.kernel.sizes)
    ensures TwinSeqs(t.kernel, StoredFrom(t, s, side, iv, q), side, StoredFrom(t, s, side', iv, q), side')
    ensures TwinSeqs(t.kernel, StoredTo(t, s, side, iv, q), side, StoredTo(t, s, side', iv, q), side')
  {
    hide Wired, TwinSeqs;
    ValueTwins(t, s, s.stores[q].src, side, side', iv);
    ValueTwins(t, s, s.stores[q].dst, side, side', iv);
  }

  lemma StoreTwins(t: Tiling, s: Schedule, side: Side, side': Side, iv: int, q: nat)
    requires q < |s.stores| && Wired(s, t.kernel.sizes) && StoresAllowedAt(t, s, iv)
    ensures Twins(t.kernel, StoreAction(t, s, side, iv, q), side, StoreAction(t, s, side', iv, q), side')
  {
    hide Wired, StoresAllowedAt, TwinSeqs, StoredFrom, StoredTo;
    StoreShape(t, s, side, iv, q);
    StoreShape(t, s, side', iv, q);
    StoreValueTwins(t, s, side, side', iv, q);
  }

  // A store writes main memory, at the same addresses whatever the side, and buffers of its own side.
  lemma StoreTargets(t: Tiling, s: Schedule, side: Side, iv: int, q: nat, l: Loc)
    requires q < |s.stores| && Wired(s, t.kernel.sizes)
    ensures l in StoredTo(t, s, side, iv, q) ==>
            if l.Ddr? then l in StoredTo(t, s, Single, iv, q) else t.kernel.Owns(side, l)
    ensures l.Ddr? && l in StoredTo(t, s, Single, iv, q) ==> l in StoredTo(t, s, side, iv, q)
  {
    hide Wired, StoredTo;
    StoreValueTwins(t, s, Single, side, iv, q);
    StoreValueTwins(t, s, side, side, iv, q);
    var a, b := StoredTo(t, s, Single, iv, q), StoredTo(t, s, side, iv, q);
    if l in b {
      var j :| 0 <= j < |b| && b[j] == l;
      assert TwinLocs(t.kernel, a[j], Single, b[j], side) && TwinLocs(t.kernel, b[j], side, b[j], side);
    } else if l in a {
      var j :| 0 <= j < |a| && a[j] == l;
      assert TwinLocs(t.kernel, a[j], Single, b[j], side);
    }
  }

  // Storing leaves alone what no store targets.
  lemma StoreFrame(t: Tiling, s: Schedule, m: Mem, acts: seq<Action>, side: Side, iv: int, l: Loc)
    requires Wired(s, t.kernel.sizes) && StoresAllowedAt(t, s, iv) && StoresTile(t, s, acts, side, iv)
    requires forall q :: 0 <= q < |s.stores| ==> l !in StoredTo(t, s, side, iv, q)
    ensures ExecAll(t.kernel, m, acts)[l] == m[l]
  {
    hide Wired, StoresAllowedAt, StoredFrom, StoredTo;
    forall q | 0 <= q < |acts| ensures IsCopy(acts[q]) && l !in acts[q].dst {
      StoreShape(t, s, side, iv, q);
    }
    BatchFrame(t.kernel, m, acts, l);
  }

  lemma CellsSurviveStores(t: Tiling, s: Schedule, m: Mem, acts: seq<Action>, side: Side, iv: int, l: Loc)
    requires Wired(s, t.kernel.sizes) && StoresAllowedAt(t, s, iv) && StoresTile(t, s, acts, side, iv)
    requires l.Cell? && l.side != side
    ensures ExecAll(t.kernel, m, acts)[l] == m[l]
  {
    hide Wired, StoresAllowedAt, StoredTo;
    forall q | 0 <= q < |s.stores| ensures l !in StoredTo(t, s, side, iv, q) {
      StoreTargets(t, s, side, iv, q, l);
    }
    StoreFrame(t, s, m, acts, side, iv, l);
  }

  lemma StoresAgree(t: Tiling, s: Schedule, m: Mem, acts: seq<Action>, side: Side, m': Mem, acts': seq<Action>,
                    side': Side, iv: int)
    requires Wired(s, t.kernel.sizes) && StoresAllowedAt(t, s, iv)
    requires StoresTile(t, s, acts, side, iv) && StoresTile(t, s, acts', side', iv)
    requires SameDdr(m, m') && SameTile(t.kernel, m, side, m', side')
    ensures SameDdr(ExecAll(t.kernel, m, acts), ExecAll(t.kernel, m', acts'))
  {
    hide Wired, StoresAllowedAt, SameDdr, SameTile, Twins, StoreAction;
    forall q | 0 <= q < |acts| ensures Twins(t.kernel, acts[q], side, acts'[q], side') {
      StoreTwins(t, s, side, side', iv, q);
    }
    TwinBatches(t.kernel, m, acts, side, m', acts', side');
  }

  // ----- computing -----

  lemma SameRead(k: Kernel, m: Mem, side: Side, m': Mem, side': Side)
    requires SameTile(k, m, side, m', side')
    ensures k.Read(m, side) == k.Read(m', side')
  {
    var r, r' := k.Read(m, side), k.Read(m', side');
    forall b | 0 <= b < |k.sizes| ensures r[b] == r'[b] {
      assert forall j :: 0 <= j < k.sizes[b] ==> m[Cell(side, b, j)] == m'[Cell(side', b, j)];
    }
  }

  lemma ComputeAgrees(k: Kernel, m: Mem, side: Side, m': Mem, side': Side, iv: int)
    requires SameDdr(m, m') && SameTile(k, m, side, m', side')
    ensures SameDdr(k.Run(m, side, iv), k.Run(m', side', iv))
    ensures SameTile(k, k.Run(m, side, iv), side, k.Run(m', side', iv), side')
  {
    hide Kernel.Read, SameTile;
    SameRead(k, m, side, m', side');
    TileAfterRun(k, m, side, m', side', iv);
  }

  lemma TileAfterRun(k: Kernel, m: Mem, side: Side, m': Mem, side': Side, iv: int)
    requires SameTile(k, m, side, m', side') && k.Read(m, side) == k.Read(m', side')
    ensures SameTile(k, k.Run(m, side, iv), side, k.Run(m', side', iv), side')
  {
    hide Kernel.Read;
  }

  // ----- what each statement list does -----

  lemma IndexOfTriplet(s: Schedule, sizes: seq<nat>, i: nat)
    requires Wired(s, sizes) && i < |s.triplets|
    ensures AllocIndex(s.triplets, s.triplets[i].alloc) == i
    ensures ViewIndex(s.triplets, s.triplets[i].view) == i
    ensures AllocIndex(s.triplets, s.triplets[i].view) == |s.triplets|
  {
    IndexFound(s.triplets, i);
  }

  lemma SingleBufferedOps(t: Tiling, s: Schedule, iv: int)
    requires Wired(s, t.kernel.sizes)
    ensures LoadsTile(t, SbLoads(t, s, iv), Single, iv) && StoresTile(t, s, SbStores(t, s, iv), Single, iv)
  {
    SbStoreOps(t, s, iv);
    hide SbStores, StoresTile, LoadAction, BodyLocs, Wired;
    forall i | 0 <= i < |s.triplets| ensures SbLoads(t, s, iv)[i] == LoadAction(t, Single, iv, i) {
      SbLoadOp(t, s, iv, i);
    }
    WiredSizes(s, t.kernel.sizes);
  }

  lemma WiredSizes(s: Schedule, sizes: seq<nat>)
    requires Wired(s, sizes)
    ensures |s.triplets| == |sizes|
  {
  }

  lemma SbLoadOp(t: Tiling, s: Schedule, iv: int, i: nat)
    requires Wired(s, t.kernel.sizes) && i < |s.triplets|
    ensures Copy(BodyLocs(t, s, s.triplets[i].copySrc, iv), BodyLocs(t, s, s.triplets[i].copyDst, iv))
            == LoadAction(t, Single, iv, i)
  {
    IndexOfTriplet(s, t.kernel.sizes, i);
  }

  lemma SbStoreOps(t: Tiling, s: Schedule, iv: int)
    ensures StoresTile(t, s, SbStores(t, s, iv), Single, iv)
  {
    forall id: nat ensures BodyLocs(t, s, id, iv) == RefLocs(t, MapValue(s, id, Single), iv) { }
    hide BodyLocs, MapValue, RefLocs;
  }

  lemma StoreOps(t: Tiling, s: Schedule, side: Side, iv: int)
    ensures StoresTile(t, s, Actions(t, Stores(s, side), iv), side, iv)
  {
  }

  lemma ActionsAppend(t: Tiling, a: seq<Stmt>, b: seq<Stmt>, iv: int)
    ensures Actions(t, a + b, iv) == Actions(t, a, iv) + Actions(t, b, iv)
  {
  }

  // ----- one iteration, and the loop -----

  ghost function SbIteration(t: Tiling, s: Schedule, iv: int): seq<Action> {
    SbLoads(t, s, iv) + [Compute(Single, iv)] + SbStores(t, s, iv)
  }

  ghost function DbBody(t: Tiling, s: Schedule, side: Side, iv: int): seq<Action> {
    [Compute(side, iv)] + Actions(t, Stores(s, side), iv)
  }

  lemma ExecOne(k: Kernel, m: Mem, x: Action)
    ensures ExecAll(k, m, [x]) == Exec(k, m, x)
  {
    assert ExecAll(k, Exec(k, m, x), []) == Exec(k, m, x);
  }

  lemma ExecSbIteration(t: Tiling, s: Schedule, m: Mem, iv: int)
    ensures ExecAll(t.kernel, m, SbIteration(t, s, iv)) ==
      ExecAll(t.kernel, t.kernel.Run(ExecAll(t.kernel, m, SbLoads(t, s, iv)), Single, iv), SbStores(t, s, iv))
  {
    ExecAppend(t.kernel, m, SbLoads(t, s, iv) + [Compute(Single, iv)], SbStores(t, s, iv));
    ExecAppend(t.kernel, m, SbLoads(t, s, iv), [Compute(Single, iv)]);
    ExecOne(t.kernel, ExecAll(t.kernel, m, SbLoads(t, s, iv)), Compute(Single, iv));
  }

  lemma ExecDbBody(t: Tiling, s: Schedule, m: Mem, side: Side, iv: int)
    ensures ExecAll(t.kernel, m, DbBody(t, s, side, iv)) ==
      ExecAll(t.kernel, t.kernel.Run(m, side, iv), Actions(t, Stores(s, side), iv))
  {
    ExecAppend(t.kernel, m, [Compute(side, iv)], Actions(t, Stores(s, side), iv));
    ExecOne(t.kernel, m, Compute(side, iv));
  }

  // Once the buffers of a side hold the tile, its compute and stores have the
  // effect of the whole single-buffered iteration on main memory.
  lemma IterationAgrees(t: Tiling, s: Schedule, m: Mem, m': Mem, side: Side, iv: int)
    requires Wired(s, t.kernel.sizes) && StoresAllowedAt(t, s, iv) && SameDdr(m, m') && Loaded(t, m', side, iv)
    ensures SameDdr(ExecAll(t.kernel, m, SbIteration(t, s, iv)), ExecAll(t.kernel, m', DbBody(t, s, side, iv)))
  {
    hide Wired, StoresAllowedAt, SameDdr, SameTile, Loaded, OnlyOwned, ExecAll, LoadsTile, StoresTile;
    var l := ExecAll(t.kernel, m, SbLoads(t, s, iv));
    SingleBufferedOps(t, s, iv);
    StoreOps(t, s, side, iv);
    LoadEffect(t, m, SbLoads(t, s, iv), Single, iv);
    SameAfterLoad(t, m, l, m', side, iv);
    ComputeAgrees(t.kernel, l, Single, m', side, iv);
    StoresAgree(t, s, t.kernel.Run(l, Single, iv), SbStores(t, s, iv), Single,
                t.kernel.Run(m', side, iv), Actions(t, Stores(s, side), iv), side, iv);
    ExecSbIteration(t, s, m, iv);
    ExecDbBody(t, s, m', side, iv);
  }

  lemma SameAfterLoad(t: Tiling, m: Mem, l: Mem, m': Mem, side: Side, iv: int)
    requires SameDdr(m, m') && OnlyOwned(t.kernel, Single, m, l) && Loaded(t, l, Single, iv) && Loaded(t, m', side, iv)
    ensures SameDdr(l, m') && SameTile(t.kernel, l, Single, m', side)
  {
    forall d: int ensures l[Ddr(d)] == m'[Ddr(d)] {
      assert !t.kernel.Owns(Single, Ddr(d));
    }
  }

  // A tile prefetched before the body of its predecessor is still there, and
  // still current, after it.
  lemma PrefetchSurvives(t: Tiling, s: Schedule, m: Mem, side: Side, next: Side, iv: int)
    requires Wired(s, t.kernel.sizes) && StoresAllowedAt(t, s, iv) && NoHazardAt(t, s, iv)
    requires side != next && Loaded(t, m, next, iv + t.step)
    ensures Loaded(t, ExecAll(t.kernel, m, DbBody(t, s, side, iv)), next, iv + t.step)
  {
    hide Wired, StoresAllowedAt, NoHazardAt, ExecAll, StoresTile;
    StoreOps(t, s, side, iv);
    ExecDbBody(t, s, m, side, iv);
    forall b: nat, j: nat | b < |t.kernel.sizes| && j < t.kernel.sizes[b]
      ensures ExecAll(t.kernel, m, DbBody(t, s, side, iv))[Cell(next, b, j)] ==
              ExecAll(t.kernel, m, DbBody(t, s, side, iv))[Ddr(t.addr(b, iv + t.step, j))]
    {
      ElementSurvives(t, s, t.kernel.Run(m, side, iv), Actions(t, Stores(s, side), iv), side, next, iv, b, j);
    }
  }

  lemma ElementSurvives(t: Tiling, s: Schedule, c: Mem, stores: seq<Action>, side: Side, next: Side, iv: int, b: nat,
                        j: nat)
    requires Wired(s, t.kernel.sizes) && StoresAllowedAt(t, s, iv) && NoHazardAt(t, s, iv)
             && StoresTile(t, s, stores, side, iv)
    requires b < |t.kernel.sizes| && j < t.kernel.sizes[b] && side != next
    ensures ExecAll(t.kernel, c, stores)[Cell(next, b, j)] == c[Cell(next, b, j)]
    ensures ExecAll(t.kernel, c, stores)[Ddr(t.addr(b, iv + t.step, j))] == c[Ddr(t.addr(b, iv + t.step, j))]
  {
    hide Wired, StoresAllowedAt, StoredTo, StoresTile;
    var ddr := Ddr(t.addr(b, iv + t.step, j));
    CellsSurviveStores(t, s, c, stores, side, iv, Cell(next, b, j));
    forall q | 0 <= q < |s.stores| ensures ddr !in StoredTo(t, s, side, iv, q) {
      assert NoHazardPair(t, s, iv, q, b);
      assert t.ViewLocs(b, iv + t.step)[j] == ddr;
      StoreTargets(t, s, side, iv, q, ddr);
    }
    StoreFrame(t, s, c, stores, side, iv, ddr);
  }

  ghost function This(toggle: bool): Side { if toggle then Ping else Pong }

  // The prefetch test of the rewritten loop finds the next tile, exactly.
  lemma NextExistsIff(t: Tiling, iv: int)
    requires WholeTiles(t) && IsTile(t, iv)
    ensures NextExists(t, iv) <==> iv + t.step < t.ub
    ensures NextExists(t, iv) ==> IsTile(t, iv + t.step)
    ensures iv + t.step <= t.ub && Multiple(iv + t.step, t.step)
  {
    MultipleGap(iv, t.ub, t.step);
    if iv + t.step < t.ub { MultipleGap(iv + t.step, t.ub, t.step); }
  }

  ghost function DbIteration(t: Tiling, s: Schedule, iv: int, toggle: bool): seq<Action> {
    (if NextExists(t, iv) then Actions(t, Loads(|s.triplets|, Next, This(!toggle)), iv) else [])
    + DbBody(t, s, This(toggle), iv)
  }

  lemma IterationIs(t: Tiling, s: Schedule, iv: int, toggle: bool)
    ensures IterTrace(t, AsDoubleBuffered(s), iv, toggle) == DbIteration(t, s, iv, toggle)
  {
    ActionsAppend(t, [ComputeStmt(This(toggle))], Stores(s, This(toggle)), iv);
    assert Actions(t, [ComputeStmt(This(toggle))], iv) == [Compute(This(toggle), iv)];
  }

  lemma PrefetchOps(t: Tiling, s: Schedule, at: When, side: Side, iv: int)
    requires Wired(s, t.kernel.sizes)
    ensures LoadsTile(t, Actions(t, Loads(|s.triplets|, at, side), iv), side,
            match at case First => 0 case Now => iv case Next => iv + t.step)
  {
  }

  ghost function PrefetchActions(t: Tiling, s: Schedule, iv: int, toggle: bool): seq<Action> {
    Actions(t, Loads(|s.triplets|, Next, This(!toggle)), iv)
  }

  lemma PrefetchEffect(t: Tiling, s: Schedule, m: Mem, iv: int, toggle: bool)
    requires Wired(s, t.kernel.sizes)
    ensures OnlyOwned(t.kernel, This(!toggle), m, ExecAll(t.kernel, m, PrefetchActions(t, s, iv, toggle)))
    ensures Loaded(t, ExecAll(t.kernel, m, PrefetchActions(t, s, iv, toggle)), This(!toggle), iv + t.step)
  {
    hide Actions, OnlyOwned, Loaded, ExecAll, LoadsTile, Loads;
    PrefetchOps(t, s, Next, This(!toggle), iv);
    LoadEffect(t, m, PrefetchActions(t, s, iv, toggle), This(!toggle), iv + t.step);
  }

  lemma ExecDbIteration(t: Tiling, s: Schedule, m: Mem, iv: int, toggle: bool)
    ensures ExecAll(t.kernel, m, DbIteration(t, s, iv, toggle)) ==
      ExecAll(t.kernel, if NextExists(t, iv) then ExecAll(t.kernel, m, PrefetchActions(t, s, iv, toggle)) else m,
              DbBody(t, s, This(toggle), iv))
  {
    hide ExecAll, Actions, Loads, DbBody;
    if NextExists(t, iv) {
      ExecAppend(t.kernel, m, PrefetchActions(t, s, iv, toggle), DbBody(t, s, This(toggle), iv));
    } else {
      assert DbIteration(t, s, iv, toggle) == DbBody(t, s, This(toggle), iv);
    }
  }

  lemma AllowedHere(t: Tiling, s: Schedule, iv: int)
    requires t.step > 0 && StoresAllowed(t, s) && IsTile(t, iv)
    ensures StoresAllowedAt(t, s, iv)
  {
  }

  lemma NoHazardHere(t: Tiling, s: Schedule, iv: int)
    requires Eligible(t, s) && IsTile(t, iv) && IsTile(t, iv + t.step)
    ensures NoHazardAt(t, s, iv)
  {
  }

  lemma OneIteration(t: Tiling, s: Schedule, m: Mem, m': Mem, iv: int, toggle: bool)
    requires Eligible(t, s) && IsTile(t, iv) && SameDdr(m, m') && Loaded(t, m', This(toggle), iv)
    ensures SameDdr(ExecAll(t.kernel, m, SbIteration(t, s, iv)), ExecAll(t.kernel, m', DbIteration(t, s, iv, toggle)))
    ensures iv + t.step < t.ub ==>
            Loaded(t, ExecAll(t.kernel, m', DbIteration(t, s, iv, toggle)), This(!toggle), iv + t.step)
  {
    hide SameDdr, Loaded, Wired, StoresAllowed, StoresAllowedAt, NoHazard, OnlyOwned, ExecAll, DbBody, SbIteration,
      DbIteration, PrefetchActions;
    NextExistsIff(t, iv);
    AllowedHere(t, s, iv);
    ExecDbIteration(t, s, m', iv, toggle);
    if NextExists(t, iv) {
      var p := ExecAll(t.kernel, m', PrefetchActions(t, s, iv, toggle));
      PrefetchEffect(t, s, m', iv, toggle);
      ThisSurvivesPrefetch(t, m, m', p, toggle, iv);
      IterationAgrees(t, s, m, p, This(toggle), iv);
      NoHazardHere(t, s, iv);
      PrefetchSurvives(t, s, p, This(toggle), This(!toggle), iv);
    } else {
      IterationAgrees(t, s, m, m', This(toggle), iv);
    }
  }

  lemma ThisSurvivesPrefetch(t: Tiling, m: Mem, m': Mem, p: Mem, toggle: bool, iv: int)
    requires SameDdr(m, m') && Loaded(t, m', This(toggle), iv) && OnlyOwned(t.kernel, This(!toggle), m', p)
    ensures Loaded(t, p, This(toggle), iv) && SameDdr(m, p)
  {
    forall d: int ensures m'[Ddr(d)] == p[Ddr(d)] {
      assert !t.kernel.Owns(This(!toggle), Ddr(d));
    }
    forall b: nat, j: nat | b < |t.kernel.sizes| && j < t.kernel.sizes[b]
      ensures p[Cell(This(toggle), b, j)] == p[Ddr(t.addr(b, iv, j))]
    {
      assert !t.kernel.Owns(This(!toggle), Cell(This(toggle), b, j));
    }
  }

  // What one ping or pong kernel does: to main memory, what its body alone would do; to the
  // other buffers, the next tile as it was when the iteration began, if there is a next tile.
  lemma SubKernelEffect(t: Tiling, s: Schedule, m: Mem, iv: int, toggle: bool)
    requires Wired(s, t.kernel.sizes) && StoresAllowedAt(t, s, iv)
    ensures SameDdr(ExecAll(t.kernel, m, IterTrace(t, AsDoubleBuffered(s), iv, toggle)),
                    ExecAll(t.kernel, m, DbBody(t, s, This(toggle), iv)))
    ensures var m' := ExecAll(t.kernel, m, IterTrace(t, AsDoubleBuffered(s), iv, toggle));
      if NextExists(t, iv) then Captured(t, m, m', This(!toggle), iv + t.step)
      else SameTile(t.kernel, m, This(!toggle), m', This(!toggle))
  {
    hide Wired, StoresAllowedAt, SameDdr, SameTile, ExecAll, IterTrace, DbBody, DbIteration, PrefetchActions, OnlyOwned,
      Loaded;
    IterationIs(t, s, iv, toggle);
    ExecDbIteration(t, s, m, iv, toggle);
    var p := if NextExists(t, iv) then ExecAll(t.kernel, m, PrefetchActions(t, s, iv, toggle)) else m;
    if NextExists(t, iv) { PrefetchEffect(t, s, m, iv, toggle); } else { NothingOwned(t.kernel, This(!toggle), m); }
    PrefetchApart(t.kernel, m, p, toggle);
    BodyAgrees(t, s, p, m, This(toggle), iv);
    BodyLeavesNext(t, s, p, This(toggle), This(!toggle), iv);
    if NextExists(t, iv) {
      CapturedAfter(t, m, p, ExecAll(t.kernel, p, DbBody(t, s, This(toggle), iv)), This(!toggle), iv + t.step);
    }
  }

  lemma NothingOwned(k: Kernel, side: Side, m: Mem)
    ensures OnlyOwned(k, side, m, m)
  {
  }

  lemma CapturedAfter(t: Tiling, m: Mem, p: Mem, m': Mem, side: Side, iv: int)
    requires OnlyOwned(t.kernel, side, m, p) && Loaded(t, p, side, iv) && SameTile(t.kernel, p, side, m', side)
    ensures Captured(t, m, m', side, iv)
  {
    assert forall d: int :: !t.kernel.Owns(side, Ddr(d));
  }

  lemma PrefetchApart(k: Kernel, m: Mem, p: Mem, toggle: bool)
    requires OnlyOwned(k, This(!toggle), m, p)
    ensures SameDdr(p, m) && SameTile(k, p, This(toggle), m, This(toggle))
  {
    forall l: Loc | l.Ddr? || l.side == This(toggle) ensures p[l] == m[l] {
      assert !k.Owns(This(!toggle), l);
    }
  }

  // The body of a kernel looks at main memory and at its own buffers only.
  lemma BodyAgrees(t: Tiling, s: Schedule, m: Mem, m': Mem, side: Side, iv: int)
    requires Wired(s, t.kernel.sizes) && StoresAllowedAt(t, s, iv)
    requires SameDdr(m, m') && SameTile(t.kernel, m, side, m', side)
    ensures SameDdr(ExecAll(t.kernel, m, DbBody(t, s, side, iv)), ExecAll(t.kernel, m', DbBody(t, s, side, iv)))
  {
    hide Wired, StoresAllowedAt, SameDdr, SameTile, ExecAll, DbBody, StoresTile;
    StoreOps(t, s, side, iv);
    ExecDbBody(t, s, m, side, iv);
    ExecDbBody(t, s, m', side, iv);
    ComputeAgrees(t.kernel, m, side, m', side, iv);
    StoresAgree(t, s, t.kernel.Run(m, side, iv), Actions(t, Stores(s, side), iv), side,
                t.kernel.Run(m', side, iv), Actions(t, Stores(s, side), iv), side, iv);
  }

  lemma BodyLeavesNext(t: Tiling, s: Schedule, m: Mem, side: Side, next: Side, iv: int)
    requires Wired(s, t.kernel.sizes) && StoresAllowedAt(t, s, iv) && side != next
    ensures SameTile(t.kernel, m, next, ExecAll(t.kernel, m, DbBody(t, s, side, iv)), next)
  {
    hide Wired, StoresAllowedAt, ExecAll, DbBody, StoresTile;
    StoreOps(t, s, side, iv);
    ExecDbBody(t, s, m, side, iv);
    forall b: nat, j: nat | b < |t.kernel.sizes| && j < t.kernel.sizes[b]
      ensures ExecAll(t.kernel, m, DbBody(t, s, side, iv))[Cell(next, b, j)] == m[Cell(next, b, j)]
    {
      CellsSurviveStores(t, s, t.kernel.Run(m, side, iv), Actions(t, Stores(s, side), iv), side, iv, Cell(next, b, j));
    }
  }

  lemma SbTraceStep(t: Tiling, s: Schedule, m: Mem, iv: int)
    requires t.step > 0 && iv < t.ub
    ensures ExecAll(t.kernel, m, SbTrace(t, s, iv)) ==
      ExecAll(t.kernel, ExecAll(t.kernel, m, SbIteration(t, s, iv)), SbTrace(t, s, iv + t.step))
  {
    ExecAppend(t.kernel, m, SbIteration(t, s, iv), SbTrace(t, s, iv + t.step));
  }

  lemma LoopTraceUnfolds(t: Tiling, s: Schedule, iv: int, toggle: bool)
    requires t.step > 0 && iv < t.ub
    ensures LoopTrace(t, AsDoubleBuffered(s), iv, toggle) ==
      DbIteration(t, s, iv, toggle) + LoopTrace(t, AsDoubleBuffered(s), iv + t.step, !toggle)
  {
    hide IterTrace, DbIteration;
    IterationIs(t, s, iv, toggle);
  }

  lemma DbTraceStep(t: Tiling, s: Schedule, m: Mem, iv: int, toggle: bool)
    requires t.step > 0 && iv < t.ub
    ensures ExecAll(t.kernel, m, LoopTrace(t, AsDoubleBuffered(s), iv, toggle)) ==
      ExecAll(t.kernel, ExecAll(t.kernel, m, DbIteration(t, s, iv, toggle)),
              LoopTrace(t, AsDoubleBuffered(s), iv + t.step, !toggle))
  {
    hide ExecAll, LoopTrace, DbIteration, AsDoubleBuffered;
    LoopTraceUnfolds(t, s, iv, toggle);
    ExecAppend(t.kernel, m, DbIteration(t, s, iv, toggle), LoopTrace(t, AsDoubleBuffered(s), iv + t.step, !toggle));
  }

  lemma {:induction false} LoopAgrees(t: Tiling, s: Schedule, m: Mem, m': Mem, iv: int, toggle: bool)
    requires Eligible(t, s) && 0 <= iv && Multiple(iv, t.step) && SameDdr(m, m')
    requires iv < t.ub ==> Loaded(t, m', This(toggle), iv)
    ensures SameDdr(ExecAll(t.kernel, m, SbTrace(t, s, iv)),
                    ExecAll(t.kernel, m', LoopTrace(t, AsDoubleBuffered(s), iv, toggle)))
    decreases t.ub - iv
  {
    hide SameDdr, Loaded, NoHazard, StoresAllowed, Wired, AsDoubleBuffered, SbIteration, DbIteration;
    if iv < t.ub {
      OneIteration(t, s, m, m', iv, toggle);
      NextExistsIff(t, iv);
      LoopAgrees(t, s, ExecAll(t.kernel, m, SbIteration(t, s, iv)),
        ExecAll(t.kernel, m', DbIteration(t, s, iv, toggle)),
                 iv + t.step, !toggle);
      SbTraceStep(t, s, m, iv);
      DbTraceStep(t, s, m', iv, toggle);
    }
  }

  // For every trip count, 0 and 1 included, the double-buffered program
  // leaves the main memory of the loop it replaces.
  lemma DoubleBufferingPreservesMemory(t: Tiling, s: Schedule, m: Mem)
    requires Eligible(t, s)
    ensures SameDdr(ExecAll(t.kernel, m, SbTrace(t, s, 0)), ExecAll(t.kernel, m, ProgramTrace(t, AsDoubleBuffered(s))))
  {
    var p := AsDoubleBuffered(s);
    if 0 < t.ub {
      var loads := Actions(t, p.prologue, 0);
      PrefetchOps(t, s, First, Ping, 0);
      LoadEffect(t, m, loads, Ping, 0);
      ExecAppend(t.kernel, m, loads, LoopTrace(t, p, 0, true));
      forall d: int ensures m[Ddr(d)] == ExecAll(t.kernel, m, loads)[Ddr(d)] {
        assert !t.kernel.Owns(Ping, Ddr(d));
      }
      LoopAgrees(t, s, m, ExecAll(t.kernel, m, loads), 0, true);
    } else {
      assert ProgramTrace(t, p) == [];
    }
  }

  // ----- loops whose copies connect other values -----

  // The loop whose load copies fill their own alloc from their own view.
  ghost function Rewired(s: Schedule): Schedule {
    s.(triplets := seq(|s.triplets|, i requires 0 <= i < |s.triplets| =>
         s.triplets[i].(copySrc := s.triplets[i].view, copyDst := s.triplets[i].alloc)))
  }

  lemma {:induction false} SameIndices(ts: seq<Triplet>, ts': seq<Triplet>, id: nat)
    requires |ts| == |ts'| && forall i :: 0 <= i < |ts| ==> ts'[i].view == ts[i].view && ts'[i].alloc == ts[i].alloc
    ensures AllocIndex(ts', id) == AllocIndex(ts, id) && ViewIndex(ts', id) == ViewIndex(ts, id)
  {
    if ts != [] { SameIndices(ts[1..], ts'[1..], id); }
  }

  lemma SameProgram(s: Schedule)
    ensures AsDoubleBuffered(Rewired(s)) == AsDoubleBuffered(s)
  {
    var s' := Rewired(s);
    forall id: nat, side: Side ensures MapValue(s', id, side) == MapValue(s, id, side) {
      SameIndices(s.triplets, s'.triplets, id);
    }
    forall side: Side ensures Stores(s', side) == Stores(s, side) {
      forall q | 0 <= q < |s.stores| ensures Stores(s', side)[q] == Stores(s, side)[q] { }
    }
  }

  // Whatever the copies connect, the rewritten program does what the rewired loop does; so it
  // does what the loop does exactly when the loop's own copies might as well be rewired.
  lemma RewriteRewires(t: Tiling, s: Schedule, m: Mem)
    requires Eligible(t, Rewired(s))
    ensures var after := ExecAll(t.kernel, m, ProgramTrace(t, AsDoubleBuffered(s)));
      var loop, rewired := ExecAll(t.kernel, m, SbTrace(t, s, 0)), ExecAll(t.kernel, m, SbTrace(t, Rewired(s), 0));
      SameDdr(rewired, after) && (SameDdr(loop, after) <==> SameDdr(loop, rewired))
  {
    hide ExecAll, SbTrace, ProgramTrace, AsDoubleBuffered, Eligible, Rewired;
    SameProgram(s);
    DoubleBufferingPreservesMemory(t, Rewired(s), m);
  }

  // ----- neither the kernel nor stray transfers matter to the addresses -----

  ghost predicate SameTiles(t: Tiling, t': Tiling) {
    t'.addr == t.addr && t'.outer == t.outer && t'.step == t.step && t'.ub == t.ub && t'.kernel.sizes == t.kernel.sizes
  }

  lemma SameLocs(t: Tiling, t': Tiling, r: Ref, iv: int)
    requires SameTiles(t, t')
    ensures RefLocs(t', r, iv) == RefLocs(t, r, iv)
  {
  }

  lemma SameXfer(t: Tiling, t': Tiling, s: Schedule, iv: int, q: nat)
    requires SameTiles(t, t') && q < |s.stores|
    ensures StoreXfer(t', s, Single, iv, q) == StoreXfer(t, s, Single, iv, q)
  {
    hide RefLocs, MapValue;
    SameLocs(t, t', MapValue(s, s.stores[q].src, Single), iv);
    SameLocs(t, t', MapValue(s, s.stores[q].dst, Single), iv);
  }

  lemma SameAllowed(t: Tiling, t': Tiling, s: Schedule)
    requires SameTiles(t, t') && t.step > 0 && StoresAllowed(t, s)
    ensures StoresAllowed(t', s)
  {
    hide StoreXfer, SelfContained;
    forall iv | IsTile(t', iv) ensures StoresAllowedAt(t', s, iv) {
      AllowedHere(t, s, iv);
      forall q: nat | q < |s.stores| ensures SelfContained(StoreXfer(t', s, Single, iv, q)) {
        SameXfer(t, t', s, iv, q);
      }
    }
  }

  lemma SameHazardAt(t: Tiling, t': Tiling, s: Schedule, iv: int)
    requires SameTiles(t, t') && NoHazardAt(t, s, iv)
    ensures NoHazardAt(t', s, iv)
  {
    hide StoredFrom, StoredTo, Disjoint;
    forall q: nat, v: nat | q < |s.stores| && v < |t.kernel.sizes| ensures NoHazardPair(t', s, iv, q, v) {
      assert NoHazardPair(t, s, iv, q, v);
      SameXfer(t, t', s, iv, q);
      assert t'.ViewLocs(v, iv + t.step) == t.ViewLocs(v, iv + t.step);
    }
  }

  lemma SameHazards(t: Tiling, t': Tiling, s: Schedule)
    requires SameTiles(t, t') && t.step > 0
    ensures NoHazard(t, s) <==> NoHazard(t', s)
  {
    hide NoHazardAt;
    forall iv ensures NoHazardAt(t, s, iv) <==> NoHazardAt(t', s, iv) {
      if NoHazardAt(t, s, iv) { SameHazardAt(t, t', s, iv); }
      if NoHazardAt(t', s, iv) { SameHazardAt(t', t, s, iv); }
    }
  }
}
