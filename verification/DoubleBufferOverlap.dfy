// Loops whose tiles overlap: exactly which of them double buffering changes.
module DoubleBufferOverlap {
  import opened Arith
  import opened DmaMachine
  import opened DoubleBuffer
  import opened DoubleBufferStage1
  import opened Basics

  // Every store writes a tile buffer back to memory outside the buffers.
  ghost predicate WritesBack(s: Schedule) {
    forall q :: 0 <= q < |s.stores| ==> WritesBackAt(s, s.stores[q])
  }

  ghost predicate WritesBackAt(s: Schedule, st: Store) {
    AllocIndex(s.triplets, st.src) < |s.triplets| && AllocIndex(s.triplets, st.dst) == |s.triplets|
  }

  ghost predicate LoadedAs(t: Tiling, iv: int, d: int, b: nat, j: nat) {
    b < |t.kernel.sizes| && j < t.kernel.sizes[b] && t.addr(b, iv, j) == d
  }

  ghost predicate Stored(t: Tiling, s: Schedule, iv: int, d: int) {
    exists q :: 0 <= q < |s.stores| && Ddr(d) in StoredTo(t, s, Single, iv, q)
  }

  // The addresses alone decide the following two. A tile is stale when the rewritten loop
  // loads it before an address it reads is stored, or from an address that already differs.
  ghost predicate Stale(t: Tiling, s: Schedule, iv: int)
    requires t.step > 0
    decreases iv, 1
  {
    iv > 0 && exists d: int, b: nat, j: nat :: LoadedAs(t, iv, d, b, j) && StaleAddress(t, s, iv, d)
  }

  ghost predicate StaleAddress(t: Tiling, s: Schedule, iv: int, d: int)
    requires t.step > 0 && iv > 0
    decreases iv, 0
  {
    Stored(t, s, iv - t.step, d) || Differs(t, s, iv - t.step, d)
  }

  // Before tile iv the two loops may hold different values at d: the last tile to store it was stale.
  ghost predicate Differs(t: Tiling, s: Schedule, iv: int, d: int)
    requires t.step > 0
    decreases iv, 0
  {
    iv > 0 && if Stored(t, s, iv - t.step, d) then Stale(t, s, iv - t.step) else Differs(t, s, iv - t.step, d)
  }

  // What both lemmas below assume of a loop; overlap between tiles is allowed.
  ghost predicate Loop(t: Tiling, s: Schedule) {
    WholeTiles(t) && Wired(s, t.kernel.sizes) && StoresAllowed(t, s) && WritesBack(s)
  }

  ghost predicate SameResult(t: Tiling, s: Schedule, m: Mem)
    requires t.step > 0
  {
    SameDdr(ExecAll(t.kernel, m, SbTrace(t, s, 0)), ExecAll(t.kernel, m, ProgramTrace(t, AsDoubleBuffered(s))))
  }

  // ----- stores that write buffers back -----

  ghost predicate FromCells(a: Action) {
    IsCopy(a) && (forall j :: 0 <= j < |a.src| ==> a.src[j].Cell?) && forall j :: 0 <= j < |a.dst| ==> a.dst[j].Ddr?
  }

  ghost predicate SameCells(m: Mem, m': Mem) { forall l: Loc :: l.Cell? ==> m[l] == m'[l] }

  lemma WriteBackShape(t: Tiling, s: Schedule, side: Side, iv: int, q: nat)
    requires q < |s.stores| && Wired(s, t.kernel.sizes) && StoresAllowedAt(t, s, iv) && WritesBack(s)
    ensures FromCells(StoreAction(t, s, side, iv, q))
    ensures forall j :: 0 <= j < |StoredFrom(t, s, side, iv, q)| ==>
            t.kernel.Owns(side, StoredFrom(t, s, side, iv, q)[j])
  {
    StoreShape(t, s, side, iv, q);
    hide StoresAllowedAt, IsCopy;
    assert WritesBackAt(s, s.stores[q]);
  }

  lemma FromCellsStep(k: Kernel, m: Mem, a: Action)
    requires FromCells(a)
    ensures SameCells(m, Exec(k, m, a))
  {
    CopyStep(k, m, a);
  }

  // What such stores leave at an address they write depends on the buffers alone.
  lemma {:induction false} BatchFromCells(k: Kernel, m: Mem, m': Mem, acts: seq<Action>, l: Loc)
    requires (forall p :: 0 <= p < |acts| ==> FromCells(acts[p])) && SameCells(m, m')
    requires m[l] == m'[l] || Writes(acts, l)
    ensures ExecAll(k, m, acts)[l] == ExecAll(k, m', acts)[l]
    decreases acts
  {
    if acts != [] {
      var a := acts[0];
      CopyStep(k, m, a);
      CopyStep(k, m', a);
      FromCellsStep(k, m, a);
      FromCellsStep(k, m', a);
      if l in a.dst {
        var j :| 0 <= j < |a.dst| && a.dst[j] == l;
      } else if m[l] != m'[l] {
        var p :| 0 <= p < |acts| && acts[p].Copy? && l in acts[p].dst;
        assert acts[1..][p - 1] == acts[p];
      }
      BatchFromCells(k, Exec(k, m, a), Exec(k, m', a), acts[1..], l);
    }
  }

  ghost predicate Filled(k: Kernel, m: Mem, side: Side, c: int) { forall l: Loc :: k.Owns(side, l) ==> m[l] == c }

  lemma {:induction false} BatchFills(k: Kernel, m: Mem, acts: seq<Action>, side: Side, c: int, l: Loc)
    requires forall p :: 0 <= p < |acts| ==> FromCells(acts[p]) && forall j :: 0 <= j < |acts[p].src| ==>
             k.Owns(side, acts[p].src[j])
    requires Filled(k, m, side, c) && (m[l] == c || Writes(acts, l))
    ensures ExecAll(k, m, acts)[l] == c
    decreases acts
  {
    if acts != [] {
      var a := acts[0];
      CopyStep(k, m, a);
      FromCellsStep(k, m, a);
      if l in a.dst {
        var j :| 0 <= j < |a.dst| && a.dst[j] == l;
      } else if m[l] != c {
        var p :| 0 <= p < |acts| && acts[p].Copy? && l in acts[p].dst;
        assert acts[1..][p - 1] == acts[p];
      }
      BatchFills(k, Exec(k, m, a), acts[1..], side, c, l);
    }
  }

  lemma NotStored(t: Tiling, s: Schedule, m: Mem, acts: seq<Action>, side: Side, iv: int, d: int)
    requires Wired(s, t.kernel.sizes) && StoresAllowedAt(t, s, iv) && StoresTile(t, s, acts, side, iv)
             && !Stored(t, s, iv, d)
    ensures ExecAll(t.kernel, m, acts)[Ddr(d)] == m[Ddr(d)]
  {
    hide Wired, StoresAllowedAt, StoredTo, StoresTile;
    forall q | 0 <= q < |s.stores| ensures Ddr(d) !in StoredTo(t, s, side, iv, q) {
      StoreTargets(t, s, side, iv, q, Ddr(d));
    }
    StoreFrame(t, s, m, acts, side, iv, Ddr(d));
  }

  lemma StoredByOne(t: Tiling, s: Schedule, acts: seq<Action>, side: Side, iv: int, d: int) returns (p: nat)
    requires Wired(s, t.kernel.sizes) && StoresTile(t, s, acts, side, iv) && Stored(t, s, iv, d)
    ensures p < |acts| && acts[p].Copy? && Ddr(d) in acts[p].dst
  {
    p :| p < |s.stores| && Ddr(d) in StoredTo(t, s, Single, iv, p);
    StoreTargets(t, s, side, iv, p, Ddr(d));
    assert acts[p] == StoreAction(t, s, side, iv, p);
  }

  lemma StoresFromBuffers(t: Tiling, s: Schedule, m: Mem, m': Mem, acts: seq<Action>, side: Side, iv: int, d: int)
    requires Wired(s, t.kernel.sizes) && StoresAllowedAt(t, s, iv) && WritesBack(s) && StoresTile(t, s, acts, side, iv)
    requires SameCells(m, m') && Stored(t, s, iv, d)
    ensures ExecAll(t.kernel, m, acts)[Ddr(d)] == ExecAll(t.kernel, m', acts)[Ddr(d)]
  {
    hide Wired, StoresAllowedAt, WritesBack, FromCells, SameCells, Stored, StoreAction;
    forall q | 0 <= q < |acts| ensures FromCells(acts[q]) { WriteBackShape(t, s, side, iv, q); }
    var p := StoredByOne(t, s, acts, side, iv, d);
    BatchFromCells(t.kernel, m, m', acts, Ddr(d));
  }

  lemma StoresFill(t: Tiling, s: Schedule, m: Mem, acts: seq<Action>, side: Side, iv: int, c: int, d: int)
    requires Wired(s, t.kernel.sizes) && StoresAllowedAt(t, s, iv) && WritesBack(s) && StoresTile(t, s, acts, side, iv)
    requires Filled(t.kernel, m, side, c)
    ensures ExecAll(t.kernel, m, acts)[Ddr(d)] == if Stored(t, s, iv, d) then c else m[Ddr(d)]
  {
    hide Wired, StoresAllowedAt, WritesBack, FromCells, Filled, Stored, Kernel.Owns, StoredFrom, StoredTo;
    if Stored(t, s, iv, d) {
      forall q | 0 <= q < |acts|
        ensures FromCells(acts[q]) && forall j :: 0 <= j < |acts[q].src| ==> t.kernel.Owns(side, acts[q].src[j])
      {
        WriteBackShape(t, s, side, iv, q);
      }
      var p := StoredByOne(t, s, acts, side, iv, d);
      BatchFills(t.kernel, m, acts, side, c, Ddr(d));
    } else {
      NotStored(t, s, m, acts, side, iv, d);
    }
  }

  // ----- tiles that are not stale agree, whatever the kernel -----

  ghost predicate AgreeBut(t: Tiling, s: Schedule, m: Mem, m': Mem, iv: int)
    requires t.step > 0
  {
    forall d :: !Differs(t, s, iv, d) ==> m[Ddr(d)] == m'[Ddr(d)]
  }

  // Before tile iv: m is the original loop's memory, m' the rewritten one's.
  ghost predicate InStep(t: Tiling, s: Schedule, m: Mem, m': Mem, iv: int, side: Side)
    requires t.step > 0
  {
    AgreeBut(t, s, m, m', iv) && (iv < t.ub && !Stale(t, s, iv) ==> Captured(t, m, m', side, iv))
  }

  ghost function Hybrid(m: Mem, m': Mem): Mem { imap l: Loc | true :: if l.Ddr? then m[l] else m'[l] }

  lemma OriginalElsewhere(t: Tiling, s: Schedule, m: Mem, iv: int, d: int)
    requires Wired(s, t.kernel.sizes) && StoresAllowedAt(t, s, iv) && !Stored(t, s, iv, d)
    ensures ExecAll(t.kernel, m, SbIteration(t, s, iv))[Ddr(d)] == m[Ddr(d)]
  {
    hide Wired, StoresAllowedAt, Stored, ExecAll, SbIteration, SbLoads, SbStores, LoadsTile, StoresTile, Loaded;
    SingleBufferedOps(t, s, iv);
    ExecSbIteration(t, s, m, iv);
    LoadEffect(t, m, SbLoads(t, s, iv), Single, iv);
    assert !t.kernel.Owns(Single, Ddr(d));
    var loaded := ExecAll(t.kernel, m, SbLoads(t, s, iv));
    NotStored(t, s, t.kernel.Run(loaded, Single, iv), SbStores(t, s, iv), Single, iv, d);
  }

  lemma BodyElsewhere(t: Tiling, s: Schedule, m: Mem, side: Side, iv: int, d: int)
    requires Wired(s, t.kernel.sizes) && StoresAllowedAt(t, s, iv) && !Stored(t, s, iv, d)
    ensures ExecAll(t.kernel, m, DbBody(t, s, side, iv))[Ddr(d)] == m[Ddr(d)]
  {
    hide Wired, StoresAllowedAt, Stored, ExecAll, DbBody, StoresTile;
    StoreOps(t, s, side, iv);
    ExecDbBody(t, s, m, side, iv);
    NotStored(t, s, t.kernel.Run(m, side, iv), Actions(t, Stores(s, side), iv), side, iv, d);
  }

  // A tile loaded from the original loop's memory stores what that loop stores.
  lemma FreshTileStores(t: Tiling, s: Schedule, m: Mem, m': Mem, side: Side, iv: int, d: int)
    requires Wired(s, t.kernel.sizes) && StoresAllowedAt(t, s, iv) && WritesBack(s)
    requires Captured(t, m, m', side, iv) && Stored(t, s, iv, d)
    ensures ExecAll(t.kernel, m, SbIteration(t, s, iv))[Ddr(d)] == ExecAll(t.kernel, m', DbBody(t, s, side, iv))[Ddr(d)]
  {
    hide Wired, StoresAllowedAt, WritesBack, Stored, ExecAll, SbIteration, DbBody, StoresTile;
    var h := Hybrid(m, m');
    IterationAgrees(t, s, m, h, side, iv);
    StoreOps(t, s, side, iv);
    ExecDbBody(t, s, h, side, iv);
    ExecDbBody(t, s, m', side, iv);
    RunFromCells(t.kernel, h, m', side, iv);
    StoresFromBuffers(t, s, t.kernel.Run(h, side, iv), t.kernel.Run(m', side, iv), Actions(t, Stores(s, side), iv),
      side, iv, d);
  }

  lemma RunFromCells(k: Kernel, m: Mem, m': Mem, side: Side, iv: int)
    requires SameCells(m, m')
    ensures SameCells(k.Run(m, side, iv), k.Run(m', side, iv))
  {
    hide Kernel.Read;
    SameRead(k, m, side, m', side);
  }

  // One iteration of both loops, address by address.
  lemma StepAt(t: Tiling, s: Schedule, m: Mem, m': Mem, iv: int, toggle: bool, d: int)
    requires Loop(t, s) && IsTile(t, iv) && InStep(t, s, m, m', iv, This(toggle)) && !Differs(t, s, iv + t.step, d)
    ensures ExecAll(t.kernel, m, SbIteration(t, s, iv))[Ddr(d)] ==
            ExecAll(t.kernel, m', IterTrace(t, AsDoubleBuffered(s), iv, toggle))[Ddr(d)]
  {
    hide Wired, StoresAllowed, StoresAllowedAt, WritesBack, Stored, ExecAll, SbIteration, DbBody, Captured, IterTrace,
      Stale;
    AllowedHere(t, s, iv);
    SubKernelEffect(t, s, m', iv, toggle);
    assert iv + t.step - t.step == iv;
    if Stored(t, s, iv, d) {
      FreshTileStores(t, s, m, m', This(toggle), iv, d);
    } else {
      OriginalElsewhere(t, s, m, iv, d);
      BodyElsewhere(t, s, m', This(toggle), iv, d);
    }
  }

  lemma FreshAddress(t: Tiling, s: Schedule, iv: int, b: nat, j: nat)
    requires t.step > 0 && iv + t.step > 0 && !Stale(t, s, iv + t.step) && b < |t.kernel.sizes| && j < t.kernel.sizes[b]
    ensures !Stored(t, s, iv, t.addr(b, iv + t.step, j)) && !Differs(t, s, iv, t.addr(b, iv + t.step, j))
  {
    var d := t.addr(b, iv + t.step, j);
    assert iv + t.step - t.step == iv;
    assert LoadedAs(t, iv + t.step, d, b, j);
    assert !StaleAddress(t, s, iv + t.step, d);
  }

  lemma StepAgrees(t: Tiling, s: Schedule, m: Mem, m': Mem, iv: int, toggle: bool)
    requires Loop(t, s) && IsTile(t, iv) && InStep(t, s, m, m', iv, This(toggle))
    ensures InStep(t, s, ExecAll(t.kernel, m, SbIteration(t, s, iv)),
                   ExecAll(t.kernel, m', IterTrace(t, AsDoubleBuffered(s), iv, toggle)), iv + t.step, This(!toggle))
  {
    hide Wired, StoresAllowed, StoresAllowedAt, WritesBack, Stored, ExecAll, SbIteration, IterTrace, Stale, Differs,
      DbBody;
    var r, r' := ExecAll(t.kernel, m, SbIteration(t, s, iv)),
        ExecAll(t.kernel, m', IterTrace(t, AsDoubleBuffered(s), iv, toggle));
    forall d | !Differs(t, s, iv + t.step, d) ensures r[Ddr(d)] == r'[Ddr(d)] { StepAt(t, s, m, m', iv, toggle, d); }
    if iv + t.step < t.ub && !Stale(t, s, iv + t.step) {
      NextExistsIff(t, iv);
      AllowedHere(t, s, iv);
      SubKernelEffect(t, s, m', iv, toggle);
      NextStaysCaptured(t, s, m, m', r, r', iv, iv + t.step, This(!toggle));
    }
  }

  lemma NextStaysCaptured(t: Tiling, s: Schedule, m: Mem, m': Mem, r: Mem, r': Mem, iv: int, next: int, side: Side)
    requires Wired(s, t.kernel.sizes) && t.step > 0 && StoresAllowedAt(t, s, iv) && 0 <= iv && next == iv + t.step
    requires AgreeBut(t, s, m, m', iv) && !Stale(t, s, next) && Captured(t, m', r', side, next)
    requires r == ExecAll(t.kernel, m, SbIteration(t, s, iv))
    ensures Captured(t, r, r', side, next)
  {
    hide Wired, StoresAllowedAt, Stored, ExecAll, SbIteration, Stale, Differs;
    forall b: nat, j: nat | b < |t.kernel.sizes| && j < t.kernel.sizes[b]
      ensures r[Ddr(t.addr(b, next, j))] == m'[Ddr(t.addr(b, next, j))]
    {
      FreshAddress(t, s, iv, b, j);
      OriginalElsewhere(t, s, m, iv, t.addr(b, next, j));
    }
  }

  lemma {:induction false} LoopsAgreeBut(t: Tiling, s: Schedule, m: Mem, m': Mem, iv: int, toggle: bool)
    requires Loop(t, s) && 0 <= iv && Multiple(iv, t.step) && InStep(t, s, m, m', iv, This(toggle))
             && (iv < t.ub || iv == EndOf(t))
    ensures AgreeBut(t, s, ExecAll(t.kernel, m, SbTrace(t, s, iv)),
                     ExecAll(t.kernel, m', LoopTrace(t, AsDoubleBuffered(s), iv, toggle)), EndOf(t))
    decreases t.ub - iv
  {
    hide Wired, StoresAllowed, WritesBack, AsDoubleBuffered, SbIteration, Stale, Differs, Captured, IterTrace;
    if iv < t.ub {
      StepAgrees(t, s, m, m', iv, toggle);
      NextExistsIff(t, iv);
      LoopsAgreeBut(t, s, ExecAll(t.kernel, m, SbIteration(t, s, iv)),
                    ExecAll(t.kernel, m', IterTrace(t, AsDoubleBuffered(s), iv, toggle)), iv + t.step, !toggle);
      SbTraceStep(t, s, m, iv);
      LoopStep(t, s, m', iv, toggle);
    }
  }

  ghost function EndOf(t: Tiling): int { if t.ub > 0 then t.ub else 0 }

  lemma LoopStep(t: Tiling, s: Schedule, m: Mem, iv: int, toggle: bool)
    requires t.step > 0 && iv < t.ub
    ensures ExecAll(t.kernel, m, LoopTrace(t, AsDoubleBuffered(s), iv, toggle)) ==
      ExecAll(t.kernel, ExecAll(t.kernel, m, IterTrace(t, AsDoubleBuffered(s), iv, toggle)),
              LoopTrace(t, AsDoubleBuffered(s), iv + t.step, !toggle))
  {
    hide ExecAll, LoopTrace, DbIteration, AsDoubleBuffered, IterTrace;
    IterationIs(t, s, iv, toggle);
    DbTraceStep(t, s, m, iv, toggle);
  }

  // After the prologue the first tile is in the ping buffers.
  lemma PrologueCaptures(t: Tiling, s: Schedule, m: Mem)
    requires t.step > 0 && Wired(s, t.kernel.sizes) && 0 < t.ub
    ensures var m' := ExecAll(t.kernel, m, Actions(t, AsDoubleBuffered(s).prologue, 0));
      SameDdr(m, m') && Captured(t, m, m', Ping, 0)
      && ExecAll(t.kernel, m, ProgramTrace(t, AsDoubleBuffered(s)))
        == ExecAll(t.kernel, m', LoopTrace(t, AsDoubleBuffered(s), 0, true))
  {
    hide ExecAll, LoopTrace;
    var loads := Actions(t, AsDoubleBuffered(s).prologue, 0);
    PrefetchOps(t, s, First, Ping, 0);
    LoadEffect(t, m, loads, Ping, 0);
    ExecAppend(t.kernel, m, loads, LoopTrace(t, AsDoubleBuffered(s), 0, true));
    assert forall d: int :: !t.kernel.Owns(Ping, Ddr(d));
  }

  lemma AgreeAtEnd(t: Tiling, s: Schedule, m: Mem)
    requires Loop(t, s) && forall d :: !Differs(t, s, EndOf(t), d)
    ensures SameResult(t, s, m)
  {
    hide Wired, StoresAllowed, WritesBack, AsDoubleBuffered, Captured, ExecAll;
    if 0 < t.ub {
      PrologueCaptures(t, s, m);
      LoopsAgreeBut(t, s, m, ExecAll(t.kernel, m, Actions(t, AsDoubleBuffered(s).prologue, 0)), 0, true);
    } else {
      assert ProgramTrace(t, AsDoubleBuffered(s)) == [] == SbTrace(t, s, 0);
    }
  }

  // ----- a kernel that shows every difference -----

  ghost function Fill(sizes: seq<nat>, c: int): (r: seq<seq<int>>)
    ensures |r| == |sizes| && forall b :: 0 <= b < |r| ==> |r[b]| == sizes[b] && forall j :: 0 <= j < |r[b]| ==>
            r[b][j] == c
  {
    seq(|sizes|, b requires 0 <= b < |sizes| => seq(sizes[b], j requires 0 <= j < sizes[b] => c))
  }

  // From zeroed memory, with tile iv writing iv + 1: what the original loop has at d before tile iv.
  ghost function Last(t: Tiling, s: Schedule, iv: int, d: int): int
    requires t.step > 0
    decreases iv
  {
    if iv <= 0 then 0 else if Stored(t, s, iv - t.step, d) then iv - t.step + 1 else Last(t, s, iv - t.step, d)
  }

  // And the rewritten one, when a stale tile iv writes -(iv + 1).
  ghost function DbLast(t: Tiling, s: Schedule, iv: int, d: int): int
    requires t.step > 0
    decreases iv
  {
    if iv <= 0 then 0
    else if Stored(t, s, iv - t.step, d) then Mark(t, s, iv - t.step)
    else DbLast(t, s, iv - t.step, d)
  }

  ghost function Mark(t: Tiling, s: Schedule, iv: int): int
    requires t.step > 0
  {
    if Stale(t, s, iv) then -(iv + 1) else iv + 1
  }

  // The tile the original loop computes on.
  ghost function Fresh(t: Tiling, s: Schedule, iv: int): seq<seq<int>>
    requires t.step > 0
  {
    seq(|t.kernel.sizes|, b requires 0 <= b < |t.kernel.sizes| =>
      seq(t.kernel.sizes[b], j requires 0 <= j < t.kernel.sizes[b] => Last(t, s, iv, t.addr(b, iv, j))))
  }

  ghost predicate Marks(t: Tiling, s: Schedule)
    requires t.step > 0
  {
    forall iv, r :: t.kernel.f(iv, r) == Fill(t.kernel.sizes, if r == Fresh(t, s, iv) then iv + 1 else -(iv + 1))
  }

  // Where the tile is the original loop's, the kernel writes iv + 1.
  ghost predicate MarksFresh(t: Tiling, s: Schedule)
    requires t.step > 0
  {
    forall iv :: t.kernel.f(iv, Fresh(t, s, iv)) == Fill(t.kernel.sizes, iv + 1)
  }

  lemma MarksAreFresh(t: Tiling, s: Schedule)
    requires t.step > 0 && Marks(t, s)
    ensures MarksFresh(t, s)
  {
  }

  // The two loops hold different values exactly where the addresses say they may.
  lemma {:induction false} DiffersIff(t: Tiling, s: Schedule, iv: int, d: int)
    requires t.step > 0 && 0 <= iv && Multiple(iv, t.step)
    ensures Differs(t, s, iv, d) <==> Last(t, s, iv, d) != DbLast(t, s, iv, d)
    ensures -iv <= DbLast(t, s, iv, d) <= iv && 0 <= Last(t, s, iv, d) <= iv
    decreases iv
  {
    hide Stored, Stale;
    if iv > 0 {
      DiffersIff(t, s, iv - t.step, d);
    }
  }

  // What the rewritten loop has loaded for tile iv: memory as of the tile before the last.
  ghost function Prefetched(t: Tiling, s: Schedule, iv: int, d: int): int
    requires t.step > 0
  {
    if iv > 0 then DbLast(t, s, iv - t.step, d) else 0
  }

  lemma StaleAt(t: Tiling, s: Schedule, iv: int, b: nat, j: nat)
    requires t.step > 0 && 0 <= iv && Multiple(iv, t.step) && b < |t.kernel.sizes| && j < t.kernel.sizes[b]
    ensures iv > 0 ==>
      (Last(t, s, iv, t.addr(b, iv, j)) != Prefetched(t, s, iv, t.addr(b, iv, j)) <==>
       StaleAddress(t, s, iv, t.addr(b, iv, j)))
    ensures Last(t, s, iv, t.addr(b, iv, j)) != Prefetched(t, s, iv, t.addr(b, iv, j)) ==> Stale(t, s, iv)
  {
    hide Stored;
    var d := t.addr(b, iv, j);
    if iv > 0 {
      DiffersIff(t, s, iv - t.step, d);
      assert LoadedAs(t, iv, d, b, j);
    }
  }

  // The tile in the buffers is not the original loop's, exactly when it is stale.
  lemma StaleIff(t: Tiling, s: Schedule, iv: int, r: seq<seq<int>>)
    requires t.step > 0 && 0 <= iv && Multiple(iv, t.step)
    requires |r| == |t.kernel.sizes| && forall b :: 0 <= b < |r| ==> |r[b]| == t.kernel.sizes[b]
    requires forall b: nat, j: nat :: b < |r| && j < |r[b]| ==> r[b][j] == Prefetched(t, s, iv, t.addr(b, iv, j))
    ensures r == Fresh(t, s, iv) <==> !Stale(t, s, iv)
  {
    hide StaleAddress, Last, Prefetched, Multiple;
    if Stale(t, s, iv) {
      var d: int, b: nat, j: nat :| LoadedAs(t, iv, d, b, j) && StaleAddress(t, s, iv, d);
      StaleAt(t, s, iv, b, j);
      assert r[b][j] != Fresh(t, s, iv)[b][j];
    } else {
      forall b | 0 <= b < |r| ensures r[b] == Fresh(t, s, iv)[b] {
        forall j | 0 <= j < |r[b]| ensures r[b][j] == Fresh(t, s, iv)[b][j] { StaleAt(t, s, iv, b, j); }
      }
    }
  }

  ghost predicate HasLast(t: Tiling, s: Schedule, m: Mem, iv: int)
    requires t.step > 0
  {
    forall d: int :: m[Ddr(d)] == Last(t, s, iv, d)
  }

  ghost predicate HasDbLast(t: Tiling, s: Schedule, m: Mem, iv: int)
    requires t.step > 0
  {
    forall d: int :: m[Ddr(d)] == DbLast(t, s, iv, d)
  }

  ghost predicate HasTile(t: Tiling, s: Schedule, m: Mem, iv: int, side: Side)
    requires t.step > 0
  {
    forall b: nat, j: nat :: b < |t.kernel.sizes| && j < t.kernel.sizes[b] ==>
      m[Cell(side, b, j)] == Prefetched(t, s, iv, t.addr(b, iv, j))
  }

  lemma RunFills(k: Kernel, m: Mem, side: Side, iv: int, c: int)
    requires k.f(iv, k.Read(m, side)) == Fill(k.sizes, c)
    ensures Filled(k, k.Run(m, side, iv), side, c) && OnlyOwned(k, side, m, k.Run(m, side, iv))
  {
    hide Kernel.Read;
  }

  lemma OriginalReadsFresh(t: Tiling, s: Schedule, m: Mem, iv: int)
    requires t.step > 0 && Loaded(t, m, Single, iv) && HasLast(t, s, m, iv)
    ensures t.kernel.Read(m, Single) == Fresh(t, s, iv)
  {
    hide Last;
    var r := t.kernel.Read(m, Single);
    forall b | 0 <= b < |r| ensures r[b] == Fresh(t, s, iv)[b] {
      assert forall j :: 0 <= j < |r[b]| ==> r[b][j] == Fresh(t, s, iv)[b][j];
    }
  }

  lemma OriginalIteration(t: Tiling, s: Schedule, m: Mem, iv: int)
    requires t.step > 0 && Wired(s, t.kernel.sizes) && StoresAllowedAt(t, s, iv) && WritesBack(s) && MarksFresh(t, s)
    requires 0 <= iv && HasLast(t, s, m, iv)
    ensures HasLast(t, s, ExecAll(t.kernel, m, SbIteration(t, s, iv)), iv + t.step)
  {
    hide Wired, StoresAllowedAt, WritesBack, Stored, ExecAll, SbIteration, SbLoads, SbStores, LoadsTile, StoresTile,
      Fresh, Filled, HasLast, Loaded, OnlyOwned, Kernel.Run, Kernel.Read;
    SingleBufferedOps(t, s, iv);
    ExecSbIteration(t, s, m, iv);
    LoadEffect(t, m, SbLoads(t, s, iv), Single, iv);
    var l := ExecAll(t.kernel, m, SbLoads(t, s, iv));
    LastSurvives(t, s, m, l, iv);
    OriginalReadsFresh(t, s, l, iv);
    RunFills(t.kernel, l, Single, iv, iv + 1);
    var c := t.kernel.Run(l, Single, iv);
    LastSurvives(t, s, l, c, iv);
    StoresMark(t, s, c, SbStores(t, s, iv), iv);
  }

  lemma StoresMark(t: Tiling, s: Schedule, c: Mem, stores: seq<Action>, iv: int)
    requires t.step > 0 && Wired(s, t.kernel.sizes) && StoresAllowedAt(t, s, iv) && WritesBack(s)
    requires StoresTile(t, s, stores, Single, iv) && Filled(t.kernel, c, Single, iv + 1) && 0 <= iv
             && HasLast(t, s, c, iv)
    ensures HasLast(t, s, ExecAll(t.kernel, c, stores), iv + t.step)
  {
    hide Wired, StoresAllowedAt, WritesBack, Stored, ExecAll, StoresTile, Filled;
    forall d: int ensures ExecAll(t.kernel, c, stores)[Ddr(d)] == Last(t, s, iv + t.step, d) {
      StoresFill(t, s, c, stores, Single, iv, iv + 1, d);
      assert iv + t.step - t.step == iv;
    }
  }

  lemma LastSurvives(t: Tiling, s: Schedule, m: Mem, m': Mem, iv: int)
    requires t.step > 0 && HasLast(t, s, m, iv) && OnlyOwned(t.kernel, Single, m, m')
    ensures HasLast(t, s, m', iv)
  {
    hide Last;
    assert forall d: int :: !t.kernel.Owns(Single, Ddr(d));
  }

  lemma BodyMarks(t: Tiling, s: Schedule, m: Mem, side: Side, iv: int)
    requires t.step > 0 && Wired(s, t.kernel.sizes) && StoresAllowedAt(t, s, iv) && WritesBack(s) && Marks(t, s)
    requires 0 <= iv && Multiple(iv, t.step) && HasDbLast(t, s, m, iv) && HasTile(t, s, m, iv, side)
    ensures HasDbLast(t, s, ExecAll(t.kernel, m, DbBody(t, s, side, iv)), iv + t.step)
  {
    hide Wired, StoresAllowedAt, WritesBack, Stored, Stale, ExecAll, DbBody, StoresTile, Filled, Fresh, HasTile,
      Multiple;
    StoreOps(t, s, side, iv);
    ExecDbBody(t, s, m, side, iv);
    ReadsTile(t, s, m, side, iv);
    RunFills(t.kernel, m, side, iv, Mark(t, s, iv));
    var c := t.kernel.Run(m, side, iv);
    forall d: int
      ensures ExecAll(t.kernel, c, Actions(t, Stores(s, side), iv))[Ddr(d)] == DbLast(t, s, iv + t.step, d)
    {
      StoresFill(t, s, c, Actions(t, Stores(s, side), iv), side, iv, Mark(t, s, iv), d);
      assert !t.kernel.Owns(side, Ddr(d));
      assert iv + t.step - t.step == iv;
    }
  }

  lemma ReadsTile(t: Tiling, s: Schedule, m: Mem, side: Side, iv: int)
    requires t.step > 0 && Marks(t, s) && 0 <= iv && Multiple(iv, t.step) && HasTile(t, s, m, iv, side)
    ensures t.kernel.f(iv, t.kernel.Read(m, side)) == Fill(t.kernel.sizes, Mark(t, s, iv))
  {
    hide Prefetched, Fresh, Stale, Multiple;
    StaleIff(t, s, iv, t.kernel.Read(m, side));
  }

  lemma MarkedIteration(t: Tiling, s: Schedule, m: Mem, iv: int, toggle: bool)
    requires Loop(t, s) && Marks(t, s) && IsTile(t, iv) && HasDbLast(t, s, m, iv) && HasTile(t, s, m, iv, This(toggle))
    ensures var m' := ExecAll(t.kernel, m, IterTrace(t, AsDoubleBuffered(s), iv, toggle));
      HasDbLast(t, s, m', iv + t.step) && (iv + t.step < t.ub ==> HasTile(t, s, m', iv + t.step, This(!toggle)))
  {
    hide Wired, StoresAllowed, StoresAllowedAt, WritesBack, Marks, Multiple, ExecAll, DbBody, IterTrace, DbLast;
    AllowedHere(t, s, iv);
    BodyMarks(t, s, m, This(toggle), iv);
    SubKernelEffect(t, s, m, iv, toggle);
    NextExistsIff(t, iv);
    assert iv + t.step - t.step == iv;
  }

  lemma {:induction false} OriginalRun(t: Tiling, s: Schedule, m: Mem, iv: int)
    requires Loop(t, s) && MarksFresh(t, s) && 0 <= iv && Multiple(iv, t.step) && HasLast(t, s, m, iv)
             && (iv < t.ub || iv == EndOf(t))
    ensures HasLast(t, s, ExecAll(t.kernel, m, SbTrace(t, s, iv)), EndOf(t))
    decreases t.ub - iv
  {
    hide Wired, StoresAllowed, WritesBack, MarksFresh, HasLast, SbIteration;
    if iv < t.ub {
      AllowedHere(t, s, iv);
      OriginalIteration(t, s, m, iv);
      NextExistsIff(t, iv);
      OriginalRun(t, s, ExecAll(t.kernel, m, SbIteration(t, s, iv)), iv + t.step);
      SbTraceStep(t, s, m, iv);
    }
  }

  lemma {:induction false} MarkedRun(t: Tiling, s: Schedule, m: Mem, iv: int, toggle: bool)
    requires Loop(t, s) && Marks(t, s) && 0 <= iv && Multiple(iv, t.step) && HasDbLast(t, s, m, iv)
             && (iv < t.ub || iv == EndOf(t))
    requires iv < t.ub ==> HasTile(t, s, m, iv, This(toggle))
    ensures HasDbLast(t, s, ExecAll(t.kernel, m, LoopTrace(t, AsDoubleBuffered(s), iv, toggle)), EndOf(t))
    decreases t.ub - iv
  {
    hide Wired, StoresAllowed, WritesBack, Marks, HasDbLast, HasTile, AsDoubleBuffered, IterTrace;
    if iv < t.ub {
      MarkedIteration(t, s, m, iv, toggle);
      NextExistsIff(t, iv);
      MarkedRun(t, s, ExecAll(t.kernel, m, IterTrace(t, AsDoubleBuffered(s), iv, toggle)), iv + t.step, !toggle);
      LoopStep(t, s, m, iv, toggle);
    }
  }

  ghost function Zero(): Mem { imap l: Loc | true :: if l.Ddr? then 0 else 1 }

  lemma ZeroHas(t: Tiling, s: Schedule, m: Mem)
    requires t.step > 0 && forall d: int :: m[Ddr(d)] == 0
    ensures HasLast(t, s, m, 0) && HasDbLast(t, s, m, 0)
    ensures forall m' :: Captured(t, m, m', Ping, 0) ==> HasTile(t, s, m', 0, Ping)
  {
  }

  // The marking kernel, from zeroed memory, tells the loops apart when anything differs.
  lemma MarksTell(t: Tiling, s: Schedule, d: int)
    requires Loop(t, s) && Marks(t, s) && Differs(t, s, EndOf(t), d)
    ensures !SameResult(t, s, Zero())
  {
    MarksAreFresh(t, s);
    hide Wired, StoresAllowed, WritesBack, Marks, MarksFresh, AsDoubleBuffered, ExecAll, SbTrace, Last, DbLast;
    var m := Zero();
    ZeroHas(t, s, m);
    assert t.ub > 0;
    PrologueCaptures(t, s, m);
    var m' := ExecAll(t.kernel, m, Actions(t, AsDoubleBuffered(s).prologue, 0));
    ZeroHas(t, s, m');
    OriginalRun(t, s, m, 0);
    MarkedRun(t, s, m', 0, true);
    DiffersIff(t, s, t.ub, d);
  }

  // ----- the kernel does not matter to the addresses -----

  lemma SameStored(t: Tiling, t': Tiling, s: Schedule, iv: int, d: int)
    requires SameTiles(t, t')
    ensures Stored(t', s, iv, d) == Stored(t, s, iv, d)
  {
    hide StoredFrom, StoredTo;
    forall q: nat | q < |s.stores| ensures StoredTo(t', s, Single, iv, q) == StoredTo(t, s, Single, iv, q) {
      SameXfer(t, t', s, iv, q);
    }
    if Stored(t, s, iv, d) {
      var q: nat :| q < |s.stores| && Ddr(d) in StoredTo(t, s, Single, iv, q);
      assert Ddr(d) in StoredTo(t', s, Single, iv, q);
    }
  }

  lemma SameLoop(t: Tiling, t': Tiling, s: Schedule)
    requires SameTiles(t, t') && Loop(t, s)
    ensures Loop(t', s)
  {
    hide Wired, WritesBack, StoresAllowed;
    SameAllowed(t, t', s);
  }

  lemma {:induction false} SameDiffers(t: Tiling, t': Tiling, s: Schedule, iv: int)
    requires SameTiles(t, t') && t.step > 0
    ensures forall d :: Differs(t', s, iv, d) == Differs(t, s, iv, d)
    ensures Stale(t', s, iv) == Stale(t, s, iv)
    decreases iv
  {
    hide Stored;
    if iv > 0 {
      SameDiffers(t, t', s, iv - t.step);
      forall d
        ensures StaleAddress(t', s, iv, d) == StaleAddress(t, s, iv, d) && Differs(t', s, iv, d) == Differs(t, s, iv, d)
      {
        SameStored(t, t', s, iv - t.step, d);
      }
      forall d, b: nat, j: nat ensures LoadedAs(t', iv, d, b, j) == LoadedAs(t, iv, d, b, j) { }
    }
  }

  lemma {:induction false} SameLast(t: Tiling, t': Tiling, s: Schedule, iv: int, d: int)
    requires SameTiles(t, t') && t.step > 0
    ensures Last(t', s, iv, d) == Last(t, s, iv, d)
    decreases iv
  {
    if iv > 0 {
      SameLast(t, t', s, iv - t.step, d);
      SameStored(t, t', s, iv - t.step, d);
    }
  }

  lemma SameFresh(t: Tiling, t': Tiling, s: Schedule, iv: int)
    requires SameTiles(t, t') && t.step > 0
    ensures Fresh(t', s, iv) == Fresh(t, s, iv)
  {
    forall b, j | 0 <= b < |t.kernel.sizes| && 0 <= j < t.kernel.sizes[b]
      ensures Fresh(t', s, iv)[b][j] == Fresh(t, s, iv)[b][j]
    {
      SameLast(t, t', s, iv, t.addr(b, iv, j));
    }
    assert forall b :: 0 <= b < |t.kernel.sizes| ==> Fresh(t', s, iv)[b] == Fresh(t, s, iv)[b];
  }

  ghost function MarkingKernel(t: Tiling, s: Schedule): Kernel
    requires t.step > 0
  {
    Kernel(t.kernel.sizes, (iv: int, r: seq<seq<int>>) =>
      Fill(t.kernel.sizes, if r == Fresh(t, s, iv) then iv + 1 else -(iv + 1)))
  }

  lemma MarkingMarks(t: Tiling, s: Schedule)
    requires t.step > 0
    ensures Marks(t.(kernel := MarkingKernel(t, s)), s)
  {
    var t' := t.(kernel := MarkingKernel(t, s));
    forall iv ensures Fresh(t', s, iv) == Fresh(t, s, iv) { SameFresh(t, t', s, iv); }
  }

  // ----- the exact condition -----

  ghost predicate NothingDiffers(t: Tiling, s: Schedule)
    requires t.step > 0
  {
    forall d :: !Differs(t, s, EndOf(t), d)
  }

  // The rewritten loop leaves the memory of the loop it replaces, for every kernel and every
  // content of memory, exactly when no address was last stored by a stale tile.
  lemma SameMemoryIff(t: Tiling, s: Schedule)
    requires Loop(t, s)
    ensures (forall k: Kernel, m: Mem :: k.sizes == t.kernel.sizes ==> SameResult(t.(kernel := k), s, m))
            <==> NothingDiffers(t, s)
  {
    hide Wired, StoresAllowed, WritesBack, Marks, SameResult;
    if NothingDiffers(t, s) {
      forall k: Kernel, m: Mem | k.sizes == t.kernel.sizes ensures SameResult(t.(kernel := k), s, m) {
        var t' := t.(kernel := k);
        SameLoop(t, t', s);
        SameDiffers(t, t', s, EndOf(t));
        AgreeAtEnd(t', s, m);
      }
    } else {
      var d :| Differs(t, s, EndOf(t), d);
      var t' := t.(kernel := MarkingKernel(t, s));
      SameLoop(t, t', s);
      SameDiffers(t, t', s, EndOf(t));
      MarkingMarks(t, s);
      MarksTell(t', s, d);
    }
  }

  // Where no store hits what the next tile loads, no tile is stale.
  lemma {:induction false} NoHazardNothingDiffers(t: Tiling, s: Schedule, iv: int)
    requires WholeTiles(t) && NoHazard(t, s) && 0 <= iv <= EndOf(t) && Multiple(iv, t.step)
    ensures !(iv < t.ub && Stale(t, s, iv)) && forall d :: !Differs(t, s, iv, d)
    decreases iv
  {
    hide NoHazard, Stored, LoadedAs;
    if iv > 0 {
      var before := iv - t.step;
      NoHazardNothingDiffers(t, s, before);
      forall d: int, b: nat, j: nat | iv < t.ub && LoadedAs(t, iv, d, b, j) ensures !StaleAddress(t, s, iv, d) {
        NotStoredBefore(t, s, before, iv, d, b, j);
        assert !Differs(t, s, before, d);
      }
      if iv < t.ub { NotStale(t, s, iv); }
    }
  }

  lemma NotStale(t: Tiling, s: Schedule, iv: int)
    requires t.step > 0 && iv > 0
    requires forall d: int, b: nat, j: nat :: LoadedAs(t, iv, d, b, j) ==> !StaleAddress(t, s, iv, d)
    ensures !Stale(t, s, iv)
  {
  }

  lemma NotStoredBefore(t: Tiling, s: Schedule, before: int, iv: int, d: int, b: nat, j: nat)
    requires WholeTiles(t) && NoHazard(t, s) && iv == before + t.step && IsTile(t, before) && IsTile(t, iv)
             && LoadedAs(t, iv, d, b, j)
    ensures !Stored(t, s, before, d)
  {
    NoHazardNext(t, s, before);
    hide NoHazard, StoredTo, Disjoint;
    forall q: nat | q < |s.stores| ensures Ddr(d) !in StoredTo(t, s, Single, before, q) {
      assert NoHazardPair(t, s, before, q, b);
      assert t.ViewLocs(b, iv)[j] == Ddr(d);
      ApartFrom(StoredTo(t, s, Single, before, q), t.ViewLocs(b, iv), j);
    }
  }

  lemma NoHazardNext(t: Tiling, s: Schedule, iv: int)
    requires t.step > 0 && NoHazard(t, s) && IsTile(t, iv) && IsTile(t, iv + t.step)
    ensures NoHazardAt(t, s, iv)
  {
  }

  // ----- a loop that accumulates into one address -----

  function AddOne(r: seq<seq<int>>): seq<seq<int>> {
    if |r| == 1 && |r[0]| == 1 then [[r[0][0] + 1]] else r
  }

  // for iv in 0, 1: load x[0], add one, store it back to x[0].
  const ACCUMULATE_HEAD := LoopHead(false, false, false, Some(0), Some(2), Some(1))
  const ACCUMULATE_BODY := [SubViewOp(0), AllocOp(1), CopyOp(0, 1), ForallOp, CopyOp(1, 0), YieldOp]
  const ACCUMULATE := Schedule([Triplet(0, 1, 0, 1)], [Store(1, 0)])

  ghost function Accumulate(): Tiling {
    Tiling(Kernel([1], (iv: int, r: seq<seq<int>>) => AddOne(r)), (v: nat, iv: int, j: nat) => 0, (id: nat) => [],
           (g: Tag, iv: int) => Transfer([], []), 2, 1)
  }

  lemma AccumulateIndices()
    ensures AllocIndex(ACCUMULATE.triplets, 1) == 0 && AllocIndex(ACCUMULATE.triplets, 0) == 1
    ensures ViewIndex(ACCUMULATE.triplets, 0) == 0
  {
    assert ACCUMULATE.triplets[1..] == [];
  }

  lemma AccumulateStore(side: Side, iv: int)
    ensures StoredFrom(Accumulate(), ACCUMULATE, side, iv, 0) == [Cell(side, 0, 0)]
    ensures StoredTo(Accumulate(), ACCUMULATE, side, iv, 0) == [Ddr(0)]
  {
    AccumulateIndices();
  }

  lemma AccumulateIsLoop()
    ensures Loop(Accumulate(), ACCUMULATE)
  {
    AccumulateIndices();
    forall iv ensures StoresAllowedAt(Accumulate(), ACCUMULATE, iv) { AccumulateStore(Single, iv); }
    assert Multiple(2, 1);
  }

  lemma AccumulateRun(m: Mem, side: Side, iv: int)
    ensures Accumulate().kernel.Run(m, side, iv)[Cell(side, 0, 0)] == m[Cell(side, 0, 0)] + 1
  {
    var k := Accumulate().kernel;
    var r := k.Read(m, side);
    assert |r| == 1 && |r[0]| == 1 && r[0][0] == m[Cell(side, 0, 0)];
    assert k.f(iv, r) == AddOne(r) && k.Owns(side, Cell(side, 0, 0));
  }

  lemma OneStore(t: Tiling, stores: seq<Action>, side: Side, iv: int)
    requires StoresTile(t, ACCUMULATE, stores, side, iv)
    ensures stores == [StoreAction(t, ACCUMULATE, side, iv, 0)]
  {
  }

  lemma AccumulateBody(m: Mem, side: Side, iv: int)
    ensures ExecAll(Accumulate().kernel, m, DbBody(Accumulate(), ACCUMULATE, side, iv))[Ddr(0)]
            == m[Cell(side, 0, 0)] + 1
  {
    hide Stores, ExecAll, Kernel.Run, MapValue, StoresTile, DbBody;
    var t := Accumulate();
    var stores := Actions(t, Stores(ACCUMULATE, side), iv);
    ExecDbBody(t, ACCUMULATE, m, side, iv);
    StoreOps(t, ACCUMULATE, side, iv);
    AccumulateStore(side, iv);
    assert stores == [Copy([Cell(side, 0, 0)], [Ddr(0)])] by { OneStore(t, stores, side, iv); }
    var c := t.kernel.Run(m, side, iv);
    ExecOne(t.kernel, c, stores[0]);
    AccumulateRun(m, side, iv);
    CopyStep(t.kernel, c, stores[0]);
  }

  lemma AccumulateOriginal(m: Mem, iv: int)
    ensures ExecAll(Accumulate().kernel, m, SbIteration(Accumulate(), ACCUMULATE, iv))[Ddr(0)] == m[Ddr(0)] + 1
  {
    hide ExecAll, SbIteration, DbBody;
    var h: Mem := imap l: Loc | true :: if l.Ddr? then m[l] else m[Ddr(0)];
    AccumulateIndices();
    AccumulateStore(Single, iv);
    IterationAgrees(Accumulate(), ACCUMULATE, m, h, Ping, iv);
    AccumulateBody(h, Ping, iv);
  }

  lemma AccumulateSingle(m: Mem)
    ensures ExecAll(Accumulate().kernel, m, SbTrace(Accumulate(), ACCUMULATE, 0))[Ddr(0)] == m[Ddr(0)] + 2
  {
    hide SbIteration, ExecAll;
    var t := Accumulate();
    var m1 := ExecAll(t.kernel, m, SbIteration(t, ACCUMULATE, 0));
    var m2 := ExecAll(t.kernel, m1, SbIteration(t, ACCUMULATE, 1));
    AccumulateOriginal(m, 0);
    AccumulateOriginal(m1, 1);
    SbTraceStep(t, ACCUMULATE, m, 0);
    SbTraceStep(t, ACCUMULATE, m1, 1);
    ExecNothing(t.kernel, m2);
  }

  lemma ExecNothing(k: Kernel, m: Mem)
    ensures ExecAll(k, m, []) == m
  {
  }

  lemma AccumulateDouble(m: Mem)
    ensures ExecAll(Accumulate().kernel, m, ProgramTrace(Accumulate(), AsDoubleBuffered(ACCUMULATE)))[Ddr(0)]
            == m[Ddr(0)] + 1
  {
    hide ExecAll, AsDoubleBuffered, IterTrace, DbBody;
    var t, p := Accumulate(), AsDoubleBuffered(ACCUMULATE);
    AccumulateIsLoop();
    PrologueCaptures(t, ACCUMULATE, m);
    var m0 := ExecAll(t.kernel, m, Actions(t, p.prologue, 0));
    var m1 := ExecAll(t.kernel, m0, IterTrace(t, p, 0, true));
    var m2 := ExecAll(t.kernel, m1, IterTrace(t, p, 1, false));
    AccumulateStep(m0, 0, true);
    AccumulateStep(m1, 1, false);
    LoopStep(t, ACCUMULATE, m0, 0, true);
    LoopStep(t, ACCUMULATE, m1, 1, false);
    ExecNothing(t.kernel, m2);
  }

  lemma AccumulateStep(m: Mem, iv: int, toggle: bool)
    ensures var t := Accumulate();
      var m' := ExecAll(t.kernel, m, IterTrace(t, AsDoubleBuffered(ACCUMULATE), iv, toggle));
      m'[Ddr(0)] == m[Cell(This(toggle), 0, 0)] + 1
        && (NextExists(Accumulate(), iv) ==> m'[Cell(This(!toggle), 0, 0)] == m[Ddr(0)])
  {
    hide ExecAll, AsDoubleBuffered, IterTrace, DbBody;
    AccumulateIndices();
    AccumulateStore(Single, iv);
    SubKernelEffect(Accumulate(), ACCUMULATE, m, iv, toggle);
    AccumulateBody(m, This(toggle), iv);
  }

  // The recogniser accepts this loop, and the rewrite loses one of its two increments.
  lemma AccumulationIsLost(m: Mem)
    ensures !ACCUMULATE_HEAD.hasInitArgs && IsZeroBasedEvenlyDivisible(ACCUMULATE_HEAD)
            && Shape(ACCUMULATE_HEAD, ACCUMULATE_BODY, 1, 1)
    ensures TripletsOf(ACCUMULATE.triplets, ACCUMULATE_BODY) && StoresOf(ACCUMULATE.stores, ACCUMULATE_BODY, 4)
    ensures Loop(Accumulate(), ACCUMULATE)
    ensures ExecAll(Accumulate().kernel, m, SbTrace(Accumulate(), ACCUMULATE, 0))[Ddr(0)] == m[Ddr(0)] + 2
    ensures ExecAll(Accumulate().kernel, m, ProgramTrace(Accumulate(), AsDoubleBuffered(ACCUMULATE)))[Ddr(0)]
            == m[Ddr(0)] + 1
  {
    hide ExecAll;
    AccumulateIsLoop();
    AccumulateSingle(m);
    AccumulateDouble(m);
  }

  // ----- a loop that loads something else than its view -----

  // for iv in 0: load x[7] into the alloc of the view of x[0], store the alloc to x[0].
  const OTHER_BODY := [SubViewOp(0), AllocOp(1), CopyOp(5, 1), ForallOp, CopyOp(1, 0), YieldOp]
  const OTHER_HEAD := LoopHead(false, false, false, Some(0), Some(1), Some(1))
  const OTHER := Schedule([Triplet(0, 1, 5, 1)], [Store(1, 0)])

  ghost function Other(): Tiling {
    Tiling(Kernel([1], (iv: int, r: seq<seq<int>>) => r), (v: nat, iv: int, j: nat) => 0, (id: nat) => [7],
           (g: Tag, iv: int) => Transfer([], []), 1, 1)
  }

  // Load from address x, compute, store to address 0.
  function Through(x: int, side: Side): seq<Action> {
    [Copy([Ddr(x)], [Cell(side, 0, 0)]), Compute(side, 0), Copy([Cell(side, 0, 0)], [Ddr(0)])]
  }

  lemma ThreeSteps(k: Kernel, m: Mem, acts: seq<Action>)
    requires |acts| == 3
    ensures ExecAll(k, m, acts) == Exec(k, Exec(k, Exec(k, m, acts[0]), acts[1]), acts[2])
  {
    hide Exec;
    var a, b := acts[1..], acts[2..];
    assert a[1..] == b && b[1..] == [];
    var m2 := Exec(k, Exec(k, m, acts[0]), acts[1]);
    assert ExecAll(k, m2, b) == ExecAll(k, Exec(k, m2, b[0]), []);
  }

  lemma MoveOne(k: Kernel, m: Mem, src: Loc, dst: Loc)
    requires src != dst
    ensures Exec(k, m, Copy([src], [dst]))[dst] == m[src]
  {
    CopyStep(k, m, Copy([src], [dst]));
  }

  lemma ThroughMoves(m: Mem, x: int, side: Side)
    ensures ExecAll(Other().kernel, m, Through(x, side))[Ddr(0)] == m[Ddr(x)]
  {
    hide ExecAll, Kernel.Run;
    var k, acts := Other().kernel, Through(x, side);
    ThreeSteps(k, m, acts);
    var m1 := Exec(k, m, acts[0]);
    var m2 := Exec(k, m1, acts[1]);
    hide Exec;
    MoveOne(k, m, Ddr(x), Cell(side, 0, 0));
    OtherRun(m1, side);
    ComputeIsRun(k, m1, side);
    MoveOne(k, m2, Cell(side, 0, 0), Ddr(0));
  }

  lemma ComputeIsRun(k: Kernel, m: Mem, side: Side)
    ensures Exec(k, m, Compute(side, 0)) == k.Run(m, side, 0)
  {
  }

  lemma OtherRun(m: Mem, side: Side)
    ensures Other().kernel.Run(m, side, 0)[Cell(side, 0, 0)] == m[Cell(side, 0, 0)]
  {
    var k := Other().kernel;
    var r := k.Read(m, side);
    assert |r| == 1 && |r[0]| == 1 && r[0][0] == m[Cell(side, 0, 0)];
  }

  // The triplet's own values are its alloc and its view; value 5 is neither.
  lemma OtherIndices()
    ensures AllocIndex(OTHER.triplets, 1) == 0 && AllocIndex(OTHER.triplets, 0) == 1
            && ViewIndex(OTHER.triplets, 0) == 0
    ensures AllocIndex(OTHER.triplets, 5) == 1 && ViewIndex(OTHER.triplets, 5) == 1
  {
    var ts := OTHER.triplets;
    assert ts[1..] == [];
    assert AllocIndex([], 0) == 0 && AllocIndex([], 5) == 0 && ViewIndex([], 5) == 0;
  }

  lemma OtherPlaces(side: Side)
    ensures Other().ViewLocs(0, 0) == [Ddr(0)] && Other().BufLocs(side, 0) == [Cell(side, 0, 0)]
    ensures Other().OuterLocs(5) == [Ddr(7)]
  {
  }

  lemma OtherLoads()
    ensures SbLoads(Other(), OTHER, 0) == [Copy([Ddr(7)], [Cell(Single, 0, 0)])]
  {
    OtherIndices();
    OtherPlaces(Single);
    assert BodyLocs(Other(), OTHER, 5, 0) == [Ddr(7)] && BodyLocs(Other(), OTHER, 1, 0) == [Cell(Single, 0, 0)];
  }

  lemma OtherStores()
    ensures SbStores(Other(), OTHER, 0) == [Copy([Cell(Single, 0, 0)], [Ddr(0)])]
  {
    OtherIndices();
    OtherPlaces(Single);
    assert BodyLocs(Other(), OTHER, 0, 0) == [Ddr(0)] && BodyLocs(Other(), OTHER, 1, 0) == [Cell(Single, 0, 0)];
  }

  lemma OtherSingle()
    ensures SbTrace(Other(), OTHER, 0) == Through(7, Single)
  {
    hide SbLoads, SbStores;
    OtherLoads();
    OtherStores();
    assert SbTrace(Other(), OTHER, 1) == [];
  }

  lemma OtherPrologue()
    ensures Actions(Other(), AsDoubleBuffered(OTHER).prologue, 0) == [Copy([Ddr(0)], [Cell(Ping, 0, 0)])]
  {
    OtherPlaces(Ping);
    assert AsDoubleBuffered(OTHER).prologue[0] == CopyStmt(View(0, First), Buf(Ping, 0));
  }

  lemma OtherBody()
    ensures Actions(Other(), AsDoubleBuffered(OTHER).ping.body, 0)
            == [Compute(Ping, 0), Copy([Cell(Ping, 0, 0)], [Ddr(0)])]
  {
    OtherIndices();
    OtherPlaces(Ping);
    assert Stores(OTHER, Ping) == [CopyStmt(Buf(Ping, 0), View(0, Now))];
  }

  lemma OtherDouble()
    ensures ProgramTrace(Other(), AsDoubleBuffered(OTHER)) == Through(0, Ping)
  {
    hide Actions, AsDoubleBuffered;
    OtherPrologue();
    OtherBody();
    var t, p := Other(), AsDoubleBuffered(OTHER);
    assert LoopTrace(t, p, 1, p.ping.toggleNext) == [] && !NextExists(t, 0);
    assert IterTrace(t, p, 0, true) == Actions(t, p.ping.body, 0);
  }

  lemma OtherIsAccepted()
    ensures IsZeroBasedEvenlyDivisible(OTHER_HEAD) && Shape(OTHER_HEAD, OTHER_BODY, 1, 1)
    ensures TripletsOf(OTHER.triplets, OTHER_BODY) && StoresOf(OTHER.stores, OTHER_BODY, 4)
  {
  }

  lemma OtherIsUnwired()
    ensures !Wired(OTHER, [1])
  {
    assert OTHER.triplets[0].copySrc != OTHER.triplets[0].view;
  }

  // The recogniser accepts this loop too; the rewrite drops the copy's own source and loads the view.
  lemma OtherSourceIsDropped(m: Mem)
    ensures IsZeroBasedEvenlyDivisible(OTHER_HEAD) && Shape(OTHER_HEAD, OTHER_BODY, 1, 1)
    ensures TripletsOf(OTHER.triplets, OTHER_BODY) && StoresOf(OTHER.stores, OTHER_BODY, 4) && !Wired(OTHER, [1])
    ensures ExecAll(Other().kernel, m, SbTrace(Other(), OTHER, 0))[Ddr(0)] == m[Ddr(7)]
    ensures ExecAll(Other().kernel, m, ProgramTrace(Other(), AsDoubleBuffered(OTHER)))[Ddr(0)] == m[Ddr(0)]
  {
    hide ExecAll, ProgramTrace, SbTrace, AsDoubleBuffered, Shape, TripletsOf, StoresOf, Wired;
    OtherIsAccepted();
    OtherIsUnwired();
    OtherSingle();
    OtherDouble();
    ThroughMoves(m, 7, Single);
    ThroughMoves(m, 0, Ping);
  }
}
