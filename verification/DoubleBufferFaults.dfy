// Copies that do not become transfers, or become transfers of other places: what the waits
// that stay behind let through, and that it is not the memory of the loop.
module DoubleBufferFaults {
  import opened Arith
  import opened DmaMachine
  import opened DmaTransfers
  import opened DoubleBuffer
  import opened DoubleBufferStage1
  import opened DoubleBufferOverlap
  import opened DoubleBufferStage2
  import opened Basics

  // ----- the first wait without a start -----

  ghost predicate StraySpares(t: Tiling, l: Loc) { forall g, iv :: l !in t.stray(g, iv).dst }

  ghost predicate AllSpare(k: Kernel, acts: seq<Action>, l: Loc) {
    forall i :: 0 <= i < |acts| ==> Spares(k, acts[i], l)
  }

  lemma SpareAppend(k: Kernel, a: seq<Action>, b: seq<Action>, l: Loc)
    requires AllSpare(k, a, l) && AllSpare(k, b, l)
    ensures AllSpare(k, a + b, l)
  {
  }

  // l is main memory, or in the buffer of a load that is not started.
  ghost predicate Unloaded(ty: Types, l: Loc) { l.Ddr? || !LoadKind(ty, l.buf).RightOne? }

  lemma LoadsSpare(t: Tiling, n: nat, at: When, side: Side, ty: Types, iv: int, l: Loc)
    requires StraySpares(t, l) && Unloaded(ty, l)
    ensures AllSpare(t.kernel, Actions(t, StartLoads(Loads(n, at, side), side, ty), iv), l)
  {
    hide StartLoads, LoadKind;
    OnlyLoadStarts(n, at, side, ty);
  }

  lemma WaitsSpare(t: Tiling, cs: seq<Stmt>, iv: int, l: Loc)
    requires forall i :: 0 <= i < |cs| ==> cs[i].DmaWait?
    ensures AllSpare(t.kernel, Actions(t, cs, iv), l)
  {
  }

  lemma LeadSpares(t: Tiling, s: Schedule, ty: Types, l: Loc)
    requires StraySpares(t, l) && Unloaded(ty, l)
    ensures AllSpare(t.kernel, Lead(t, s, ty), l)
  {
    hide StartLoads, LoadKind, Actions, AllSpare;
    var p := DmaProgram(s, ty);
    LoadsSpare(t, |s.triplets|, First, Ping, ty, 0, l);
    LoadsSpare(t, |s.triplets|, Next, Pong, ty, 0, l);
    if NextExists(t, 0) {
      SpareAppend(t.kernel, Actions(t, p.prologue, 0), Actions(t, p.ping.prefetch, 0), l);
    } else {
      assert Lead(t, s, ty) == Actions(t, p.prologue, 0);
    }
  }

  lemma InitialSpared(k: Kernel, m: Mem, a: seq<Action>, w: Action, b: seq<Action>, l: Loc)
    requires AllSpare(k, a, l) && Spares(k, w, l)
    ensures Spared(k, Initial(a + [w] + b, m), |b|, l)
  {
    var todo := a + [w] + b;
    forall i | 0 <= i < |todo| - |b| ensures Spares(k, todo[i], l) {
      if i < |a| { assert todo[i] == a[i]; }
    }
  }

  // A load whose start was not created: a run that has not gone past the first wait for it,
  // or has just done so, finds the load's buffer as it was when the program began.
  lemma DroppedLoad(t: Tiling, s: Schedule, ty: Types, i: nat, j: nat, m: Mem, cs: seq<Choice>, end: State)
    returns (after: seq<Action>)
    requires t.step > 0 && 0 < t.ub && i < |s.triplets| && LoadKind(ty, i).NoStart? && StraySpares(t, Cell(Ping, i, j))
    requires Runs(t.kernel, Initial(ProgramTrace(t, DmaProgram(s, ty)), m), cs, end)
    ensures ProgramTrace(t, DmaProgram(s, ty)) == BeforeLoadWait(t, s, ty, i) + [Wait(LoadTag(Ping, i))] + after
    ensures |end.todo| >= |after| ==> end.mem[Cell(Ping, i, j)] == m[Cell(Ping, i, j)]
  {
    hide ProgramTrace, DmaProgram, Lead, LoadKind, Actions, Spared, AllSpare, Runs;
    var l := Cell(Ping, i, j);
    var waits := Actions(t, Waits(|s.triplets|, Ping)[..i], 0);
    after := LoadWait(t, s, ty, i);
    LeadSpares(t, s, ty, l);
    WaitsSpare(t, Waits(|s.triplets|, Ping)[..i], 0, l);
    SpareAppend(t.kernel, Lead(t, s, ty), waits, l);
    InitialSpared(t.kernel, m, BeforeLoadWait(t, s, ty, i), Wait(LoadTag(Ping, i)), after, l);
    if |end.todo| >= |after| {
      SparedStays(t.kernel, Initial(ProgramTrace(t, DmaProgram(s, ty)), m), cs, end, |after|, l);
    }
  }

  lemma StoresSpare(t: Tiling, s: Schedule, ty: Types, n: nat, side: Side, iv: int, d: int)
    requires n <= |s.stores| && Wired(s, t.kernel.sizes) && StraySpares(t, Ddr(d))
    requires forall q: nat :: q < n && StoreKind(s, ty, q).RightOne? ==> Ddr(d) !in StoredTo(t, s, Single, iv, q)
    ensures AllSpare(t.kernel, Actions(t, StoresDma(Stores(s, side)[..n], side, ty), iv), Ddr(d))
  {
    hide StoresDma, Stores, StoreKind, MapValue, Wired, RefLocs;
    OnlyStores(s, n, side, ty);
    var cs := StoresDma(Stores(s, side)[..n], side, ty);
    forall i | 0 <= i < |cs| ensures Spares(t.kernel, StmtAction(t, cs[i], iv), Ddr(d)) {
      assert OfAStore(cs[i], s, n, side, ty);
      if cs[i].DmaStart? { StoreTargets(t, s, side, iv, cs[i].tag.i, Ddr(d)); }
    }
  }

  lemma ComputeSpares(t: Tiling, n: nat, iv: int, d: int)
    ensures AllSpare(t.kernel, Actions(t, Waits(n, Ping) + [ComputeStmt(Ping)], iv), Ddr(d))
  {
  }

  // A store whose start was not created: a run up to its first wait, or just past it, finds
  // its target as it was when the program began, unless an earlier store writes there.
  lemma DroppedStore(t: Tiling, s: Schedule, ty: Types, q: nat, d: int, m: Mem, cs: seq<Choice>, end: State)
    returns (after: seq<Action>)
    requires t.step > 0 && 0 < t.ub && q < |s.stores| && StoreKind(s, ty, q).NoStart?
    requires Wired(s, t.kernel.sizes) && StraySpares(t, Ddr(d))
    requires forall p: nat :: p < q && StoreKind(s, ty, p).RightOne? ==> Ddr(d) !in StoredTo(t, s, Single, 0, p)
    requires Runs(t.kernel, Initial(ProgramTrace(t, DmaProgram(s, ty)), m), cs, end)
    ensures ProgramTrace(t, DmaProgram(s, ty)) == BeforeStoreWait(t, s, ty, q) + [Wait(StoreTag(Ping, q))] + after
    ensures |end.todo| >= |after| ==> end.mem[Ddr(d)] == m[Ddr(d)]
  {
    hide ProgramTrace, DmaProgram, Lead, StoreKind, Actions, Spared, AllSpare, StoresDma, StoredTo, Runs;
    var n, stores := |s.triplets|, StoresDma(Stores(s, Ping)[..q], Ping, ty);
    after := StoreWait(t, s, ty, q);
    LeadSpares(t, s, ty, Ddr(d));
    ComputeSpares(t, n, 0, d);
    StoresSpare(t, s, ty, q, Ping, 0, d);
    ActionsAppend(t, Waits(n, Ping) + [ComputeStmt(Ping)], stores, 0);
    var kernel := Actions(t, Waits(n, Ping) + [ComputeStmt(Ping)], 0);
    SpareAppend(t.kernel, kernel, Actions(t, stores, 0), Ddr(d));
    SpareAppend(t.kernel, Lead(t, s, ty), kernel + Actions(t, stores, 0), Ddr(d));
    InitialSpared(t.kernel, m, BeforeStoreWait(t, s, ty, q), Wait(StoreTag(Ping, q)), after, Ddr(d));
    if |end.todo| >= |after| {
      SparedStays(t.kernel, Initial(ProgramTrace(t, DmaProgram(s, ty)), m), cs, end, |after|, Ddr(d));
    }
  }

  // ----- the memory a completed run leaves -----

  // Stray transfers that move nothing.
  ghost function NoStrays(t: Tiling): Tiling { t.(stray := (g: Tag, iv: int) => Transfer([], [])) }

  ghost predicate StraysMoveNothing(t: Tiling) { forall g, iv :: t.stray(g, iv) == Transfer([], []) }

  lemma {:induction false} SparedByAll(k: Kernel, m: Mem, acts: seq<Action>, l: Loc)
    requires AllSpare(k, acts, l)
    ensures ExecAll(k, m, acts)[l] == m[l]
    decreases acts
  {
    if acts != [] {
      var a := acts[0];
      assert Spares(k, a, l);
      if (a.Copy? || a.Start?) && |a.src| == |a.dst| { CopiedElsewhere(m, a.src, a.dst, |a.src|, l); }
      forall i | 0 <= i < |acts| - 1 ensures Spares(k, acts[1..][i], l) { assert acts[1..][i] == acts[i + 1]; }
      SparedByAll(k, Exec(k, m, a), acts[1..], l);
    }
  }

  // A wait, a transfer of nothing, or a write-back from filled buffers: each address holds
  // what it held or what fills the buffers.
  ghost predicate FillsOnly(k: Kernel, a: Action, side: Side) {
    || a.Wait?
    || (a.Start? && a.src == [] == a.dst)
    || (a.Start? && FromCells(Copy(a.src, a.dst)) && forall j :: 0 <= j < |a.src| ==> k.Owns(side, a.src[j]))
  }

  ghost predicate OldOrFill(m: Mem, m': Mem, c: int) {
    (forall d: int :: m'[Ddr(d)] == m[Ddr(d)] || m'[Ddr(d)] == c) && SameCells(m, m')
  }

  lemma FillStep(k: Kernel, m: Mem, a: Action, side: Side, c: int)
    requires FillsOnly(k, a, side) && Filled(k, m, side, c)
    ensures OldOrFill(m, Exec(k, m, a), c)
  {
    if a.Start? && a.src != [] { CopyStep(k, m, Copy(a.src, a.dst)); }
    if a.Start? && a.src != [] {
      assert Exec(k, m, a) == Exec(k, m, Copy(a.src, a.dst));
      FromCellsStep(k, m, Copy(a.src, a.dst));
      forall d: int | Ddr(d) in a.dst ensures Exec(k, m, a)[Ddr(d)] == c {
        var j :| 0 <= j < |a.dst| && a.dst[j] == Ddr(d);
      }
    }
  }

  lemma {:induction false} FillsAll(k: Kernel, m: Mem, acts: seq<Action>, side: Side, c: int)
    requires Filled(k, m, side, c) && forall i :: 0 <= i < |acts| ==> FillsOnly(k, acts[i], side)
    ensures OldOrFill(m, ExecAll(k, m, acts), c)
    decreases acts
  {
    hide FillsOnly, Exec;
    if acts != [] {
      FillStep(k, m, acts[0], side, c);
      forall i | 0 <= i < |acts| - 1 ensures FillsOnly(k, acts[1..][i], side) { assert acts[1..][i] == acts[i + 1]; }
      FillsAll(k, Exec(k, m, acts[0]), acts[1..], side, c);
    }
  }

  lemma StoreFillsOnly(t: Tiling, s: Schedule, ty: Types, side: Side, iv: int, c: Stmt)
    requires Wired(s, t.kernel.sizes) && StoresAllowedAt(t, s, iv) && WritesBack(s) && StraysMoveNothing(t)
    requires OfAStore(c, s, |s.stores|, side, ty)
    ensures FillsOnly(t.kernel, StmtAction(t, c, iv), side)
  {
    hide StoreKind, StoresAllowedAt, WritesBack, Wired, MapValue, RefLocs, FromCells, Kernel.Owns;
    if c.DmaStart? { WriteBackShape(t, s, side, iv, c.tag.i); }
  }

  lemma StoresFillOnly(t: Tiling, s: Schedule, ty: Types, m: Mem, side: Side, iv: int, c: int)
    requires Wired(s, t.kernel.sizes) && StoresAllowedAt(t, s, iv) && WritesBack(s) && StraysMoveNothing(t)
    requires Filled(t.kernel, m, side, c)
    ensures OldOrFill(m, ExecAll(t.kernel, m, Actions(t, StoresDma(Stores(s, side), side, ty), iv)), c)
  {
    hide StoresDma, Stores, Wired, StoresAllowedAt, WritesBack, StraysMoveNothing, Filled, FillsOnly;
    var stores := StoresDma(Stores(s, side), side, ty);
    assert Stores(s, side)[..|s.stores|] == Stores(s, side);
    OnlyStores(s, |s.stores|, side, ty);
    var acts := Actions(t, stores, iv);
    forall i | 0 <= i < |acts| ensures FillsOnly(t.kernel, acts[i], side) {
      assert OfAStore(stores[i], s, |s.stores|, side, ty);
      StoreFillsOnly(t, s, ty, side, iv, stores[i]);
    }
    FillsAll(t.kernel, m, acts, side, c);
  }

  // A kernel of the DMA program, in three parts.
  ghost function Opening(t: Tiling, s: Schedule, ty: Types, iv: int, toggle: bool): seq<Action> {
    (if NextExists(t, iv) then Actions(t, StartLoads(Loads(|s.triplets|, Next, This(!toggle)), This(!toggle), ty), iv)
      else [])
    + Actions(t, Waits(|s.triplets|, This(toggle)), iv)
  }

  lemma IterationParts(t: Tiling, s: Schedule, ty: Types, iv: int, toggle: bool)
    ensures IterTrace(t, DmaProgram(s, ty), iv, toggle) ==
      Opening(t, s, ty, iv, toggle) + [Compute(This(toggle), iv)]
      + Actions(t, StoresDma(Stores(s, This(toggle)), This(toggle), ty), iv)
  {
    hide Actions, StoresDma, Stores, Loads, Waits, StartLoads;
    var side, n := This(toggle), |s.triplets|;
    var stores := StoresDma(Stores(s, side), side, ty);
    assert ([ComputeStmt(side)] + Stores(s, side))[1..] == Stores(s, side);
    ActionsAppend(t, Waits(n, side) + [ComputeStmt(side)], stores, iv);
    ActionsAppend(t, Waits(n, side), [ComputeStmt(side)], iv);
    ComputeAct(t, side, iv);
  }

  lemma OpeningSpares(t: Tiling, s: Schedule, ty: Types, iv: int, toggle: bool, l: Loc)
    requires StraysMoveNothing(t) && Unloaded(ty, l)
    ensures AllSpare(t.kernel, Opening(t, s, ty, iv, toggle), l)
  {
    hide Actions, StartLoads, Loads, AllSpare, Unloaded;
    LoadsSpare(t, |s.triplets|, Next, This(!toggle), ty, iv, l);
    WaitsSpare(t, Waits(|s.triplets|, This(toggle)), iv, l);
    var starts := if NextExists(t, iv)
      then Actions(t, StartLoads(Loads(|s.triplets|, Next, This(!toggle)), This(!toggle), ty), iv) else [];
    NothingSpares(t.kernel, l);
    SpareAppend(t.kernel, starts, Actions(t, Waits(|s.triplets|, This(toggle)), iv), l);
  }

  lemma NothingSpares(k: Kernel, l: Loc)
    ensures AllSpare(k, [], l)
  {
  }

  // The memory the compute of an iteration sees.
  ghost function AtCompute(t: Tiling, s: Schedule, ty: Types, m: Mem, iv: int, toggle: bool): Mem {
    ExecAll(t.kernel, m, Opening(t, s, ty, iv, toggle))
  }

  lemma ExecIteration(t: Tiling, s: Schedule, ty: Types, m: Mem, iv: int, toggle: bool)
    ensures ExecAll(t.kernel, m, IterTrace(t, DmaProgram(s, ty), iv, toggle)) ==
      ExecAll(t.kernel, t.kernel.Run(AtCompute(t, s, ty, m, iv, toggle), This(toggle), iv),
              Actions(t, StoresDma(Stores(s, This(toggle)), This(toggle), ty), iv))
  {
    hide Actions, StoresDma, Opening, ExecAll;
    var side := This(toggle);
    var stores := Actions(t, StoresDma(Stores(s, side), side, ty), iv);
    IterationParts(t, s, ty, iv, toggle);
    ExecAppend(t.kernel, m, Opening(t, s, ty, iv, toggle) + [Compute(side, iv)], stores);
    ExecAppend(t.kernel, m, Opening(t, s, ty, iv, toggle), [Compute(side, iv)]);
    ExecOne(t.kernel, AtCompute(t, s, ty, m, iv, toggle), Compute(side, iv));
  }

  // One iteration, if its compute fills the buffers with c: each address holds what it held
  // or c, and the other buffers of a load that does not move are untouched.
  lemma FilledIteration(t: Tiling, s: Schedule, ty: Types, m: Mem, iv: int, toggle: bool, c: int)
    requires Wired(s, t.kernel.sizes) && StoresAllowedAt(t, s, iv) && WritesBack(s) && StraysMoveNothing(t)
    requires t.kernel.f(iv, t.kernel.Read(AtCompute(t, s, ty, m, iv, toggle), This(toggle))) == Fill(t.kernel.sizes, c)
    ensures var m' := ExecAll(t.kernel, m, IterTrace(t, DmaProgram(s, ty), iv, toggle));
      && (forall d: int :: m'[Ddr(d)] == m[Ddr(d)] || m'[Ddr(d)] == c)
      && Filled(t.kernel, m', This(toggle), c)
      && forall l: Loc :: l.Cell? && l.side != This(toggle) && Unloaded(ty, l) ==> m'[l] == m[l]
  {
    hide Wired, StoresAllowedAt, WritesBack, StraysMoveNothing, ExecAll, Opening, StoresDma, Stores, Actions, IterTrace,
      DmaProgram;
    var side := This(toggle);
    var seen := AtCompute(t, s, ty, m, iv, toggle);
    var ran := t.kernel.Run(seen, side, iv);
    RunFills(t.kernel, seen, side, iv, c);
    ExecIteration(t, s, ty, m, iv, toggle);
    StoresFillOnly(t, s, ty, ran, side, iv, c);
    forall l: Loc | Unloaded(ty, l) ensures seen[l] == m[l] {
      OpeningSpares(t, s, ty, iv, toggle, l);
      SparedByAll(t.kernel, m, Opening(t, s, ty, iv, toggle), l);
    }
    hide Unloaded, Kernel.Run;
    var stored := ExecAll(t.kernel, ran, Actions(t, StoresDma(Stores(s, side), side, ty), iv));
    FilledAfter(t, ty, m, seen, ran, stored, side, c);
  }

  lemma FilledAfter(t: Tiling, ty: Types, m: Mem, seen: Mem, ran: Mem, m': Mem, side: Side, c: int)
    requires forall l: Loc :: Unloaded(ty, l) ==> seen[l] == m[l]
    requires OnlyOwned(t.kernel, side, seen, ran) && Filled(t.kernel, ran, side, c) && OldOrFill(ran, m', c)
    ensures forall d: int :: m'[Ddr(d)] == m[Ddr(d)] || m'[Ddr(d)] == c
    ensures Filled(t.kernel, m', side, c)
    ensures forall l: Loc :: l.Cell? && l.side != side && Unloaded(ty, l) ==> m'[l] == m[l]
  {
    forall d: int ensures m'[Ddr(d)] == m[Ddr(d)] || m'[Ddr(d)] == c {
      assert Unloaded(ty, Ddr(d)) && !t.kernel.Owns(side, Ddr(d));
    }
    forall l: Loc | l.Cell? && l.side != side && Unloaded(ty, l) ensures m'[l] == m[l] {
      assert !t.kernel.Owns(side, l);
    }
  }

  lemma DmaStep(t: Tiling, s: Schedule, ty: Types, m: Mem, iv: int, toggle: bool)
    requires t.step > 0 && iv < t.ub
    ensures LoopTrace(t, DmaProgram(s, ty), iv, toggle) ==
      IterTrace(t, DmaProgram(s, ty), iv, toggle) + LoopTrace(t, DmaProgram(s, ty), iv + t.step, !toggle)
    ensures ExecAll(t.kernel, m, LoopTrace(t, DmaProgram(s, ty), iv, toggle)) ==
      ExecAll(t.kernel, ExecAll(t.kernel, m, IterTrace(t, DmaProgram(s, ty), iv, toggle)),
              LoopTrace(t, DmaProgram(s, ty), iv + t.step, !toggle))
  {
    hide IterTrace, ExecAll, StartLoads, StoresDma, Waits;
    ExecAppend(t.kernel, m, IterTrace(t, DmaProgram(s, ty), iv, toggle),
      LoopTrace(t, DmaProgram(s, ty), iv + t.step, !toggle));
  }

  // ----- every start moves as many elements as it takes -----

  lemma LoadsEven(t: Tiling, n: nat, at: When, side: Side, ty: Types, iv: int)
    requires StraysMoveNothing(t)
    ensures EvenStarts(Actions(t, StartLoads(Loads(n, at, side), side, ty), iv))
  {
    hide StartLoads, LoadKind;
    OnlyLoadStarts(n, at, side, ty);
  }

  lemma StoresEven(t: Tiling, s: Schedule, ty: Types, side: Side, iv: int)
    requires StraysMoveNothing(t) && Wired(s, t.kernel.sizes) && StoresAllowedAt(t, s, iv)
    ensures EvenStarts(Actions(t, StoresDma(Stores(s, side), side, ty), iv))
  {
    hide StoresDma, Stores, StoreKind, MapValue, RefLocs, Wired, StoresAllowedAt;
    var cs := StoresDma(Stores(s, side), side, ty);
    assert Stores(s, side)[..|s.stores|] == Stores(s, side);
    OnlyStores(s, |s.stores|, side, ty);
    forall i | 0 <= i < |cs| ensures StmtAction(t, cs[i], iv).Start? ==>
      |StmtAction(t, cs[i], iv).src| == |StmtAction(t, cs[i], iv).dst|
    {
      assert OfAStore(cs[i], s, |s.stores|, side, ty);
      if cs[i].DmaStart? { StoreShape(t, s, side, iv, cs[i].tag.i); }
    }
  }

  lemma EvenAppend(a: seq<Action>, b: seq<Action>)
    requires EvenStarts(a) && EvenStarts(b)
    ensures EvenStarts(a + b)
  {
  }

  lemma WaitsEven(t: Tiling, n: nat, side: Side, iv: int)
    ensures EvenStarts(Actions(t, Waits(n, side), iv)) && EvenStarts([Compute(side, iv)]) && EvenStarts([])
  {
  }

  lemma IterationEven(t: Tiling, s: Schedule, ty: Types, iv: int, toggle: bool)
    requires StraysMoveNothing(t) && Wired(s, t.kernel.sizes) && StoresAllowedAt(t, s, iv)
    ensures EvenStarts(IterTrace(t, DmaProgram(s, ty), iv, toggle))
  {
    hide Actions, StartLoads, StoresDma, Stores, Loads, Waits, EvenStarts, IterTrace, DmaProgram, Wired,
      StoresAllowedAt, StraysMoveNothing;
    var side, next, n := This(toggle), This(!toggle), |s.triplets|;
    LoadsEven(t, n, Next, next, ty, iv);
    WaitsEven(t, n, side, iv);
    StoresEven(t, s, ty, side, iv);
    IterationParts(t, s, ty, iv, toggle);
    var starts := if NextExists(t, iv) then Actions(t, StartLoads(Loads(n, Next, next), next, ty), iv) else [];
    var stores := Actions(t, StoresDma(Stores(s, side), side, ty), iv);
    EvenAppend(starts, Actions(t, Waits(n, side), iv));
    EvenAppend(Opening(t, s, ty, iv, toggle), [Compute(side, iv)]);
    EvenAppend(Opening(t, s, ty, iv, toggle) + [Compute(side, iv)], stores);
  }

  lemma {:induction false} LoopEven(t: Tiling, s: Schedule, ty: Types, m: Mem, iv: int, toggle: bool)
    requires StraysMoveNothing(t) && Loop(t, s) && 0 <= iv && Multiple(iv, t.step)
    ensures EvenStarts(LoopTrace(t, DmaProgram(s, ty), iv, toggle))
    decreases t.ub - iv
  {
    hide Wired, StoresAllowed, StoresAllowedAt, WritesBack, EvenStarts, IterTrace, DmaProgram, StraysMoveNothing,
      ExecAll;
    if iv >= t.ub {
      WaitsEven(t, 0, Ping, 0);
    } else {
      AllowedHere(t, s, iv);
      IterationEven(t, s, ty, iv, toggle);
      NextExistsIff(t, iv);
      LoopEven(t, s, ty, m, iv + t.step, !toggle);
      DmaStep(t, s, ty, m, iv, toggle);
      EvenAppend(IterTrace(t, DmaProgram(s, ty), iv, toggle), LoopTrace(t, DmaProgram(s, ty), iv + t.step, !toggle));
    }
  }

  // The run in which the engine is quick and every wait returns.
  lemma CompletedRun(t: Tiling, s: Schedule, ty: Types, m: Mem) returns (cs: seq<Choice>, end: State)
    requires StraysMoveNothing(t) && Loop(t, s) && 0 < t.ub
    ensures Runs(t.kernel, Initial(ProgramTrace(t, DmaProgram(s, ty)), m), cs, end) && end.todo == []
    ensures end.mem == ExecAll(t.kernel, AfterPrologue(t, s, ty, m), LoopTrace(t, DmaProgram(s, ty), 0, true))
  {
    hide Wired, StoresAllowed, WritesBack, EvenStarts, StartLoads, LoopTrace, StraysMoveNothing, Runs, Actions, ExecAll;
    var first := Actions(t, DmaProgram(s, ty).prologue, 0);
    LoadsEven(t, |s.triplets|, First, Ping, ty, 0);
    LoopEven(t, s, ty, m, 0, true);
    EvenAppend(first, LoopTrace(t, DmaProgram(s, ty), 0, true));
    cs, end := QuickRun(t.kernel, Initial(ProgramTrace(t, DmaProgram(s, ty)), m));
    ExecAppend(t.kernel, m, first, LoopTrace(t, DmaProgram(s, ty), 0, true));
  }

  ghost function AfterPrologue(t: Tiling, s: Schedule, ty: Types, m: Mem): Mem {
    ExecAll(t.kernel, m, Actions(t, DmaProgram(s, ty).prologue, 0))
  }

  lemma PrologueSpares(t: Tiling, s: Schedule, ty: Types, m: Mem, l: Loc)
    requires StraysMoveNothing(t) && Unloaded(ty, l)
    ensures AfterPrologue(t, s, ty, m)[l] == m[l]
  {
    hide Actions, StartLoads, Unloaded;
    LoadsSpare(t, |s.triplets|, First, Ping, ty, 0, l);
    SparedByAll(t.kernel, m, Actions(t, DmaProgram(s, ty).prologue, 0), l);
  }

  // ----- a load that does not move -----

  // No address holds a tile's mark, and the buffers of load i hold no value of a tile.
  ghost predicate Broken(t: Tiling, m: Mem, i: nat) {
    && (forall d: int :: m[Ddr(d)] <= 0)
    && forall side, j: nat :: side != Single && i < |t.kernel.sizes| && j < t.kernel.sizes[i] ==>
      m[Cell(side, i, j)] < 0
  }

  lemma {:induction false} LastAtLeastZero(t: Tiling, s: Schedule, iv: int, d: int)
    requires t.step > 0 && 0 <= iv && Multiple(iv, t.step)
    ensures Last(t, s, iv, d) >= 0
    decreases iv
  {
    if iv > 0 { LastAtLeastZero(t, s, iv - t.step, d); }
  }

  lemma BrokenTile(t: Tiling, s: Schedule, ty: Types, m: Mem, iv: int, toggle: bool, i: nat)
    requires t.step > 0 && 0 <= iv && Multiple(iv, t.step) && Marks(t, s) && StraysMoveNothing(t)
    requires i < |t.kernel.sizes| && t.kernel.sizes[i] > 0 && !LoadKind(ty, i).RightOne? && Broken(t, m, i)
    ensures t.kernel.f(iv, t.kernel.Read(AtCompute(t, s, ty, m, iv, toggle), This(toggle))) ==
            Fill(t.kernel.sizes, -(iv + 1))
  {
    hide Opening, ExecAll, LoadKind, Multiple;
    var l := Cell(This(toggle), i, 0);
    OpeningSpares(t, s, ty, iv, toggle, l);
    SparedByAll(t.kernel, m, Opening(t, s, ty, iv, toggle), l);
    LastAtLeastZero(t, s, iv, t.addr(i, iv, 0));
    var r := t.kernel.Read(AtCompute(t, s, ty, m, iv, toggle), This(toggle));
    assert r[i][0] < 0 <= Fresh(t, s, iv)[i][0];
  }

  lemma BrokenIteration(t: Tiling, s: Schedule, ty: Types, m: Mem, iv: int, toggle: bool, i: nat)
    requires Loop(t, s) && Marks(t, s) && StraysMoveNothing(t) && IsTile(t, iv)
    requires i < |t.kernel.sizes| && t.kernel.sizes[i] > 0 && !LoadKind(ty, i).RightOne? && Broken(t, m, i)
    ensures Broken(t, ExecAll(t.kernel, m, IterTrace(t, DmaProgram(s, ty), iv, toggle)), i)
  {
    hide Wired, StoresAllowed, StoresAllowedAt, WritesBack, Marks, StraysMoveNothing, ExecAll, IterTrace, DmaProgram,
      LoadKind, AtCompute;
    AllowedHere(t, s, iv);
    BrokenTile(t, s, ty, m, iv, toggle, i);
    FilledIteration(t, s, ty, m, iv, toggle, -(iv + 1));
  }

  lemma {:induction false} BrokenLoop(t: Tiling, s: Schedule, ty: Types, m: Mem, iv: int, toggle: bool, i: nat)
    requires Loop(t, s) && Marks(t, s) && StraysMoveNothing(t) && 0 <= iv && Multiple(iv, t.step)
    requires i < |t.kernel.sizes| && t.kernel.sizes[i] > 0 && !LoadKind(ty, i).RightOne? && Broken(t, m, i)
    ensures Broken(t, ExecAll(t.kernel, m, LoopTrace(t, DmaProgram(s, ty), iv, toggle)), i)
    decreases t.ub - iv
  {
    hide Wired, StoresAllowed, WritesBack, Marks, StraysMoveNothing, IterTrace, DmaProgram, LoadKind, Broken;
    if iv < t.ub {
      BrokenIteration(t, s, ty, m, iv, toggle, i);
      NextExistsIff(t, iv);
      BrokenLoop(t, s, ty, ExecAll(t.kernel, m, IterTrace(t, DmaProgram(s, ty), iv, toggle)), iv + t.step, !toggle, i);
      DmaStep(t, s, ty, m, iv, toggle);
    }
  }

  // An address some tile stores holds a tile's mark when the original loop is done.
  lemma {:induction false} LastPositive(t: Tiling, s: Schedule, iv: int, d: int, upTo: int)
    requires t.step > 0 && 0 <= iv && Multiple(iv, t.step) && iv < upTo && Multiple(upTo, t.step) && Stored(t, s, iv, d)
    ensures Last(t, s, upTo, d) > 0
    decreases upTo
  {
    hide Stored;
    MultipleGap(iv, upTo, t.step);
    if !Stored(t, s, upTo - t.step, d) { LastPositive(t, s, iv, d, upTo - t.step); }
  }

  // Zero in main memory, minus one in every buffer.
  ghost function Marked(): Mem { imap l: Loc | true :: if l.Ddr? then 0 else -1 }

  // A load that is not started, or moves other places than its own: for some kernel and some
  // memory, a run that gets through every wait leaves another main memory than the loop.
  lemma LostLoadChangesMemory(t: Tiling, s: Schedule, ty: Types, i: nat, iv: int, d: int)
    returns (t': Tiling, m: Mem, cs: seq<Choice>, end: State)
    requires Loop(t, s) && i < |t.kernel.sizes| && t.kernel.sizes[i] > 0 && !LoadKind(ty, i).RightOne?
    requires IsTile(t, iv) && Stored(t, s, iv, d)
    ensures SameTiles(t, t') && Runs(t'.kernel, Initial(ProgramTrace(t', DmaProgram(s, ty)), m), cs, end)
            && end.todo == []
    ensures !SameDdr(ExecAll(t'.kernel, m, SbTrace(t', s, 0)), end.mem)
  {
    hide Wired, StoresAllowed, WritesBack, ExecAll, SbTrace, LoadKind, Stored, DmaProgram, Runs, Last, ProgramTrace,
      LoopTrace, AfterPrologue;
    var t0 := NoStrays(t);
    t' := t0.(kernel := MarkingKernel(t0, s));
    m := Marked();
    MarkingMarks(t0, s);
    MarksAreFresh(t', s);
    hide Marks, MarksFresh;
    SameLoop(t, t', s);
    SameStored(t, t', s, iv, d);
    cs, end := CompletedRun(t', s, ty, m);
    forall l: Loc | Unloaded(ty, l) ensures AfterPrologue(t', s, ty, m)[l] == m[l] { PrologueSpares(t', s, ty, m, l); }
    StartsBroken(t', ty, m, AfterPrologue(t', s, ty, m), i);
    BrokenLoop(t', s, ty, AfterPrologue(t', s, ty, m), 0, true, i);
    ZeroHas(t', s, m);
    OriginalRun(t', s, m, 0);
    LastPositive(t', s, iv, d, t'.ub);
    assert ExecAll(t'.kernel, m, SbTrace(t', s, 0))[Ddr(d)] != end.mem[Ddr(d)];
  }

  lemma StartsBroken(t: Tiling, ty: Types, m: Mem, m': Mem, i: nat)
    requires m == Marked() && !LoadKind(ty, i).RightOne? && forall l: Loc :: Unloaded(ty, l) ==> m'[l] == m[l]
    ensures Broken(t, m', i)
  {
    hide LoadKind;
    forall d: int ensures m'[Ddr(d)] <= 0 { assert Unloaded(ty, Ddr(d)); }
    forall side, j: nat ensures m'[Cell(side, i, j)] < 0 { assert Unloaded(ty, Cell(side, i, j)); }
  }

  // ----- a store that does not move -----

  ghost predicate AtMost(m: Mem, c: int) { forall d: int :: m[Ddr(d)] <= c }

  // The kernel that writes iv + 1 whatever it reads.
  ghost function CountingKernel(sizes: seq<nat>): Kernel {
    Kernel(sizes, (iv: int, r: seq<seq<int>>) => Fill(sizes, iv + 1))
  }

  // No store that moves what it should has d among its targets in tile iv.
  ghost predicate Unstored(t: Tiling, s: Schedule, ty: Types, iv: int, d: int) {
    forall q: nat :: q < |s.stores| && StoreKind(s, ty, q).RightOne? ==> Ddr(d) !in StoredTo(t, s, Single, iv, q)
  }

  lemma CountingIteration(t: Tiling, s: Schedule, ty: Types, m: Mem, iv: int, toggle: bool)
    requires Loop(t, s) && StraysMoveNothing(t) && IsTile(t, iv) && t.kernel == CountingKernel(t.kernel.sizes)
    requires AtMost(m, iv)
    ensures AtMost(ExecAll(t.kernel, m, IterTrace(t, DmaProgram(s, ty), iv, toggle)), iv + t.step)
  {
    hide Wired, StoresAllowed, StoresAllowedAt, WritesBack, StraysMoveNothing, ExecAll, IterTrace, DmaProgram,
      AtCompute;
    AllowedHere(t, s, iv);
    FilledIteration(t, s, ty, m, iv, toggle, iv + 1);
  }

  lemma IterationSparesUnstored(t: Tiling, s: Schedule, ty: Types, iv: int, toggle: bool, d: int)
    requires Wired(s, t.kernel.sizes) && StraysMoveNothing(t) && Unstored(t, s, ty, iv, d)
    ensures AllSpare(t.kernel, IterTrace(t, DmaProgram(s, ty), iv, toggle), Ddr(d))
  {
    hide Wired, AllSpare, IterTrace, DmaProgram, Opening, Actions, StoresDma, Stores, StoreKind, StoredTo;
    var side := This(toggle);
    assert Stores(s, side)[..|s.stores|] == Stores(s, side);
    OpeningSpares(t, s, ty, iv, toggle, Ddr(d));
    StoresSpare(t, s, ty, |s.stores|, side, iv, d);
    ComputeSparesDdr(t.kernel, side, iv, d);
    IterationParts(t, s, ty, iv, toggle);
    var stores := Actions(t, StoresDma(Stores(s, side), side, ty), iv);
    SpareAppend(t.kernel, Opening(t, s, ty, iv, toggle), [Compute(side, iv)], Ddr(d));
    SpareAppend(t.kernel, Opening(t, s, ty, iv, toggle) + [Compute(side, iv)], stores, Ddr(d));
  }

  lemma ComputeSparesDdr(k: Kernel, side: Side, iv: int, d: int)
    ensures AllSpare(k, [Compute(side, iv)], Ddr(d))
  {
  }

  lemma {:induction false} CountingLoop(t: Tiling, s: Schedule, ty: Types, m: Mem, iv: int, toggle: bool, d: int)
    requires Loop(t, s) && StraysMoveNothing(t) && 0 <= iv < t.ub && Multiple(iv, t.step)
    requires t.kernel == CountingKernel(t.kernel.sizes) && AtMost(m, iv) && Unstored(t, s, ty, t.ub - t.step, d)
    ensures ExecAll(t.kernel, m, LoopTrace(t, DmaProgram(s, ty), iv, toggle))[Ddr(d)] <= t.ub - t.step
    decreases t.ub - iv
  {
    hide Wired, StoresAllowed, WritesBack, StraysMoveNothing, IterTrace, DmaProgram, Unstored, CountingKernel;
    var m' := ExecAll(t.kernel, m, IterTrace(t, DmaProgram(s, ty), iv, toggle));
    DmaStep(t, s, ty, m, iv, toggle);
    NextExistsIff(t, iv);
    if iv + t.step < t.ub {
      CountingIteration(t, s, ty, m, iv, toggle);
      CountingLoop(t, s, ty, m', iv + t.step, !toggle, d);
    } else {
      IterationSparesUnstored(t, s, ty, iv, toggle, d);
      SparedByAll(t.kernel, m, IterTrace(t, DmaProgram(s, ty), iv, toggle), Ddr(d));
      ExecNothing(t.kernel, m');
    }
  }

  // A store that is not started, or moves other places than its own, with a target in the
  // last tile that no store that does move has: again some completed run leaves another memory.
  lemma LostStoreChangesMemory(t: Tiling, s: Schedule, ty: Types, d: int)
    returns (t': Tiling, m: Mem, cs: seq<Choice>, end: State)
    requires Loop(t, s) && 0 < t.ub && Stored(t, s, t.ub - t.step, d) && Unstored(t, s, ty, t.ub - t.step, d)
    ensures SameTiles(t, t') && Runs(t'.kernel, Initial(ProgramTrace(t', DmaProgram(s, ty)), m), cs, end)
            && end.todo == []
    ensures !SameDdr(ExecAll(t'.kernel, m, SbTrace(t', s, 0)), end.mem)
  {
    hide *;
    CountingReady(t, s, ty, d);
    t', m := Counting(t), Marked();
    cs, end := CountedRun(t', s, ty, m, d);
  }

  lemma CountingReady(t: Tiling, s: Schedule, ty: Types, d: int)
    requires Loop(t, s) && 0 < t.ub && Stored(t, s, t.ub - t.step, d) && Unstored(t, s, ty, t.ub - t.step, d)
    ensures var t' := Counting(t);
      && SameTiles(t, t') && Loop(t', s) && t'.step > 0 && 0 < t'.ub
      && StraysMoveNothing(t') && t'.kernel == CountingKernel(t'.kernel.sizes)
      && Stored(t', s, t'.ub - t'.step, d) && Unstored(t', s, ty, t'.ub - t'.step, d)
  {
    hide *;
    LoopHasSteps(t, s);
    CountingIs(t);
    SameLoop(t, Counting(t), s);
    SameStored(t, Counting(t), s, t.ub - t.step, d);
    SameUnstored(t, Counting(t), s, ty, t.ub - t.step, d);
  }

  lemma CountedRun(t: Tiling, s: Schedule, ty: Types, m: Mem, d: int) returns (cs: seq<Choice>, end: State)
    requires Loop(t, s) && StraysMoveNothing(t) && t.kernel == CountingKernel(t.kernel.sizes) && m == Marked()
    requires 0 < t.ub && Stored(t, s, t.ub - t.step, d) && Unstored(t, s, ty, t.ub - t.step, d)
    ensures Runs(t.kernel, Initial(ProgramTrace(t, DmaProgram(s, ty)), m), cs, end) && end.todo == []
    ensures !SameDdr(ExecAll(t.kernel, m, SbTrace(t, s, 0)), end.mem)
  {
    hide *;
    LoopHasSteps(t, s);
    cs, end := CompletedRun(t, s, ty, m);
    CountedOriginal(t, s, m, d);
    CountedLess(t, s, ty, m, d);
    OneAddress(ExecAll(t.kernel, m, SbTrace(t, s, 0)), end.mem, d);
  }

  ghost function Counting(t: Tiling): Tiling { NoStrays(t).(kernel := CountingKernel(t.kernel.sizes)) }

  lemma CountingIs(t: Tiling)
    ensures var t' := Counting(t);
      && SameTiles(t, t') && StraysMoveNothing(t') && t'.kernel == CountingKernel(t'.kernel.sizes)
      && t'.ub == t.ub && t'.step == t.step
  {
  }

  lemma LoopHasSteps(t: Tiling, s: Schedule)
    requires Loop(t, s)
    ensures t.step > 0
  {
  }

  lemma OneAddress(m: Mem, m': Mem, d: int)
    requires m[Ddr(d)] != m'[Ddr(d)]
    ensures !SameDdr(m, m')
  {
  }

  // The last tile of the original loop leaves its count at the address.
  lemma CountedOriginal(t: Tiling, s: Schedule, m: Mem, d: int)
    requires Loop(t, s) && t.kernel == CountingKernel(t.kernel.sizes) && m == Marked()
    requires 0 < t.ub && Stored(t, s, t.ub - t.step, d)
    ensures ExecAll(t.kernel, m, SbTrace(t, s, 0))[Ddr(d)] == t.ub - t.step + 1
  {
    LoopHasSteps(t, s);
    CountsFresh(t, s);
    MarkedHasLast(t, s, m);
    LastMark(t, s, d);
    hide *;
    OriginalRun(t, s, m, 0);
    ReadLast(t, s, ExecAll(t.kernel, m, SbTrace(t, s, 0)), t.ub, d);
  }

  lemma MarkedHasLast(t: Tiling, s: Schedule, m: Mem)
    requires t.step > 0 && m == Marked()
    ensures HasLast(t, s, m, 0) && Multiple(0, t.step)
  {
    ZeroHas(t, s, m);
  }

  lemma LastMark(t: Tiling, s: Schedule, d: int)
    requires t.step > 0 && 0 < t.ub && Stored(t, s, t.ub - t.step, d)
    ensures Last(t, s, t.ub, d) == t.ub - t.step + 1 && EndOf(t) == t.ub
  {
    hide Stored;
  }

  lemma ReadLast(t: Tiling, s: Schedule, m: Mem, iv: int, d: int)
    requires t.step > 0 && HasLast(t, s, m, iv)
    ensures m[Ddr(d)] == Last(t, s, iv, d)
  {
  }

  lemma CountsFresh(t: Tiling, s: Schedule)
    requires t.step > 0 && t.kernel == CountingKernel(t.kernel.sizes)
    ensures MarksFresh(t, s)
  {
    hide Fresh;
  }

  lemma CountedLess(t: Tiling, s: Schedule, ty: Types, m: Mem, d: int)
    requires Loop(t, s) && StraysMoveNothing(t) && t.kernel == CountingKernel(t.kernel.sizes) && m == Marked()
    requires 0 < t.ub && Unstored(t, s, ty, t.ub - t.step, d)
    ensures ExecAll(t.kernel, AfterPrologue(t, s, ty, m), LoopTrace(t, DmaProgram(s, ty), 0, true))[Ddr(d)]
            <= t.ub - t.step
  {
    hide Wired, StoresAllowed, WritesBack, ExecAll, Unstored, DmaProgram, LoopTrace, AfterPrologue, StraysMoveNothing;
    forall x: int ensures AfterPrologue(t, s, ty, m)[Ddr(x)] == m[Ddr(x)] { PrologueSpares(t, s, ty, m, Ddr(x)); }
    CountingLoop(t, s, ty, AfterPrologue(t, s, ty, m), 0, true, d);
  }

  lemma SameUnstored(t: Tiling, t': Tiling, s: Schedule, ty: Types, iv: int, d: int)
    requires SameTiles(t, t') && Unstored(t, s, ty, iv, d)
    ensures Unstored(t', s, ty, iv, d)
  {
    hide StoreKind, StoredFrom, StoredTo;
    forall q: nat | q < |s.stores| ensures StoredTo(t', s, Single, iv, q) == StoredTo(t, s, Single, iv, q) {
      SameXfer(t, t', s, iv, q);
    }
  }

  // ----- when the completed runs are right -----

  // A run of the DMA program of t, with stray transfers and the kernel of t'.
  ghost predicate CompletedRight(t': Tiling, s: Schedule, ty: Types, m: Mem, cs: seq<Choice>, end: State)
    requires t'.step > 0
  {
    Runs(t'.kernel, Initial(ProgramTrace(t', DmaProgram(s, ty)), m), cs, end) && end.todo == [] ==>
      SameDdr(ExecAll(t'.kernel, m, SbTrace(t', s, 0)), end.mem)
  }

  ghost predicate AlwaysRight(t: Tiling, s: Schedule, ty: Types)
    requires t.step > 0
  {
    forall t', m, cs, end :: SameTiles(t, t') ==> CompletedRight(t', s, ty, m, cs, end)
  }

  // Each store has in the last tile a target no other store has.
  ghost predicate StoresApart(t: Tiling, s: Schedule) {
    forall q: nat :: q < |s.stores| ==> HasOwnTarget(t, s, q)
  }

  ghost predicate HasOwnTarget(t: Tiling, s: Schedule, q: nat) { exists d :: OwnTarget(t, s, q, d) }

  ghost predicate OwnTarget(t: Tiling, s: Schedule, q: nat, d: int) {
    forall p: nat :: p < |s.stores| ==> (Targets(t, s, p, d) <==> p == q)
  }

  ghost predicate Targets(t: Tiling, s: Schedule, p: nat, d: int)
    requires p < |s.stores|
  {
    Ddr(d) in StoredTo(t, s, Single, t.ub - t.step, p)
  }

  lemma OwnIsStored(t: Tiling, s: Schedule, q: nat, d: int)
    requires q < |s.stores| && OwnTarget(t, s, q, d)
    ensures Stored(t, s, t.ub - t.step, d)
  {
    hide StoredTo;
    assert Targets(t, s, q, d);
  }

  lemma OwnIsUnstored(t: Tiling, s: Schedule, ty: Types, q: nat, d: int, last: int)
    requires q < |s.stores| && OwnTarget(t, s, q, d) && !StoreKind(s, ty, q).RightOne? && last == t.ub - t.step
    ensures Unstored(t, s, ty, last, d)
  {
    hide StoredTo, StoreKind;
    forall p: nat | p < |s.stores| && StoreKind(s, ty, p).RightOne? ensures Ddr(d) !in StoredTo(t, s, Single, last, p) {
      assert !Targets(t, s, p, d);
    }
  }

  lemma SameEligible(t: Tiling, t': Tiling, s: Schedule)
    requires SameTiles(t, t') && Eligible(t, s)
    ensures Eligible(t', s)
  {
    hide Wired, StoresAllowed, NoHazard;
    SameAllowed(t, t', s);
    SameHazards(t, t', s);
  }

  lemma MovesAreRight(t: Tiling, s: Schedule, ty: Types, m: Mem, cs: seq<Choice>, end: State)
    requires Eligible(t, s) && AllMove(s, ty)
    ensures CompletedRight(t, s, ty, m, cs, end)
  {
    hide Wired, StoresAllowed, NoHazard, AllMove, Runs, Enabled, ProgramTrace, ExecAll, SbTrace;
    if Runs(t.kernel, Initial(ProgramTrace(t, DmaProgram(s, ty)), m), cs, end) && end.todo == [] {
      DmaProgramIsRaceFree(t, s, ty);
      EveryRunCompletes(t.kernel, ProgramTrace(t, DmaProgram(s, ty)), m, cs, end);
      DmaRunsLikeTheLoop(t, s, ty, m, cs, end);
    }
  }

  lemma NothingRuns(t: Tiling, s: Schedule, ty: Types, m: Mem, cs: seq<Choice>, end: State)
    requires t.step > 0 && t.ub <= 0
    ensures CompletedRight(t, s, ty, m, cs, end)
  {
    hide Enabled;
    NoTrace(t, s, ty);
    if Runs(t.kernel, Initial(ProgramTrace(t, DmaProgram(s, ty)), m), cs, end) && end.todo == [] {
      EveryRunCompletes(t.kernel, ProgramTrace(t, DmaProgram(s, ty)), m, cs, end);
    }
  }

  // For a loop the first stage gets right, whose stores write non-empty buffers back, each to
  // a target of its own: every completed run leaves the loop's memory, for every kernel,
  // memory and timing and wherever stray transfers go, exactly when the loop runs no
  // iteration or every load and store becomes a transfer that moves what the copy moved.
  lemma AlwaysRightIff(t: Tiling, s: Schedule, ty: Types)
    requires Eligible(t, s) && WritesBack(s) && StoresApart(t, s) && s.stores != []
    requires forall i :: 0 <= i < |t.kernel.sizes| ==> t.kernel.sizes[i] > 0
    ensures AlwaysRight(t, s, ty) <==> t.ub <= 0 || AllMove(s, ty)
  {
    var step := StepOf(t, s);
    hide Wired, StoresAllowed, NoHazard, WritesBack, AllMove, CompletedRight, StoresApart;
    if t.ub <= 0 || AllMove(s, ty) {
      forall t', m, cs, end | SameTiles(t, t') ensures CompletedRight(t', s, ty, m, cs, end) {
        if t.ub <= 0 {
          NothingRuns(t', s, ty, m, cs, end);
        } else {
          SameEligible(t, t', s);
          MovesAreRight(t', s, ty, m, cs, end);
        }
      }
    } else {
      var t', m, cs, end := SomeRunIsWrong(t, s, ty);
    }
  }

  lemma StepOf(t: Tiling, s: Schedule) returns (step: int)
    requires Eligible(t, s)
    ensures step == t.step > 0
  {
    step := t.step;
  }

  lemma SomeRunIsWrong(t: Tiling, s: Schedule, ty: Types) returns (t': Tiling, m: Mem, cs: seq<Choice>, end: State)
    requires Eligible(t, s) && WritesBack(s) && StoresApart(t, s) && s.stores != []
    requires forall i :: 0 <= i < |t.kernel.sizes| ==> t.kernel.sizes[i] > 0
    requires 0 < t.ub && !AllMove(s, ty)
    ensures SameTiles(t, t') && !CompletedRight(t', s, ty, m, cs, end)
  {
    hide StoresAllowed, NoHazard, WritesBack, LoadKind, StoreKind, Runs, ProgramTrace, ExecAll, SbTrace, StoredTo,
      Wired, OwnTarget, Stored, Unstored;
    var last := t.ub - t.step;
    TripletCount(s, t.kernel.sizes);
    LastIsTile(t);
    if i: nat :| i < |s.triplets| && !LoadKind(ty, i).RightOne? {
      assert HasOwnTarget(t, s, 0);
      var d :| OwnTarget(t, s, 0, d);
      OwnIsStored(t, s, 0, d);
      t', m, cs, end := LostLoadChangesMemory(t, s, ty, i, last, d);
    } else {
      var q: nat :| q < |s.stores| && !StoreKind(s, ty, q).RightOne?;
      assert HasOwnTarget(t, s, q);
      var d :| OwnTarget(t, s, q, d);
      OwnIsStored(t, s, q, d);
      OwnIsUnstored(t, s, ty, q, d, last);
      t', m, cs, end := LostStoreChangesMemory(t, s, ty, d);
    }
  }

  lemma LastIsTile(t: Tiling)
    requires WholeTiles(t) && 0 < t.ub
    ensures IsTile(t, t.ub - t.step)
  {
  }

  // ----- two loops both stages accept -----

  // for iv in 0, 1: load tiles of two views, compute, store one alloc to the second view.
  const PAIR_HEAD := LoopHead(false, false, false, Some(0), Some(2), Some(1))

  function PairBody(stored: nat): seq<BodyOp> {
    [SubViewOp(0), AllocOp(1), CopyOp(0, 1), SubViewOp(2), AllocOp(3), CopyOp(2, 3), ForallOp, CopyOp(stored, 2),
      YieldOp]
  }

  function Pair(stored: nat): Schedule {
    Schedule([Triplet(0, 1, 0, 1), Triplet(2, 3, 2, 3)], [Store(stored, 2)])
  }

  ghost function PairTiling(): Tiling {
    Tiling(Kernel([1, 1], (iv: int, r: seq<seq<int>>) => r), (v: nat, iv: int, j: nat) => 2 * iv + v, (id: nat) => [],
           (g: Tag, iv: int) => Transfer([], []), 2, 1)
  }

  // One 16-bit element, in VTCM or not.
  function Element(inVtcm: bool): BufferType {
    Ranked([Some(1)], 16, if inVtcm then Number(VTCM_ADDRESS_SPACE) else Unset, true, Some([Stride(1, true)]))
  }

  // The second view is in VTCM and the first is not, and their allocs the other way round.
  function CrossedTypes(): Types {
    Types((v: nat) => Element(v == 1), (b: nat) => Element(b == 0), (id: nat) => Unranked, true)
  }

  // Neither view is in VTCM, and of the allocs only the second.
  function PlainTypes(): Types {
    Types((v: nat) => Element(false), (b: nat) => Element(b == 1), (id: nat) => Unranked, false)
  }

  lemma PairIndices(stored: nat)
    requires stored == 1 || stored == 3
    ensures AllocIndex(Pair(stored).triplets, 1) == 0 && AllocIndex(Pair(stored).triplets, 3) == 1
    ensures AllocIndex(Pair(stored).triplets, 2) == 2 && ViewIndex(Pair(stored).triplets, 2) == 1
  {
    assert Pair(stored).triplets[1..] == [Triplet(2, 3, 2, 3)];
    assert Pair(stored).triplets[1..][1..] == [];
  }

  lemma PairStore(stored: nat, iv: int)
    requires stored == 1 || stored == 3
    ensures StoredFrom(PairTiling(), Pair(stored), Single, iv, 0) == [Cell(Single, if stored == 1 then 0 else 1, 0)]
    ensures StoredTo(PairTiling(), Pair(stored), Single, iv, 0) == [Ddr(2 * iv + 1)]
  {
    PairIndices(stored);
  }

  lemma PairTiles(stored: nat)
    requires stored == 1 || stored == 3
    ensures StoresAllowed(PairTiling(), Pair(stored)) && NoHazard(PairTiling(), Pair(stored))
  {
    var t, s := PairTiling(), Pair(stored);
    forall iv ensures StoresAllowedAt(t, s, iv) && NoHazardAt(t, s, iv) {
      PairStore(stored, iv);
      forall v: nat | v < 2 ensures NoHazardPair(t, s, iv, 0, v) {
        assert t.ViewLocs(v, iv + 1) == [Ddr(2 * (iv + 1) + v)];
      }
    }
  }

  lemma PairOwn(stored: nat)
    requires stored == 1 || stored == 3
    ensures WritesBack(Pair(stored)) && StoresApart(PairTiling(), Pair(stored))
  {
    var t, s := PairTiling(), Pair(stored);
    PairIndices(stored);
    PairStore(stored, 1);
    assert OwnTarget(t, s, 0, 3) by { assert Targets(t, s, 0, 3); }
    assert HasOwnTarget(t, s, 0);
  }

  lemma PairEligible(stored: nat)
    requires stored == 1 || stored == 3
    ensures Eligible(PairTiling(), Pair(stored)) && WritesBack(Pair(stored)) && StoresApart(PairTiling(), Pair(stored))
  {
    hide StoresAllowed, NoHazard, WritesBack, StoresApart;
    PairTiles(stored);
    PairOwn(stored);
    assert Multiple(2, 1);
  }

  lemma PairAccepted(stored: nat)
    ensures !PAIR_HEAD.hasInitArgs && IsZeroBasedEvenlyDivisible(PAIR_HEAD) && Shape(PAIR_HEAD, PairBody(stored), 2, 1)
    ensures TripletsOf(Pair(stored).triplets, PairBody(stored)) && StoresOf(Pair(stored).stores, PairBody(stored), 7)
  {
  }

  lemma ElementKind(asserts: bool, a: bool, b: bool)
    ensures StartOf(asserts, Element(a), Element(b)) == if a == b then NoStart else RightOne
    ensures WellFormed(Element(a)) && IsSafe(Element(a)) && StartAsserted(Element(a), Element(b))
    ensures a != b ==> CreatesDmaStart(Element(a), Element(b))
  {
    assert IsContiguous(Element(a)) && IsContiguous(Element(b)) && Elements(Element(a)) == 1;
  }

  lemma CrossedAsserted()
    ensures AssertionsHold(Pair(1), CrossedTypes()) && LoadsMove(2, CrossedTypes())
    ensures StoreKind(Pair(1), CrossedTypes(), 0).NoStart?
  {
    PairIndices(1);
    hide StartOf, CreatesDmaStart, WellFormed, StartAsserted, Element;
    forall a, b ensures KindsAre(a, b) { ElementKind(true, a, b); ElementKind(true, b, a); }
    assert KindsAre(false, true) && KindsAre(true, false) && KindsAre(true, true);
  }

  ghost predicate KindsAre(a: bool, b: bool) {
    && StartOf(true, Element(a), Element(b)) == (if a == b then NoStart else RightOne)
    && WellFormed(Element(a)) && WellFormed(Element(b)) && IsSafe(Element(a)) && StartAsserted(Element(a), Element(b))
    && (a != b ==> CreatesDmaStart(Element(a), Element(b)))
  }

  // In a build with assertions: every assertion holds and every load moves, but the store is
  // from one buffer in VTCM to another, so its start is refused and its copy gone.
  lemma SameSpaceStoreIsLost()
    ensures Shape(PAIR_HEAD, PairBody(1), 2, 1) && Eligible(PairTiling(), Pair(1)) && CrossedTypes().asserts
    ensures AssertionsHold(Pair(1), CrossedTypes()) && LoadsMove(2, CrossedTypes())
    ensures StoreKind(Pair(1), CrossedTypes(), 0).NoStart?
    ensures !AlwaysRaceFree(PairTiling(), Pair(1), CrossedTypes())
            && !AlwaysRight(PairTiling(), Pair(1), CrossedTypes())
  {
    hide AlwaysRaceFree, AlwaysRight, Eligible, WritesBack, StoresApart;
    PairAccepted(1);
    CrossedAsserted();
    PairFails(1, CrossedTypes());
  }

  // In a build without: the first alloc is in the memory space of its view, so the start of
  // its load is refused, and the kernel runs on a buffer nothing has filled.
  lemma SameSpaceLoadIsLost()
    ensures Shape(PAIR_HEAD, PairBody(3), 2, 1) && Eligible(PairTiling(), Pair(3)) && !PlainTypes().asserts
    ensures LoadKind(PlainTypes(), 0).NoStart? && LoadKind(PlainTypes(), 1).RightOne?
            && StoresMove(Pair(3), PlainTypes())
    ensures !AlwaysRaceFree(PairTiling(), Pair(3), PlainTypes()) && !AlwaysRight(PairTiling(), Pair(3), PlainTypes())
  {
    hide AlwaysRaceFree, AlwaysRight, Eligible, WritesBack, StoresApart;
    PairAccepted(3);
    PairIndices(3);
    ElementKind(false, false, false);
    ElementKind(false, false, true);
    ElementKind(false, true, false);
    assert LoadKind(PlainTypes(), 0).NoStart?;
    PairFails(3, PlainTypes());
  }

  lemma PairFails(stored: nat, ty: Types)
    requires (stored == 1 || stored == 3) && !AllMove(Pair(stored), ty)
    ensures Eligible(PairTiling(), Pair(stored))
    ensures !AlwaysRaceFree(PairTiling(), Pair(stored), ty) && !AlwaysRight(PairTiling(), Pair(stored), ty)
  {
    hide AllMove, AlwaysRaceFree, AlwaysRight, WritesBack, StoresApart, Wired, NoHazard, StoresAllowed;
    PairEligible(stored);
    RaceFreeIff(PairTiling(), Pair(stored), ty);
    AlwaysRightIff(PairTiling(), Pair(stored), ty);
  }

  // A tile of rows 64 apart, in main memory, and its contiguous copy in VTCM.
  function ColumnTile(inVtcm: bool): BufferType {
    Ranked([Some(8), Some(32)], 16, if inVtcm then Number(VTCM_ADDRESS_SPACE) else Unset, inVtcm,
           Some([Stride(if inVtcm then 32 else 64, true), Stride(1, true)]))
  }

  // The same transfer is right in a build with assertions and strays in one without.
  lemma ColumnTilesNeedAssertions()
    ensures StartOf(true, ColumnTile(false), ColumnTile(true)).RightOne?
    ensures StartOf(true, ColumnTile(true), ColumnTile(false)).RightOne?
    ensures StartOf(false, ColumnTile(false), ColumnTile(true)).StrayOne?
    ensures StartOf(false, ColumnTile(true), ColumnTile(false)).StrayOne?
  {
    var view, alloc := ColumnTile(false), ColumnTile(true);
    assert !IsContiguous(view) && IsContiguous(alloc) && IsRowStrided(view) && !IsRowStrided(alloc);
  }
}
