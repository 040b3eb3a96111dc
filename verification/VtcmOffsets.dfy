// MemoryOffsetsPass.cpp, InsertScratchArgPass.cpp and triton_hexagon_launcher.py:
// where every allocation of every program instance lands in VTCM.
module VtcmOffsets {
  import opened Arith
  import opened PackLayout
  import opened Basics

  const VTCM_ALIGNMENT := 2048

  // ----- offsets inside one instance -----

  function AlignTo(x: nat, a: nat): (r: nat)
    requires a > 0
    ensures r >= x
  {
    (x + a - 1) / a * a
  }

  lemma AlignToQuotient(x: nat, a: nat) returns (q: nat)
    requires a > 0
    ensures AlignTo(x, a) == q * a && q * a < x + a
  {
    q := (x + a - 1) / a;
  }

  // The least multiple of the alignment that is not below x.
  lemma AlignToLeast(x: nat, a: nat, m: nat)
    requires a > 0
    ensures AlignTo(x, a) % a == 0
    ensures m * a >= x ==> m * a >= AlignTo(x, a)
  {
    hide AlignTo;
    var q := AlignToQuotient(x, a);
    ModMultiple(q, a);
    if m < q {
      MulMono(m + 1, q, a);
      assert (m + 1) * a == m * a + a;
    } else {
      MulMono(q, m, a);
    }
  }

  // End of the first n allocations laid out in order.
  ghost function End(sizes: seq<nat>, a: nat, n: nat): nat
    requires a > 0 && n <= |sizes|
  {
    if n == 0 then 0 else AlignTo(End(sizes, a, n - 1), a) + sizes[n - 1]
  }

  // The offsets of the first n allocations: each aligned up from the end of the one before.
  ghost predicate AssignedUpTo(sizes: seq<nat>, a: nat, offsets: map<nat, nat>, n: nat)
    requires a > 0 && n <= |sizes|
  {
    && (forall i: nat :: i in offsets <==> i < n)
    && (forall i: nat :: i < n ==> offsets[i] == AlignTo(End(sizes, a, i), a))
  }

  ghost predicate Assigned(sizes: seq<nat>, a: nat, offsets: map<nat, nat>)
    requires a > 0
  {
    AssignedUpTo(sizes, a, offsets, |sizes|)
  }

  lemma AssignNext(sizes: seq<nat>, a: nat, offsets: map<nat, nat>, n: nat, o: nat)
    requires a > 0 && n < |sizes| && AssignedUpTo(sizes, a, offsets, n) && o == AlignTo(End(sizes, a, n), a)
    ensures AssignedUpTo(sizes, a, offsets[n := o], n + 1)
  {
    hide AlignTo, End;
  }

  method ComputeFlatOffsets(sizes: seq<nat>, alignment: nat) returns (offsetMap: map<nat, nat>)
    requires alignment > 0
    ensures Assigned(sizes, alignment, offsetMap)
  {
    hide AlignTo, AssignedUpTo;
    offsetMap := map[];
    assert AssignedUpTo(sizes, alignment, offsetMap, 0) by { NothingAssigned(sizes, alignment); }
    var currentOffset := 0;
    for i := 0 to |sizes|
      invariant currentOffset == End(sizes, alignment, i)
      invariant AssignedUpTo(sizes, alignment, offsetMap, i)
    {
      currentOffset := AlignTo(currentOffset, alignment);
      AssignNext(sizes, alignment, offsetMap, i, currentOffset);
      offsetMap := offsetMap[i := currentOffset];
      currentOffset := currentOffset + sizes[i];
    }
  }

  lemma NothingAssigned(sizes: seq<nat>, a: nat)
    requires a > 0
    ensures AssignedUpTo(sizes, a, map[], 0)
  {
  }

  method TotalRequiredSize(sizes: seq<nat>, alignment: nat) returns (total: nat)
    requires alignment > 0
    ensures total == End(sizes, alignment, |sizes|)
  {
    total := 0;
    for i := 0 to |sizes|
      invariant total == End(sizes, alignment, i)
    {
      total := AlignTo(total, alignment);
      total := total + sizes[i];
    }
  }

  lemma {:induction false} EndGrows(sizes: seq<nat>, a: nat, i: nat, n: nat)
    requires a > 0 && i <= n <= |sizes|
    ensures End(sizes, a, i) <= End(sizes, a, n)
    decreases n - i
  {
    hide AlignTo;
    if i < n { EndGrows(sizes, a, i, n - 1); }
  }

  // Each allocation is aligned, ends before the next begins, and the last ends at the total.
  lemma OffsetsAreDisjoint(sizes: seq<nat>, a: nat, offsets: map<nat, nat>, i: nat, j: nat)
    requires a > 0 && i < j < |sizes| && Assigned(sizes, a, offsets)
    ensures offsets[i] % a == 0 && offsets[j] % a == 0
    ensures offsets[i] + sizes[i] <= offsets[j]
    ensures offsets[j] + sizes[j] <= End(sizes, a, |sizes|)
    ensures j == |sizes| - 1 ==> offsets[j] + sizes[j] == End(sizes, a, |sizes|)
  {
    AlignToLeast(End(sizes, a, i), a, 0);
    AlignToLeast(End(sizes, a, j), a, 0);
    EndGrows(sizes, a, i + 1, j);
    EndGrows(sizes, a, j + 1, |sizes|);
  }

  // ----- the pass -----

  // The function's hexagon.scratch argument: none, one of another type than a flat i8
  // buffer in VTCM, or one of dynamic or static size.
  datatype Scratch = NoScratch | Unusable | Dynamic | Static(bytes: int)

  datatype Outcome =
    | Untouched
    | OverBudget | DynamicScratch | EmptyScratch | OverScratch
    | Fallback(bytes: nat, offsets: map<nat, nat>)
    | External(bytes: nat, offsets: map<nat, nat>)

  method PlaceAllocations(sizes: seq<nat>, scratch: Scratch, bufferSize: int, alignment: nat) returns (r: Outcome)
    requires alignment > 0 && forall i :: 0 <= i < |sizes| ==> sizes[i] > 0
    ensures r.Untouched? <==> sizes == []
    ensures r.OverBudget? <==>
            sizes != [] && (scratch.NoScratch? || scratch.Unusable?) && End(sizes, alignment, |sizes|) > bufferSize
    ensures r.DynamicScratch? <==> sizes != [] && scratch.Dynamic?
    ensures r.EmptyScratch? <==> sizes != [] && scratch.Static? && scratch.bytes <= 0
    ensures r.OverScratch? <==> sizes != [] && scratch.Static? && 0 < scratch.bytes < End(sizes, alignment, |sizes|)
    ensures r.Fallback? <==>
            sizes != [] && (scratch.NoScratch? || scratch.Unusable?) && End(sizes, alignment, |sizes|) <= bufferSize
    ensures r.External? <==>
            sizes != [] && scratch.Static? && 0 < scratch.bytes && End(sizes, alignment, |sizes|) <= scratch.bytes
    ensures r.Fallback? ==> r.bytes == End(sizes, alignment, |sizes|)
    ensures r.External? ==> r.bytes == scratch.bytes
    ensures r.Fallback? || r.External? ==> Assigned(sizes, alignment, r.offsets)
  {
    if sizes == [] { return Untouched; }
    var total := TotalRequiredSize(sizes, alignment);
    if scratch.NoScratch? || scratch.Unusable? {
      if total > bufferSize { return OverBudget; }
      var offsets := ComputeFlatOffsets(sizes, alignment);
      return Fallback(total, offsets);
    }
    if scratch.Dynamic? { return DynamicScratch; }
    if scratch.bytes <= 0 { return EmptyScratch; }
    if total > scratch.bytes { return OverScratch; }
    var offsets := ComputeFlatOffsets(sizes, alignment);
    return External(scratch.bytes, offsets);
  }

  // ----- the launcher -----

  // scratch & ~2047; the launcher raises when nothing is left.
  function PerInstanceBytes(scratch: int): (r: Option<nat>)
    ensures r.Some? <==> scratch == 0 || scratch >= VTCM_ALIGNMENT
    ensures r.Some? ==> r.value <= scratch && r.value % VTCM_ALIGNMENT == 0 && scratch - r.value < VTCM_ALIGNMENT
  {
    if scratch == 0 then Some(0)
    else
      var aligned := scratch - scratch % VTCM_ALIGNMENT;
      if aligned <= 0 then None else Some(aligned)
  }

  // The argument a function has after InsertScratchArg, or None when the pass refuses its
  // option. It does so exactly when the launcher's slice would not be that many bytes.
  function InsertScratchArg(option: int, existing: Scratch, kernelAbi: bool): (r: Option<Scratch>)
    ensures r.Some? <==> option > 0 && PerInstanceBytes(option) == Some(option)
    ensures r.Some? && !existing.NoScratch? ==> r.value == existing
    ensures r.Some? && existing.NoScratch? ==> r.value == if kernelAbi then Static(option) else NoScratch
  {
    if option <= 0 || option % VTCM_ALIGNMENT != 0 then None
    else if !existing.NoScratch? then Some(existing)
    else if !kernelAbi then Some(NoScratch)
    else Some(Static(option))
  }

  datatype Pid = Pid(x: nat, y: nat, z: nat)

  datatype Grid = Grid(x: nat, y: nat, z: nat) {
    function Programs(): nat { x * y * z }
    predicate Has(p: Pid) { p.x < x && p.y < y && p.z < z }
    function Shape(): seq<nat> { [x, y, z] }
  }

  // Strides (grid[1] * grid[2], grid[2], 1).
  function FlatPid(g: Grid, p: Pid): nat {
    p.x * (g.y * g.z) + p.y * g.z + p.z * 1
  }

  function Unflatten(g: Grid, k: nat): (p: Pid)
    requires g.Programs() > 0
  {
    GridNotEmpty(g);
    var d := MultiDim(k, g.Shape());
    Pid(d[0], d[1], d[2])
  }

  lemma GridNotEmpty(g: Grid)
    requires g.Programs() > 0
    ensures g.x > 0 && g.y > 0 && g.z > 0
  {
  }

  lemma GridSize(g: Grid)
    ensures Size(g.Shape()) == g.Programs()
  {
    assert g.Shape()[..2] == [g.x, g.y] && [g.x, g.y][..1] == [g.x] && [g.x][..0] == [];
    assert Size([g.x]) == g.x && Size([g.x, g.y]) == g.x * g.y;
  }

  lemma FlatIsLinear(g: Grid, p: Pid)
    ensures FlatPid(g, p) == Linear([p.x, p.y, p.z], g.Shape())
  {
    assert g.Shape()[..2] == [g.x, g.y] && [g.x, g.y][..1] == [g.x] && [g.x][..0] == [];
    assert [p.x, p.y, p.z][..2] == [p.x, p.y] && [p.x, p.y][..1] == [p.x] && [p.x][..0] == [];
    assert Linear([p.x], [g.x]) == p.x;
    assert Linear([p.x, p.y], [g.x, g.y]) == p.x * g.y + p.y;
    assert (p.x * g.y + p.y) * g.z == p.x * (g.y * g.z) + p.y * g.z;
  }

  // Flat pids number the grid 0 .. programs-1 without gaps or repeats.
  lemma FlatPidIsBijection(g: Grid)
    ensures forall p :: g.Has(p) ==> FlatPid(g, p) < g.Programs() && Unflatten(g, FlatPid(g, p)) == p
    ensures forall k: nat :: k < g.Programs() ==> g.Has(Unflatten(g, k)) && FlatPid(g, Unflatten(g, k)) == k
  {
    GridSize(g);
    forall p | g.Has(p) ensures FlatPid(g, p) < g.Programs() && Unflatten(g, FlatPid(g, p)) == p {
      FlatIsLinear(g, p);
      LinearInBounds([p.x, p.y, p.z], g.Shape());
    }
    forall k: nat | k < g.Programs() ensures g.Has(Unflatten(g, k)) && FlatPid(g, Unflatten(g, k)) == k {
      GridNotEmpty(g);
      MultiDimInBounds(k, g.Shape());
      var d := MultiDim(k, g.Shape());
      assert d == [d[0], d[1], d[2]];
      FlatIsLinear(g, Pid(d[0], d[1], d[2]));
    }
  }

  // A program's slice descriptor: where it starts and how long it is.
  datatype Closure = Unset | Closure(pid: Pid, base: nat, bytes: nat)

  lemma NextFlat(g: Grid, x: nat, y: nat, z: nat)
    ensures FlatPid(g, Pid(x, y, z + 1)) == FlatPid(g, Pid(x, y, z)) + 1
    ensures FlatPid(g, Pid(x, y, g.z)) == FlatPid(g, Pid(x, y + 1, 0))
    ensures FlatPid(g, Pid(x, g.y, 0)) == FlatPid(g, Pid(x + 1, 0, 0))
    ensures FlatPid(g, Pid(0, 0, 0)) == 0 && FlatPid(g, Pid(g.x, 0, 0)) == g.Programs()
  {
    assert (y + 1) * g.z == y * g.z + g.z;
    assert (x + 1) * (g.y * g.z) == x * (g.y * g.z) + g.y * g.z;
    assert g.x * (g.y * g.z) == g.x * g.y * g.z;
  }

  // The closures with flat pids below n are set up.
  ghost predicate SetUpTo(g: Grid, perInstance: nat, closures: seq<Closure>, n: nat)
    requires g.Programs() > 0 && |closures| == g.Programs()
  {
    forall k: nat :: k < n && k < |closures| ==> closures[k] == Closure(Unflatten(g, k), k * perInstance, perInstance)
  }

  lemma SetUpOne(g: Grid, perInstance: nat, closures: seq<Closure>, p: Pid)
    requires g.Programs() > 0 && |closures| == g.Programs() && g.Has(p)
    requires SetUpTo(g, perInstance, closures, FlatPid(g, p))
    ensures FlatPid(g, p) < |closures|
    ensures SetUpTo(g, perInstance, closures[FlatPid(g, p) := Closure(p, FlatPid(g, p) * perInstance, perInstance)],
            FlatPid(g, p) + 1)
  {
    hide FlatPid, Unflatten, Grid.Programs;
    FlatPidIsBijection(g);
  }

  // The emitted triple loop: every closure is filled, with its own pid and its own slice.
  method SetupClosures(g: Grid, perInstance: nat) returns (closures: array<Closure>)
    requires g.Programs() > 0
    ensures fresh(closures) && closures.Length == g.Programs()
    ensures forall k: nat :: k < g.Programs() ==> closures[k] == Closure(Unflatten(g, k), k * perInstance, perInstance)
  {
    hide FlatPid, Grid.Programs, SetUpTo;
    closures := new Closure[g.Programs()](_ => Unset);
    NextFlat(g, 0, 0, 0);
    NothingSetUp(g, perInstance, closures[..]);
    for x := 0 to g.x
      invariant SetUpTo(g, perInstance, closures[..], FlatPid(g, Pid(x, 0, 0)))
    {
      for y := 0 to g.y
        invariant SetUpTo(g, perInstance, closures[..], FlatPid(g, Pid(x, y, 0)))
      {
        for z := 0 to g.z
          invariant SetUpTo(g, perInstance, closures[..], FlatPid(g, Pid(x, y, z)))
        {
          var pid := Pid(x, y, z);
          var flatPid := FlatPid(g, pid);
          SetUpOne(g, perInstance, closures[..], pid);
          ghost var before := closures[..];
          closures[flatPid] := Closure(pid, flatPid * perInstance, perInstance);
          assert closures[..] == before[flatPid := Closure(pid, flatPid * perInstance, perInstance)];
          NextFlat(g, x, y, z);
        }
        NextFlat(g, x, y, 0);
      }
      NextFlat(g, x, 0, 0);
    }
    AllSetUp(g, perInstance, closures[..]);
  }

  lemma NothingSetUp(g: Grid, perInstance: nat, closures: seq<Closure>)
    requires g.Programs() > 0 && |closures| == g.Programs()
    ensures SetUpTo(g, perInstance, closures, 0)
  {
  }

  lemma AllSetUp(g: Grid, perInstance: nat, closures: seq<Closure>)
    requires g.Programs() > 0 && |closures| == g.Programs() && SetUpTo(g, perInstance, closures, g.Programs())
    ensures forall k: nat :: k < g.Programs() ==> closures[k] == Closure(Unflatten(g, k), k * perInstance, perInstance)
  {
  }

  // ----- end to end -----

  // Where an allocation of a program starts, from the VTCM base.
  ghost function Address(g: Grid, perInstance: nat, offsets: map<nat, nat>, p: Pid, i: nat): nat
    requires i in offsets
  {
    FlatPid(g, p) * perInstance + offsets[i]
  }

  lemma WithinSlice(sizes: seq<nat>, a: nat, offsets: map<nat, nat>, i: nat)
    requires a > 0 && Assigned(sizes, a, offsets) && i < |sizes|
    ensures offsets[i] % a == 0 && offsets[i] + sizes[i] <= End(sizes, a, |sizes|)
  {
    AlignToLeast(End(sizes, a, i), a, 0);
    EndGrows(sizes, a, i + 1, |sizes|);
  }

  lemma SlicesApart(f: nat, h: nat, perInstance: nat, offset: nat, size: nat)
    requires f < h && offset + size <= perInstance
    ensures f * perInstance + offset + size <= h * perInstance
  {
    MulMono(f + 1, h, perInstance);
    assert (f + 1) * perInstance == f * perInstance + perInstance;
  }

  // Any two allocations of any two programs are apart, aligned, and inside what was acquired.
  lemma AllocationsAreSeparate(g: Grid, perInstance: nat, sizes: seq<nat>, a: nat, offsets: map<nat, nat>,
                               p: Pid, i: nat, q: Pid, j: nat)
    requires a > 0 && Assigned(sizes, a, offsets) && End(sizes, a, |sizes|) <= perInstance && perInstance % a == 0
    requires g.Has(p) && g.Has(q) && i < |sizes| && j < |sizes| && (p, i) != (q, j)
    ensures var s, t := Address(g, perInstance, offsets, p, i), Address(g, perInstance, offsets, q, j);
            (s + sizes[i] <= t || t + sizes[j] <= s)
            && s % a == 0 && s + sizes[i] <= g.Programs() * perInstance
  {
    assert i in offsets && j in offsets;
    hide FlatPid, AssignedUpTo, End, Unflatten, Grid.Programs;
    FlatPidIsBijection(g);
    WithinSlice(sizes, a, offsets, i);
    WithinSlice(sizes, a, offsets, j);
    var f, h := FlatPid(g, p), FlatPid(g, q);
    AlignedSlice(f, perInstance, offsets[i], a);
    SlicesApart(f, g.Programs(), perInstance, offsets[i], sizes[i]);
    if f < h {
      SlicesApart(f, h, perInstance, offsets[i], sizes[i]);
    } else if h < f {
      SlicesApart(h, f, perInstance, offsets[j], sizes[j]);
    } else {
      assert p == q;
      if i < j { SameSlice(sizes, a, offsets, i, j); } else { SameSlice(sizes, a, offsets, j, i); }
    }
  }

  lemma SameSlice(sizes: seq<nat>, a: nat, offsets: map<nat, nat>, i: nat, j: nat)
    requires a > 0 && Assigned(sizes, a, offsets) && i < j < |sizes|
    ensures offsets[i] + sizes[i] <= offsets[j]
  {
    OffsetsAreDisjoint(sizes, a, offsets, i, j);
  }

  lemma AlignedSlice(f: nat, perInstance: nat, offset: nat, a: nat)
    requires a > 0 && perInstance % a == 0 && offset % a == 0
    ensures (f * perInstance + offset) % a == 0
  {
    var m, k := perInstance / a, offset / a;
    assert f * perInstance == (f * m) * a by { assert f * (m * a) == (f * m) * a; }
    assert f * perInstance + offset == (f * m + k) * a;
    ModMultiple(f * m + k, a);
  }

  ghost predicate InsideSlices(g: Grid, perInstance: nat, sizes: seq<nat>, offsets: map<nat, nat>)
    requires forall i: nat :: i < |sizes| ==> i in offsets
  {
    forall p, i: nat :: g.Has(p) && i < |sizes| ==>
      Address(g, perInstance, offsets, p, i) + sizes[i] <= g.Programs() * perInstance
  }

  // Everything stays inside the acquired block exactly when the kernel's total fits one slice.
  lemma InsideIffTotalFits(g: Grid, perInstance: nat, sizes: seq<nat>, a: nat, offsets: map<nat, nat>)
    requires a > 0 && Assigned(sizes, a, offsets) && sizes != [] && g.Programs() > 0
    ensures InsideSlices(g, perInstance, sizes, offsets) <==> End(sizes, a, |sizes|) <= perInstance
  {
    hide FlatPid, Unflatten;
    FlatPidIsBijection(g);
    var n := g.Programs();
    var last, i := Unflatten(g, n - 1), |sizes| - 1;
    SlicesApartLast(n, perInstance);
    if InsideSlices(g, perInstance, sizes, offsets) {
      assert Address(g, perInstance, offsets, last, i) + sizes[i] <= n * perInstance;
    } else {
      var p, k: nat :| g.Has(p) && k < |sizes| && Address(g, perInstance, offsets, p, k) + sizes[k] > n * perInstance;
      WithinSlice(sizes, a, offsets, k);
      MulMono(FlatPid(g, p), n - 1, perInstance);
    }
  }

  lemma SlicesApartLast(n: nat, perInstance: nat)
    requires n > 0
    ensures n * perInstance == (n - 1) * perInstance + perInstance
  {
  }

  // With the argument InsertScratchArg adds, what the pass checks against is the slice the
  // launcher hands out, so a kernel the pass accepts stays inside.
  lemma InsertedScratchFits(g: Grid, option: int, sizes: seq<nat>, a: nat, offsets: map<nat, nat>)
    requires a > 0 && Assigned(sizes, a, offsets) && sizes != [] && g.Programs() > 0
    requires InsertScratchArg(option, NoScratch, true).Some?
    requires End(sizes, a, |sizes|) <= InsertScratchArg(option, NoScratch, true).value.bytes
    ensures PerInstanceBytes(option) == Some(option) && InsideSlices(g, option, sizes, offsets)
  {
    InsideIffTotalFits(g, option, sizes, a, offsets);
  }

  // An argument written by hand is kept whatever the option; the pass checks against its
  // size, the launcher slices by the option, and a kernel the pass accepts stays inside
  // exactly when its total fits the option.
  lemma KeptScratchFitsIff(g: Grid, option: int, bytes: int, kernelAbi: bool, sizes: seq<nat>, a: nat,
                           offsets: map<nat, nat>)
    requires a > 0 && Assigned(sizes, a, offsets) && sizes != [] && g.Programs() > 0
    requires InsertScratchArg(option, Static(bytes), kernelAbi).Some? && End(sizes, a, |sizes|) <= bytes
    ensures InsertScratchArg(option, Static(bytes), kernelAbi) == Some(Static(bytes))
            && PerInstanceBytes(option) == Some(option)
    ensures InsideSlices(g, option, sizes, offsets) <==> End(sizes, a, |sizes|) <= option
  {
    InsideIffTotalFits(g, option, sizes, a, offsets);
  }

  // A hand-written argument of 3000 bytes under the option 2048 passes the check, but slices are 2048 bytes.
  lemma HandWrittenScratchCanOverflow(g: Grid, kernelAbi: bool)
    requires g.Programs() > 0
    ensures InsertScratchArg(2048, Static(3000), kernelAbi) == Some(Static(3000))
            && PerInstanceBytes(2048) == Some(2048)
    ensures End([3000], VTCM_ALIGNMENT, 1) <= 3000
    ensures Assigned([3000], VTCM_ALIGNMENT, map[0 := 0]) && !InsideSlices(g, 2048, [3000], map[0 := 0])
  {
    assert End([3000], VTCM_ALIGNMENT, 0) == 0;
    assert AlignTo(0, VTCM_ALIGNMENT) == 0;
    KeptScratchFitsIff(g, 2048, 3000, kernelAbi, [3000], VTCM_ALIGNMENT, map[0 := 0]);
  }
}
