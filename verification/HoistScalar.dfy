// HoistScalarOps.cpp: loop-invariant scalar operations moved out of
// linalg.generic regions, one generic at a time, to a fixpoint.
module HoistScalar {
  import opened Basics
  import opened Sequences

  type Point = seq<int>

  // A value outside the region: a scalar, or a tensor read at an index.
  datatype Val = Scalar(v: int) | Tensor(at: Point -> int)

  type Env = map<nat, Val>

  // A region operand: one of the region's own block arguments, a result of a
  // region operation, the result of an outer operation, or a block argument of
  // another block, which carries a number in that block.
  datatype Operand = Arg(n: nat) | Local(op: nat, r: nat) | Outer(id: nat) | OuterArg(id: nat, number: nat)

  datatype Dialect = Arith | Math | OtherDialect

  // scalar: the one result has float or integer type; index-typed results do not count.
  datatype Op = Op(id: nat, dialect: Dialect, constant: bool, scalar: bool, results: nat, code: nat,
    operands: seq<Operand>)

  datatype Input = Input(tensor: nat, ranked: bool, rank: nat, indexing: Point -> Point)

  datatype Output = Output(init: nat, result: nat, indexing: Point -> Point)

  datatype Generic = Generic(inputs: seq<Input>, outputs: seq<Output>, ops: seq<Op>, returned: seq<Operand>)

  // The meaning of operations: total functions; only other dialects see the iteration point.
  datatype Interp = Interp(pure: (nat, nat, seq<int>) -> int, indexed: (nat, nat, Point, seq<int>) -> int)

  // ----- meaning of a region -----

  function ScalarOf(env: Env, id: nat): int {
    if id in env && env[id].Scalar? then env[id].v else 0
  }

  function ReadAt(env: Env, id: nat, p: Point): int {
    if id in env && env[id].Tensor? then env[id].at(p) else 0
  }

  type Locals = map<nat, seq<int>>

  function Value(env: Env, args: seq<int>, locals: Locals, o: Operand): int {
    match o
    case Arg(n) => if n < |args| then args[n] else 0
    case Local(x, r) => if x in locals && r < |locals[x]| then locals[x][r] else 0
    case Outer(id) => ScalarOf(env, id)
    case OuterArg(id, _) => ScalarOf(env, id)
  }

  function Values(env: Env, args: seq<int>, locals: Locals, os: seq<Operand>): (vs: seq<int>)
    ensures |vs| == |os| && forall i :: 0 <= i < |os| ==> vs[i] == Value(env, args, locals, os[i])
  {
    seq(|os|, i requires 0 <= i < |os| => Value(env, args, locals, os[i]))
  }

  function Results(I: Interp, op: Op, p: Point, vs: seq<int>): (rs: seq<int>)
    ensures |rs| == op.results
  {
    seq(op.results, r requires 0 <= r < op.results =>
      if op.dialect.OtherDialect? then I.indexed(op.code, r, p, vs) else I.pure(op.code, r, vs))
  }

  function RunOps(I: Interp, env: Env, p: Point, args: seq<int>, ops: seq<Op>, locals: Locals): Locals {
    if ops == [] then locals
    else
      var rs := Results(I, ops[0], p, Values(env, args, locals, ops[0].operands));
      RunOps(I, env, p, args, ops[1..], locals[ops[0].id := rs])
  }

  function InputElements(env: Env, inputs: seq<Input>, p: Point): (vs: seq<int>)
    ensures |vs| == |inputs| && forall i :: 0 <= i < |inputs| ==>
            vs[i] == ReadAt(env, inputs[i].tensor, inputs[i].indexing(p))
  {
    seq(|inputs|, i requires 0 <= i < |inputs| => ReadAt(env, inputs[i].tensor, inputs[i].indexing(p)))
  }

  // What the region yields at a point, given the current output elements.
  function YieldedAt(I: Interp, env: Env, g: Generic, p: Point, outs: seq<int>): seq<int> {
    var args := InputElements(env, g.inputs, p) + outs;
    Values(env, args, RunOps(I, env, p, args, g.ops, map[]), g.returned)
  }

  // ----- well-formed regions -----

  type Defined = map<nat, nat>

  predicate InScope(g: Generic, defined: Defined, o: Operand) {
    match o
    case Arg(n) => n < |g.inputs| + |g.outputs|
    case Local(x, r) => x in defined && r < defined[x]
    case _ => true
  }

  // Definitions precede uses, identities are distinct, constants take no operands.
  ghost predicate OpsScoped(g: Generic, ops: seq<Op>, defined: Defined)
    decreases |ops|
  {
    if ops == [] then forall i :: 0 <= i < |g.returned| ==> InScope(g, defined, g.returned[i])
    else
      && ops[0].id !in defined
      && (forall i :: 0 <= i < |ops[0].operands| ==> InScope(g, defined, ops[0].operands[i]))
      && (ops[0].constant ==> ops[0].dialect == Arith && ops[0].results == 1 && ops[0].operands == [])
      && OpsScoped(g, ops[1..], defined[ops[0].id := ops[0].results])
  }

  // The indexing map of a rank-0 tensor has no results.
  ghost predicate MapsFit(g: Generic) {
    forall i, p :: 0 <= i < |g.inputs| && g.inputs[i].rank == 0 ==> g.inputs[i].indexing(p) == []
  }

  ghost predicate WellFormed(g: Generic) { OpsScoped(g, g.ops, map[]) && MapsFit(g) }

  // ----- what may be hoisted -----

  predicate IsConstant(ops: seq<Op>, x: nat) {
    exists i :: 0 <= i < |ops| && ops[i].id == x && ops[i].constant
  }

  predicate Rank0(g: Generic, n: nat) {
    n < |g.inputs| && g.inputs[n].ranked && g.inputs[n].rank == 0
  }

  predicate Invariant(g: Generic, o: Operand) {
    match o
    case Outer(_) => true
    case OuterArg(_, _) => true
    case Local(x, _) => IsConstant(g.ops, x)
    case Arg(n) => Rank0(g, n)
  }

  predicate Hoistable(g: Generic, op: Op) {
    && !op.dialect.OtherDialect?
    && op.results == 1 && op.scalar
    && forall i :: 0 <= i < |op.operands| ==> Invariant(g, op.operands[i])
  }

  // The hoistable operations in order, and what is left of the region.
  function Selected(g: Generic, ops: seq<Op>): seq<Op> {
    if ops == [] then []
    else (if Hoistable(g, ops[0]) then [ops[0]] else []) + Selected(g, ops[1..])
  }

  function Ids(hs: seq<Op>): (ids: seq<nat>)
    ensures |ids| == |hs| && forall i :: 0 <= i < |hs| ==> ids[i] == hs[i].id
  {
    seq(|hs|, i requires 0 <= i < |hs| => hs[i].id)
  }

  // Operands of the rebuilt region: hoisted results become new inputs, output
  // arguments move up behind them.
  function Remap(g: Generic, ids: seq<nat>, o: Operand): Operand {
    match o
    case Arg(n) => if n < |g.inputs| then o else Arg(n + |ids|)
    case Local(x, _) => if x in ids then Arg(|g.inputs| + Find(ids, x)) else o
    case _ => o
  }

  function RemapAll(g: Generic, ids: seq<nat>, os: seq<Operand>): (r: seq<Operand>)
    ensures |r| == |os| && forall i :: 0 <= i < |os| ==> r[i] == Remap(g, ids, os[i])
  {
    seq(|os|, i requires 0 <= i < |os| => Remap(g, ids, os[i]))
  }

  function Rebuilt(g: Generic, ids: seq<nat>, ops: seq<Op>): seq<Op> {
    if ops == [] then []
    else (if ops[0].id in ids then [] else [ops[0].(operands := RemapAll(g, ids, ops[0].operands))])
         + Rebuilt(g, ids, ops[1..])
  }

  function NewInputs(tensors: seq<nat>): (r: seq<Input>)
    ensures |r| == |tensors|
    ensures forall i :: 0 <= i < |r| ==> r[i].tensor == tensors[i] && r[i].ranked && r[i].rank == 0
    ensures forall i, p :: 0 <= i < |r| ==> r[i].indexing(p) == []
  {
    seq(|tensors|, i requires 0 <= i < |tensors| => Input(tensors[i], true, 0, p => []))
  }

  function NewGeneric(g: Generic, hs: seq<Op>, tensors: seq<nat>): Generic {
    Generic(g.inputs + NewInputs(tensors), g.outputs, Rebuilt(g, Ids(hs), g.ops), RemapAll(g, Ids(hs), g.returned))
  }

  // ----- the value of a hoisted operation -----

  // What an operand of a hoisted operation is replaced by outside the region; None
  // where it stays a reference into the region or reads a tensor of higher rank.
  function Mapped(g: Generic, env: Env, ids: seq<nat>, hv: seq<int>, o: Operand): Option<int> {
    match o
    case Local(x, _) => if x in ids && Find(ids, x) < |hv| then Some(hv[Find(ids, x)]) else None
    case Arg(n) => if Rank0(g, n) then Some(ReadAt(env, g.inputs[n].tensor, [])) else None
    case Outer(id) => Some(ScalarOf(env, id))
    case OuterArg(id, n) =>
      if n >= |g.inputs| then Some(ScalarOf(env, id))
      else if Rank0(g, n) then Some(ReadAt(env, g.inputs[n].tensor, [])) else None
  }

  // Locals in which the hoisted operations already have their values.
  ghost predicate Placed(locals: Locals, ids: seq<nat>, hv: seq<int>) {
    |hv| <= |ids| && forall k :: 0 <= k < |hv| ==> ids[k] in locals && locals[ids[k]] == [hv[k]]
  }

  ghost predicate SameAt(g: Generic, ids: seq<nat>, hv: seq<int>, o: Operand, env: Env, p: Point, outs: seq<int>,
                         locals: Locals) {
    Mapped(g, env, ids, hv, o) == Some(Value(env, InputElements(env, g.inputs, p) + outs, locals, o))
  }

  // The replacement means what the operand means wherever the generic runs.
  ghost predicate KeepsMeaning(g: Generic, ids: seq<nat>, hv: seq<int>, o: Operand) {
    forall env, p, outs, locals :: Placed(locals, ids, hv) ==> SameAt(g, ids, hv, o, env, p, outs, locals)
  }

  lemma PlacedExists(ids: seq<nat>, hv: seq<int>) returns (locals: Locals)
    requires Distinct(ids) && |hv| <= |ids|
    ensures Placed(locals, ids, hv)
  {
    locals := map x | x in ids :: if Find(ids, x) < |hv| then [hv[Find(ids, x)]] else [];
    forall k: nat | k < |hv| ensures locals[ids[k]] == [hv[k]] { FindAt(ids, k); }
  }

  // An operand the analysis calls invariant keeps its meaning exactly when it is neither
  // another block's argument with a number below the input count nor a constant left behind.
  lemma KeepsMeaningIff(g: Generic, ids: seq<nat>, hv: seq<int>, o: Operand)
    requires Invariant(g, o) && MapsFit(g) && Distinct(ids) && |hv| <= |ids|
    requires o.Local? ==> o.r == 0 && (o.op in ids ==> Find(ids, o.op) < |hv|)
    requires o.OuterArg? ==> forall n :: 0 <= n < |g.inputs| ==> g.inputs[n].tensor != o.id
    ensures KeepsMeaning(g, ids, hv, o)
            <==> (o.OuterArg? ==> o.number >= |g.inputs|) && (o.Local? ==> o.op in ids)
  {
    var locals := PlacedExists(ids, hv);
    if KeepsMeaning(g, ids, hv, o) {
      var env := if o.OuterArg? then map[o.id := Scalar(1)] else map[];
      assert SameAt(g, ids, hv, o, env, [], [], locals);
    }
  }

  // ----- the operations emitted in front of the generic -----

  datatype Ref = Ref(id: nat) | Dangling(o: Operand)

  datatype Stmt = Extract(dst: nat, tensor: nat) | Compute(dst: nat, code: nat, refs: seq<Ref>)
    | FromElements(dst: nat, src: nat)

  function RefValue(env: Env, r: Ref): int {
    match r
    case Ref(id) => ScalarOf(env, id)
    case Dangling(_) => 0
  }

  function RefValues(env: Env, rs: seq<Ref>): (vs: seq<int>)
    ensures |vs| == |rs| && forall i :: 0 <= i < |rs| ==> vs[i] == RefValue(env, rs[i])
  {
    seq(|rs|, i requires 0 <= i < |rs| => RefValue(env, rs[i]))
  }

  function Splat(v: int): Point -> int { p => v }

  function ExecStmt(I: Interp, env: Env, s: Stmt): Env {
    match s
    case Extract(dst, t) => env[dst := Scalar(ReadAt(env, t, []))]
    case Compute(dst, code, refs) => env[dst := Scalar(I.pure(code, 0, RefValues(env, refs)))]
    case FromElements(dst, src) => env[dst := Tensor(Splat(ScalarOf(env, src)))]
  }

  function Exec(I: Interp, env: Env, ss: seq<Stmt>): Env {
    if ss == [] then env else ExecStmt(I, Exec(I, env, ss[..|ss| - 1]), ss[|ss| - 1])
  }

  lemma {:induction false} ExecConcat(I: Interp, env: Env, a: seq<Stmt>, b: seq<Stmt>)
    ensures Exec(I, env, a + b) == Exec(I, Exec(I, env, a), b)
  {
    if b == [] {
      assert a + b == a;
    } else {
      assert (a + b)[..|a + b| - 1] == a + b[..|b| - 1];
      ExecConcat(I, env, a, b[..|b| - 1]);
    }
  }

  // The operand map filled for one clone, with the extracts it needed.
  datatype Fill = Fill(stmts: seq<Stmt>, bvm: map<Operand, nat>, next: nat)

  // A block argument - of any block - whose number is below the input count.
  predicate LooksLikeInput(g: Generic, o: Operand) {
    (o.Arg? && o.n < |g.inputs|) || (o.OuterArg? && o.number < |g.inputs|)
  }

  function InputOf(g: Generic, o: Operand): nat
    requires LooksLikeInput(g, o)
  {
    g.inputs[if o.Arg? then o.n else o.number].tensor
  }

  function FillOne(g: Generic, table: map<nat, nat>, f: Fill, o: Operand): Fill {
    if o.Local? && o.op in table then f.(bvm := f.bvm[o := table[o.op]])
    else if LooksLikeInput(g, o) then Fill(f.stmts + [Extract(f.next, InputOf(g, o))], f.bvm[o := f.next], f.next + 1)
    else f
  }

  function FillAll(g: Generic, table: map<nat, nat>, os: seq<Operand>, next: nat): Fill {
    if os == [] then Fill([], map[], next) else FillOne(g, table, FillAll(g, table, os[..|os| - 1], next), os[|os| - 1])
  }

  function RefOf(bvm: map<Operand, nat>, o: Operand): Ref {
    if o in bvm then Ref(bvm[o])
    else match o
      case Outer(id) => Ref(id)
      case OuterArg(id, _) => Ref(id)
      case _ => Dangling(o)
  }

  function Refs(bvm: map<Operand, nat>, os: seq<Operand>): (rs: seq<Ref>)
    ensures |rs| == |os| && forall i :: 0 <= i < |os| ==> rs[i] == RefOf(bvm, os[i])
  {
    seq(|os|, i requires 0 <= i < |os| => RefOf(bvm, os[i]))
  }

  datatype Hoisted = Hoisted(stmts: seq<Stmt>, table: map<nat, nat>, tensors: seq<nat>, next: nat)

  function HoistOne(g: Generic, h: Hoisted, op: Op): Hoisted {
    var f := FillAll(g, h.table, op.operands, h.next);
    Hoisted(h.stmts + f.stmts + [Compute(f.next, op.code, Refs(f.bvm, op.operands)), FromElements(f.next + 1, f.next)],
            h.table[op.id := f.next], h.tensors + [f.next + 1], f.next + 2)
  }

  function HoistAll(g: Generic, hs: seq<Op>, next: nat): (h: Hoisted)
    ensures |h.tensors| == |hs|
  {
    if hs == [] then Hoisted([], map[], [], next) else HoistOne(g, HoistAll(g, hs[..|hs| - 1], next), hs[|hs| - 1])
  }

  // ----- what the emitted operations compute -----

  function MappedValues(g: Generic, env: Env, ids: seq<nat>, hv: seq<int>, os: seq<Operand>): (vs: seq<int>)
    ensures |vs| == |os|
    ensures forall i :: 0 <= i < |os| ==> vs[i] == MappedValue(g, env, ids, hv, os[i])
  {
    seq(|os|, i requires 0 <= i < |os| => MappedValue(g, env, ids, hv, os[i]))
  }

  function MappedValue(g: Generic, env: Env, ids: seq<nat>, hv: seq<int>, o: Operand): int {
    match Mapped(g, env, ids, hv, o) case Some(v) => v case None => 0
  }

  // The value each hoisted operation has outside the region.
  function HoistedValues(I: Interp, g: Generic, env: Env, ids: seq<nat>, hs: seq<Op>): (hv: seq<int>)
    ensures |hv| == |hs|
  {
    if hs == [] then []
    else
      var hv := HoistedValues(I, g, env, ids, hs[..|hs| - 1]);
      hv + [I.pure(hs[|hs| - 1].code, 0, MappedValues(g, env, ids, hv, hs[|hs| - 1].operands))]
  }

  ghost predicate AgreeBelow(a: Env, b: Env, n: nat) {
    forall id: nat :: id < n ==> AgreeAt(a, b, id)
  }

  ghost predicate AgreeAt(a: Env, b: Env, id: nat) {
    (id in a <==> id in b) && (id in a ==> a[id] == b[id])
  }

  predicate OperandBelow(o: Operand, n: nat) {
    match o case Outer(id) => id < n case OuterArg(id, _) => id < n case _ => true
  }

  ghost predicate InputsBelow(g: Generic, n: nat) {
    forall i :: 0 <= i < |g.inputs| ==> g.inputs[i].tensor < n
  }

  ghost predicate OperandsBelow(os: seq<Operand>, n: nat) {
    forall i :: 0 <= i < |os| ==> OperandBelow(os[i], n)
  }

  // A hoisted operand that will be found: not another block's low-numbered argument, not
  // an input of higher rank, and not a region result still unhoisted.
  predicate Faithful(g: Generic, ids: seq<nat>, k: nat, o: Operand) {
    match o
    case Outer(_) => true
    case OuterArg(_, n) => n >= |g.inputs|
    case Arg(n) => Rank0(g, n)
    case Local(x, r) => r == 0 && x in ids && Find(ids, x) < k
  }

  ghost predicate FaithfulAll(g: Generic, ids: seq<nat>, k: nat, os: seq<Operand>) {
    forall i :: 0 <= i < |os| ==> Faithful(g, ids, k, os[i])
  }

  // The first k hoisted results, each held by its outer scalar.
  ghost predicate TableHolds(table: map<nat, nat>, ids: seq<nat>, hv: seq<int>, env: Env, next: nat) {
    && |hv| <= |ids|
    && (forall j :: 0 <= j < |hv| ==> Held(table, ids[j], hv[j], env, next))
    && (forall x :: x in table ==> x in ids && Find(ids, x) < |hv|)
  }

  ghost predicate Held(table: map<nat, nat>, x: nat, v: int, env: Env, next: nat) {
    x in table && table[x] < next && table[x] in env && env[table[x]] == Scalar(v)
  }

  // Every operand mapped so far, at the value it stands for.
  ghost predicate BvmHolds(g: Generic, base: Env, ids: seq<nat>, hv: seq<int>, env: Env, f: Fill) {
    forall o :: o in f.bvm ==> Bound(g, base, ids, hv, env, f, o)
  }

  ghost predicate Bound(g: Generic, base: Env, ids: seq<nat>, hv: seq<int>, env: Env, f: Fill, o: Operand)
    requires o in f.bvm
  {
    f.bvm[o] < f.next && Mapped(g, base, ids, hv, o) == Some(ScalarOf(env, f.bvm[o]))
  }

  predicate NeedsMap(g: Generic, o: Operand) { o.Local? || LooksLikeInput(g, o) }

  lemma FillOneEnv(I: Interp, g: Generic, table: map<nat, nat>, env: Env, f0: Fill, o: Operand)
    ensures var e0, f := Exec(I, env, f0.stmts), FillOne(g, table, f0, o);
            Exec(I, env, f.stmts) ==
            (if !(o.Local? && o.op in table) && LooksLikeInput(g, o)
             then e0[f0.next := Scalar(ReadAt(e0, InputOf(g, o), []))] else e0)
  {
    var f := FillOne(g, table, f0, o);
    if f.stmts != f0.stmts { assert f.stmts[..|f.stmts| - 1] == f0.stmts; }
  }

  // The new binding, if any.
  lemma NewBinding(I: Interp, g: Generic, table: map<nat, nat>, ids: seq<nat>, hv: seq<int>,
                   env: Env, base: Env, f0: Fill, o: Operand, next: nat, low: nat)
    requires TableHolds(table, ids, hv, env, next)
    requires AgreeBelow(base, env, low) && low <= next <= f0.next && InputsBelow(g, low)
    requires Faithful(g, ids, |hv|, o) && AgreeBelow(env, Exec(I, env, f0.stmts), next) && NeedsMap(g, o)
    ensures var f := FillOne(g, table, f0, o);
            o in f.bvm && Bound(g, base, ids, hv, Exec(I, env, f.stmts), f, o)
  {
    hide AgreeBelow, InputsBelow, Exec, TableHolds;
    FillOneEnv(I, g, table, env, f0, o);
    if o.Local? {
      HeldAt(table, ids, hv, env, next, Find(ids, o.op));
      BelowAgrees(env, Exec(I, env, f0.stmts), next, table[o.op]);
    } else {
      InputIsBelow(g, low, o);
      BelowAgrees(base, env, low, InputOf(g, o));
      BelowAgrees(env, Exec(I, env, f0.stmts), next, InputOf(g, o));
    }
  }

  lemma HeldAt(table: map<nat, nat>, ids: seq<nat>, hv: seq<int>, env: Env, next: nat, j: nat)
    requires TableHolds(table, ids, hv, env, next) && j < |hv|
    ensures j < |ids| && Held(table, ids[j], hv[j], env, next)
  {
  }

  lemma BelowAgrees(a: Env, b: Env, n: nat, id: nat)
    requires AgreeBelow(a, b, n) && id < n
    ensures AgreeAt(a, b, id)
  {
  }

  lemma InputIsBelow(g: Generic, low: nat, o: Operand)
    requires InputsBelow(g, low) && LooksLikeInput(g, o)
    ensures InputOf(g, o) < low
  {
  }

  // Bindings made before keep their values.
  lemma BindingsStay(I: Interp, g: Generic, table: map<nat, nat>, ids: seq<nat>, hv: seq<int>,
                     env: Env, base: Env, f0: Fill, o: Operand, next: nat)
    requires AgreeBelow(env, Exec(I, env, f0.stmts), next) && next <= f0.next
    requires BvmHolds(g, base, ids, hv, Exec(I, env, f0.stmts), f0)
    ensures var f := FillOne(g, table, f0, o);
            f.next >= f0.next && AgreeBelow(env, Exec(I, env, f.stmts), next)
            && forall x :: x in f0.bvm && x != o ==> x in f.bvm && Bound(g, base, ids, hv, Exec(I, env, f.stmts), f, x)
  {
    hide Exec, Mapped;
    FillOneEnv(I, g, table, env, f0, o);
    var f := FillOne(g, table, f0, o);
    var e0, e := Exec(I, env, f0.stmts), Exec(I, env, f.stmts);
    forall id: nat | id < next ensures AgreeAt(env, e, id) { assert AgreeAt(env, e0, id); }
    forall x | x in f0.bvm && x != o ensures x in f.bvm && Bound(g, base, ids, hv, e, f, x) {
      assert Bound(g, base, ids, hv, e0, f0, x);
    }
  }

  lemma FillOneMeans(I: Interp, g: Generic, table: map<nat, nat>, ids: seq<nat>, hv: seq<int>,
                     env: Env, base: Env, f0: Fill, o: Operand, next: nat, low: nat)
    requires TableHolds(table, ids, hv, env, next)
    requires AgreeBelow(base, env, low) && low <= next <= f0.next && InputsBelow(g, low)
    requires Faithful(g, ids, |hv|, o) && AgreeBelow(env, Exec(I, env, f0.stmts), next)
    requires BvmHolds(g, base, ids, hv, Exec(I, env, f0.stmts), f0)
    ensures var f := FillOne(g, table, f0, o);
            f.next >= f0.next && AgreeBelow(env, Exec(I, env, f.stmts), next)
            && BvmHolds(g, base, ids, hv, Exec(I, env, f.stmts), f)
            && (forall x :: x in f0.bvm ==> x in f.bvm) && (NeedsMap(g, o) ==> o in f.bvm)
  {
    hide AgreeBelow, InputsBelow, Exec, TableHolds, Bound, Faithful;
    BindingsStay(I, g, table, ids, hv, env, base, f0, o, next);
    if NeedsMap(g, o) {
      NewBinding(I, g, table, ids, hv, env, base, f0, o, next, low);
    } else {
      assert FillOne(g, table, f0, o) == f0;
    }
  }

  ghost predicate Covers(g: Generic, f: Fill, os: seq<Operand>) {
    forall i :: 0 <= i < |os| ==> NeedsMap(g, os[i]) ==> os[i] in f.bvm
  }

  lemma CoversMore(g: Generic, f0: Fill, f: Fill, os: seq<Operand>)
    requires os != [] && Covers(g, f0, os[..|os| - 1])
    requires (forall x :: x in f0.bvm ==> x in f.bvm) && (NeedsMap(g, os[|os| - 1]) ==> os[|os| - 1] in f.bvm)
    ensures Covers(g, f, os)
  {
    forall i | 0 <= i < |os| && NeedsMap(g, os[i]) ensures os[i] in f.bvm {
      if i < |os| - 1 { assert os[i] == os[..|os| - 1][i]; }
    }
  }

  // One clone's operands: the map binds each operand that needs it to a scalar of its value.
  lemma {:induction false} FillMeans(I: Interp, g: Generic, table: map<nat, nat>, ids: seq<nat>, hv: seq<int>,
                                     env: Env, base: Env, os: seq<Operand>, next: nat, low: nat)
    requires TableHolds(table, ids, hv, env, next)
    requires AgreeBelow(base, env, low) && low <= next && InputsBelow(g, low)
    requires FaithfulAll(g, ids, |hv|, os)
    ensures var f := FillAll(g, table, os, next);
            f.next >= next && AgreeBelow(env, Exec(I, env, f.stmts), next)
            && BvmHolds(g, base, ids, hv, Exec(I, env, f.stmts), f) && Covers(g, f, os)
  {
    if os != [] {
      hide TableHolds, AgreeBelow, BvmHolds, InputsBelow, FillOne, NeedsMap, Exec, Faithful, Covers;
      var n := |os| - 1;
      assert FaithfulAll(g, ids, |hv|, os[..n]);
      FillMeans(I, g, table, ids, hv, env, base, os[..n], next, low);
      FillOneMeans(I, g, table, ids, hv, env, base, FillAll(g, table, os[..n], next), os[n], next, low);
      CoversMore(g, FillAll(g, table, os[..n], next), FillAll(g, table, os, next), os);
    } else {
      assert FillAll(g, table, os, next) == Fill([], map[], next);
    }
  }

  lemma RefMeans(g: Generic, base: Env, ids: seq<nat>, hv: seq<int>, env: Env, f: Fill, o: Operand, low: nat)
    requires BvmHolds(g, base, ids, hv, env, f) && AgreeBelow(base, env, low) && OperandBelow(o, low)
    requires Faithful(g, ids, |hv|, o) && (NeedsMap(g, o) ==> o in f.bvm)
    ensures RefValue(env, RefOf(f.bvm, o)) == MappedValue(g, base, ids, hv, o)
    ensures RefOf(f.bvm, o).Ref?
  {
    if o in f.bvm {
      assert Bound(g, base, ids, hv, env, f, o);
    } else {
      assert AgreeAt(base, env, o.id);
    }
  }

  ghost predicate TensorHeld(env: Env, t: nat, v: int, low: nat, next: nat) {
    low <= t < next && t in env && env[t].Tensor? && env[t].at([]) == v
  }

  ghost predicate TensorsHold(env: Env, tensors: seq<nat>, hv: seq<int>, low: nat, next: nat) {
    |tensors| == |hv| && forall k :: 0 <= k < |hv| ==> TensorHeld(env, tensors[k], hv[k], low, next)
  }

  // Each operation can be cloned outside in its turn, and speaks of known values only.
  ghost predicate Cloneable(g: Generic, ids: seq<nat>, hs: seq<Op>, low: nat) {
    && |hs| <= |ids| && Distinct(ids) && InputsBelow(g, low)
    && (forall k :: 0 <= k < |hs| ==> hs[k].id == ids[k])
    && (forall k :: 0 <= k < |hs| ==> CloneableAt(g, ids, k, hs[k], low))
  }

  ghost predicate CloneableAt(g: Generic, ids: seq<nat>, k: nat, op: Op, low: nat) {
    FaithfulAll(g, ids, k, op.operands) && OperandsBelow(op.operands, low)
  }

  // What holds after hoisting a prefix of the operations.
  ghost predicate HoistState(env: Env, base: Env, ids: seq<nat>, hv: seq<int>, h: Hoisted, next: nat) {
    && next <= h.next && AgreeBelow(base, env, next)
    && TableHolds(h.table, ids, hv, env, h.next) && TensorsHold(env, h.tensors, hv, next, h.next)
  }

  lemma CloneValue(g: Generic, base: Env, ids: seq<nat>, hv: seq<int>, env: Env, f: Fill, os: seq<Operand>, low: nat)
    requires BvmHolds(g, base, ids, hv, env, f) && AgreeBelow(base, env, low)
    requires OperandsBelow(os, low) && FaithfulAll(g, ids, |hv|, os)
    requires Covers(g, f, os)
    ensures RefValues(env, Refs(f.bvm, os)) == MappedValues(g, base, ids, hv, os)
    ensures forall i :: 0 <= i < |os| ==> Refs(f.bvm, os)[i].Ref?
  {
    forall i | 0 <= i < |os|
      ensures RefValue(env, RefOf(f.bvm, os[i])) == MappedValue(g, base, ids, hv, os[i]) && RefOf(f.bvm, os[i]).Ref?
    {
      RefMeans(g, base, ids, hv, env, f, os[i], low);
    }
  }

  lemma AgreeTrans(a: Env, b: Env, c: Env, n: nat, m: nat)
    requires AgreeBelow(a, b, n) && AgreeBelow(b, c, m)
    ensures n <= m ==> AgreeBelow(a, c, n)
    ensures m <= n ==> AgreeBelow(a, c, m)
  {
    forall id: nat | id < n && id < m ensures AgreeAt(a, c, id) { assert AgreeAt(a, b, id) && AgreeAt(b, c, id); }
  }

  lemma ExecTwo(I: Interp, env: Env, a: Stmt, b: Stmt)
    ensures Exec(I, env, [a, b]) == ExecStmt(I, ExecStmt(I, env, a), b)
  {
    assert [a, b][..1] == [a] && [a][..0] == [];
    assert Exec(I, env, []) == env;
    assert Exec(I, env, [a]) == ExecStmt(I, env, a);
  }

  lemma HoistOneEnv(I: Interp, g: Generic, base: Env, h: Hoisted, op: Op)
    ensures var f := FillAll(g, h.table, op.operands, h.next);
            var e1 := Exec(I, Exec(I, base, h.stmts), f.stmts);
            var v := I.pure(op.code, 0, RefValues(e1, Refs(f.bvm, op.operands)));
            var e := Exec(I, base, HoistOne(g, h, op).stmts);
            e.Keys == e1.Keys + {f.next, f.next + 1} && e[f.next] == Scalar(v)
            && e[f.next + 1].Tensor? && e[f.next + 1].at([]) == v
            && forall x :: x in e1 && x != f.next && x != f.next + 1 ==> e[x] == e1[x]
  {
    hide Exec, FillAll, Refs;
    var f := FillAll(g, h.table, op.operands, h.next);
    var c, w := Compute(f.next, op.code, Refs(f.bvm, op.operands)), FromElements(f.next + 1, f.next);
    ExecConcat(I, base, h.stmts + f.stmts, [c, w]);
    ExecConcat(I, base, h.stmts, f.stmts);
    ExecTwo(I, Exec(I, Exec(I, base, h.stmts), f.stmts), c, w);
  }

  // Later definitions keep what is already held.
  lemma HeldStays(env: Env, e: Env, table: map<nat, nat>, ids: seq<nat>, hv: seq<int>, tensors: seq<nat>,
                  low: nat, next: nat, next': nat)
    requires TableHolds(table, ids, hv, env, next) && TensorsHold(env, tensors, hv, low, next)
    requires AgreeBelow(env, e, next) && next <= next'
    ensures TableHolds(table, ids, hv, e, next') && TensorsHold(e, tensors, hv, low, next')
  {
    forall j | 0 <= j < |hv|
      ensures Held(table, ids[j], hv[j], e, next') && TensorHeld(e, tensors[j], hv[j], low, next')
    {
      assert Held(table, ids[j], hv[j], env, next) && TensorHeld(env, tensors[j], hv[j], low, next);
      assert AgreeAt(env, e, table[ids[j]]) && AgreeAt(env, e, tensors[j]);
    }
  }

  lemma TableGrows(table: map<nat, nat>, ids: seq<nat>, hv: seq<int>, env: Env, next: nat, s: nat, v: int)
    requires TableHolds(table, ids, hv, env, next) && Distinct(ids) && |hv| < |ids|
    requires s < next && s in env && env[s] == Scalar(v)
    ensures TableHolds(table[ids[|hv|] := s], ids, hv + [v], env, next)
  {
    var k := |hv|;
    var table', hv' := table[ids[k] := s], hv + [v];
    forall j | 0 <= j < |hv'| ensures Held(table', ids[j], hv'[j], env, next) {
      if j < k { assert Held(table, ids[j], hv[j], env, next); }
    }
    FindAt(ids, k);
  }

  lemma HoistOneMeans(I: Interp, g: Generic, base: Env, ids: seq<nat>, hv: seq<int>, h: Hoisted, op: Op, next: nat,
                      low: nat)
    requires HoistState(Exec(I, base, h.stmts), base, ids, hv, h, next)
    requires |hv| < |ids| && op.id == ids[|hv|] && Distinct(ids) && InputsBelow(g, low) && low <= next
    requires CloneableAt(g, ids, |hv|, op, low)
    ensures var h' := HoistOne(g, h, op);
            var hv' := hv + [I.pure(op.code, 0, MappedValues(g, base, ids, hv, op.operands))];
            HoistState(Exec(I, base, h'.stmts), base, ids, hv', h', next)
  {
    hide Exec, FillAll, TableHolds, TensorsHold, BvmHolds, FaithfulAll, OperandsBelow, InputsBelow, Distinct, NeedsMap;
    var e0 := Exec(I, base, h.stmts);
    var f := FillAll(g, h.table, op.operands, h.next);
    var e1 := Exec(I, e0, f.stmts);
    var h' := HoistOne(g, h, op);
    var e := Exec(I, base, h'.stmts);
    AgreeTrans(base, e0, e0, low, next);
    FillMeans(I, g, h.table, ids, hv, e0, base, op.operands, h.next, low);
    AgreeTrans(base, e0, e1, next, h.next);
    AgreeTrans(base, e1, e1, low, next);
    CloneValue(g, base, ids, hv, e1, f, op.operands, low);
    HoistOneEnv(I, g, base, h, op);
    assert AgreeBelow(e1, e, f.next);
    AgreeTrans(base, e1, e, next, f.next);
    AgreeTrans(e0, e1, e, h.next, f.next);
    HeldStays(e0, e, h.table, ids, hv, h.tensors, next, h.next, h'.next);
    var v := I.pure(op.code, 0, MappedValues(g, base, ids, hv, op.operands));
    TableGrows(h.table, ids, hv, e, h'.next, f.next, v);
    TensorsGrow(e, h.tensors, hv, next, h'.next, f.next + 1, v);
  }

  lemma TensorsGrow(e: Env, tensors: seq<nat>, hv: seq<int>, low: nat, next: nat, t: nat, v: int)
    requires TensorsHold(e, tensors, hv, low, next) && TensorHeld(e, t, v, low, next)
    ensures TensorsHold(e, tensors + [t], hv + [v], low, next)
  {
  }

  // After the emitted prologue every hoisted value sits in its own rank-0 tensor and
  // nothing that existed before has changed.
  lemma {:induction false} HoistMeans(I: Interp, g: Generic, base: Env, ids: seq<nat>, hs: seq<Op>, next: nat, low: nat)
    requires Cloneable(g, ids, hs, low) && low <= next
    ensures HoistState(Exec(I, base, HoistAll(g, hs, next).stmts), base, ids, HoistedValues(I, g, base, ids, hs),
                       HoistAll(g, hs, next), next)
  {
    if hs == [] {
      assert Exec(I, base, []) == base;
    } else {
      hide Exec, HoistState, HoistOne;
      var n := |hs| - 1;
      HoistMeans(I, g, base, ids, hs[..n], next, low);
      HoistOneMeans(I, g, base, ids, HoistedValues(I, g, base, ids, hs[..n]), HoistAll(g, hs[..n], next), hs[n],
        next, low);
    }
  }

  // ----- the rebuilt region yields the same values -----

  // Both regions part-way through: what is not hoisted agrees, what is hoisted is known.
  ghost predicate InStep(locals: Locals, locals': Locals, defined: Defined, ids: seq<nat>, hv: seq<int>) {
    locals.Keys == defined.Keys && forall x :: x in defined ==> InStepAt(locals, locals', defined, ids, hv, x)
  }

  ghost predicate InStepAt(locals: Locals, locals': Locals, defined: Defined, ids: seq<nat>, hv: seq<int>, x: nat)
    requires x in defined && x in locals
  {
    && |locals[x]| == defined[x]
    && if x in ids then Find(ids, x) < |hv| && locals[x] == [hv[Find(ids, x)]]
       else x in locals' && locals'[x] == locals[x]
  }

  // Where a region runs: outer values, point, inputs and current outputs, before and after.
  datatype Frame = Frame(env: Env, env': Env, p: Point, ins: seq<int>, outs: seq<int>)

  ghost predicate FrameFits(g: Generic, fr: Frame, low: nat) {
    && |fr.outs| == |g.outputs| && fr.ins == InputElements(fr.env, g.inputs, fr.p)
    && AgreeBelow(fr.env, fr.env', low)
  }

  lemma RemapValue(g: Generic, fr: Frame, ids: seq<nat>, hv: seq<int>, defined: Defined, locals: Locals,
                   locals': Locals,
                   o: Operand, low: nat)
    requires FrameFits(g, fr, low) && OperandBelow(o, low) && InScope(g, defined, o)
    requires InStep(locals, locals', defined, ids, hv) && |hv| == |ids|
    ensures Value(fr.env', fr.ins + hv + fr.outs, locals', Remap(g, ids, o))
            == Value(fr.env, fr.ins + fr.outs, locals, o)
  {
    match o
    case Local(x, r) => assert InStepAt(locals, locals', defined, ids, hv, x);
    case Outer(id) => assert AgreeAt(fr.env, fr.env', id);
    case OuterArg(id, _) => assert AgreeAt(fr.env, fr.env', id);
    case Arg(n) =>
  }

  lemma RemapValues(g: Generic, fr: Frame, ids: seq<nat>, hv: seq<int>, defined: Defined, locals: Locals,
                    locals': Locals,
                    os: seq<Operand>, low: nat)
    requires FrameFits(g, fr, low) && OperandsBelow(os, low)
    requires forall i :: 0 <= i < |os| ==> InScope(g, defined, os[i])
    requires InStep(locals, locals', defined, ids, hv) && |hv| == |ids|
    ensures Values(fr.env', fr.ins + hv + fr.outs, locals', RemapAll(g, ids, os))
            == Values(fr.env, fr.ins + fr.outs, locals, os)
  {
    forall i | 0 <= i < |os|
      ensures Value(fr.env', fr.ins + hv + fr.outs, locals', Remap(g, ids, os[i]))
              == Value(fr.env, fr.ins + fr.outs, locals, os[i])
    {
      RemapValue(g, fr, ids, hv, defined, locals, locals', os[i], low);
    }
  }

  // Inside the region a hoisted operation computes exactly its outer value.
  lemma InsideValues(g: Generic, fr: Frame, ids: seq<nat>, hv: seq<int>, k: nat, defined: Defined, locals: Locals,
                     locals': Locals, os: seq<Operand>, low: nat)
    requires FrameFits(g, fr, low) && MapsFit(g) && k <= |hv| == |ids|
    requires forall i :: 0 <= i < |os| ==> InScope(g, defined, os[i])
    requires InStep(locals, locals', defined, ids, hv) && FaithfulAll(g, ids, k, os)
    ensures Values(fr.env, fr.ins + fr.outs, locals, os) == MappedValues(g, fr.env, ids, hv[..k], os)
  {
    forall i | 0 <= i < |os|
      ensures Value(fr.env, fr.ins + fr.outs, locals, os[i]) == MappedValue(g, fr.env, ids, hv[..k], os[i])
    {
      var o := os[i];
      assert Faithful(g, ids, k, o);
      if o.Local? { assert InStepAt(locals, locals', defined, ids, hv, o.op); }
    }
  }

  lemma {:induction false} HoistedValueAt(I: Interp, g: Generic, env: Env, ids: seq<nat>, hs: seq<Op>, k: nat)
    requires k < |hs|
    ensures HoistedValues(I, g, env, ids, hs[..k]) == HoistedValues(I, g, env, ids, hs)[..k]
    ensures HoistedValues(I, g, env, ids, hs)[k] ==
            I.pure(hs[k].code, 0, MappedValues(g, env, ids, HoistedValues(I, g, env, ids, hs)[..k], hs[k].operands))
  {
    var n := |hs| - 1;
    if k < n {
      HoistedValueAt(I, g, env, ids, hs[..n], k);
      assert hs[..n][..k] == hs[..k];
    }
  }

  ghost predicate OpsBelow(ops: seq<Op>, low: nat) {
    forall i :: 0 <= i < |ops| ==> OperandsBelow(ops[i].operands, low)
  }

  // One operation of the region, hoisted or kept, keeps the two runs in step.
  lemma OpInStep(I: Interp, g: Generic, fr: Frame, ids: seq<nat>, hv: seq<int>, k: nat, defined: Defined,
                 locals: Locals, locals': Locals, op: Op, low: nat)
    requires FrameFits(g, fr, low) && MapsFit(g) && k <= |hv| == |ids| && Distinct(ids)
    requires op.id !in defined && OperandsBelow(op.operands, low)
    requires forall i :: 0 <= i < |op.operands| ==> InScope(g, defined, op.operands[i])
    requires InStep(locals, locals', defined, ids, hv)
    requires op.id in ids <==> Hoistable(g, op)
    requires Hoistable(g, op) ==> k < |ids| && ids[k] == op.id && FaithfulAll(g, ids, k, op.operands)
                                  && hv[k] == I.pure(op.code, 0, MappedValues(g, fr.env, ids, hv[..k], op.operands))
    ensures var rs := Results(I, op, fr.p, Values(fr.env, fr.ins + fr.outs, locals, op.operands));
            var rs' := Results(I, op, fr.p,
                Values(fr.env', fr.ins + hv + fr.outs, locals', RemapAll(g, ids, op.operands)));
            InStep(locals[op.id := rs], if op.id in ids then locals' else locals'[op.id := rs'],
                   defined[op.id := op.results], ids, hv)
  {
    hide FrameFits, MapsFit, Distinct, FaithfulAll, OperandsBelow, Hoistable;
    var rs := Results(I, op, fr.p, Values(fr.env, fr.ins + fr.outs, locals, op.operands));
    if Hoistable(g, op) {
      InsideValues(g, fr, ids, hv, k, defined, locals, locals', op.operands, low);
      FindAt(ids, k);
      HoistableResult(I, g, op, fr.p, Values(fr.env, fr.ins + fr.outs, locals, op.operands));
    } else {
      RemapValues(g, fr, ids, hv, defined, locals, locals', op.operands, low);
    }
    var rs' := Results(I, op, fr.p, Values(fr.env', fr.ins + hv + fr.outs, locals', RemapAll(g, ids, op.operands)));
    var l, l' := locals[op.id := rs], if op.id in ids then locals' else locals'[op.id := rs'];
    var d := defined[op.id := op.results];
    forall x | x in d ensures InStepAt(l, l', d, ids, hv, x) {
      if x != op.id { assert InStepAt(locals, locals', defined, ids, hv, x); }
    }
  }

  lemma HoistableResult(I: Interp, g: Generic, op: Op, p: Point, vs: seq<int>)
    requires Hoistable(g, op)
    ensures Results(I, op, p, vs) == [I.pure(op.code, 0, vs)] && op.results == 1
  {
  }

  lemma {:induction false} RegionsAgree(I: Interp, g: Generic, fr: Frame, hs: seq<Op>, k: nat, ops: seq<Op>,
                                        defined: Defined,
                                        locals: Locals, locals': Locals, low: nat)
    requires FrameFits(g, fr, low) && MapsFit(g) && k <= |hs| && hs[k..] == Selected(g, ops)
    requires Cloneable(g, Ids(hs), hs, low) && OpsBelow(ops, low) && OperandsBelow(g.returned, low)
    requires OpsScoped(g, ops, defined)
    requires forall i :: 0 <= i < |ops| ==> (ops[i].id in Ids(hs) <==> Hoistable(g, ops[i]))
    requires InStep(locals, locals', defined, Ids(hs), HoistedValues(I, g, fr.env, Ids(hs), hs))
    ensures var ids, hv := Ids(hs), HoistedValues(I, g, fr.env, Ids(hs), hs);
            Values(fr.env', fr.ins + hv + fr.outs,
              RunOps(I, fr.env', fr.p, fr.ins + hv + fr.outs, Rebuilt(g, ids, ops), locals'),
                   RemapAll(g, ids, g.returned))
            == Values(fr.env, fr.ins + fr.outs, RunOps(I, fr.env, fr.p, fr.ins + fr.outs, ops, locals), g.returned)
    decreases |ops|
  {
    hide FrameFits, MapsFit, InStep, Hoistable, HoistedValues, OperandsBelow, InScope;
    var ids, hv := Ids(hs), HoistedValues(I, g, fr.env, Ids(hs), hs);
    if ops == [] {
      RemapValues(g, fr, ids, hv, defined, locals, locals', g.returned, low);
    } else {
      var op, rest := ops[0], ops[1..];
      var h := Hoistable(g, op);
      if h {
        assert hs[k] == hs[k..][0] && hs[k + 1..] == hs[k..][1..];
        HoistedValueAt(I, g, fr.env, ids, hs, k);
        assert CloneableAt(g, ids, k, hs[k], low);
      }
      OpInStep(I, g, fr, ids, hv, k, defined, locals, locals', op, low);
      var rs := Results(I, op, fr.p, Values(fr.env, fr.ins + fr.outs, locals, op.operands));
      var rs' := Results(I, op, fr.p, Values(fr.env', fr.ins + hv + fr.outs, locals', RemapAll(g, ids, op.operands)));
      RegionsAgree(I, g, fr, hs, if h then k + 1 else k, rest, defined[op.id := op.results], locals[op.id := rs],
                   if op.id in ids then locals' else locals'[op.id := rs'], low);
      RunRebuilt(I, g, fr.env', fr.p, fr.ins + hv + fr.outs, ids, ops, locals');
    }
  }

  lemma RunRebuilt(I: Interp, g: Generic, env: Env, p: Point, args: seq<int>, ids: seq<nat>, ops: seq<Op>,
                   locals: Locals)
    requires ops != []
    ensures var vs := Values(env, args, locals, RemapAll(g, ids, ops[0].operands));
            RunOps(I, env, p, args, Rebuilt(g, ids, ops), locals) ==
            RunOps(I, env, p, args, Rebuilt(g, ids, ops[1..]),
                   if ops[0].id in ids then locals else locals[ops[0].id := Results(I, ops[0], p, vs)])
  {
    var rest := Rebuilt(g, ids, ops[1..]);
    var vs := Values(env, args, locals, RemapAll(g, ids, ops[0].operands));
    if ops[0].id in ids {
      assert Rebuilt(g, ids, ops) == rest;
    } else {
      var op := ops[0].(operands := RemapAll(g, ids, ops[0].operands));
      assert Rebuilt(g, ids, ops) == [op] + rest && ([op] + rest)[1..] == rest;
      assert Results(I, op, p, vs) == Results(I, ops[0], p, vs);
    }
  }

  // ----- the selection can be cloned -----

  // Another block's argument has a number from bound on, and a constant is of scalar type.
  ghost predicate CleanOperand(g: Generic, o: Operand, bound: nat) {
    && (o.OuterArg? ==> o.number >= bound)
    && (o.Local? ==> forall i :: 0 <= i < |g.ops| && g.ops[i].id == o.op && g.ops[i].constant ==> g.ops[i].scalar)
  }

  ghost predicate CleanAt(g: Generic, op: Op, bound: nat) {
    forall j :: 0 <= j < |op.operands| ==> CleanOperand(g, op.operands[j], bound)
  }

  // So it is with the operands of the operations that are hoisted now.
  ghost predicate CleanSelection(g: Generic) {
    forall i :: 0 <= i < |g.ops| && Hoistable(g, g.ops[i]) ==> CleanAt(g, g.ops[i], |g.inputs|)
  }

  ghost predicate OutputsBelow(g: Generic, n: nat) {
    forall i :: 0 <= i < |g.outputs| ==> g.outputs[i].init < n && g.outputs[i].result < n
  }

  ghost predicate Below(g: Generic, n: nat) {
    InputsBelow(g, n) && OutputsBelow(g, n) && OpsBelow(g.ops, n) && OperandsBelow(g.returned, n)
  }

  lemma {:induction false} LaterNew(g: Generic, ops: seq<Op>, defined: Defined, i: nat)
    requires OpsScoped(g, ops, defined) && i < |ops|
    ensures ops[i].id !in defined
    ensures i > 0 ==> ops[i].id != ops[0].id
    decreases |ops|
  {
    hide InScope;
    if i > 0 { LaterNew(g, ops[1..], defined[ops[0].id := ops[0].results], i - 1); }
  }

  lemma {:induction false} SelectedFrom(g: Generic, ops: seq<Op>, k: nat) returns (i: nat)
    requires k < |Selected(g, ops)|
    ensures i < |ops| && ops[i] == Selected(g, ops)[k]
    decreases |ops|
  {
    hide Hoistable;
    var sub := Selected(g, ops[1..]);
    if Hoistable(g, ops[0]) && k == 0 {
      i := 0;
    } else {
      i := SelectedFrom(g, ops[1..], if Hoistable(g, ops[0]) then k - 1 else k);
      i := i + 1;
    }
  }

  lemma SelectedHead(g: Generic, ops: seq<Op>)
    requires ops != []
    ensures Hoistable(g, ops[0]) ==> Selected(g, ops) == [ops[0]] + Selected(g, ops[1..])
                                     && Ids(Selected(g, ops)) == [ops[0].id] + Ids(Selected(g, ops[1..]))
    ensures !Hoistable(g, ops[0]) ==> Selected(g, ops) == Selected(g, ops[1..])
  {
    hide Hoistable;
    if Hoistable(g, ops[0]) {
      assert Ids([ops[0]] + Selected(g, ops[1..])) == [ops[0].id] + Ids(Selected(g, ops[1..]));
    }
  }

  lemma SelectedIdNew(g: Generic, ops: seq<Op>, defined: Defined, k: nat)
    requires OpsScoped(g, ops, defined) && k < |Selected(g, ops)|
    ensures Selected(g, ops)[k].id !in defined && Selected(g, ops)[k] in ops
  {
    hide OpsScoped, Selected;
    var i := SelectedFrom(g, ops, k);
    LaterNew(g, ops, defined, i);
  }

  lemma {:induction false} SelectedDistinct(g: Generic, ops: seq<Op>, defined: Defined)
    requires OpsScoped(g, ops, defined)
    ensures Distinct(Ids(Selected(g, ops)))
    decreases |ops|
  {
    if ops != [] {
      hide InScope, Hoistable, Selected;
      var d := defined[ops[0].id := ops[0].results];
      var sub := Selected(g, ops[1..]);
      SelectedDistinct(g, ops[1..], d);
      SelectedHead(g, ops);
      forall k: nat | k < |sub| ensures Ids(sub)[k] != ops[0].id { SelectedIdNew(g, ops[1..], d, k); }
    }
  }

  lemma {:induction false} SelectedIff(g: Generic, ops: seq<Op>, defined: Defined, i: nat)
    requires OpsScoped(g, ops, defined) && i < |ops|
    ensures ops[i].id in Ids(Selected(g, ops)) <==> Hoistable(g, ops[i])
    decreases |ops|
  {
    hide InScope, Hoistable, Selected;
    var d := defined[ops[0].id := ops[0].results];
    var sub := Selected(g, ops[1..]);
    SelectedHead(g, ops);
    if i > 0 {
      SelectedIff(g, ops[1..], d, i - 1);
      LaterNew(g, ops, defined, i);
    } else {
      forall k: nat | k < |sub| ensures Ids(sub)[k] != ops[0].id { SelectedIdNew(g, ops[1..], d, k); }
    }
  }

  lemma SelectedFresh(g: Generic, ops: seq<Op>, defined: Defined)
    requires OpsScoped(g, ops, defined)
    ensures forall k :: 0 <= k < |Selected(g, ops)| ==> Selected(g, ops)[k].id !in defined && Selected(g, ops)[k] in ops
    ensures Distinct(Ids(Selected(g, ops)))
    ensures forall i :: 0 <= i < |ops| ==> ops[i].id !in defined
    ensures forall i :: 0 <= i < |ops| ==> (ops[i].id in Ids(Selected(g, ops)) <==> Hoistable(g, ops[i]))
  {
    hide OpsScoped, Hoistable, Selected, Distinct;
    SelectedDistinct(g, ops, defined);
    forall k: nat | k < |Selected(g, ops)| ensures Selected(g, ops)[k].id !in defined && Selected(g, ops)[k] in ops {
      SelectedIdNew(g, ops, defined, k);
    }
    forall i: nat | i < |ops|
      ensures ops[i].id !in defined && (ops[i].id in Ids(Selected(g, ops)) <==> Hoistable(g, ops[i]))
    {
      LaterNew(g, ops, defined, i);
      SelectedIff(g, ops, defined, i);
    }
  }

  lemma ConstantIsHoistable(g: Generic, ops: seq<Op>, defined: Defined, i: nat)
    requires OpsScoped(g, ops, defined) && i < |ops| && ops[i].constant && ops[i].scalar
    ensures Hoistable(g, ops[i])
    decreases |ops|
  {
    if i > 0 { ConstantIsHoistable(g, ops[1..], defined[ops[0].id := ops[0].results], i - 1); }
  }

  // A region result a hoistable operation uses is a constant hoisted before it.
  lemma UsesHoisted(g: Generic, hs: seq<Op>, k: nat, defined: Defined, o: Operand)
    requires WellFormed(g) && hs == Selected(g, g.ops) && k <= |hs|
    requires forall j :: k <= j < |hs| ==> hs[j].id !in defined
    requires forall x :: x in defined && IsConstant(g.ops, x) ==> defined[x] == 1
    requires o.Local? && InScope(g, defined, o) && IsConstant(g.ops, o.op) && CleanOperand(g, o, |g.inputs|)
    ensures Faithful(g, Ids(hs), k, o)
  {
    hide Hoistable;
    SelectedFresh(g, g.ops, map[]);
    var i :| 0 <= i < |g.ops| && g.ops[i].id == o.op && g.ops[i].constant;
    ConstantIsHoistable(g, g.ops, map[], i);
    assert o.op in Ids(hs);
  }

  // Results of constants recorded so far: one each.
  ghost predicate ConstantsSingle(ops: seq<Op>, defined: Defined) {
    forall x :: x in defined && IsConstant(ops, x) ==> defined[x] == 1
  }

  lemma {:induction false} SelectionFaithful(g: Generic, hs: seq<Op>, k: nat, ops: seq<Op>, defined: Defined)
    requires WellFormed(g) && CleanSelection(g)
    requires hs == Selected(g, g.ops) && k <= |hs| && hs[k..] == Selected(g, ops)
    requires OpsScoped(g, ops, defined) && ConstantsSingle(g.ops, defined)
    requires forall i :: 0 <= i < |ops| ==> ops[i] in g.ops
    ensures forall j :: k <= j < |hs| ==> FaithfulAll(g, Ids(hs), j, hs[j].operands)
    decreases |ops|
  {
    hide WellFormed, Hoistable, FaithfulAll, InScope, CleanSelection, ConstantsSingle, Selected;
    if ops == [] {
      assert Selected(g, ops) == [] by { SelectedEmpty(g); }
    } else {
      var op, rest := ops[0], ops[1..];
      var d := defined[op.id := op.results];
      SelectedHead(g, ops);
      assert ConstantsSingle(g.ops, d) by { ConstantsStaySingle(g, defined, op); }
      assert forall i :: 0 <= i < |rest| ==> rest[i] == ops[i + 1];
      if Hoistable(g, op) {
        assert hs[k] == hs[k..][0] && hs[k + 1..] == hs[k..][1..];
        HeadFaithful(g, hs, k, ops, defined);
        SelectionFaithful(g, hs, k + 1, rest, d);
      } else {
        SelectionFaithful(g, hs, k, rest, d);
      }
    }
  }

  lemma SelectedEmpty(g: Generic)
    ensures Selected(g, []) == []
  {
  }

  lemma ConstantsStaySingle(g: Generic, defined: Defined, op: Op)
    requires WellFormed(g) && op in g.ops && ConstantsSingle(g.ops, defined)
    ensures ConstantsSingle(g.ops, defined[op.id := op.results])
  {
    hide WellFormed, IsConstant;
    ConstantHasOneResult(g, op);
  }

  lemma HeadFaithful(g: Generic, hs: seq<Op>, k: nat, ops: seq<Op>, defined: Defined)
    requires WellFormed(g) && CleanSelection(g)
    requires hs == Selected(g, g.ops) && k < |hs| && hs[k..] == Selected(g, ops) && hs[k] == ops[0]
    requires ops != [] && OpsScoped(g, ops, defined) && ConstantsSingle(g.ops, defined)
    requires ops[0] in g.ops && Hoistable(g, ops[0])
    ensures FaithfulAll(g, Ids(hs), k, hs[k].operands)
  {
    hide WellFormed, Hoistable, Faithful, InScope, CleanSelection, Selected;
    forall j: nat | k <= j < |hs| ensures hs[j].id !in defined {
      assert hs[j] == hs[k..][j - k];
      SelectedIdNew(g, ops, defined, j - k);
    }
    forall i | 0 <= i < |ops[0].operands| ensures Faithful(g, Ids(hs), k, ops[0].operands[i]) {
      OperandFaithful(g, hs, k, defined, ops[0], ops[0].operands[i]);
    }
  }

  lemma OperandFaithful(g: Generic, hs: seq<Op>, k: nat, defined: Defined, op: Op, o: Operand)
    requires WellFormed(g) && CleanSelection(g)
    requires hs == Selected(g, g.ops) && k <= |hs|
    requires forall j :: k <= j < |hs| ==> hs[j].id !in defined
    requires forall x :: x in defined && IsConstant(g.ops, x) ==> defined[x] == 1
    requires op in g.ops && o in op.operands && Hoistable(g, op) && InScope(g, defined, o)
    ensures Faithful(g, Ids(hs), k, o)
  {
    hide WellFormed, IsConstant, CleanOperand;
    assert Invariant(g, o);
    var i :| 0 <= i < |g.ops| && g.ops[i] == op;
    var j :| 0 <= j < |op.operands| && op.operands[j] == o;
    assert CleanOperand(g, o, |g.inputs|);
    if o.Local? {
      UsesHoisted(g, hs, k, defined, o);
    } else if o.OuterArg? {
      CleanCapture(g, o);
    }
  }

  lemma CleanCapture(g: Generic, o: Operand)
    requires o.OuterArg? && CleanOperand(g, o, |g.inputs|)
    ensures o.number >= |g.inputs|
  {
  }

  lemma ConstantHasOneResult(g: Generic, op: Op)
    requires WellFormed(g) && op in g.ops
    ensures IsConstant(g.ops, op.id) ==> op.results == 1
  {
    if IsConstant(g.ops, op.id) {
      var i :| 0 <= i < |g.ops| && g.ops[i].id == op.id && g.ops[i].constant;
      var j :| 0 <= j < |g.ops| && g.ops[j] == op;
      OneOpPerId(g, g.ops, map[], i, j);
    }
  }

  lemma {:induction false} OneOpPerId(g: Generic, ops: seq<Op>, defined: Defined, i: nat, j: nat)
    requires OpsScoped(g, ops, defined) && i < |ops| && j < |ops| && ops[i].id == ops[j].id
    ensures i == j && (ops[i].constant ==> ops[i].results == 1)
    decreases |ops|
  {
    var d := defined[ops[0].id := ops[0].results];
    if i > 0 && j > 0 {
      OneOpPerId(g, ops[1..], d, i - 1, j - 1);
    } else if i != j {
      LaterNew(g, ops, defined, i + j);
    }
  }

  lemma SelectionCloneable(g: Generic, low: nat)
    requires WellFormed(g) && CleanSelection(g) && Below(g, low)
    ensures var hs := Selected(g, g.ops); Cloneable(g, Ids(hs), hs, low)
  {
    hide CleanSelection, InScope, Selected, OpsScoped, Hoistable, Distinct, InputsBelow, OperandsBelow, FaithfulAll;
    var hs := Selected(g, g.ops);
    SelectedFresh(g, g.ops, map[]);
    assert hs[0..] == hs;
    SelectionFaithful(g, hs, 0, g.ops, map[]);
    forall k | 0 <= k < |hs| ensures CloneableAt(g, Ids(hs), k, hs[k], low) {
      var i :| 0 <= i < |g.ops| && g.ops[i] == hs[k];
    }
  }

  // ----- one generic: meaning kept at every point -----

  ghost predicate CanHoist(g: Generic, low: nat) {
    WellFormed(g) && CleanSelection(g) && Below(g, low)
  }

  lemma NewElements(g: Generic, env: Env, env': Env, p: Point, tensors: seq<nat>, hv: seq<int>, low: nat, next: nat)
    requires AgreeBelow(env, env', low) && InputsBelow(g, low) && TensorsHold(env', tensors, hv, low, next)
    ensures InputElements(env', g.inputs + NewInputs(tensors), p) == InputElements(env, g.inputs, p) + hv
  {
    var inputs := g.inputs + NewInputs(tensors);
    forall i | 0 <= i < |inputs|
      ensures ReadAt(env', inputs[i].tensor, inputs[i].indexing(p)) == (InputElements(env, g.inputs, p) + hv)[i]
    {
      if i < |g.inputs| {
        assert AgreeAt(env, env', g.inputs[i].tensor);
      } else {
        assert TensorHeld(env', tensors[i - |g.inputs|], hv[i - |g.inputs|], low, next);
      }
    }
  }

  // At every point, for any current outputs, the new region yields what the old one did.
  lemma HoistKeepsYield(I: Interp, g: Generic, env: Env, next: nat, p: Point, outs: seq<int>)
    requires CanHoist(g, next) && |outs| == |g.outputs|
    ensures var hs := Selected(g, g.ops);
            var h := HoistAll(g, hs, next);
            YieldedAt(I, Exec(I, env, h.stmts), NewGeneric(g, hs, h.tensors), p, outs) == YieldedAt(I, env, g, p, outs)
  {
    hide Cloneable, TableHolds, TensorsHold, InputsBelow, OperandsBelow, OpsBelow, MapsFit, OpsScoped, Selected, Exec,
      CleanSelection, HoistAll, HoistedValues, AgreeBelow, OutputsBelow, RunOps, Hoistable, Rebuilt;
    var hs := Selected(g, g.ops);
    var ids := Ids(hs);
    var h := HoistAll(g, hs, next);
    var env' := Exec(I, env, h.stmts);
    var hv := HoistedValues(I, g, env, ids, hs);
    SelectionCloneable(g, next);
    HoistMeans(I, g, env, ids, hs, next, next);
    NewElements(g, env, env', p, h.tensors, hv, next, h.next);
    SelectedFresh(g, g.ops, map[]);
    assert hs[0..] == hs;
    var fr := Frame(env, env', p, InputElements(env, g.inputs, p), outs);
    StartInStep(ids, hv);
    RegionsAgree(I, g, fr, hs, 0, g.ops, map[], map[], map[], next);
  }

  lemma StartInStep(ids: seq<nat>, hv: seq<int>)
    ensures InStep(map[], map[], map[], ids, hv)
  {
  }

  // ----- whole functions -----

  // points: the iteration space in execution order.
  datatype Item = Do(s: Stmt) | Loop(g: Generic, points: seq<Point>)

  type Out = Point -> int

  function Elements(outs: seq<Out>, outputs: seq<Output>, p: Point): (vs: seq<int>)
    requires |outs| == |outputs|
    ensures |vs| == |outs|
  {
    seq(|outs|, j requires 0 <= j < |outs| => outs[j](outputs[j].indexing(p)))
  }

  function Written(f: Out, at: Point, v: int): Out { q => if q == at then v else f(q) }

  function WriteAll(outs: seq<Out>, outputs: seq<Output>, p: Point, ys: seq<int>): (r: seq<Out>)
    requires |outs| == |outputs|
    ensures |r| == |outs|
  {
    seq<Out>(|outs|, j requires 0 <= j < |outs| =>
      Written(outs[j], outputs[j].indexing(p), if j < |ys| then ys[j] else 0))
  }

  function RunPoints(I: Interp, env: Env, g: Generic, points: seq<Point>, outs: seq<Out>): (r: seq<Out>)
    requires |outs| == |g.outputs|
    ensures |r| == |outs|
  {
    if points == [] then outs
    else
      var p := points[0];
      RunPoints(I, env, g, points[1..],
        WriteAll(outs, g.outputs, p, YieldedAt(I, env, g, p, Elements(outs, g.outputs, p))))
  }

  function TensorAt(env: Env, id: nat): Out { if id in env && env[id].Tensor? then env[id].at else (_ => 0) }

  function Inits(env: Env, outputs: seq<Output>): (r: seq<Out>)
    ensures |r| == |outputs|
  {
    seq(|outputs|, j requires 0 <= j < |outputs| => TensorAt(env, outputs[j].init))
  }

  function Bind(env: Env, outputs: seq<Output>, outs: seq<Out>): Env
    requires |outs| == |outputs|
    decreases |outputs|
  {
    if outputs == [] then env else Bind(env[outputs[0].result := Tensor(outs[0])], outputs[1..], outs[1..])
  }

  function ExecItem(I: Interp, env: Env, it: Item): Env {
    match it
    case Do(s) => ExecStmt(I, env, s)
    case Loop(g, points) => Bind(env, g.outputs, RunPoints(I, env, g, points, Inits(env, g.outputs)))
  }

  function ExecItems(I: Interp, env: Env, items: seq<Item>): Env
    decreases |items|
  {
    if items == [] then env else ExecItems(I, ExecItem(I, env, items[0]), items[1..])
  }

  ghost predicate StmtBelow(s: Stmt, n: nat) {
    match s
    case Extract(dst, t) => dst < n && t < n
    case Compute(dst, _, refs) => dst < n && forall i :: 0 <= i < |refs| ==> refs[i].Ref? && refs[i].id < n
    case FromElements(dst, src) => dst < n && src < n
  }

  ghost predicate ItemBelow(it: Item, n: nat) {
    match it case Do(s) => StmtBelow(s, n) case Loop(g, _) => Below(g, n)
  }

  lemma {:induction false} HoistKeepsPoints(I: Interp, g: Generic, env: Env, next: nat, points: seq<Point>,
                                            outs: seq<Out>)
    requires CanHoist(g, next) && |outs| == |g.outputs|
    ensures var hs := Selected(g, g.ops);
            var h := HoistAll(g, hs, next);
            RunPoints(I, Exec(I, env, h.stmts), NewGeneric(g, hs, h.tensors), points, outs)
              == RunPoints(I, env, g, points, outs)
    decreases |points|
  {
    hide CanHoist, Exec, HoistAll, YieldedAt, Selected, WriteAll, Elements, RemapAll, Rebuilt;
    if points != [] {
      var p := points[0];
      var es := Elements(outs, g.outputs, p);
      HoistKeepsYield(I, g, env, next, p, es);
      HoistKeepsPoints(I, g, env, next, points[1..], WriteAll(outs, g.outputs, p, YieldedAt(I, env, g, p, es)));
    }
  }

  lemma {:induction false} BindAgrees(a: Env, b: Env, outputs: seq<Output>, outs: seq<Out>, n: nat)
    requires AgreeBelow(a, b, n) && |outs| == |outputs|
    ensures AgreeBelow(Bind(a, outputs, outs), Bind(b, outputs, outs), n)
    decreases |outputs|
  {
    if outputs != [] {
      var a', b' := a[outputs[0].result := Tensor(outs[0])], b[outputs[0].result := Tensor(outs[0])];
      forall id: nat | id < n ensures AgreeAt(a', b', id) { assert AgreeAt(a, b, id); }
      BindAgrees(a', b', outputs[1..], outs[1..], n);
    }
  }

  lemma InitsAgree(a: Env, b: Env, g: Generic, n: nat)
    requires AgreeBelow(a, b, n) && OutputsBelow(g, n)
    ensures Inits(a, g.outputs) == Inits(b, g.outputs)
  {
    forall j | 0 <= j < |g.outputs| ensures TensorAt(a, g.outputs[j].init) == TensorAt(b, g.outputs[j].init) {
      assert AgreeAt(a, b, g.outputs[j].init);
    }
  }

  // The prologue and the new generic together do what the old generic did.
  lemma HoistKeepsGeneric(I: Interp, g: Generic, points: seq<Point>, env: Env, next: nat)
    requires CanHoist(g, next)
    ensures var hs := Selected(g, g.ops);
            var h := HoistAll(g, hs, next);
            AgreeBelow(ExecItem(I, env, Loop(g, points)),
                       ExecItem(I, Exec(I, env, h.stmts), Loop(NewGeneric(g, hs, h.tensors), points)), next)
  {
    hide Exec, HoistAll, AgreeBelow, Bind, RunPoints, Selected, RemapAll, Rebuilt, TableHolds, TensorsHold,
      CleanSelection, WellFormed, InputsBelow, OutputsBelow, OpsBelow, OperandsBelow, Cloneable;
    var hs := Selected(g, g.ops);
    var h := HoistAll(g, hs, next);
    var env' := Exec(I, env, h.stmts);
    SelectionCloneable(g, next);
    HoistMeans(I, g, env, Ids(hs), hs, next, next);
    InitsAgree(env, env', g, next);
    HoistKeepsPoints(I, g, env, next, points, Inits(env, g.outputs));
    BindAgrees(env, env', g.outputs, RunPoints(I, env, g, points, Inits(env, g.outputs)), next);
  }
}
