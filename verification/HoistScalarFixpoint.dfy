// HoistScalarOps.cpp, the pass itself: each rewrite keeps the function's meaning and
// leaves it fit for the next, and the loop ends with nothing left to hoist.
module HoistScalarFixpoint {
  import opened Basics
  import opened Sequences
  import opened HoistScalar

  // ----- a rewritten generic is again well formed -----

  lemma {:induction false} RebuiltScoped(g: Generic, g': Generic, ids: seq<nat>, ops: seq<Op>, defined: Defined,
                                         defined': Defined)
    requires OpsScoped(g, ops, defined)
    requires |g'.inputs| == |g.inputs| + |ids| && |g'.outputs| == |g.outputs|
             && g'.returned == RemapAll(g, ids, g.returned)
    requires forall x :: x in defined' <==> x in defined && x !in ids
    requires forall x :: x in defined' ==> defined'[x] == defined[x]
    ensures OpsScoped(g', Rebuilt(g, ids, ops), defined')
    decreases |ops|
  {
    if ops == [] {
      forall i | 0 <= i < |g'.returned| ensures InScope(g', defined', g'.returned[i]) {
        assert InScope(g, defined, g.returned[i]);
      }
    } else {
      var op, d := ops[0], defined[ops[0].id := ops[0].results];
      if op.id in ids {
        assert Rebuilt(g, ids, ops) == Rebuilt(g, ids, ops[1..]);
        RebuiltScoped(g, g', ids, ops[1..], d, defined');
      } else {
        RebuiltScoped(g, g', ids, ops[1..], d, defined'[op.id := op.results]);
        var op' := op.(operands := RemapAll(g, ids, op.operands));
        assert Rebuilt(g, ids, ops) == [op'] + Rebuilt(g, ids, ops[1..]);
        forall i | 0 <= i < |op'.operands| ensures InScope(g', defined', op'.operands[i]) {
          assert InScope(g, defined, op.operands[i]);
        }
      }
    }
  }

  lemma {:induction false} RebuiltFrom(g: Generic, ids: seq<nat>, ops: seq<Op>)
    ensures forall k :: 0 <= k < |Rebuilt(g, ids, ops)| ==> FromOp(g, ids, ops, Rebuilt(g, ids, ops)[k])
  {
    if ops != [] {
      RebuiltFrom(g, ids, ops[1..]);
      var r, r1 := Rebuilt(g, ids, ops), Rebuilt(g, ids, ops[1..]);
      forall k | 0 <= k < |r| ensures FromOp(g, ids, ops, r[k]) {
        var off := |r| - |r1|;
        if k < off {
          assert IsRemapOf(g, ids, ops[0], r[k]);
        } else {
          assert FromOp(g, ids, ops[1..], r1[k - off]);
          var i :| 0 <= i < |ops[1..]| && IsRemapOf(g, ids, ops[1..][i], r1[k - off]);
          assert IsRemapOf(g, ids, ops[i + 1], r[k]);
        }
      }
    }
  }

  ghost predicate IsRemapOf(g: Generic, ids: seq<nat>, op: Op, op': Op) {
    op' == op.(operands := RemapAll(g, ids, op.operands))
  }

  ghost predicate FromOp(g: Generic, ids: seq<nat>, ops: seq<Op>, op': Op) {
    exists i :: 0 <= i < |ops| && IsRemapOf(g, ids, ops[i], op')
  }

  lemma {:induction false} SplitSizes(g: Generic, ids: seq<nat>, ops: seq<Op>)
    requires forall i :: 0 <= i < |ops| ==> (ops[i].id in ids <==> Hoistable(g, ops[i]))
    ensures |Rebuilt(g, ids, ops)| + |Selected(g, ops)| == |ops|
  {
    hide Hoistable;
    if ops != [] { SplitSizes(g, ids, ops[1..]); }
  }

  ghost predicate InvariantOrLifted(g: Generic, o: Operand, lifted: set<nat>) {
    Invariant(g, o) || (o.Local? && o.op in lifted)
  }

  // Could be hoisted once the operations with these identities are.
  ghost predicate Liftable(g: Generic, lifted: set<nat>, op: Op) {
    && !op.dialect.OtherDialect? && op.results == 1 && op.scalar
    && forall j :: 0 <= j < |op.operands| ==> InvariantOrLifted(g, op.operands[j], lifted)
  }

  // Every operation hoisted in some round is among these.
  ghost predicate Closed(g: Generic, lifted: set<nat>) {
    forall i :: 0 <= i < |g.ops| && Liftable(g, lifted, g.ops[i]) ==> g.ops[i].id in lifted
  }

  ghost function CountLifted(ops: seq<Op>, lifted: set<nat>): nat {
    if ops == [] then 0 else (if ops[0].id in lifted then 1 else 0) + CountLifted(ops[1..], lifted)
  }

  ghost predicate CleanOnes(g: Generic, lifted: set<nat>, bound: nat) {
    forall i :: 0 <= i < |g.ops| && g.ops[i].id in lifted ==> CleanAt(g, g.ops[i], bound)
  }

  // Operands of what is ever hoisted: block arguments of other blocks have numbers beyond
  // every input the generic can still gain, and constants are of scalar type.
  ghost predicate ReadyBy(g: Generic, lifted: set<nat>) {
    Closed(g, lifted) && CleanOnes(g, lifted, |g.inputs| + CountLifted(g.ops, lifted))
  }

  // A generic that can be hoisted from, now and in all later rounds.
  ghost predicate Ready(g: Generic, low: nat) {
    WellFormed(g) && Below(g, low) && exists lifted :: ReadyBy(g, lifted)
  }

  lemma HoistableIsLifted(g: Generic, lifted: set<nat>, i: nat)
    requires Closed(g, lifted) && i < |g.ops| && Hoistable(g, g.ops[i])
    ensures g.ops[i].id in lifted
  {
    hide Invariant;
    assert Liftable(g, lifted, g.ops[i]);
  }

  lemma SelectedIsLifted(g: Generic, lifted: set<nat>, k: nat)
    requires WellFormed(g) && Closed(g, lifted) && k < |Selected(g, g.ops)|
    ensures Selected(g, g.ops)[k].id in lifted
  {
    hide Closed, Hoistable, Selected, OpsScoped;
    var op := Selected(g, g.ops)[k];
    SelectedFresh(g, g.ops, map[]);
    assert op in g.ops && Ids(Selected(g, g.ops))[k] == op.id;
    var i :| 0 <= i < |g.ops| && g.ops[i] == op;
    HoistableIsLifted(g, lifted, i);
  }

  lemma CleanLess(g: Generic, op: Op, bound: nat, bound': nat)
    requires CleanAt(g, op, bound) && bound' <= bound
    ensures CleanAt(g, op, bound')
  {
    forall j | 0 <= j < |op.operands| ensures CleanOperand(g, op.operands[j], bound') {
      assert CleanOperand(g, op.operands[j], bound);
    }
  }

  lemma ReadyCanHoist(g: Generic, low: nat)
    requires Ready(g, low)
    ensures CanHoist(g, low)
  {
    hide WellFormed, Below, CleanAt, Hoistable, Closed;
    var lifted :| ReadyBy(g, lifted);
    forall i | 0 <= i < |g.ops| && Hoistable(g, g.ops[i]) ensures CleanAt(g, g.ops[i], |g.inputs|) {
      HoistableIsLifted(g, lifted, i);
      CleanLess(g, g.ops[i], |g.inputs| + CountLifted(g.ops, lifted), |g.inputs|);
    }
  }

  // ----- the next round has the same operations left, but the hoisted ones -----

  lemma {:induction false} CountRebuilt(g: Generic, ids: seq<nat>, ops: seq<Op>, lifted: set<nat>)
    requires forall i :: 0 <= i < |ops| ==> (ops[i].id in ids <==> Hoistable(g, ops[i]))
    requires forall i :: 0 <= i < |ops| && Hoistable(g, ops[i]) ==> ops[i].id in lifted
    ensures CountLifted(Rebuilt(g, ids, ops), lifted) + |Selected(g, ops)| == CountLifted(ops, lifted)
  {
    hide Hoistable;
    if ops != [] {
      var rest := Rebuilt(g, ids, ops[1..]);
      CountRebuilt(g, ids, ops[1..], lifted);
      if ops[0].id in ids {
        assert Rebuilt(g, ids, ops) == rest;
      } else {
        var op := ops[0].(operands := RemapAll(g, ids, ops[0].operands));
        assert Rebuilt(g, ids, ops) == [op] + rest && ([op] + rest)[1..] == rest;
      }
    }
  }

  // One round: g' is g with the selected operations gone and their results as inputs.
  ghost predicate Round(g: Generic, g': Generic, ids: seq<nat>) {
    && |g'.inputs| == |g.inputs| + |ids| && g'.inputs[..|g.inputs|] == g.inputs
    && g'.ops == Rebuilt(g, ids, g.ops)
  }

  // What is invariant in the next round was so before, or has just been hoisted.
  lemma InvariantBefore(g: Generic, g': Generic, ids: seq<nat>, o: Operand, lifted: set<nat>)
    requires Round(g, g', ids) && forall k :: 0 <= k < |ids| ==> ids[k] in lifted
    requires InvariantOrLifted(g', Remap(g, ids, o), lifted)
    ensures InvariantOrLifted(g, o, lifted)
  {
    match o
    case Local(x, _) =>
      if x !in ids && IsConstant(g'.ops, x) { ConstantBefore(g, g', ids, x); }
    case Arg(n) =>
      if n < |g.inputs| { assert g'.inputs[n] == g'.inputs[..|g.inputs|][n]; }
    case _ =>
  }

  lemma ConstantBefore(g: Generic, g': Generic, ids: seq<nat>, x: nat)
    requires Round(g, g', ids) && IsConstant(g'.ops, x)
    ensures IsConstant(g.ops, x)
  {
    var k :| 0 <= k < |g'.ops| && g'.ops[k].id == x && g'.ops[k].constant;
    RebuiltFrom(g, ids, g.ops);
    assert FromOp(g, ids, g.ops, g'.ops[k]);
  }

  lemma LiftableBefore(g: Generic, g': Generic, ids: seq<nat>, op: Op, op': Op, lifted: set<nat>)
    requires Round(g, g', ids) && forall k :: 0 <= k < |ids| ==> ids[k] in lifted
    requires IsRemapOf(g, ids, op, op') && Liftable(g', lifted, op')
    ensures Liftable(g, lifted, op)
  {
    hide Invariant, Remap, Round;
    forall j | 0 <= j < |op.operands| ensures InvariantOrLifted(g, op.operands[j], lifted) {
      assert op'.operands[j] == Remap(g, ids, op.operands[j]);
      InvariantBefore(g, g', ids, op.operands[j], lifted);
    }
  }

  lemma CleanAfter(g: Generic, g': Generic, ids: seq<nat>, op: Op, op': Op, bound: nat)
    requires Round(g, g', ids) && IsRemapOf(g, ids, op, op') && CleanAt(g, op, bound)
    ensures CleanAt(g', op', bound)
  {
    forall j | 0 <= j < |op'.operands| ensures CleanOperand(g', op'.operands[j], bound) {
      var o := op.operands[j];
      assert op'.operands[j] == Remap(g, ids, o) && CleanOperand(g, o, bound);
      if op'.operands[j].Local? { ScalarAfter(g, g', ids, o.op); }
    }
  }

  lemma ScalarAfter(g: Generic, g': Generic, ids: seq<nat>, x: nat)
    requires Round(g, g', ids)
    requires forall i :: 0 <= i < |g.ops| && g.ops[i].id == x && g.ops[i].constant ==> g.ops[i].scalar
    ensures forall k :: 0 <= k < |g'.ops| && g'.ops[k].id == x && g'.ops[k].constant ==> g'.ops[k].scalar
  {
    RebuiltFrom(g, ids, g.ops);
    forall k | 0 <= k < |g'.ops| && g'.ops[k].id == x && g'.ops[k].constant ensures g'.ops[k].scalar {
      assert FromOp(g, ids, g.ops, g'.ops[k]);
    }
  }

  lemma StaysClosed(g: Generic, g': Generic, ids: seq<nat>, lifted: set<nat>)
    requires Round(g, g', ids) && Closed(g, lifted) && forall k :: 0 <= k < |ids| ==> ids[k] in lifted
    ensures Closed(g', lifted)
  {
    hide Liftable;
    RebuiltFrom(g, ids, g.ops);
    forall k | 0 <= k < |g'.ops| && Liftable(g', lifted, g'.ops[k]) ensures g'.ops[k].id in lifted {
      assert FromOp(g, ids, g.ops, g'.ops[k]);
      var i :| 0 <= i < |g.ops| && IsRemapOf(g, ids, g.ops[i], g'.ops[k]);
      LiftableBefore(g, g', ids, g.ops[i], g'.ops[k], lifted);
    }
  }

  lemma StaysClean(g: Generic, g': Generic, ids: seq<nat>, lifted: set<nat>, bound: nat)
    requires Round(g, g', ids) && CleanOnes(g, lifted, bound)
    ensures CleanOnes(g', lifted, bound)
  {
    hide CleanAt;
    RebuiltFrom(g, ids, g.ops);
    forall k | 0 <= k < |g'.ops| && g'.ops[k].id in lifted ensures CleanAt(g', g'.ops[k], bound) {
      assert FromOp(g, ids, g.ops, g'.ops[k]);
      var i :| 0 <= i < |g.ops| && IsRemapOf(g, ids, g.ops[i], g'.ops[k]);
      CleanAfter(g, g', ids, g.ops[i], g'.ops[k], bound);
    }
  }

  lemma RoundStaysReady(g: Generic, g': Generic, ids: seq<nat>, lifted: set<nat>)
    requires Round(g, g', ids) && ids == Ids(Selected(g, g.ops)) && ReadyBy(g, lifted)
    requires forall i :: 0 <= i < |g.ops| ==> (g.ops[i].id in ids <==> Hoistable(g, g.ops[i]))
    requires forall k :: 0 <= k < |ids| ==> ids[k] in lifted
    ensures ReadyBy(g', lifted)
  {
    hide Hoistable, Closed, CleanOnes, Selected;
    forall i: nat | i < |g.ops| && Hoistable(g, g.ops[i]) ensures g.ops[i].id in lifted {
      HoistableIsLifted(g, lifted, i);
    }
    CountRebuilt(g, ids, g.ops, lifted);
    StaysClosed(g, g', ids, lifted);
    StaysClean(g, g', ids, lifted, |g.inputs| + CountLifted(g.ops, lifted));
  }

  lemma NewGenericReady(g: Generic, tensors: seq<nat>, low: nat, next: nat)
    requires Ready(g, low) && low <= next && |tensors| == |Selected(g, g.ops)|
    requires forall k :: 0 <= k < |tensors| ==> tensors[k] < next
    ensures Ready(NewGeneric(g, Selected(g, g.ops), tensors), next)
    ensures |NewGeneric(g, Selected(g, g.ops), tensors).ops| == |g.ops| - |tensors|
  {
    hide Hoistable, InScope, OpsScoped, Closed, CleanOnes, OperandsBelow, Rebuilt, Selected, CountLifted;
    var hs := Selected(g, g.ops);
    var ids := Ids(hs);
    var g' := NewGeneric(g, hs, tensors);
    SelectedFresh(g, g.ops, map[]);
    RebuiltScoped(g, g', ids, g.ops, map[], map[]);
    SplitSizes(g, ids, g.ops);
    assert MapsFit(g') by { NewMapsFit(g, g', tensors); }
    assert OperandsBelow(g'.returned, next) by { RemapBelow(g, ids, g.returned, low, next); }
    OpsStayBelow(g, g', ids, low, next);
    var lifted :| ReadyBy(g, lifted);
    forall k: nat | k < |ids| ensures ids[k] in lifted { SelectedIsLifted(g, lifted, k); }
    assert g'.inputs[..|g.inputs|] == g.inputs;
    assert Round(g, g', ids);
    RoundStaysReady(g, g', ids, lifted);
  }

  lemma OpsStayBelow(g: Generic, g': Generic, ids: seq<nat>, low: nat, next: nat)
    requires OpsBelow(g.ops, low) && low <= next && g'.ops == Rebuilt(g, ids, g.ops)
    ensures OpsBelow(g'.ops, next)
  {
    hide OperandsBelow;
    RebuiltFrom(g, ids, g.ops);
    forall k | 0 <= k < |g'.ops| ensures OperandsBelow(g'.ops[k].operands, next) {
      assert FromOp(g, ids, g.ops, g'.ops[k]);
      var i :| 0 <= i < |g.ops| && IsRemapOf(g, ids, g.ops[i], g'.ops[k]);
      RemapBelow(g, ids, g.ops[i].operands, low, next);
    }
  }

  lemma NewMapsFit(g: Generic, g': Generic, tensors: seq<nat>)
    requires MapsFit(g) && g'.inputs == g.inputs + NewInputs(tensors)
    ensures MapsFit(g')
  {
  }

  lemma RemapBelow(g: Generic, ids: seq<nat>, os: seq<Operand>, low: nat, next: nat)
    requires OperandsBelow(os, low) && low <= next
    ensures OperandsBelow(RemapAll(g, ids, os), next)
  {
    forall i | 0 <= i < |os| ensures OperandBelow(Remap(g, ids, os[i]), next) { assert OperandBelow(os[i], low); }
  }

  // ----- the emitted operations use defined values only -----

  ghost predicate StmtsBelow(ss: seq<Stmt>, n: nat) {
    forall i :: 0 <= i < |ss| ==> StmtBelow(ss[i], n)
  }

  lemma StmtsBelowMore(ss: seq<Stmt>, n: nat, m: nat)
    requires StmtsBelow(ss, n) && n <= m
    ensures StmtsBelow(ss, m)
  {
    forall i | 0 <= i < |ss| ensures StmtBelow(ss[i], m) { assert StmtBelow(ss[i], n); }
  }

  lemma {:induction false} FillBelow(g: Generic, table: map<nat, nat>, os: seq<Operand>, next: nat, low: nat)
    requires InputsBelow(g, low) && low <= next
    ensures FillAll(g, table, os, next).next >= next
    ensures StmtsBelow(FillAll(g, table, os, next).stmts, FillAll(g, table, os, next).next)
  {
    if os != [] {
      var n := |os| - 1;
      FillBelow(g, table, os[..n], next, low);
      var f0, f := FillAll(g, table, os[..n], next), FillAll(g, table, os, next);
      assert f == FillOne(g, table, f0, os[n]);
      StmtsBelowMore(f0.stmts, f0.next, f.next);
    }
  }

  lemma {:induction false} HoistBelow(I: Interp, g: Generic, ids: seq<nat>, hs: seq<Op>, next: nat, low: nat)
    requires Cloneable(g, ids, hs, low) && low <= next
    ensures var h := HoistAll(g, hs, next);
            h.next >= next && StmtsBelow(h.stmts, h.next) && forall k :: 0 <= k < |h.tensors| ==> h.tensors[k] < h.next
  {
    if hs != [] {
      hide Exec, FillAll, TableHolds, TensorsHold, Distinct, InputsBelow, HoistedValues, AgreeBelow, StmtsBelow;
      var n := |hs| - 1;
      HoistBelow(I, g, ids, hs[..n], next, low);
      HoistMeans(I, g, map[], ids, hs[..n], next, low);
      var h0 := HoistAll(g, hs[..n], next);
      var hv := HoistedValues(I, g, map[], ids, hs[..n]);
      assert CloneableAt(g, ids, n, hs[n], low);
      CloneBelow(I, g, Exec(I, map[], h0.stmts), ids, hv, h0, hs[n], next, low);
    }
  }

  lemma CloneBelow(I: Interp, g: Generic, env: Env, ids: seq<nat>, hv: seq<int>, h: Hoisted, op: Op, next: nat,
                   low: nat)
    requires HoistState(env, map[], ids, hv, h, next) && Distinct(ids) && InputsBelow(g, low) && low <= next
    requires CloneableAt(g, ids, |hv|, op, low) && StmtsBelow(h.stmts, h.next)
    requires forall k :: 0 <= k < |h.tensors| ==> h.tensors[k] < h.next
    ensures var h' := HoistOne(g, h, op);
            h'.next >= h.next && StmtsBelow(h'.stmts, h'.next)
            && forall k :: 0 <= k < |h'.tensors| ==> h'.tensors[k] < h'.next
  {
    hide Exec, TableHolds, TensorsHold, Distinct, InputsBelow, FillAll, Faithful, StmtBelow, HoistOne;
    var f := FillAll(g, h.table, op.operands, h.next);
    var h' := HoistOne(g, h, op);
    FillBelow(g, h.table, op.operands, h.next, low);
    AgreeTrans(map[], env, env, low, next);
    FillMeans(I, g, h.table, ids, hv, env, map[], op.operands, h.next, low);
    OneBelow(g, h, op, f);
    StmtsBelowMore(h.stmts, h.next, h'.next);
    StmtsBelowMore(f.stmts, f.next, h'.next);
    forall i | 0 <= i < |op.operands|
      ensures RefOf(f.bvm, op.operands[i]).Ref? && RefOf(f.bvm, op.operands[i]).id < f.next
    {
      RefBelow(g, ids, hv, Exec(I, env, f.stmts), f, op.operands[i], low);
    }
    ComputeBelow(f, op, h'.next);
  }

  lemma OneBelow(g: Generic, h: Hoisted, op: Op, f: Fill)
    requires f == FillAll(g, h.table, op.operands, h.next)
    ensures var h' := HoistOne(g, h, op);
            h'.next == f.next + 2 && h'.tensors == h.tensors + [f.next + 1]
            && h'.stmts == h.stmts + f.stmts
              + [Compute(f.next, op.code, Refs(f.bvm, op.operands)), FromElements(f.next + 1, f.next)]
  {
  }

  lemma ComputeBelow(f: Fill, op: Op, next: nat)
    requires next == f.next + 2
    requires forall i :: 0 <= i < |op.operands| ==>
               RefOf(f.bvm, op.operands[i]).Ref? && RefOf(f.bvm, op.operands[i]).id < f.next
    ensures StmtBelow(Compute(f.next, op.code, Refs(f.bvm, op.operands)), next)
    ensures StmtBelow(FromElements(f.next + 1, f.next), next)
  {
  }

  lemma RefBelow(g: Generic, ids: seq<nat>, hv: seq<int>, env: Env, f: Fill, o: Operand, low: nat)
    requires BvmHolds(g, map[], ids, hv, env, f) && (NeedsMap(g, o) ==> o in f.bvm) && low <= f.next
    requires Faithful(g, ids, |hv|, o) && OperandBelow(o, low)
    ensures RefOf(f.bvm, o).Ref? && RefOf(f.bvm, o).id < f.next
  {
    if o in f.bvm { assert Bound(g, map[], ids, hv, env, f, o); }
  }

  // ----- meaning of later items depends on old values only -----

  lemma {:induction false} OpsAgree(I: Interp, a: Env, b: Env, p: Point, args: seq<int>, ops: seq<Op>, locals: Locals,
                                    n: nat)
    requires AgreeBelow(a, b, n) && OpsBelow(ops, n)
    ensures RunOps(I, a, p, args, ops, locals) == RunOps(I, b, p, args, ops, locals)
    decreases |ops|
  {
    if ops != [] {
      ValuesAgree(a, b, args, locals, ops[0].operands, n);
      var rs := Results(I, ops[0], p, Values(a, args, locals, ops[0].operands));
      assert OpsBelow(ops[1..], n) by {
        forall i | 0 <= i < |ops[1..]| ensures OperandsBelow(ops[1..][i].operands, n) {
          assert OperandsBelow(ops[i + 1].operands, n);
        }
      }
      OpsAgree(I, a, b, p, args, ops[1..], locals[ops[0].id := rs], n);
    }
  }

  lemma ValuesAgree(a: Env, b: Env, args: seq<int>, locals: Locals, os: seq<Operand>, n: nat)
    requires AgreeBelow(a, b, n) && OperandsBelow(os, n)
    ensures Values(a, args, locals, os) == Values(b, args, locals, os)
  {
    forall i | 0 <= i < |os| ensures Value(a, args, locals, os[i]) == Value(b, args, locals, os[i]) {
      assert OperandBelow(os[i], n);
      match os[i]
      case Outer(id) => assert AgreeAt(a, b, id);
      case OuterArg(id, _) => assert AgreeAt(a, b, id);
      case _ =>
    }
  }

  lemma YieldsAgree(I: Interp, a: Env, b: Env, g: Generic, p: Point, outs: seq<int>, n: nat)
    requires AgreeBelow(a, b, n) && Below(g, n)
    ensures YieldedAt(I, a, g, p, outs) == YieldedAt(I, b, g, p, outs)
  {
    hide OpsBelow, OperandsBelow;
    forall i | 0 <= i < |g.inputs|
      ensures ReadAt(a, g.inputs[i].tensor, g.inputs[i].indexing(p))
              == ReadAt(b, g.inputs[i].tensor, g.inputs[i].indexing(p))
    {
      assert AgreeAt(a, b, g.inputs[i].tensor);
    }
    assert InputElements(a, g.inputs, p) == InputElements(b, g.inputs, p);
    var args := InputElements(a, g.inputs, p) + outs;
    OpsAgree(I, a, b, p, args, g.ops, map[], n);
    ValuesAgree(a, b, args, RunOps(I, a, p, args, g.ops, map[]), g.returned, n);
  }

  lemma {:induction false} PointsAgree(I: Interp, a: Env, b: Env, g: Generic, points: seq<Point>, outs: seq<Out>,
                                       n: nat)
    requires AgreeBelow(a, b, n) && Below(g, n) && |outs| == |g.outputs|
    ensures RunPoints(I, a, g, points, outs) == RunPoints(I, b, g, points, outs)
    decreases |points|
  {
    hide AgreeBelow, Below, YieldedAt, WriteAll, Elements;
    if points != [] {
      var p := points[0];
      var es := Elements(outs, g.outputs, p);
      YieldsAgree(I, a, b, g, p, es, n);
      PointsAgree(I, a, b, g, points[1..], WriteAll(outs, g.outputs, p, YieldedAt(I, a, g, p, es)), n);
    }
  }

  lemma StoreAgrees(a: Env, b: Env, dst: nat, v: Val, n: nat)
    requires AgreeBelow(a, b, n)
    ensures AgreeBelow(a[dst := v], b[dst := v], n)
  {
    var a', b' := a[dst := v], b[dst := v];
    forall id: nat | id < n ensures AgreeAt(a', b', id) { assert AgreeAt(a, b, id); }
  }

  lemma StmtAgrees(I: Interp, a: Env, b: Env, s: Stmt, n: nat)
    requires AgreeBelow(a, b, n) && StmtBelow(s, n)
    ensures AgreeBelow(ExecStmt(I, a, s), ExecStmt(I, b, s), n)
  {
    match s
    case Extract(dst, t) =>
      assert AgreeAt(a, b, t);
      StoreAgrees(a, b, dst, Scalar(ReadAt(a, t, [])), n);
    case FromElements(dst, src) =>
      assert AgreeAt(a, b, src);
      StoreAgrees(a, b, dst, Tensor(Splat(ScalarOf(a, src))), n);
    case Compute(dst, code, refs) =>
      forall i | 0 <= i < |refs| ensures RefValue(a, refs[i]) == RefValue(b, refs[i]) {
        assert AgreeAt(a, b, refs[i].id);
      }
      assert RefValues(a, refs) == RefValues(b, refs);
      StoreAgrees(a, b, dst, Scalar(I.pure(code, 0, RefValues(a, refs))), n);
  }

  lemma ItemAgrees(I: Interp, a: Env, b: Env, it: Item, n: nat)
    requires AgreeBelow(a, b, n) && ItemBelow(it, n)
    ensures AgreeBelow(ExecItem(I, a, it), ExecItem(I, b, it), n)
  {
    hide AgreeBelow, StmtBelow, ExecStmt, Bind, RunPoints, InputsBelow, OutputsBelow, OpsBelow, OperandsBelow;
    match it
    case Do(s) => StmtAgrees(I, a, b, s, n);
    case Loop(g, points) =>
      InitsAgree(a, b, g, n);
      PointsAgree(I, a, b, g, points, Inits(a, g.outputs), n);
      BindAgrees(a, b, g.outputs, RunPoints(I, a, g, points, Inits(a, g.outputs)), n);
  }

  lemma {:induction false} ItemsAgree(I: Interp, a: Env, b: Env, items: seq<Item>, n: nat)
    requires AgreeBelow(a, b, n) && forall i :: 0 <= i < |items| ==> ItemBelow(items[i], n)
    ensures AgreeBelow(ExecItems(I, a, items), ExecItems(I, b, items), n)
    decreases |items|
  {
    hide AgreeBelow, ItemBelow, ExecItem;
    if items != [] {
      ItemAgrees(I, a, b, items[0], n);
      assert forall i :: 0 <= i < |items[1..]| ==> items[1..][i] == items[i + 1];
      ItemsAgree(I, ExecItem(I, a, items[0]), ExecItem(I, b, items[0]), items[1..], n);
    }
  }

  lemma {:induction false} ItemsConcat(I: Interp, env: Env, xs: seq<Item>, ys: seq<Item>)
    ensures ExecItems(I, env, xs + ys) == ExecItems(I, ExecItems(I, env, xs), ys)
    decreases |xs|
  {
    hide ExecItem;
    if xs == [] {
      assert xs + ys == ys;
    } else {
      assert (xs + ys)[1..] == xs[1..] + ys;
      ItemsConcat(I, ExecItem(I, env, xs[0]), xs[1..], ys);
    }
  }

  function Items(ss: seq<Stmt>): (r: seq<Item>)
    ensures |r| == |ss| && forall i :: 0 <= i < |ss| ==> r[i] == Do(ss[i])
  {
    seq(|ss|, i requires 0 <= i < |ss| => Do(ss[i]))
  }

  lemma {:induction false} StmtItems(I: Interp, env: Env, ss: seq<Stmt>)
    ensures ExecItems(I, env, Items(ss)) == Exec(I, env, ss)
  {
    hide ExecStmt;
    if ss != [] {
      var n := |ss| - 1;
      StmtItems(I, env, ss[..n]);
      assert Items(ss) == Items(ss[..n]) + [Do(ss[n])];
      ItemsConcat(I, env, Items(ss[..n]), [Do(ss[n])]);
      var e := Exec(I, env, ss[..n]);
      assert [Do(ss[n])][1..] == [];
      assert ExecItems(I, ExecItem(I, e, Do(ss[n])), []) == ExecItem(I, e, Do(ss[n]));
    }
  }

  // ----- one rewrite of a function -----

  ghost predicate ItemsReady(items: seq<Item>, n: nat) {
    forall i :: 0 <= i < |items| ==> ItemReady(items[i], n)
  }

  ghost predicate ItemReady(it: Item, n: nat) {
    match it case Do(s) => StmtBelow(s, n) case Loop(g, _) => Ready(g, n)
  }

  lemma ItemReadyMore(it: Item, n: nat, m: nat)
    requires ItemReady(it, n) && n <= m
    ensures ItemReady(it, m)
  {
    if it.Loop? {
      var g := it.g;
      forall i | 0 <= i < |g.ops| ensures OperandsBelow(g.ops[i].operands, m) { BelowMore(g.ops[i].operands, n, m); }
      BelowMore(g.returned, n, m);
    }
  }

  lemma BelowMore(os: seq<Operand>, n: nat, m: nat)
    requires OperandsBelow(os, n) && n <= m
    ensures OperandsBelow(os, m)
  {
    forall i | 0 <= i < |os| ensures OperandBelow(os[i], m) { assert OperandBelow(os[i], n); }
  }

  // What a rewrite puts in place of a generic.
  function Replacement(g: Generic, points: seq<Point>, next: nat): (r: seq<Item>) {
    var hs := Selected(g, g.ops);
    var h := HoistAll(g, hs, next);
    Items(h.stmts) + [Loop(NewGeneric(g, hs, h.tensors), points)]
  }

  ghost predicate SameMeaning(items: seq<Item>, items': seq<Item>, n: nat) {
    forall I: Interp, env: Env :: MeansSame(I, env, items, items', n)
  }

  ghost predicate MeansSame(I: Interp, env: Env, items: seq<Item>, items': seq<Item>, n: nat) {
    AgreeBelow(ExecItems(I, env, items), ExecItems(I, env, items'), n)
  }

  lemma ReplacementMeans(I: Interp, env: Env, g: Generic, points: seq<Point>, next: nat)
    requires Ready(g, next)
    ensures AgreeBelow(ExecItem(I, env, Loop(g, points)), ExecItems(I, env, Replacement(g, points, next)), next)
  {
    hide AgreeBelow, ExecItem, Exec, HoistAll, Selected, Ready, CanHoist, RemapAll, Rebuilt;
    var hs := Selected(g, g.ops);
    var h := HoistAll(g, hs, next);
    var l := Loop(NewGeneric(g, hs, h.tensors), points);
    ReadyCanHoist(g, next);
    HoistKeepsGeneric(I, g, points, env, next);
    StmtItems(I, env, h.stmts);
    ItemsConcat(I, env, Items(h.stmts), [l]);
    assert [l][1..] == [];
    var e := Exec(I, env, h.stmts);
    assert ExecItems(I, ExecItem(I, e, l), []) == ExecItem(I, e, l);
  }

  // Replacing one generic keeps every value the function had before.
  lemma RewriteMeans(I: Interp, env: Env, items: seq<Item>, i: nat, next: nat)
    requires ItemsReady(items, next) && i < |items| && items[i].Loop?
    ensures MeansSame(I, env, items, items[..i] + Replacement(items[i].g, items[i].points, next) + items[i + 1..], next)
  {
    hide AgreeBelow, ExecItem, Replacement, Ready, StmtBelow;
    var pre, it, post := items[..i], items[i], items[i + 1..];
    var r := Replacement(it.g, it.points, next);
    assert ItemReady(it, next);
    var e := ExecItems(I, env, pre);
    ReplacementMeans(I, e, it.g, it.points, next);
    assert items == pre + ([it] + post);
    ItemsConcat(I, env, pre, [it] + post);
    assert ([it] + post)[1..] == post;
    assert pre + r + post == pre + (r + post);
    ItemsConcat(I, env, pre, r + post);
    ItemsConcat(I, e, r, post);
    forall k | 0 <= k < |post| ensures ItemBelow(post[k], next) {
      assert ItemReady(items[i + 1 + k], next);
      ReadyIsBelow(items[i + 1 + k], next);
    }
    ItemsAgree(I, ExecItem(I, e, it), ExecItems(I, e, r), post, next);
  }

  lemma ReadyIsBelow(it: Item, n: nat)
    requires ItemReady(it, n)
    ensures ItemBelow(it, n)
  {
  }

  lemma RewriteReady(items: seq<Item>, i: nat, next: nat)
    requires ItemsReady(items, next) && i < |items| && items[i].Loop?
    ensures var g := items[i].g;
            var h := HoistAll(g, Selected(g, g.ops), next);
            h.next >= next
            && ItemsReady(items[..i] + Replacement(g, items[i].points, next) + items[i + 1..], h.next)
            && |NewGeneric(g, Selected(g, g.ops), h.tensors).ops| == |g.ops| - |Selected(g, g.ops)|
  {
    hide Ready, ItemReady, HoistAll, Selected, StmtBelow, RemapAll, Rebuilt;
    var g := items[i].g;
    var hs := Selected(g, g.ops);
    var h := HoistAll(g, hs, next);
    LoopReady(items[i], next);
    GenericRewriteReady(g, next);
    var r := Replacement(g, items[i].points, next);
    var items' := items[..i] + r + items[i + 1..];
    forall k | 0 <= k < |items'| ensures ItemReady(items'[k], h.next) {
      if k < i {
        ItemReadyMore(items[k], next, h.next);
      } else if k < i + |r| {
        PieceReady(g, items[i].points, next, k - i);
      } else {
        ItemReadyMore(items[i + 1 + (k - i - |r|)], next, h.next);
      }
    }
  }

  lemma LoopReady(it: Item, n: nat)
    requires ItemReady(it, n) && it.Loop?
    ensures Ready(it.g, n)
  {
  }

  lemma GenericRewriteReady(g: Generic, next: nat)
    requires Ready(g, next)
    ensures var h := HoistAll(g, Selected(g, g.ops), next);
            h.next >= next && StmtsBelow(h.stmts, h.next)
            && Ready(NewGeneric(g, Selected(g, g.ops), h.tensors), h.next)
            && |NewGeneric(g, Selected(g, g.ops), h.tensors).ops| == |g.ops| - |Selected(g, g.ops)|
  {
    hide HoistAll, Selected, StmtsBelow, Ready, Cloneable, CanHoist;
    var hs := Selected(g, g.ops);
    ReadyCanHoist(g, next);
    CanHoistCloneable(g, next);
    HoistBelow(Interp((_, _, _) => 0, (_, _, _, _) => 0), g, Ids(hs), hs, next, next);
    NewGenericReady(g, HoistAll(g, hs, next).tensors, next, HoistAll(g, hs, next).next);
  }

  lemma CanHoistCloneable(g: Generic, low: nat)
    requires CanHoist(g, low)
    ensures Cloneable(g, Ids(Selected(g, g.ops)), Selected(g, g.ops), low)
  {
    SelectionCloneable(g, low);
  }

  lemma PieceReady(g: Generic, points: seq<Point>, next: nat, k: nat)
    requires Ready(g, next) && k < |Replacement(g, points, next)|
    ensures ItemReady(Replacement(g, points, next)[k], HoistAll(g, Selected(g, g.ops), next).next)
  {
    hide HoistAll, Selected, Ready, RemapAll, Rebuilt, StmtBelow;
    GenericRewriteReady(g, next);
    var h := HoistAll(g, Selected(g, g.ops), next);
    if k < |h.stmts| { assert StmtBelow(h.stmts[k], h.next); }
  }

  // ----- the pass -----

  // An arith or math operation with one result, of float or integer type, all of whose operands
  // come from outside, from a constant of the region, or from an input tensor of rank 0.
  ghost predicate IsLoopInvariantScalar(g: Generic, op: Op) {
    && (op.dialect == Arith || op.dialect == Math) && op.results == 1 && op.scalar
    && forall o :: o in op.operands ==>
         match o
         case Outer(_) => true
         case OuterArg(_, _) => true
         case Local(x, _) => exists c :: c in g.ops && c.id == x && c.constant
         case Arg(n) => n < |g.inputs| && g.inputs[n].ranked && g.inputs[n].rank == 0
  }

  lemma HoistableMeans(g: Generic, op: Op)
    ensures Hoistable(g, op) <==> IsLoopInvariantScalar(g, op)
  {
    forall o | o in op.operands && o.Local?
      ensures IsConstant(g.ops, o.op) <==> exists c :: c in g.ops && c.id == o.op && c.constant
    {
      if c :| c in g.ops && c.id == o.op && c.constant {
        var i :| 0 <= i < |g.ops| && g.ops[i] == c;
      }
    }
    forall i | 0 <= i < |op.operands| ensures op.operands[i] in op.operands { }
  }

  lemma {:induction false} SelectedAre(g: Generic, ops: seq<Op>)
    ensures forall op :: op in Selected(g, ops) <==> op in ops && IsLoopInvariantScalar(g, op)
  {
    hide Hoistable, IsLoopInvariantScalar;
    if ops != [] {
      SelectedAre(g, ops[1..]);
      SelectedHead(g, ops);
      HoistableMeans(g, ops[0]);
      assert ops == [ops[0]] + ops[1..];
    }
  }

  method FindHoistableOps(g: Generic) returns (hs: seq<Op>, canHoist: set<nat>)
    ensures hs == Selected(g, g.ops)
    ensures forall op :: op in hs <==> op in g.ops && IsLoopInvariantScalar(g, op)
    ensures forall x :: x in canHoist <==> x in Ids(hs)
  {
    SelectedAre(g, g.ops);
    hs, canHoist := [], {};
    for i := 0 to |g.ops|
      invariant hs + Selected(g, g.ops[i..]) == Selected(g, g.ops)
      invariant forall x :: x in canHoist <==> x in Ids(hs)
    {
      assert g.ops[i..][0] == g.ops[i] && g.ops[i..][1..] == g.ops[i + 1..];
      if Hoistable(g, g.ops[i]) {
        assert Ids(hs + [g.ops[i]]) == Ids(hs) + [g.ops[i].id];
        hs := hs + [g.ops[i]];
        canHoist := canHoist + {g.ops[i].id};
      }
    }
  }

  method HoistOperations(g: Generic, hs: seq<Op>, next: nat) returns (h: Hoisted)
    ensures h == HoistAll(g, hs, next)
  {
    h := Hoisted([], map[], [], next);
    for k := 0 to |hs|
      invariant h == HoistAll(g, hs[..k], next)
    {
      var os := hs[k].operands;
      var f := Fill([], map[], h.next);
      for j := 0 to |os|
        invariant f == FillAll(g, h.table, os[..j], h.next)
      {
        assert os[..j + 1][..j] == os[..j];
        if os[j].Local? && os[j].op in h.table {
          f := f.(bvm := f.bvm[os[j] := h.table[os[j].op]]);
        } else if LooksLikeInput(g, os[j]) {
          f := Fill(f.stmts + [Extract(f.next, InputOf(g, os[j]))], f.bvm[os[j] := f.next], f.next + 1);
        }
      }
      assert os[..|os|] == os && hs[..k + 1][..k] == hs[..k];
      var clone := Compute(f.next, hs[k].code, Refs(f.bvm, os));
      h := Hoisted(h.stmts + f.stmts + [clone, FromElements(f.next + 1, f.next)],
                   h.table[hs[k].id := f.next], h.tensors + [f.next + 1], f.next + 2);
    }
    assert hs[..|hs|] == hs;
  }

  lemma RebuiltStep(g: Generic, ids: seq<nat>, ops: seq<Op>, i: nat)
    requires i < |ops|
    ensures Rebuilt(g, ids, ops[i..]) ==
            (if ops[i].id in ids then [] else [ops[i].(operands := RemapAll(g, ids, ops[i].operands))])
            + Rebuilt(g, ids, ops[i + 1..])
  {
    assert ops[i..][0] == ops[i] && ops[i..][1..] == ops[i + 1..];
  }

  lemma RebuiltEmpty(g: Generic, ids: seq<nat>)
    ensures Rebuilt(g, ids, []) == []
  {
  }

  method BuildNewGenericOp(g: Generic, hs: seq<Op>, canHoist: set<nat>, tensors: seq<nat>) returns (g': Generic)
    requires forall x :: x in canHoist <==> x in Ids(hs)
    ensures g' == NewGeneric(g, hs, tensors)
  {
    hide Rebuilt, RemapAll, Ids;
    var ids := Ids(hs);
    var ops: seq<Op> := [];
    for i := 0 to |g.ops|
      invariant ops + Rebuilt(g, ids, g.ops[i..]) == Rebuilt(g, ids, g.ops)
    {
      RebuiltStep(g, ids, g.ops, i);
      if g.ops[i].id !in canHoist {
        ops := ops + [g.ops[i].(operands := RemapAll(g, ids, g.ops[i].operands))];
      }
    }
    assert g.ops[|g.ops|..] == [];
    RebuiltEmpty(g, ids);
    g' := Generic(g.inputs + NewInputs(tensors), g.outputs, ops, RemapAll(g, ids, g.returned));
  }

  method RunOnGenericOp(g: Generic, points: seq<Point>, next: nat) returns (changed: bool, items: seq<Item>, next': nat)
    ensures changed <==> Selected(g, g.ops) != []
    ensures changed ==> items == Replacement(g, points, next) && next' == HoistAll(g, Selected(g, g.ops), next).next
  {
    var hs, canHoist := FindHoistableOps(g);
    if hs == [] { return false, [], next; }
    var h := HoistOperations(g, hs, next);
    var g' := BuildNewGenericOp(g, hs, canHoist, h.tensors);
    return true, Items(h.stmts) + [Loop(g', points)], h.next;
  }

  // The region operations left in a function: what every rewrite lowers.
  ghost function Work(items: seq<Item>): nat {
    if items == [] then 0 else (if items[0].Loop? then |items[0].g.ops| else 0) + Work(items[1..])
  }

  lemma {:induction false} WorkConcat(xs: seq<Item>, ys: seq<Item>)
    ensures Work(xs + ys) == Work(xs) + Work(ys)
  {
    if xs == [] {
      assert xs + ys == ys;
    } else {
      assert (xs + ys)[1..] == xs[1..] + ys;
      WorkConcat(xs[1..], ys);
    }
  }

  lemma {:induction false} NoWork(items: seq<Item>)
    requires forall i :: 0 <= i < |items| ==> items[i].Do?
    ensures Work(items) == 0
  {
    if items != [] { NoWork(items[1..]); }
  }

  lemma RewriteLowersWork(items: seq<Item>, i: nat, next: nat)
    requires ItemsReady(items, next) && i < |items| && items[i].Loop? && Selected(items[i].g, items[i].g.ops) != []
    ensures Work(items[..i] + Replacement(items[i].g, items[i].points, next) + items[i + 1..]) < Work(items)
  {
    hide ItemsReady, HoistAll, Selected, Rebuilt, RemapAll;
    var pre, it, post := items[..i], items[i], items[i + 1..];
    var r := Replacement(it.g, it.points, next);
    RewriteReady(items, i, next);
    assert items == pre + ([it] + post) && ([it] + post)[1..] == post;
    WorkConcat(pre, [it] + post);
    WorkConcat(pre + r, post);
    WorkConcat(pre, r);
    var h := HoistAll(it.g, Selected(it.g, it.g.ops), next);
    var l := Loop(NewGeneric(it.g, Selected(it.g, it.g.ops), h.tensors), it.points);
    NoWork(Items(h.stmts));
    WorkConcat(Items(h.stmts), [l]);
    assert [l][1..] == [];
    assert Work([l]) == |l.g.ops|;
  }

  lemma SameMeaningStep(items0: seq<Item>, items: seq<Item>, i: nat, low: nat, next: nat)
    requires SameMeaning(items0, items, low) && low <= next && ItemsReady(items, next) && i < |items| && items[i].Loop?
    ensures SameMeaning(items0, items[..i] + Replacement(items[i].g, items[i].points, next) + items[i + 1..], low)
  {
    hide ItemsReady, AgreeBelow, ExecItems, Replacement;
    var items' := items[..i] + Replacement(items[i].g, items[i].points, next) + items[i + 1..];
    forall I: Interp, env: Env ensures MeansSame(I, env, items0, items', low) {
      RewriteMeans(I, env, items, i, next);
      assert MeansSame(I, env, items0, items, low);
      AgreeTrans(ExecItems(I, env, items0), ExecItems(I, env, items), ExecItems(I, env, items'), low, next);
    }
  }

  // The pass to its fixpoint: every value the function defined keeps its meaning, for
  // every meaning of the scalar operations, and no hoistable operation remains.
  method RunOnOperation(items0: seq<Item>, next0: nat) returns (items: seq<Item>, next: nat)
    requires ItemsReady(items0, next0)
    ensures SameMeaning(items0, items, next0)
    ensures forall i, k :: 0 <= i < |items| && items[i].Loop? && 0 <= k < |items[i].g.ops| ==>
              !Hoistable(items[i].g, items[i].g.ops[k])
  {
    hide ItemsReady, Hoistable, Replacement, Selected, HoistAll;
    items, next := items0, next0;
    StartSame(items0, next0);
    var changed := true;
    while changed
      invariant next0 <= next && ItemsReady(items, next) && SameMeaning(items0, items, next0)
      invariant !changed ==> forall i :: 0 <= i < |items| && items[i].Loop? ==>
                Selected(items[i].g, items[i].g.ops) == []
      decreases Work(items), changed
    {
      changed := false;
      for i := 0 to |items|
        invariant forall j :: 0 <= j < i && items[j].Loop? ==> Selected(items[j].g, items[j].g.ops) == []
      {
        if items[i].Loop? {
          var c, r, n := RunOnGenericOp(items[i].g, items[i].points, next);
          if c {
            RewriteReady(items, i, next);
            RewriteLowersWork(items, i, next);
            SameMeaningStep(items0, items, i, next0, next);
            items, next := items[..i] + r + items[i + 1..], n;
            changed := true;
            break;
          }
        }
      }
    }
    forall i, k | 0 <= i < |items| && items[i].Loop? && 0 <= k < |items[i].g.ops|
      ensures !Hoistable(items[i].g, items[i].g.ops[k])
    {
      NothingSelected(items[i].g, items[i].g.ops, k);
    }
  }

  lemma StartSame(items: seq<Item>, n: nat)
    ensures SameMeaning(items, items, n)
  {
  }

  lemma {:induction false} NothingSelected(g: Generic, ops: seq<Op>, k: nat)
    requires Selected(g, ops) == [] && k < |ops|
    ensures !Hoistable(g, ops[k])
    decreases |ops|
  {
    hide Hoistable;
    if k > 0 { NothingSelected(g, ops[1..], k - 1); }
  }

  // ----- where the analysis is wrong -----

  // An operation on another block's argument 0, beside a rank-0 input 0: the clone reads the input.
  lemma ForeignArgumentMisread(I: Interp)
    requires I == Interp((c, r, vs) => if |vs| > 0 then vs[0] else 0, (c, r, p, vs) => 0)
    ensures var op := Op(0, Arith, false, true, 1, 7, [OuterArg(1, 0)]);
            var g := Generic([Input(0, true, 0, p => [])], [Output(2, 3, p => p)], [op], [Local(0, 0)]);
            var env: Env := map[0 := Tensor(Splat(10)), 1 := Scalar(20)];
            WellFormed(g) && Hoistable(g, op)
            && Values(env, [10, 0], map[], op.operands) == [20]
            && HoistedValues(I, g, env, [0], [op]) == [10]
  {
    var op := Op(0, Arith, false, true, 1, 7, [OuterArg(1, 0)]);
    var g := Generic([Input(0, true, 0, p => [])], [Output(2, 3, p => p)], [op], [Local(0, 0)]);
    var env: Env := map[0 := Tensor(Splat(10)), 1 := Scalar(20)];
    assert OpsScoped(g, [], map[0 := 1]);
    assert [op][1..] == [];
    assert MappedValues(g, env, [0], [], op.operands) == [10];
    assert HoistedValues(I, g, env, [0], []) == [] && [op][..0] == [];
  }

  // An index-typed constant is not hoisted, so a clone that uses it refers into the region.
  lemma IndexConstantLeftBehind()
    ensures var c := Op(0, Arith, true, false, 1, 5, []);
            var cast := Op(1, Arith, false, true, 1, 7, [Local(0, 0)]);
            var g := Generic([], [Output(2, 3, p => p)], [c, cast], [Local(1, 0)]);
            WellFormed(g) && Selected(g, g.ops) == [cast]
            && HoistAll(g, [cast], 4).stmts[0] == Compute(4, 7, [Dangling(Local(0, 0))])
  {
    var c := Op(0, Arith, true, false, 1, 5, []);
    var cast := Op(1, Arith, false, true, 1, 7, [Local(0, 0)]);
    var g := Generic([], [Output(2, 3, p => p)], [c, cast], [Local(1, 0)]);
    assert [c, cast][1..] == [cast] && [cast][1..] == [];
    assert OpsScoped(g, [], map[0 := 1, 1 := 1]);
    assert OpsScoped(g, [cast], map[0 := 1]);
    assert IsConstant(g.ops, 0) by { assert g.ops[0].constant; }
    assert Selected(g, []) == [] && Selected(g, [cast]) == [cast];
    assert cast.operands[..0] == [] && [cast][..0] == [];
    assert FillAll(g, map[], [], 4) == Fill([], map[], 4);
    assert FillAll(g, map[], cast.operands, 4) == Fill([], map[], 4);
    assert Refs(map[], cast.operands) == [Dangling(Local(0, 0))];
    assert HoistAll(g, [], 4) == Hoisted([], map[], [], 4);
  }
}
