// LowerHexKLMatmulToMacroPass.cpp: initialize/lock and unlock/finalize placed
// around loops and groups that contain matmuls.
module HmxLocks {

  // Region stands for any other operation with a body, such as scf.while: it runs
  // any number of times on the thread that reaches it.  Forall bodies run on threads of their own.
  datatype Stmt =
    | Other(results: nat) | Matmul
    | Initialize | Lock | Unlock | Finalize
    | For(body: seq<Stmt>) | Region(body: seq<Stmt>) | Forall(body: seq<Stmt>)
    | If(then_: seq<Stmt>, else_: seq<Stmt>)

  // One execution: how often each body ran, which way each branch went.
  datatype Run =
    | Leaf
    | Iterations(runs: seq<seq<Run>>)
    | Threads(runs: seq<seq<Run>>)
    | Branch(taken: bool, run: seq<Run>)

  ghost predicate IsRun(s: Stmt, r: Run)
    decreases s, 0
  {
    match s
    case For(b) => r.Iterations? && forall i :: 0 <= i < |r.runs| ==> IsRunSeq(b, r.runs[i])
    case Region(b) => r.Iterations? && forall i :: 0 <= i < |r.runs| ==> IsRunSeq(b, r.runs[i])
    case Forall(b) => r.Threads? && forall i :: 0 <= i < |r.runs| ==> IsRunSeq(b, r.runs[i])
    case If(t, e) => r.Branch? && if r.taken then IsRunSeq(t, r.run) else IsRunSeq(e, r.run)
    case _ => r.Leaf?
  }

  ghost predicate IsRunSeq(ss: seq<Stmt>, rs: seq<Run>)
    decreases ss, 0
  {
    |rs| == |ss| && forall i :: 0 <= i < |ss| ==> IsRun(ss[i], rs[i])
  }

  // The HMX unit as one thread of control sees it.
  datatype Hmx = Idle | Ready | Locked | Fault

  ghost function ExecLeaf(s: Stmt, st: Hmx): Hmx {
    match s
    case Matmul => if st == Locked then Locked else Fault
    case Initialize => if st == Idle then Ready else Fault
    case Lock => if st == Ready then Locked else Fault
    case Unlock => if st == Locked then Ready else Fault
    case Finalize => if st == Ready then Idle else Fault
    case _ => st
  }

  // A thread starts idle and must end idle, whatever its parent holds.
  ghost function Exec(s: Stmt, r: Run, st: Hmx): Hmx
    requires IsRun(s, r)
    decreases s, 0, 0
  {
    match s
    case For(b) => ExecIterations(b, r.runs, st)
    case Region(b) => ExecIterations(b, r.runs, st)
    case Forall(b) => if forall i :: 0 <= i < |r.runs| ==> ExecSeq(b, r.runs[i], Idle) == Idle then st else Fault
    case If(t, e) => if r.taken then ExecSeq(t, r.run, st) else ExecSeq(e, r.run, st)
    case _ => ExecLeaf(s, st)
  }

  ghost function ExecSeq(ss: seq<Stmt>, rs: seq<Run>, st: Hmx): Hmx
    requires IsRunSeq(ss, rs)
    decreases ss, 0, 0
  {
    var n := |ss| - 1;
    if ss == [] then st else Exec(ss[n], rs[n], ExecSeq(ss[..n], rs[..n], st))
  }

  ghost function ExecIterations(b: seq<Stmt>, runs: seq<seq<Run>>, st: Hmx): Hmx
    requires forall i :: 0 <= i < |runs| ==> IsRunSeq(b, runs[i])
    decreases b, 1, |runs|
  {
    var n := |runs| - 1;
    if runs == [] then st else ExecSeq(b, runs[n], ExecIterations(b, runs[..n], st))
  }

  // ----- the pass -----

  predicate Contains(s: Stmt)
    decreases s, 0
  {
    match s
    case Matmul => true
    case For(b) => ContainsAny(b)
    case Region(b) => ContainsAny(b)
    case Forall(b) => ContainsAny(b)
    case If(t, e) => ContainsAny(t) || ContainsAny(e)
    case _ => false
  }

  predicate ContainsAny(ss: seq<Stmt>)
    decreases ss, 0
  {
    exists i :: 0 <= i < |ss| && Contains(ss[i])
  }

  // A bracket opens before an outermost loop with a matmul in it, and before the first of
  // a row of adjacent matmuls; it closes after the loop, or after the last of the row.
  predicate Opens(ss: seq<Stmt>, i: nat)
    requires i < |ss|
  {
    (ss[i].For? && Contains(ss[i])) || (ss[i].Matmul? && (i == 0 || !ss[i - 1].Matmul?))
  }

  predicate Closes(ss: seq<Stmt>, i: nat)
    requires i < |ss|
  {
    (ss[i].For? && Contains(ss[i])) || (ss[i].Matmul? && (i + 1 == |ss| || !ss[i + 1].Matmul?))
  }

  function Opening(): seq<Stmt> { [Initialize, Lock] }
  function Closing(): seq<Stmt> { [Unlock, Finalize] }

  function Piece(ss: seq<Stmt>, i: nat): seq<Stmt>
    requires i < |ss|
    decreases ss[i], 1
  {
    (if Opens(ss, i) then Opening() else []) + [Inner(ss[i])] + if Closes(ss, i) then Closing() else []
  }

  // Outside every loop, bodies are searched for matmuls of their own.
  function Inner(s: Stmt): Stmt
    decreases s, 0
  {
    match s
    case Region(b) => Region(Bracketed(b))
    case Forall(b) => Forall(Bracketed(b))
    case If(t, e) => If(Bracketed(t), Bracketed(e))
    case _ => s
  }

  function Bracketed(ss: seq<Stmt>): seq<Stmt>
    decreases ss, 2
  {
    Pieces(ss, |ss|)
  }

  function Pieces(ss: seq<Stmt>, n: nat): seq<Stmt>
    requires n <= |ss|
    decreases ss, 1, n
  {
    if n == 0 then [] else Pieces(ss, n - 1) + Piece(ss, n - 1)
  }

  // ----- what the pass is given, and when it is right -----

  predicate Plain(s: Stmt)
    decreases s, 0
  {
    match s
    case For(b) => PlainAll(b)
    case Region(b) => PlainAll(b)
    case Forall(b) => PlainAll(b)
    case If(t, e) => PlainAll(t) && PlainAll(e)
    case _ => s.Other? || s.Matmul?
  }

  predicate PlainAll(ss: seq<Stmt>)
    decreases ss, 0
  {
    forall i :: 0 <= i < |ss| ==> Plain(ss[i])
  }

  // No matmul runs on a thread forked inside this statement.
  predicate NoForkedMatmul(s: Stmt)
    decreases s, 0
  {
    match s
    case For(b) => NoneForked(b)
    case Region(b) => NoneForked(b)
    case Forall(b) => !ContainsAny(b)
    case If(t, e) => NoneForked(t) && NoneForked(e)
    case _ => true
  }

  predicate NoneForked(ss: seq<Stmt>)
    decreases ss, 0
  {
    forall i :: 0 <= i < |ss| ==> NoForkedMatmul(ss[i])
  }

  // The condition: no matmul under an scf.forall that is under an scf.for.
  predicate Safe(s: Stmt)
    decreases s, 0
  {
    match s
    case For(b) => NoneForked(b)
    case Region(b) => AllSafe(b)
    case Forall(b) => AllSafe(b)
    case If(t, e) => AllSafe(t) && AllSafe(e)
    case _ => true
  }

  predicate AllSafe(ss: seq<Stmt>)
    decreases ss, 0
  {
    forall i :: 0 <= i < |ss| ==> Safe(ss[i])
  }

  // ----- code the pass leaves alone -----

  // Plain code in a steady state ends in it or faults; it cannot fault without a matmul, nor
  // when locked with no matmul on a forked thread.
  ghost predicate Steady(s: Stmt, st: Hmx, st': Hmx) {
    && (st' == st || st' == Fault)
    && (!Contains(s) || (st == Locked && NoForkedMatmul(s)) ==> st' == st)
  }

  ghost predicate SteadySeq(ss: seq<Stmt>, st: Hmx, st': Hmx) {
    && (st' == st || st' == Fault)
    && (!ContainsAny(ss) || (st == Locked && NoneForked(ss)) ==> st' == st)
  }

  lemma {:induction false} FaultStays(s: Stmt, r: Run)
    requires IsRun(s, r)
    ensures Exec(s, r, Fault) == Fault
    decreases s, 0, 0
  {
    match s
    case For(b) => FaultStaysIterations(b, r.runs);
    case Region(b) => FaultStaysIterations(b, r.runs);
    case If(t, e) => if r.taken { FaultStaysSeq(t, r.run); } else { FaultStaysSeq(e, r.run); }
    case _ =>
  }

  lemma {:induction false} FaultStaysSeq(ss: seq<Stmt>, rs: seq<Run>)
    requires IsRunSeq(ss, rs)
    ensures ExecSeq(ss, rs, Fault) == Fault
    decreases ss, 0, 0
  {
    if ss != [] {
      var n := |ss| - 1;
      FaultStaysSeq(ss[..n], rs[..n]);
      FaultStays(ss[n], rs[n]);
    }
  }

  lemma {:induction false} FaultStaysIterations(b: seq<Stmt>, runs: seq<seq<Run>>)
    requires forall i :: 0 <= i < |runs| ==> IsRunSeq(b, runs[i])
    ensures ExecIterations(b, runs, Fault) == Fault
    decreases b, 1, |runs|
  {
    if runs != [] {
      var n := |runs| - 1;
      FaultStaysIterations(b, runs[..n]);
      FaultStaysSeq(b, runs[n]);
    }
  }

  lemma {:induction false} PlainExec(s: Stmt, r: Run, st: Hmx)
    requires Plain(s) && IsRun(s, r) && (st == Idle || st == Locked)
    ensures Steady(s, st, Exec(s, r, st))
    decreases s, 0, 0
  {
    match s
    case For(b) => PlainIterations(b, r.runs, st);
    case Region(b) => PlainIterations(b, r.runs, st);
    case Forall(b) =>
      forall i | 0 <= i < |r.runs| ensures SteadySeq(b, Idle, ExecSeq(b, r.runs[i], Idle)) {
        PlainSeq(b, r.runs[i], Idle);
      }
    case If(t, e) => if r.taken { PlainSeq(t, r.run, st); } else { PlainSeq(e, r.run, st); }
    case _ =>
  }

  lemma {:induction false} PlainSeq(ss: seq<Stmt>, rs: seq<Run>, st: Hmx)
    requires PlainAll(ss) && IsRunSeq(ss, rs) && (st == Idle || st == Locked)
    ensures SteadySeq(ss, st, ExecSeq(ss, rs, st))
    decreases ss, 0, 0
  {
    if ss != [] {
      var n := |ss| - 1;
      PlainSeq(ss[..n], rs[..n], st);
      assert Plain(ss[n]) && IsRun(ss[n], rs[n]);
      PlainExec(ss[n], rs[n], st);
      FaultStays(ss[n], rs[n]);
      if ContainsAny(ss[..n]) {
        var i :| 0 <= i < n && Contains(ss[..n][i]);
        assert Contains(ss[i]);
      }
      if NoneForked(ss) { assert NoForkedMatmul(ss[n]) && NoneForked(ss[..n]); }
    }
  }

  lemma {:induction false} PlainIterations(b: seq<Stmt>, runs: seq<seq<Run>>, st: Hmx)
    requires PlainAll(b) && (forall i :: 0 <= i < |runs| ==> IsRunSeq(b, runs[i])) && (st == Idle || st == Locked)
    ensures SteadySeq(b, st, ExecIterations(b, runs, st))
    decreases b, 1, |runs|
  {
    if runs != [] {
      var n := |runs| - 1;
      PlainIterations(b, runs[..n], st);
      PlainSeq(b, runs[n], st);
      FaultStaysSeq(b, runs[n]);
    }
  }

  // ----- bracketed blocks -----

  lemma SplitLast(ss: seq<Stmt>, rs: seq<Run>)
    requires ss != [] && IsRunSeq(ss, rs)
    ensures |rs| == |ss| && IsRunSeq(ss[..|ss| - 1], rs[..|ss| - 1]) && IsRun(ss[|ss| - 1], rs[|ss| - 1])
  {
  }

  lemma JoinLast(ss: seq<Stmt>, rs: seq<Run>)
    requires ss != [] && |rs| == |ss|
    requires IsRunSeq(ss[..|ss| - 1], rs[..|ss| - 1]) && IsRun(ss[|ss| - 1], rs[|ss| - 1])
    ensures IsRunSeq(ss, rs)
  {
    forall i | 0 <= i < |ss| ensures IsRun(ss[i], rs[i]) {
      if i < |ss| - 1 { assert IsRun(ss[..|ss| - 1][i], rs[..|ss| - 1][i]); }
    }
  }

  lemma {:induction false} ExecConcat(a: seq<Stmt>, b: seq<Stmt>, ra: seq<Run>, rb: seq<Run>, st: Hmx)
    requires IsRunSeq(a, ra) && IsRunSeq(b, rb)
    ensures IsRunSeq(a + b, ra + rb)
    ensures ExecSeq(a + b, ra + rb, st) == ExecSeq(b, rb, ExecSeq(a, ra, st))
    decreases |b|
  {
    if b == [] {
      assert a + b == a && ra + rb == ra;
    } else {
      var n := |b| - 1;
      SplitLast(b, rb);
      ExecConcat(a, b[..n], ra, rb[..n], st);
      hide *;
      DropLast(a, b);
      DropLast(ra, rb);
      JoinLast(a + b, ra + rb);
      ExecLast(a + b, ra + rb, st);
      ExecLast(b, rb, ExecSeq(a, ra, st));
    }
  }

  lemma DropLast<T>(a: seq<T>, b: seq<T>)
    requires b != []
    ensures a + b != [] && (a + b)[..|a + b| - 1] == a + b[..|b| - 1] && (a + b)[|a + b| - 1] == b[|b| - 1]
  {
  }

  lemma ExecLast(ss: seq<Stmt>, rs: seq<Run>, st: Hmx)
    requires ss != [] && |rs| == |ss| && IsRunSeq(ss, rs)
    requires IsRunSeq(ss[..|ss| - 1], rs[..|ss| - 1]) && IsRun(ss[|ss| - 1], rs[|ss| - 1])
    ensures ExecSeq(ss, rs, st) == Exec(ss[|ss| - 1], rs[|ss| - 1], ExecSeq(ss[..|ss| - 1], rs[..|ss| - 1], st))
  {
    hide IsRunSeq, IsRun, Exec;
  }

  lemma SplitRun(a: seq<Stmt>, b: seq<Stmt>, rs: seq<Run>)
    requires IsRunSeq(a + b, rs)
    ensures |a| <= |rs| && IsRunSeq(a, rs[..|a|]) && IsRunSeq(b, rs[|a|..]) && rs == rs[..|a|] + rs[|a|..]
  {
    forall i | 0 <= i < |b| ensures IsRun(b[i], rs[|a|..][i]) { assert IsRun((a + b)[|a| + i], rs[|a| + i]); }
    forall i | 0 <= i < |a| ensures IsRun(a[i], rs[..|a|][i]) { assert IsRun((a + b)[i], rs[i]); }
  }

  // Between pieces n-1 and n: still inside a bracket only in the middle of a row of matmuls.
  ghost function Between(ss: seq<Stmt>, n: nat): Hmx
    requires n <= |ss|
  {
    if 0 < n < |ss| && ss[n - 1].Matmul? && ss[n].Matmul? then Locked else Idle
  }

  lemma ExecOpening(rs: seq<Run>)
    requires IsRunSeq(Opening(), rs)
    ensures ExecSeq(Opening(), rs, Idle) == Locked
  {
    assert Opening()[..1] == [Initialize] && Opening()[..1][..0] == [];
    assert IsRun(Opening()[0], rs[0]) && IsRun(Opening()[1], rs[1]);
    assert ExecSeq([], rs[..1][..0], Idle) == Idle;
    assert ExecSeq(Opening()[..1], rs[..1], Idle) == Ready;
  }

  lemma ExecClosing(rs: seq<Run>, st: Hmx)
    requires IsRunSeq(Closing(), rs) && (st == Locked || st == Fault)
    ensures ExecSeq(Closing(), rs, st) == if st == Locked then Idle else Fault
  {
    assert Closing()[..1] == [Unlock] && Closing()[..1][..0] == [];
    assert IsRun(Closing()[0], rs[0]) && IsRun(Closing()[1], rs[1]);
    assert ExecSeq([], rs[..1][..0], st) == st;
    assert ExecSeq(Closing()[..1], rs[..1], st) == if st == Locked then Ready else Fault;
  }

  // What the middle statement of a piece does, once the bracket before it is open.
  ghost predicate Expected(ok: bool, want: Hmx, got: Hmx) {
    (got == want || got == Fault) && (ok ==> got == want)
  }

  ghost function Held(s: Stmt): Hmx { if s.Matmul? || (s.For? && Contains(s)) then Locked else Idle }

  lemma {:induction false} InnerExec(s: Stmt, r: Run)
    requires Plain(s) && IsRun(Inner(s), r)
    ensures Expected(Safe(s), Held(s), Exec(Inner(s), r, Held(s)))
    decreases s, 0, 0
  {
    match s
    case For(b) => PlainExec(s, r, Held(s));
    case Region(b) => BracketedIterations(b, r.runs);
    case Forall(b) =>
      forall i | 0 <= i < |r.runs| ensures Expected(AllSafe(b), Idle, ExecSeq(Bracketed(b), r.runs[i], Idle)) {
        BracketedExec(b, r.runs[i]);
      }
    case If(t, e) => if r.taken { BracketedExec(t, r.run); } else { BracketedExec(e, r.run); }
    case _ =>
  }

  lemma {:induction false} PieceExec(ss: seq<Stmt>, i: nat, rs: seq<Run>)
    requires i < |ss| && Plain(ss[i]) && IsRunSeq(Piece(ss, i), rs)
    ensures Expected(Safe(ss[i]), Between(ss, i + 1), ExecSeq(Piece(ss, i), rs, Between(ss, i)))
    decreases ss[i], 1, 0
  {
    hide IsRunSeq, Safe, Contains, Plain, Exec, ExecSeq, Inner;
    var a := if Opens(ss, i) then Opening() else [];
    var b := [Inner(ss[i])];
    var c := if Closes(ss, i) then Closing() else [];
    assert Piece(ss, i) == a + b + c;
    SplitRun(a + b, c, rs);
    var rab, rc := rs[..|a + b|], rs[|a + b|..];
    SplitRun(a, b, rab);
    var ra, rb := rab[..|a|], rab[|a|..];
    ExecConcat(a + b, c, rab, rc, Between(ss, i));
    ExecConcat(a, b, ra, rb, Between(ss, i));
    EmptyExec(Between(ss, i));
    if Opens(ss, i) { ExecOpening(ra); } else { EmptyRun(ra); }
    assert ExecSeq(a, ra, Between(ss, i)) == Held(ss[i]);
    SingleExec(Inner(ss[i]), rb, Held(ss[i]));
    InnerExec(ss[i], rb[0]);
    var st := Exec(Inner(ss[i]), rb[0], Held(ss[i]));
    if Closes(ss, i) { ExecClosing(rc, st); } else { EmptyRun(rc); EmptyExec(st); }
  }

  lemma EmptyRun(rs: seq<Run>)
    requires IsRunSeq([], rs)
    ensures rs == []
  {
  }

  lemma EmptyExec(st: Hmx)
    ensures IsRunSeq([], []) && ExecSeq([], [], st) == st
  {
  }

  lemma SingleExec(s: Stmt, rs: seq<Run>, st: Hmx)
    requires IsRunSeq([s], rs)
    ensures |rs| == 1 && IsRun(s, rs[0]) && ExecSeq([s], rs, st) == Exec(s, rs[0], st)
  {
    assert IsRun([s][0], rs[0]);
    assert [s][..0] == [] && rs[..0] == [];
    assert ExecSeq([s][..0], rs[..0], st) == st;
  }

  lemma {:induction false} PiecesExec(ss: seq<Stmt>, n: nat, rs: seq<Run>)
    requires n <= |ss| && PlainAll(ss) && IsRunSeq(Pieces(ss, n), rs)
    ensures Expected(AllSafe(ss), Between(ss, n), ExecSeq(Pieces(ss, n), rs, Idle))
    decreases ss, 1, n
  {
    if n > 0 {
      assert Plain(ss[n - 1]) && (AllSafe(ss) ==> Safe(ss[n - 1]));
      var a, b := Pieces(ss, n - 1), Piece(ss, n - 1);
      assert Pieces(ss, n) == a + b;
      hide IsRunSeq, Exec, ExecSeq, Piece, Safe, Plain, AllSafe, PlainAll, Pieces, Between;
      SplitRun(a, b, rs);
      ExecConcat(a, b, rs[..|a|], rs[|a|..], Idle);
      PiecesExec(ss, n - 1, rs[..|a|]);
      PieceExec(ss, n - 1, rs[|a|..]);
      FaultStaysSeq(b, rs[|a|..]);
    }
  }

  lemma {:induction false} BracketedExec(ss: seq<Stmt>, rs: seq<Run>)
    requires PlainAll(ss) && IsRunSeq(Bracketed(ss), rs)
    ensures Expected(AllSafe(ss), Idle, ExecSeq(Bracketed(ss), rs, Idle))
    decreases ss, 2
  {
    PiecesExec(ss, |ss|, rs);
  }

  lemma {:induction false} BracketedIterations(b: seq<Stmt>, runs: seq<seq<Run>>)
    requires PlainAll(b) && forall i :: 0 <= i < |runs| ==> IsRunSeq(Bracketed(b), runs[i])
    ensures Expected(AllSafe(b), Idle, ExecIterations(Bracketed(b), runs, Idle))
    decreases b, 3, |runs|
  {
    if runs != [] {
      var n := |runs| - 1;
      BracketedIterations(b, runs[..n]);
      BracketedExec(b, runs[n]);
      FaultStaysSeq(Bracketed(b), runs[n]);
    }
  }

  // ----- main results -----

  // Every run of a bracketed function: each matmul finds the unit locked by its own
  // thread, brackets never nest, and every thread gives the unit back before it ends.
  lemma BracketsAreRight(prog: seq<Stmt>, rs: seq<Run>)
    requires PlainAll(prog) && AllSafe(prog) && IsRunSeq(Bracketed(prog), rs)
    ensures ExecSeq(Bracketed(prog), rs, Idle) == Idle
  {
    BracketedExec(prog, rs);
  }

  // ----- and otherwise some run faults -----

  function Default(s: Stmt): Run
    decreases s, 0
  {
    match s
    case For(_) => Iterations([])
    case Region(_) => Iterations([])
    case Forall(_) => Threads([])
    case If(t, _) => Branch(true, Defaults(t))
    case _ => Leaf
  }

  function Defaults(ss: seq<Stmt>): (rs: seq<Run>)
    ensures |rs| == |ss|
    decreases ss, 0
  {
    seq(|ss|, i requires 0 <= i < |ss| => Default(ss[i]))
  }

  lemma {:induction false} DefaultRuns(s: Stmt)
    ensures IsRun(s, Default(s))
    decreases s, 0
  {
    if s.If? { DefaultsRun(s.then_); }
  }

  lemma {:induction false} DefaultsRun(ss: seq<Stmt>)
    ensures IsRunSeq(ss, Defaults(ss))
    decreases ss, 0
  {
    forall i | 0 <= i < |ss| ensures IsRun(ss[i], Defaults(ss)[i]) { DefaultRuns(ss[i]); }
  }

  ghost predicate Faults(ss: seq<Stmt>, rs: seq<Run>, st: Hmx) {
    IsRunSeq(ss, rs) && ExecSeq(ss, rs, st) == Fault
  }

  // One faulting statement makes the block fault.
  lemma OneFault(a: seq<Stmt>, s: Stmt, c: seq<Stmt>, r: Run, st: Hmx) returns (rs: seq<Run>)
    requires IsRun(s, r)
    requires (DefaultsRun(a); var before := ExecSeq(a, Defaults(a), st); before == Fault || Exec(s, r, before) == Fault)
    ensures Faults(a + [s] + c, rs, st)
  {
    hide IsRunSeq, IsRun, Exec, ExecSeq, Defaults, Default;
    DefaultsRun(a);
    DefaultsRun(c);
    FaultStays(s, r);
    LiftRun(s, r);
    SingleExec(s, [r], ExecSeq(a, Defaults(a), st));
    ExecConcat(a, [s], Defaults(a), [r], st);
    ExecConcat(a + [s], c, Defaults(a) + [r], Defaults(c), st);
    FaultStaysSeq(c, Defaults(c));
    rs := Defaults(a) + [r] + Defaults(c);
  }

  lemma LiftRun(s: Stmt, r: Run)
    requires IsRun(s, r)
    ensures IsRunSeq([s], [r])
  {
  }

  lemma OneIteration(b: seq<Stmt>, rb: seq<Run>, st: Hmx)
    requires IsRunSeq(b, rb)
    ensures ExecIterations(b, [rb], st) == ExecSeq(b, rb, st)
  {
    assert [rb][..0] == [];
    assert ExecIterations(b, [rb][..0], st) == st;
  }

  // A thread that starts idle and is not bracketed faults at its first matmul.
  lemma {:induction false} IdleMatmulFaults(s: Stmt) returns (r: Run)
    requires Plain(s) && Contains(s)
    ensures IsRun(s, r) && Exec(s, r, Idle) == Fault
    decreases s, 0
  {
    match s
    case Matmul => r := Leaf;
    case For(b) => var rb := IdleMatmulFaultsSeq(b); OneIteration(b, rb, Idle); r := Iterations([rb]);
    case Region(b) => var rb := IdleMatmulFaultsSeq(b); OneIteration(b, rb, Idle); r := Iterations([rb]);
    case Forall(b) =>
      var rb := IdleMatmulFaultsSeq(b);
      r := Threads([rb]);
      assert r.runs[0] == rb;
    case If(t, e) =>
      if ContainsAny(t) {
        var rb := IdleMatmulFaultsSeq(t);
        r := Branch(true, rb);
      } else {
        var rb := IdleMatmulFaultsSeq(e);
        r := Branch(false, rb);
      }
  }

  lemma {:induction false} IdleMatmulFaultsSeq(ss: seq<Stmt>) returns (rs: seq<Run>)
    requires PlainAll(ss) && ContainsAny(ss)
    ensures Faults(ss, rs, Idle)
    decreases ss, 0
  {
    var i :| 0 <= i < |ss| && Contains(ss[i]);
    assert Plain(ss[i]);
    var r := IdleMatmulFaults(ss[i]);
    DefaultsRun(ss[..i]);
    PlainSeq(ss[..i], Defaults(ss[..i]), Idle);
    rs := OneFault(ss[..i], ss[i], ss[i + 1..], r, Idle);
    assert ss == ss[..i] + [ss[i]] + ss[i + 1..];
  }

  // Inside a bracketed loop a forked matmul finds its own thread without the lock.
  lemma {:induction false} ForkedMatmulFaults(s: Stmt) returns (r: Run)
    requires Plain(s) && !NoForkedMatmul(s)
    ensures IsRun(s, r) && Exec(s, r, Locked) == Fault && Contains(s)
    decreases s, 0
  {
    match s
    case For(b) => var rb := ForkedMatmulFaultsSeq(b); OneIteration(b, rb, Locked); r := Iterations([rb]);
    case Region(b) => var rb := ForkedMatmulFaultsSeq(b); OneIteration(b, rb, Locked); r := Iterations([rb]);
    case Forall(b) =>
      var rb := IdleMatmulFaultsSeq(b);
      r := Threads([rb]);
      assert r.runs[0] == rb;
    case If(t, e) =>
      if !NoneForked(t) {
        var rb := ForkedMatmulFaultsSeq(t);
        r := Branch(true, rb);
      } else {
        var rb := ForkedMatmulFaultsSeq(e);
        r := Branch(false, rb);
      }
  }

  lemma {:induction false} ForkedMatmulFaultsSeq(ss: seq<Stmt>) returns (rs: seq<Run>)
    requires PlainAll(ss) && !NoneForked(ss)
    ensures Faults(ss, rs, Locked) && ContainsAny(ss)
    decreases ss, 0
  {
    var i :| 0 <= i < |ss| && !NoForkedMatmul(ss[i]);
    assert Plain(ss[i]);
    var r := ForkedMatmulFaults(ss[i]);
    DefaultsRun(ss[..i]);
    PlainSeq(ss[..i], Defaults(ss[..i]), Locked);
    rs := OneFault(ss[..i], ss[i], ss[i + 1..], r, Locked);
    assert ss == ss[..i] + [ss[i]] + ss[i + 1..];
  }

  lemma {:induction false} PiecesTail(ss: seq<Stmt>, k: nat, n: nat) returns (tail: seq<Stmt>)
    requires k <= n <= |ss|
    ensures Pieces(ss, n) == Pieces(ss, k) + tail
    decreases n - k
  {
    tail := [];
    if k < n {
      var t := PiecesTail(ss, k, n - 1);
      tail := t + Piece(ss, n - 1);
    }
  }

  lemma AroundInner(ss: seq<Stmt>, i: nat) returns (c: seq<Stmt>)
    requires i < |ss|
    ensures Bracketed(ss) == (Pieces(ss, i) + if Opens(ss, i) then Opening() else []) + [Inner(ss[i])] + c
  {
    hide Opens, Closes, Inner;
    var tail := PiecesTail(ss, i + 1, |ss|);
    c := (if Closes(ss, i) then Closing() else []) + tail;
    assert Pieces(ss, i + 1) == Pieces(ss, i) + Piece(ss, i);
  }

  lemma {:induction false} UnsafeFaults(s: Stmt) returns (r: Run)
    requires Plain(s) && !Safe(s)
    ensures IsRun(Inner(s), r) && Exec(Inner(s), r, Held(s)) == Fault
    decreases s, 0
  {
    match s
    case For(b) => var rb := ForkedMatmulFaultsSeq(b); OneIteration(b, rb, Locked); r := Iterations([rb]);
    case Region(b) => var rb := UnsafeFaultsSeq(b); OneIteration(Bracketed(b), rb, Idle); r := Iterations([rb]);
    case Forall(b) =>
      var rb := UnsafeFaultsSeq(b);
      r := Threads([rb]);
      assert r.runs[0] == rb;
    case If(t, e) =>
      if !AllSafe(t) {
        var rb := UnsafeFaultsSeq(t);
        r := Branch(true, rb);
      } else {
        var rb := UnsafeFaultsSeq(e);
        r := Branch(false, rb);
      }
  }

  // Up to the offending statement the default run leaves the bracket before it open, or has faulted.
  lemma BeforePiece(ss: seq<Stmt>, i: nat)
    requires i < |ss| && PlainAll(ss)
    ensures var a := Pieces(ss, i) + if Opens(ss, i) then Opening() else [];
            IsRunSeq(a, Defaults(a))
            && (ExecSeq(a, Defaults(a), Idle) == Held(ss[i]) || ExecSeq(a, Defaults(a), Idle) == Fault)
  {
    hide IsRunSeq, ExecSeq, Pieces, Contains, Default, PlainAll, AllSafe;
    var p, o := Pieces(ss, i), if Opens(ss, i) then Opening() else [];
    DefaultsRun(p);
    DefaultsRun(o);
    DefaultsRun(p + o);
    PiecesExec(ss, i, Defaults(p));
    assert Defaults(p + o) == Defaults(p) + Defaults(o);
    ExecConcat(p, o, Defaults(p), Defaults(o), Idle);
    if Opens(ss, i) { ExecOpening(Defaults(o)); } else { EmptyExec(Between(ss, i)); EmptyExec(Fault); }
    FaultStaysSeq(o, Defaults(o));
  }

  lemma {:induction false} UnsafeFaultsSeq(ss: seq<Stmt>) returns (rs: seq<Run>)
    requires PlainAll(ss) && !AllSafe(ss)
    ensures Faults(Bracketed(ss), rs, Idle)
    decreases ss, 0
  {
    var i: nat :| i < |ss| && !Safe(ss[i]);
    assert Plain(ss[i]);
    var r := UnsafeFaults(ss[i]);
    BeforePiece(ss, i);
    hide IsRunSeq, IsRun, Exec, ExecSeq, Defaults, Pieces;
    var c := AroundInner(ss, i);
    var a := Pieces(ss, i) + if Opens(ss, i) then Opening() else [];
    rs := OneFault(a, Inner(ss[i]), c, r, Idle);
  }

  ghost predicate EndsIdle(ss: seq<Stmt>, rs: seq<Run>) {
    IsRunSeq(ss, rs) ==> ExecSeq(ss, rs, Idle) == Idle
  }

  // Exactly: every run is right if and only if no matmul is under an scf.forall under an scf.for.
  lemma BracketsAreRightIff(prog: seq<Stmt>)
    requires PlainAll(prog)
    ensures AllSafe(prog) <==> forall rs :: EndsIdle(Bracketed(prog), rs)
  {
    hide Bracketed, AllSafe, PlainAll;
    if AllSafe(prog) {
      forall rs ensures EndsIdle(Bracketed(prog), rs) {
        if IsRunSeq(Bracketed(prog), rs) { BracketsAreRight(prog, rs); }
      }
    } else {
      var rs := UnsafeFaultsSeq(prog);
      assert !EndsIdle(Bracketed(prog), rs);
    }
  }

  // ----- the pass only inserts calls, and only where they are needed -----

  predicate IsCall(s: Stmt) { s.Initialize? || s.Lock? || s.Unlock? || s.Finalize? }

  // The program without lock calls, at every depth.
  function Erase(s: Stmt): Stmt
    decreases s, 0
  {
    match s
    case For(b) => For(EraseAll(b))
    case Region(b) => Region(EraseAll(b))
    case Forall(b) => Forall(EraseAll(b))
    case If(t, e) => If(EraseAll(t), EraseAll(e))
    case _ => s
  }

  function EraseAll(ss: seq<Stmt>): seq<Stmt>
    decreases ss, 0
  {
    if ss == [] then []
    else EraseAll(ss[..|ss| - 1]) + if IsCall(ss[|ss| - 1]) then [] else [Erase(ss[|ss| - 1])]
  }

  lemma {:induction false} EraseConcat(a: seq<Stmt>, b: seq<Stmt>)
    ensures EraseAll(a + b) == EraseAll(a) + EraseAll(b)
    decreases |b|
  {
    if b == [] {
      assert a + b == a;
    } else {
      EraseConcat(a, b[..|b| - 1]);
      assert (a + b)[..|a + b| - 1] == a + b[..|b| - 1];
    }
  }

  lemma {:induction false} ErasePlain(s: Stmt)
    requires Plain(s)
    ensures Erase(s) == s && !IsCall(s)
    decreases s, 0
  {
    match s
    case For(b) => EraseAllPlain(b);
    case Region(b) => EraseAllPlain(b);
    case Forall(b) => EraseAllPlain(b);
    case If(t, e) => EraseAllPlain(t); EraseAllPlain(e);
    case _ =>
  }

  lemma {:induction false} EraseAllPlain(ss: seq<Stmt>)
    requires PlainAll(ss)
    ensures EraseAll(ss) == ss
    decreases ss, 0
  {
    if ss != [] {
      assert Plain(ss[|ss| - 1]);
      EraseAllPlain(ss[..|ss| - 1]);
      ErasePlain(ss[|ss| - 1]);
    }
  }

  lemma {:induction false} EraseInner(s: Stmt)
    requires Plain(s)
    ensures Erase(Inner(s)) == s && !IsCall(Inner(s))
    decreases s, 0
  {
    match s
    case Region(b) => EraseBracketed(b);
    case Forall(b) => EraseBracketed(b);
    case If(t, e) => EraseBracketed(t); EraseBracketed(e);
    case _ => ErasePlain(s);
  }

  // Taking out the lock calls at every depth gives back the program the pass was given.
  lemma {:induction false} EraseBracketed(ss: seq<Stmt>)
    requires PlainAll(ss)
    ensures EraseAll(Bracketed(ss)) == ss
    decreases ss, 2
  {
    ErasePieces(ss, |ss|);
  }

  lemma {:induction false} ErasePieces(ss: seq<Stmt>, n: nat)
    requires n <= |ss| && PlainAll(ss)
    ensures EraseAll(Pieces(ss, n)) == ss[..n]
    decreases ss, 1, n
  {
    hide EraseAll, Pieces, Piece, Inner, Erase, IsCall;
    if n > 0 {
      assert Plain(ss[n - 1]);
      ErasePieces(ss, n - 1);
      EraseInner(ss[n - 1]);
      ErasePiece(ss, n - 1);
      EraseNext(ss, n - 1);
    } else {
      NoPieces(ss);
      EraseCalls([]);
    }
  }

  lemma EraseNext(ss: seq<Stmt>, k: nat)
    requires k < |ss| && EraseAll(Pieces(ss, k)) == ss[..k] && EraseAll(Piece(ss, k)) == [ss[k]]
    ensures EraseAll(Pieces(ss, k + 1)) == ss[..k + 1]
  {
    hide *;
    NextPiece(ss, k);
    EraseConcat(Pieces(ss, k), Piece(ss, k));
    assert ss[..k + 1] == ss[..k] + [ss[k]];
  }

  lemma ErasePiece(ss: seq<Stmt>, i: nat)
    requires i < |ss| && !IsCall(Inner(ss[i])) && Erase(Inner(ss[i])) == ss[i]
    ensures EraseAll(Piece(ss, i)) == [ss[i]]
  {
    hide Inner, Opens, Closes;
    var o, m, c := if Opens(ss, i) then Opening() else [], [Inner(ss[i])], if Closes(ss, i) then Closing() else [];
    EraseCalls(o);
    EraseCalls(c);
    EraseConcat(o, m);
    EraseConcat(o + m, c);
    assert m[..0] == [];
  }

  lemma EraseCalls(cs: seq<Stmt>)
    requires cs == [] || cs == Opening() || cs == Closing()
    ensures EraseAll(cs) == []
  {
    if cs != [] { assert cs[..1][..0] == [] && EraseAll(cs[..1]) == []; }
  }

  predicate IsWork(s: Stmt) { s.Matmul? || (s.For? && Contains(s)) }

  // Calls come in pairs right before and right after a matmul or a loop with one in it, and no
  // bracket is closed and opened again between two matmuls.
  predicate TightHere(r: seq<Stmt>, i: nat)
    requires i < |r|
  {
    match r[i]
    case Initialize =>
      && i + 2 < |r| && r[i + 1].Lock? && IsWork(r[i + 2])
      && !(i >= 3 && r[i - 1].Finalize? && r[i - 3].Matmul? && r[i + 2].Matmul?)
    case Lock => i > 0 && r[i - 1].Initialize?
    case Unlock => i + 1 < |r| && r[i + 1].Finalize?
    case Finalize => i >= 2 && r[i - 1].Unlock? && IsWork(r[i - 2])
    case _ => true
  }

  // At every depth outside loops, and with no call inside one.
  ghost predicate Tight(r: seq<Stmt>)
    decreases r, 1
  {
    forall i :: 0 <= i < |r| ==> TightHere(r, i) && TightInside(r[i])
  }

  ghost predicate TightInside(s: Stmt)
    decreases s, 0
  {
    match s
    case For(b) => PlainAll(b)
    case Region(b) => Tight(b)
    case Forall(b) => Tight(b)
    case If(t, e) => Tight(t) && Tight(e)
    case _ => true
  }

  lemma {:induction false} InnerTight(s: Stmt)
    requires Plain(s)
    ensures TightInside(Inner(s)) && !IsCall(Inner(s))
    decreases s, 0
  {
    match s
    case Region(b) => BracketedTight(b);
    case Forall(b) => BracketedTight(b);
    case If(t, e) => BracketedTight(t); BracketedTight(e);
    case _ =>
  }

  lemma {:induction false} BracketedTight(ss: seq<Stmt>)
    requires PlainAll(ss)
    ensures Tight(Bracketed(ss))
    decreases ss, 2
  {
    PiecesTight(ss, |ss|);
  }

  lemma {:induction false} PiecesTight(ss: seq<Stmt>, n: nat)
    requires n <= |ss| && PlainAll(ss)
    ensures Tight(Pieces(ss, n))
    decreases ss, 1, n
  {
    if n > 0 {
      PiecesTight(ss, n - 1);
      assert Plain(ss[n - 1]);
      InnerTight(ss[n - 1]);
      if n > 1 {
        assert Plain(ss[n - 2]);
        InnerTight(ss[n - 2]);
      }
      NextTight(ss, n - 1);
    }
  }

  lemma NothingInside(s: Stmt)
    requires IsCall(s)
    ensures TightInside(s)
  {
  }

  lemma NextTight(ss: seq<Stmt>, k: nat)
    requires k < |ss| && Tight(Pieces(ss, k)) && TightInside(Inner(ss[k])) && !IsCall(Inner(ss[k]))
    requires k > 0 ==> !IsCall(Inner(ss[k - 1]))
    ensures Tight(Pieces(ss, k + 1))
  {
    hide TightInside, Contains, Pieces;
    NextPiece(ss, k);
    var p, q := Pieces(ss, k), Piece(ss, k);
    var r := p + q;
    if k > 0 { NextPiece(ss, k - 1); } else { NoPieces(ss); }
    forall i | 0 <= i < |r| ensures TightHere(r, i) && TightInside(r[i]) {
      if i < |p| {
        assert TightHere(p, i) && TightInside(p[i]);
      } else {
        assert r[i] == q[i - |p|];
        if IsCall(r[i]) { NothingInside(r[i]); } else { assert r[i] == Inner(ss[k]); }
      }
    }
  }

  // ----- how the pass finds its brackets -----

  function Children(s: Stmt): seq<Stmt> {
    match s
    case For(b) => b
    case Region(b) => b
    case Forall(b) => b
    case If(t, e) => t + e
    case _ => []
  }

  // The ops from somewhere in a block down to one op: each in the body of the one before.
  ghost predicate IsChain(ss: seq<Stmt>, chain: seq<Stmt>)
    decreases |chain|
  {
    chain != [] && chain[0] in ss && (|chain| > 1 ==> IsChain(Children(chain[0]), chain[1..]))
  }

  // The outermost scf.for around the last op of a chain, -1 if there is none.
  function OutermostFor(chain: seq<Stmt>): (r: int)
    requires chain != []
    ensures -1 <= r < |chain| - 1
    ensures r >= 0 ==> chain[r].For?
    ensures forall i :: 0 <= i < |chain| - 1 && chain[i].For? ==> 0 <= r <= i
  {
    if |chain| == 1 then -1
    else if chain[0].For? then 0
    else var r := OutermostFor(chain[1..]); if r < 0 then -1 else r + 1
  }

  // Walks the parents from the op outwards, remembering the last loop seen.
  method GetOutermostLoop(chain: seq<Stmt>) returns (outermost: int)
    requires chain != []
    ensures outermost == OutermostFor(chain)
  {
    outermost := -1;
    var current := |chain| - 2;
    while current >= 0
      invariant -1 <= current <= |chain| - 2
      invariant outermost == -1 || (current < outermost < |chain| - 1 && chain[outermost].For?)
      invariant forall i :: current < i < |chain| - 1 && chain[i].For? ==> 0 <= outermost <= i
    {
      if chain[current].For? { outermost := current; }
      current := current - 1;
    }
  }

  ghost predicate HandledBy(c: seq<Stmt>, d: seq<Stmt>)
    requires c != []
  {
    && IsChain(Children(c[|c| - 1]), d) && d[|d| - 1].Matmul?
    && OutermostFor(c + d) == |c| - 1
  }

  // The loops collected from the matmuls upwards are those the bracketing finds
  // downwards: outermost loops with a matmul somewhere inside.
  lemma CollectedLoops(c: seq<Stmt>)
    requires c != [] && c[|c| - 1].For? && forall i :: 0 <= i < |c| - 1 ==> !c[i].For?
    ensures Contains(c[|c| - 1]) <==> exists d :: HandledBy(c, d)
  {
    var f := c[|c| - 1];
    if Contains(f) {
      var d := ChainToMatmul(f);
      assert (c + d)[|c| - 1] == f;
      assert HandledBy(c, d);
    } else if d :| HandledBy(c, d) {
      ChainContains(f, d);
    }
  }

  lemma {:induction false} ChainToMatmul(s: Stmt) returns (d: seq<Stmt>)
    requires Contains(s) && !s.Matmul?
    ensures IsChain(Children(s), d) && d[|d| - 1].Matmul?
    decreases s
  {
    var i :| 0 <= i < |Children(s)| && Contains(Children(s)[i]) && Children(s)[i] < s by { ChildContains(s); }
    var t := Children(s)[i];
    if t.Matmul? {
      d := [t];
    } else {
      var e := ChainToMatmul(t);
      d := [t] + e;
      assert d[1..] == e;
    }
  }

  lemma ChildContains(s: Stmt)
    requires Contains(s) && !s.Matmul?
    ensures exists i :: 0 <= i < |Children(s)| && Contains(Children(s)[i]) && Children(s)[i] < s
  {
    match s
    case If(t, e) =>
      if ContainsAny(t) {
        var i :| 0 <= i < |t| && Contains(t[i]);
        assert Children(s)[i] == t[i] && t[i] < s;
      } else {
        var i :| 0 <= i < |e| && Contains(e[i]);
        assert Children(s)[|t| + i] == e[i] && e[i] < s;
      }
    case For(b) => var i :| 0 <= i < |b| && Contains(b[i]); assert Children(s)[i] == b[i] && b[i] < s;
    case Region(b) => var i :| 0 <= i < |b| && Contains(b[i]); assert Children(s)[i] == b[i] && b[i] < s;
    case Forall(b) => var i :| 0 <= i < |b| && Contains(b[i]); assert Children(s)[i] == b[i] && b[i] < s;
    case _ =>
  }

  lemma {:induction false} ChainContains(s: Stmt, d: seq<Stmt>)
    requires IsChain(Children(s), d) && d[|d| - 1].Matmul?
    ensures Contains(s)
    decreases |d|
  {
    if |d| > 1 { ChainContains(d[0], d[1..]); }
    assert Contains(d[0]);
    ParentContains(s, d[0]);
  }

  lemma ParentContains(s: Stmt, t: Stmt)
    requires t in Children(s) && Contains(t)
    ensures Contains(s)
  {
    var i :| 0 <= i < |Children(s)| && Children(s)[i] == t;
    if s.If? {
      if i < |s.then_| { assert s.then_[i] == t; } else { assert s.else_[i - |s.then_|] == t; }
    }
  }

  // ops strictly between two matmuls: none may produce a result, and none may be a matmul.
  method AreConsecutive(ss: seq<Stmt>, i: nat, j: nat) returns (r: bool)
    requires i < j < |ss| && ss[j].Matmul?
    ensures r <==> forall k :: i < k < j ==> !ss[k].Matmul? && !(ss[k].Other? && ss[k].results > 0)
  {
    var current := i + 1;
    while current < |ss| && current != j
      invariant i < current <= j
      invariant forall k :: i < k < current ==> !ss[k].Matmul? && !(ss[k].Other? && ss[k].results > 0)
    {
      if ss[current].Matmul? { return false; }
      if ss[current].Other? && ss[current].results > 0 { return false; }
      current := current + 1;
    }
    return current == j;
  }

  // The end of the group a matmul starts: every next op that is again a matmul joins.
  method GroupEnd(ss: seq<Stmt>, start: nat) returns (end: nat)
    requires start < |ss| && ss[start].Matmul?
    ensures start <= end < |ss| && forall k :: start <= k <= end ==> ss[k].Matmul?
    ensures end + 1 == |ss| || !ss[end + 1].Matmul?
  {
    end := start;
    while end + 1 < |ss|
      invariant start <= end < |ss| && forall k :: start <= k <= end ==> ss[k].Matmul?
    {
      if !ss[end + 1].Matmul? { break; }
      var consecutive := AreConsecutive(ss, end, end + 1);
      if !consecutive { break; }
      end := end + 1;
    }
  }

  lemma {:induction false} GroupPieces(ss: seq<Stmt>, start: nat, k: nat)
    requires start <= k < |ss| && forall i :: start <= i <= k ==> ss[i].Matmul?
    requires start == 0 || !ss[start - 1].Matmul?
    ensures Pieces(ss, k + 1) == Pieces(ss, start) + Opening() + ss[start..k + 1]
                                    + if Closes(ss, k) then Closing() else []
    decreases k
  {
    hide Pieces;
    NextPiece(ss, k);
    if k > start {
      GroupPieces(ss, start, k - 1);
      assert ss[start..k + 1] == ss[start..k] + [ss[k]];
    } else {
      assert ss[start..k + 1] == [ss[k]];
    }
  }

  lemma NextPiece(ss: seq<Stmt>, k: nat)
    requires k < |ss|
    ensures Pieces(ss, k + 1) == Pieces(ss, k) + Piece(ss, k)
  {
  }

  // Insertion over one block and everything below it.
  method InsertBrackets(ss: seq<Stmt>) returns (r: seq<Stmt>)
    ensures r == Bracketed(ss)
    ensures PlainAll(ss) ==> EraseAll(r) == ss && Tight(r)
    decreases ss, 1
  {
    hide Pieces, Contains;
    assert Pieces(ss, 0) == [] by { NoPieces(ss); }
    r := [];
    var i := 0;
    while i < |ss|
      invariant 0 <= i <= |ss| && r == Pieces(ss, i)
      invariant 0 < i < |ss| ==> !(ss[i - 1].Matmul? && ss[i].Matmul?)
    {
      if ss[i].Matmul? {
        var end := GroupEnd(ss, i);
        GroupPieces(ss, i, end);
        r := r + Opening() + ss[i..end + 1] + Closing();
        i := end + 1;
      } else if ss[i].For? && Contains(ss[i]) {
        NextPiece(ss, i);
        r := r + Opening() + [ss[i]] + Closing();
        i := i + 1;
      } else {
        NextPiece(ss, i);
        var s := InsertInside(ss[i]);
        assert r + [s] == r + ([] + [s] + []);
        r := r + [s];
        i := i + 1;
      }
    }
    if PlainAll(ss) {
      EraseBracketed(ss);
      BracketedTight(ss);
    }
  }

  lemma NoPieces(ss: seq<Stmt>)
    ensures Pieces(ss, 0) == []
  {
  }

  method InsertInside(s: Stmt) returns (r: Stmt)
    ensures r == Inner(s)
    decreases s, 0
  {
    match s
    case Region(b) =>
      var c := InsertBrackets(b);
      r := Region(c);
    case Forall(b) =>
      var c := InsertBrackets(b);
      r := Forall(c);
    case If(t, e) =>
      var c := InsertBrackets(t);
      var d := InsertBrackets(e);
      r := If(c, d);
    case _ =>
      r := s;
  }
}
