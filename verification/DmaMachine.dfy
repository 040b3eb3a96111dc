// A host that issues buffer copies, kernels and DMA transfers, beside an
// engine that moves the elements of outstanding transfers one at a time, in
// any order, at any moment between a transfer's start and its wait.
module DmaMachine {
  import opened Basics

  datatype Side = Single | Ping | Pong

  // One element of main memory, or of a tile buffer.
  datatype Loc = Ddr(addr: int) | Cell(side: Side, buf: nat, elem: nat)

  type Mem = m: imap<Loc, int> | forall l: Loc :: l in m
    ghost witness imap l: Loc | true :: 0

  datatype Tag = LoadTag(side: Side, i: nat) | StoreTag(side: Side, i: nat)

  datatype Action =
    | Copy(src: seq<Loc>, dst: seq<Loc>)
    | Start(tag: Tag, src: seq<Loc>, dst: seq<Loc>)
    | Wait(tag: Tag)
    | Compute(side: Side, iv: int)

  // The tile computation: it sees the buffers of one side and the induction
  // variable, and nothing else.
  datatype Kernel = Kernel(sizes: seq<nat>, f: (int, seq<seq<int>>) -> seq<seq<int>>) {
    ghost predicate Owns(side: Side, l: Loc) {
      l.Cell? && l.side == side && l.buf < |sizes| && l.elem < sizes[l.buf]
    }

    ghost function Read(m: Mem, side: Side): (r: seq<seq<int>>) {
      seq(|sizes|, b requires 0 <= b < |sizes| => seq(sizes[b], j requires 0 <= j < sizes[b] => m[Cell(side, b, j)]))
    }

    ghost function Run(m: Mem, side: Side, iv: int): Mem {
      var r := f(iv, Read(m, side));
      imap l: Loc | true ::
        if Owns(side, l) && l.buf < |r| && l.elem < |r[l.buf]| then r[l.buf][l.elem] else m[l]
    }
  }

  // ----- sequential meaning: a started transfer moves everything at once -----

  ghost function Copied(m: Mem, src: seq<Loc>, dst: seq<Loc>, n: nat): Mem
    requires n <= |src| == |dst|
  {
    if n == 0 then m
    else var m' := Copied(m, src, dst, n - 1); m'[dst[n - 1] := m'[src[n - 1]]]
  }

  ghost function CopyAll(m: Mem, src: seq<Loc>, dst: seq<Loc>): Mem {
    if |src| == |dst| then Copied(m, src, dst, |src|) else m
  }

  ghost function Exec(k: Kernel, m: Mem, a: Action): Mem {
    match a
    case Copy(src, dst) => CopyAll(m, src, dst)
    case Start(_, src, dst) => CopyAll(m, src, dst)
    case Wait(_) => m
    case Compute(side, iv) => k.Run(m, side, iv)
  }

  ghost function ExecAll(k: Kernel, m: Mem, trace: seq<Action>): Mem {
    if trace == [] then m else ExecAll(k, Exec(k, m, trace[0]), trace[1..])
  }

  lemma {:induction false} ExecAppend(k: Kernel, m: Mem, a: seq<Action>, b: seq<Action>)
    ensures ExecAll(k, m, a + b) == ExecAll(k, ExecAll(k, m, a), b)
  {
    if a == [] {
      assert a + b == b;
    } else {
      assert (a + b)[0] == a[0] && (a + b)[1..] == a[1..] + b;
      ExecAppend(k, Exec(k, m, a[0]), a[1..], b);
    }
  }

  // ----- the machine -----

  datatype Transfer = Transfer(src: seq<Loc>, dst: seq<Loc>)

  // `left` holds the element numbers not yet moved.
  datatype Pending = Pending(xfer: Transfer, left: set<nat>)

  datatype State = State(todo: seq<Action>, mem: Mem, out: map<Tag, Pending>)

  datatype Choice = Host | Move(tag: Tag, j: nat)

  // A wait reads a token from the tag's cell. When no transfer was started under the tag
  // that is any word at all, and the wait may return or not: the step is enabled, and a
  // run may also stop before it.
  ghost predicate Enabled(s: State, c: Choice) {
    match c
    case Host =>
      s.todo != [] && (match s.todo[0]
        case Start(tag, src, dst) => Settles(s.out, tag) && |src| == |dst|
        case Wait(tag) => Settles(s.out, tag)
        case _ => true)
    case Move(tag, j) => tag in s.out && j in s.out[tag].left && j < |s.out[tag].xfer.src| && j < |s.out[tag].xfer.dst|
  }

  // No transfer under the tag has elements left to move.
  ghost predicate Settles(out: map<Tag, Pending>, tag: Tag) { tag in out ==> out[tag].left == {} }

  ghost function Apply(k: Kernel, s: State, c: Choice): State
    requires Enabled(s, c)
  {
    match c
    case Host =>
      var s' := s.(todo := s.todo[1..]);
      (match s.todo[0]
       case Start(tag, src, dst) => s'.(out := s.out[tag := Pending(Transfer(src, dst), Indices(|dst|))])
       case Wait(tag) => s'.(out := s.out - {tag})
       case a => s'.(mem := Exec(k, s.mem, a)))
    case Move(tag, j) =>
      var Pending(x, left) := s.out[tag];
      s.(mem := s.mem[x.dst[j] := s.mem[x.src[j]]], out := s.out[tag := Pending(x, left - {j})])
  }

  ghost function Indices(n: nat): (s: set<nat>)
    ensures forall j: nat :: j in s <==> j < n
  {
    if n == 0 then {} else Indices(n - 1) + {n - 1}
  }

  ghost predicate Runs(k: Kernel, s: State, cs: seq<Choice>, s': State)
    decreases cs
  {
    if cs == [] then s == s'
    else Enabled(s, cs[0]) && Runs(k, Apply(k, s, cs[0]), cs[1..], s')
  }

  // ----- race freedom -----

  ghost predicate Disjoint(a: seq<Loc>, b: seq<Loc>) {
    forall i, j :: 0 <= i < |a| && 0 <= j < |b| ==> a[i] != b[j]
  }

  ghost predicate SelfContained(x: Transfer) {
    |x.src| == |x.dst| && Distinct(x.dst) && Disjoint(x.src, x.dst)
  }

  // A new transfer and an outstanding one neither write the same place nor
  // read what the other writes.
  ghost predicate Independent(x: Transfer, y: Transfer) {
    Disjoint(x.dst, y.dst) && Disjoint(x.dst, y.src) && Disjoint(x.src, y.dst)
  }

  ghost predicate Untouched(k: Kernel, side: Side, x: Transfer) {
    && (forall j :: 0 <= j < |x.src| ==> !k.Owns(side, x.src[j]))
    && (forall j :: 0 <= j < |x.dst| ==> !k.Owns(side, x.dst[j]))
  }

  ghost predicate Safe(k: Kernel, out: map<Tag, Transfer>, a: Action) {
    match a
    case Copy(src, dst) =>
      SelfContained(Transfer(src, dst)) && forall t :: t in out ==> Independent(Transfer(src, dst), out[t])
    case Start(tag, src, dst) =>
      tag !in out && SelfContained(Transfer(src, dst)) && forall t :: t in out ==>
        Independent(Transfer(src, dst), out[t])
    case Wait(tag) => tag in out
    case Compute(side, _) => forall t :: t in out ==> Untouched(k, side, out[t])
  }

  ghost function OutAfter(out: map<Tag, Transfer>, a: Action): map<Tag, Transfer> {
    match a
    case Start(tag, src, dst) => out[tag := Transfer(src, dst)]
    case Wait(tag) => out - {tag}
    case _ => out
  }

  // The trace is safe throughout and takes the outstanding set from out to out'.
  ghost predicate Clean(k: Kernel, out: map<Tag, Transfer>, trace: seq<Action>, out': map<Tag, Transfer>)
    decreases trace
  {
    if trace == [] then out == out'
    else Safe(k, out, trace[0]) && Clean(k, OutAfter(out, trace[0]), trace[1..], out')
  }

  // Every transfer is awaited exactly once and none races or is left over.
  ghost predicate RaceFree(k: Kernel, trace: seq<Action>) {
    Clean(k, map[], trace, map[])
  }

  lemma {:induction false} CleanAppend(k: Kernel, out: map<Tag, Transfer>, a: seq<Action>, mid: map<Tag, Transfer>,
                                       b: seq<Action>, out': map<Tag, Transfer>)
    requires Clean(k, out, a, mid)
    ensures Clean(k, out, a + b, out') <==> Clean(k, mid, b, out')
    decreases a
  {
    if a == [] {
      assert a + b == b;
    } else {
      assert (a + b)[0] == a[0] && (a + b)[1..] == a[1..] + b;
      CleanAppend(k, OutAfter(out, a[0]), a[1..], mid, b, out');
    }
  }

  // ----- the engine cannot be observed -----

  lemma {:induction false} CopiedElsewhere(m: Mem, src: seq<Loc>, dst: seq<Loc>, n: nat, l: Loc)
    requires n <= |src| == |dst| && forall j :: 0 <= j < n ==> dst[j] != l
    ensures Copied(m, src, dst, n)[l] == m[l]
  {
    if n > 0 { CopiedElsewhere(m, src, dst, n - 1, l); }
  }

  lemma {:induction false} CopiedAt(m: Mem, src: seq<Loc>, dst: seq<Loc>, n: nat, j: nat)
    requires j < n <= |src| == |dst| && Distinct(dst) && Disjoint(src, dst)
    ensures Copied(m, src, dst, n)[dst[j]] == m[src[j]]
  {
    if j == n - 1 {
      CopiedElsewhere(m, src, dst, n - 1, src[j]);
    } else {
      CopiedAt(m, src, dst, n - 1, j);
    }
  }

  lemma CopyValue(m: Mem, src: seq<Loc>, dst: seq<Loc>)
    requires SelfContained(Transfer(src, dst))
    ensures forall j :: 0 <= j < |dst| ==> CopyAll(m, src, dst)[dst[j]] == m[src[j]]
    ensures forall l: Loc :: l !in dst ==> CopyAll(m, src, dst)[l] == m[l]
  {
    forall j | 0 <= j < |dst| ensures CopyAll(m, src, dst)[dst[j]] == m[src[j]] {
      CopiedAt(m, src, dst, |src|, j);
    }
    forall l: Loc | l !in dst ensures CopyAll(m, src, dst)[l] == m[l] {
      CopiedElsewhere(m, src, dst, |src|, l);
    }
  }

  // ----- batches of copies -----

  ghost predicate IsCopy(a: Action) { a.Copy? && SelfContained(Transfer(a.src, a.dst)) }

  ghost predicate Batch(acts: seq<Action>) {
    forall q :: 0 <= q < |acts| ==> IsCopy(acts[q])
  }

  ghost predicate Writes(acts: seq<Action>, l: Loc) {
    exists q :: 0 <= q < |acts| && acts[q].Copy? && l in acts[q].dst
  }

  lemma {:induction false} BatchFrame(k: Kernel, m: Mem, acts: seq<Action>, l: Loc)
    requires Batch(acts) && !Writes(acts, l)
    ensures ExecAll(k, m, acts)[l] == m[l]
    decreases acts
  {
    if acts != [] {
      var a := acts[0];
      CopyValue(m, a.src, a.dst);
      assert l !in acts[0].dst;
      assert forall q :: 0 <= q < |acts| - 1 ==> acts[1..][q] == acts[q + 1];
      BatchFrame(k, Exec(k, m, a), acts[1..], l);
    }
  }

  // Copies that neither overwrite each other nor what another one reads.
  ghost predicate Parallel(acts: seq<Action>) {
    forall p, q :: 0 <= p < |acts| && 0 <= q < |acts| && p != q && acts[p].Copy? && acts[q].Copy? ==>
      Disjoint(acts[p].dst, acts[q].dst) && Disjoint(acts[p].dst, acts[q].src)
  }

  lemma {:induction false} BatchValue(k: Kernel, m: Mem, acts: seq<Action>, q: nat, j: nat)
    requires Batch(acts) && Parallel(acts) && q < |acts| && IsCopy(acts[q]) && j < |acts[q].dst|
    ensures ExecAll(k, m, acts)[acts[q].dst[j]] == m[acts[q].src[j]]
    decreases acts
  {
    var a, rest := acts[0], acts[1..];
    assert forall p :: 0 <= p < |rest| ==> rest[p] == acts[p + 1];
    CopyValue(m, a.src, a.dst);
    if q == 0 {
      forall p | 0 <= p < |rest| ensures a.dst[j] !in rest[p].dst {
        assert rest[p] == acts[p + 1] && Disjoint(acts[0].dst, acts[p + 1].dst);
      }
      BatchFrame(k, Exec(k, m, a), rest, a.dst[j]);
    } else {
      assert Disjoint(acts[0].dst, acts[q].src);
      assert acts[q].src[j] !in a.dst;
      BatchValue(k, Exec(k, m, a), rest, q - 1, j);
    }
  }

  ghost predicate SameDdr(m: Mem, m': Mem) {
    forall d: int :: m[Ddr(d)] == m'[Ddr(d)]
  }

  ghost predicate SameTile(k: Kernel, m: Mem, side: Side, m': Mem, side': Side) {
    forall b: nat, j: nat :: b < |k.sizes| && j < k.sizes[b] ==> m[Cell(side, b, j)] == m'[Cell(side', b, j)]
  }

  // Corresponding places, when the buffers of one side stand for those of another.
  ghost predicate TwinLocs(k: Kernel, l: Loc, side: Side, l': Loc, side': Side) {
    (l.Ddr? && l' == l) || (k.Owns(side, l) && l' == Cell(side', l.buf, l.elem))
  }

  ghost predicate TwinSeqs(k: Kernel, a: seq<Loc>, side: Side, a': seq<Loc>, side': Side) {
    |a| == |a'| && forall j :: 0 <= j < |a| ==> TwinLocs(k, a[j], side, a'[j], side')
  }

  // The same copy, with the buffers of two sides.
  ghost predicate Twins(k: Kernel, a: Action, side: Side, a': Action, side': Side) {
    IsCopy(a) && IsCopy(a') && TwinSeqs(k, a.src, side, a'.src, side') && TwinSeqs(k, a.dst, side, a'.dst, side')
  }

  lemma CopyStep(k: Kernel, m: Mem, a: Action)
    requires IsCopy(a)
    ensures a.Copy? && |a.src| == |a.dst|
    ensures forall j :: 0 <= j < |a.dst| ==> Exec(k, m, a)[a.dst[j]] == m[a.src[j]]
    ensures forall l: Loc :: l !in a.dst ==> Exec(k, m, a)[l] == m[l]
  {
    CopyValue(m, a.src, a.dst);
  }

  lemma TwinPlace(k: Kernel, m: Mem, a: Action, side: Side, m': Mem, a': Action, side': Side, l: Loc, l': Loc)
    requires Twins(k, a, side, a', side') && SameDdr(m, m') && SameTile(k, m, side, m', side')
    requires TwinLocs(k, l, side, l', side')
    ensures Exec(k, m, a)[l] == Exec(k, m', a')[l']
  {
    hide IsCopy, Exec, TwinSeqs;
    CopyStep(k, m, a);
    CopyStep(k, m', a');
    if l in a.dst {
      var j :| 0 <= j < |a.dst| && a.dst[j] == l;
      TwinIndex(k, a.dst, side, a'.dst, side', l, l', j);
      TwinValue(k, m, a.src, side, m', a'.src, side', j);
    } else {
      TwinAbsent(k, a.dst, side, a'.dst, side', l, l');
      TwinValue(k, m, [l], side, m', [l'], side', 0) by { TwinAlone(k, l, side, l', side'); }
    }
  }

  lemma TwinAlone(k: Kernel, l: Loc, side: Side, l': Loc, side': Side)
    requires TwinLocs(k, l, side, l', side')
    ensures TwinSeqs(k, [l], side, [l'], side')
  {
  }

  lemma TwinIndex(k: Kernel, a: seq<Loc>, side: Side, a': seq<Loc>, side': Side, l: Loc, l': Loc, j: nat)
    requires TwinSeqs(k, a, side, a', side') && TwinLocs(k, l, side, l', side') && j < |a|
    ensures |a| == |a'| && (a[j] == l <==> a'[j] == l')
  {
    assert TwinLocs(k, a[j], side, a'[j], side');
  }

  lemma TwinAbsent(k: Kernel, a: seq<Loc>, side: Side, a': seq<Loc>, side': Side, l: Loc, l': Loc)
    requires TwinSeqs(k, a, side, a', side') && TwinLocs(k, l, side, l', side') && l !in a
    ensures l' !in a'
  {
    forall j: nat | j < |a'| ensures a'[j] != l' { TwinIndex(k, a, side, a', side', l, l', j); }
  }

  lemma TwinValue(k: Kernel, m: Mem, a: seq<Loc>, side: Side, m': Mem, a': seq<Loc>, side': Side, j: nat)
    requires TwinSeqs(k, a, side, a', side') && SameDdr(m, m') && SameTile(k, m, side, m', side') && j < |a|
    ensures |a| == |a'| && m[a[j]] == m'[a'[j]]
  {
    assert TwinLocs(k, a[j], side, a'[j], side');
  }

  lemma TwinStep(k: Kernel, m: Mem, a: Action, side: Side, m': Mem, a': Action, side': Side)
    requires Twins(k, a, side, a', side') && SameDdr(m, m') && SameTile(k, m, side, m', side')
    ensures SameDdr(Exec(k, m, a), Exec(k, m', a')) && SameTile(k, Exec(k, m, a), side, Exec(k, m', a'), side')
  {
    forall d: int ensures Exec(k, m, a)[Ddr(d)] == Exec(k, m', a')[Ddr(d)] {
      TwinPlace(k, m, a, side, m', a', side', Ddr(d), Ddr(d));
    }
    forall b: nat, j: nat | b < |k.sizes| && j < k.sizes[b]
      ensures Exec(k, m, a)[Cell(side, b, j)] == Exec(k, m', a')[Cell(side', b, j)]
    {
      TwinPlace(k, m, a, side, m', a', side', Cell(side, b, j), Cell(side', b, j));
    }
  }

  lemma {:induction false} TwinBatches(k: Kernel, m: Mem, acts: seq<Action>, side: Side, m': Mem, acts': seq<Action>,
                                       side': Side)
    requires |acts| == |acts'| && forall q :: 0 <= q < |acts| ==> Twins(k, acts[q], side, acts'[q], side')
    requires SameDdr(m, m') && SameTile(k, m, side, m', side')
    ensures SameDdr(ExecAll(k, m, acts), ExecAll(k, m', acts'))
    decreases acts
  {
    hide Twins, SameDdr, SameTile, Exec;
    if acts != [] {
      TwinStep(k, m, acts[0], side, m', acts'[0], side');
      TwinBatches(k, Exec(k, m, acts[0]), acts[1..], side, Exec(k, m', acts'[0]), acts'[1..], side');
    }
  }

  ghost predicate IsPending(out: map<Tag, Pending>, l: Loc, t: Tag, j: nat) {
    t in out && j in out[t].left && j < |out[t].xfer.dst| && out[t].xfer.dst[j] == l
  }

  ghost function Xfers(out: map<Tag, Pending>): map<Tag, Transfer> {
    map t | t in out :: out[t].xfer
  }

  ghost predicate NoConflict(out: map<Tag, Pending>) {
    && (forall t :: t in out ==> SelfContained(out[t].xfer) && forall j :: j in out[t].left ==> j < |out[t].xfer.dst|)
    && (forall t, u :: t in out && u in out && t != u ==> Independent(out[t].xfer, out[u].xfer))
  }

  // The machine's memory differs from the sequential one exactly at the
  // destinations still to be written, whose sources are intact.
  ghost predicate Tracks(s: State, eager: Mem) {
    TracksSources(s, eager) && TracksRest(s, eager)
  }

  ghost predicate TracksSources(s: State, eager: Mem) {
    forall t, j: nat :: t in s.out && j in s.out[t].left && j < |s.out[t].xfer.dst| && j < |s.out[t].xfer.src| ==>
      eager[s.out[t].xfer.dst[j]] == s.mem[s.out[t].xfer.src[j]]
  }

  ghost predicate TracksRest(s: State, eager: Mem) {
    forall l: Loc :: (forall t, j: nat :: !IsPending(s.out, l, t, j)) ==> eager[l] == s.mem[l]
  }

  ghost predicate Inv(k: Kernel, s: State, eager: Mem, goal: Mem) {
    && NoConflict(s.out) && Tracks(s, eager)
    && Clean(k, Xfers(s.out), s.todo, map[])
    && ExecAll(k, eager, s.todo) == goal
  }

  lemma MoveKeeps(k: Kernel, s: State, eager: Mem, goal: Mem, t: Tag, j: nat)
    requires Inv(k, s, eager, goal) && Enabled(s, Move(t, j))
    ensures Inv(k, Apply(k, s, Move(t, j)), eager, goal)
  {
    assert Xfers(Apply(k, s, Move(t, j)).out) == Xfers(s.out);
    MoveNoConflict(k, s, t, j);
    MoveTracks(k, s, eager, t, j);
  }

  lemma MoveNoConflict(k: Kernel, s: State, t: Tag, j: nat)
    requires NoConflict(s.out) && Enabled(s, Move(t, j))
    ensures NoConflict(Apply(k, s, Move(t, j)).out)
  {
    var s' := Apply(k, s, Move(t, j));
    assert forall u :: u in s'.out ==> u in s.out && s'.out[u].xfer == s.out[u].xfer && s'.out[u].left <= s.out[u].left;
  }

  lemma MoveTracks(k: Kernel, s: State, eager: Mem, t: Tag, j: nat)
    requires NoConflict(s.out) && Tracks(s, eager) && Enabled(s, Move(t, j))
    ensures Tracks(Apply(k, s, Move(t, j)), eager)
  {
    var s' := Apply(k, s, Move(t, j));
    var x := s.out[t].xfer;
    forall u, i: nat | u in s'.out && i in s'.out[u].left && i < |s'.out[u].xfer.dst| && i < |s'.out[u].xfer.src|
      ensures eager[s'.out[u].xfer.dst[i]] == s'.mem[s'.out[u].xfer.src[i]]
    {
      var y := s.out[u].xfer;
      assert y == s'.out[u].xfer && i in s.out[u].left;
      assert u != t ==> Independent(y, x);
      assert y.src[i] != x.dst[j];
    }
    forall l: Loc | forall u, i: nat :: !IsPending(s'.out, l, u, i) ensures eager[l] == s'.mem[l] {
      if l != x.dst[j] {
        forall u, i: nat ensures !IsPending(s.out, l, u, i) {
          assert !IsPending(s'.out, l, u, i);
        }
      }
    }
  }

  lemma WaitKeeps(k: Kernel, s: State, eager: Mem, goal: Mem, tag: Tag)
    requires Inv(k, s, eager, goal) && Enabled(s, Host) && s.todo[0] == Wait(tag)
    ensures Inv(k, Apply(k, s, Host), eager, goal)
  {
    assert Xfers(Apply(k, s, Host).out) == Xfers(s.out) - {tag};
    WaitTracks(s, eager, tag);
  }

  lemma WaitTracks(s: State, eager: Mem, tag: Tag)
    requires NoConflict(s.out) && Tracks(s, eager) && tag in s.out && s.out[tag].left == {}
    ensures NoConflict(s.out - {tag}) && Tracks(s.(out := s.out - {tag}), eager)
  {
    var out' := s.out - {tag};
    forall l: Loc | forall u, i: nat :: !IsPending(out', l, u, i) ensures eager[l] == s.mem[l] {
      forall u, i: nat ensures !IsPending(s.out, l, u, i) {
        assert !IsPending(out', l, u, i);
      }
    }
  }

  // Nothing outstanding is about to be written at l.
  lemma Settled(s: State, eager: Mem, l: Loc)
    requires NoConflict(s.out) && Tracks(s, eager)
    requires forall t :: t in s.out ==> forall i :: 0 <= i < |s.out[t].xfer.dst| ==> s.out[t].xfer.dst[i] != l
    ensures eager[l] == s.mem[l]
  {
    forall t, j: nat ensures !IsPending(s.out, l, t, j) {
    }
  }

  lemma StartKeeps(k: Kernel, s: State, eager: Mem, goal: Mem, tag: Tag, src: seq<Loc>, dst: seq<Loc>)
    requires Inv(k, s, eager, goal) && s.todo != [] && s.todo[0] == Start(tag, src, dst)
    ensures Enabled(s, Host) && Inv(k, Apply(k, s, Host), CopyAll(eager, src, dst), goal)
  {
    hide NoConflict, Disjoint, Distinct, TracksSources, TracksRest;
    SafeNow(k, s);
    var x := Transfer(src, dst);
    var s' := Apply(k, s, Host);
    assert s' == Started(s, tag, x).(todo := s.todo[1..]);
    assert Xfers(s'.out) == Xfers(s.out)[tag := x];
    StartNoConflict(s.out, tag, x);
    StartTracks(s, eager, tag, x);
    TracksIgnoresTodo(Started(s, tag, x), CopyAll(eager, src, dst), s.todo[1..]);
  }

  lemma TracksIgnoresTodo(s: State, eager: Mem, todo: seq<Action>)
    requires Tracks(s, eager)
    ensures Tracks(s.(todo := todo), eager)
  {
  }

  lemma SafeNow(k: Kernel, s: State)
    requires s.todo != [] && Clean(k, Xfers(s.out), s.todo, map[])
    ensures Safe(k, Xfers(s.out), s.todo[0])
    ensures forall t :: t in s.out ==> t in Xfers(s.out) && Xfers(s.out)[t] == s.out[t].xfer
  {
  }

  lemma StartNoConflict(out: map<Tag, Pending>, tag: Tag, x: Transfer)
    requires NoConflict(out) && tag !in out && SelfContained(x)
    requires forall t :: t in out ==> Independent(x, out[t].xfer)
    ensures NoConflict(out[tag := Pending(x, Indices(|x.dst|))])
  {
    assert forall t :: t in out ==> Independent(out[t].xfer, x);
  }

  ghost function Started(s: State, tag: Tag, x: Transfer): State {
    s.(out := s.out[tag := Pending(x, Indices(|x.dst|))])
  }

  lemma StartTracks(s: State, eager: Mem, tag: Tag, x: Transfer)
    requires NoConflict(s.out) && Tracks(s, eager) && tag !in s.out && SelfContained(x)
    requires forall t :: t in s.out ==> Independent(x, s.out[t].xfer)
    ensures Tracks(Started(s, tag, x), CopyAll(eager, x.src, x.dst))
  {
    CopyValue(eager, x.src, x.dst);
    StartTracksSources(s, eager, tag, x, CopyAll(eager, x.src, x.dst));
    StartTracksRest(s, eager, tag, x, CopyAll(eager, x.src, x.dst));
  }

  lemma StartTracksSources(s: State, eager: Mem, tag: Tag, x: Transfer, eager': Mem)
    requires NoConflict(s.out) && Tracks(s, eager) && tag !in s.out && SelfContained(x)
    requires forall t :: t in s.out ==> Independent(x, s.out[t].xfer)
    requires forall j :: 0 <= j < |x.dst| ==> eager'[x.dst[j]] == eager[x.src[j]]
    requires forall l: Loc :: l !in x.dst ==> eager'[l] == eager[l]
    ensures TracksSources(Started(s, tag, x), eager')
  {
    var out' := Started(s, tag, x).out;
    forall u, i: nat | u in out' && i in out'[u].left && i < |out'[u].xfer.dst| && i < |out'[u].xfer.src|
      ensures eager'[out'[u].xfer.dst[i]] == s.mem[out'[u].xfer.src[i]]
    {
      if u == tag {
        Settled(s, eager, x.src[i]);
      } else {
        assert Independent(x, s.out[u].xfer);
      }
    }
  }

  lemma StartTracksRest(s: State, eager: Mem, tag: Tag, x: Transfer, eager': Mem)
    requires TracksRest(s, eager) && tag !in s.out
    requires forall l: Loc :: l !in x.dst ==> eager'[l] == eager[l]
    ensures TracksRest(Started(s, tag, x), eager')
  {
    var out' := Started(s, tag, x).out;
    forall l: Loc | forall u, i: nat :: !IsPending(out', l, u, i) ensures eager'[l] == s.mem[l] {
      forall i: nat | i < |x.dst| ensures x.dst[i] != l {
        assert !IsPending(out', l, tag, i);
      }
      forall u, i: nat ensures !IsPending(s.out, l, u, i) {
        assert !IsPending(out', l, u, i);
      }
    }
  }

  lemma CopyKeeps(k: Kernel, s: State, eager: Mem, src: seq<Loc>, dst: seq<Loc>)
    requires NoConflict(s.out) && Tracks(s, eager) && SelfContained(Transfer(src, dst))
    requires forall t :: t in s.out ==> Independent(Transfer(src, dst), s.out[t].xfer)
    ensures Tracks(s.(mem := CopyAll(s.mem, src, dst)), CopyAll(eager, src, dst))
  {
    var s' := s.(mem := CopyAll(s.mem, src, dst));
    var eager' := CopyAll(eager, src, dst);
    CopyValue(eager, src, dst);
    CopyValue(s.mem, src, dst);
    forall j: nat | j < |dst| ensures eager'[dst[j]] == s'.mem[dst[j]] {
      Settled(s, eager, src[j]);
    }
    forall u, i: nat | u in s'.out && i in s'.out[u].left && i < |s'.out[u].xfer.dst| && i < |s'.out[u].xfer.src|
      ensures eager'[s'.out[u].xfer.dst[i]] == s'.mem[s'.out[u].xfer.src[i]]
    {
      assert Independent(Transfer(src, dst), s.out[u].xfer);
      assert s.out[u].xfer.dst[i] !in dst && s.out[u].xfer.src[i] !in dst;
    }
    forall l: Loc | forall u, i: nat :: !IsPending(s'.out, l, u, i) ensures eager'[l] == s'.mem[l] {
      assert forall u, i: nat :: !IsPending(s.out, l, u, i) by {
        forall u, i: nat ensures !IsPending(s.out, l, u, i) { assert !IsPending(s'.out, l, u, i); }
      }
      if l in dst {
        var j :| 0 <= j < |dst| && dst[j] == l;
      }
    }
  }

  // The kernel sees nothing but the cells it owns.
  lemma ReadAgrees(k: Kernel, m: Mem, m': Mem, side: Side)
    requires forall l: Loc :: k.Owns(side, l) ==> m[l] == m'[l]
    ensures k.Read(m, side) == k.Read(m', side)
  {
    var r, r' := k.Read(m, side), k.Read(m', side);
    forall b | 0 <= b < |r| ensures r[b] == r'[b] {
      forall j | 0 <= j < |r[b]| ensures r[b][j] == r'[b][j] {
        assert k.Owns(side, Cell(side, b, j));
      }
    }
  }

  lemma ComputeSame(k: Kernel, s: State, eager: Mem, side: Side, iv: int, l: Loc)
    requires NoConflict(s.out) && Tracks(s, eager)
    requires forall t :: t in s.out ==> Untouched(k, side, s.out[t].xfer)
    ensures k.Owns(side, l) ==> k.Run(eager, side, iv)[l] == k.Run(s.mem, side, iv)[l]
    ensures !k.Owns(side, l) ==> k.Run(eager, side, iv)[l] == eager[l] && k.Run(s.mem, side, iv)[l] == s.mem[l]
  {
    forall l: Loc | k.Owns(side, l) ensures eager[l] == s.mem[l] {
      OwnedSettled(k, s, eager, side, l);
    }
    hide Tracks, NoConflict, Untouched;
    ReadAgrees(k, s.mem, eager, side);
  }

  lemma OwnedSettled(k: Kernel, s: State, eager: Mem, side: Side, l: Loc)
    requires NoConflict(s.out) && Tracks(s, eager) && k.Owns(side, l)
    requires forall t :: t in s.out ==> Untouched(k, side, s.out[t].xfer)
    ensures eager[l] == s.mem[l]
  {
    Settled(s, eager, l);
  }

  lemma ComputeKeeps(k: Kernel, s: State, eager: Mem, side: Side, iv: int)
    requires NoConflict(s.out) && Tracks(s, eager)
    requires forall t :: t in s.out ==> Untouched(k, side, s.out[t].xfer)
    ensures Tracks(s.(mem := k.Run(s.mem, side, iv)), k.Run(eager, side, iv))
  {
    var s' := s.(mem := k.Run(s.mem, side, iv));
    var eager' := k.Run(eager, side, iv);
    hide Kernel.Run, Kernel.Owns, NoConflict;
    forall u, i: nat | u in s'.out && i in s'.out[u].left && i < |s'.out[u].xfer.dst| && i < |s'.out[u].xfer.src|
      ensures eager'[s'.out[u].xfer.dst[i]] == s'.mem[s'.out[u].xfer.src[i]]
    {
      assert Untouched(k, side, s.out[u].xfer);
      ComputeSame(k, s, eager, side, iv, s.out[u].xfer.dst[i]);
      ComputeSame(k, s, eager, side, iv, s.out[u].xfer.src[i]);
    }
    forall l: Loc | forall u, i: nat :: !IsPending(s'.out, l, u, i) ensures eager'[l] == s'.mem[l] {
      assert forall u, i: nat :: !IsPending(s.out, l, u, i) by {
        forall u, i: nat ensures !IsPending(s.out, l, u, i) { assert !IsPending(s'.out, l, u, i); }
      }
      ComputeSame(k, s, eager, side, iv, l);
    }
  }

  lemma HostKeeps(k: Kernel, s: State, eager: Mem, goal: Mem)
    requires Inv(k, s, eager, goal) && Enabled(s, Host)
    ensures Inv(k, Apply(k, s, Host), Exec(k, eager, s.todo[0]), goal)
  {
    SafeNow(k, s);
    match s.todo[0]
    case Start(tag, src, dst) => StartKeeps(k, s, eager, goal, tag, src, dst);
    case Wait(tag) => WaitKeeps(k, s, eager, goal, tag);
    case Copy(src, dst) => CopyKeeps(k, s, eager, src, dst);
    case Compute(side, iv) => ComputeKeeps(k, s, eager, side, iv);
  }

  lemma {:induction false} RunKeeps(k: Kernel, s: State, cs: seq<Choice>, s': State, eager: Mem, goal: Mem)
    returns (eager': Mem)
    requires Inv(k, s, eager, goal) && Runs(k, s, cs, s')
    ensures Inv(k, s', eager', goal)
    decreases cs
  {
    if cs == [] {
      return eager;
    }
    var next := if cs[0].Host? then Exec(k, eager, s.todo[0]) else eager;
    if cs[0].Host? {
      HostKeeps(k, s, eager, goal);
    } else {
      MoveKeeps(k, s, eager, goal, cs[0].tag, cs[0].j);
    }
    eager' := RunKeeps(k, Apply(k, s, cs[0]), cs[1..], s', next, goal);
  }

  ghost function Initial(trace: seq<Action>, m: Mem): State { State(trace, m, map[]) }

  lemma InitialInv(k: Kernel, trace: seq<Action>, m: Mem)
    requires RaceFree(k, trace)
    ensures Inv(k, Initial(trace, m), m, ExecAll(k, m, trace))
  {
    var s := Initial(trace, m);
    assert Xfers(s.out) == map[];
    forall l: Loc | forall u, i: nat :: !IsPending(s.out, l, u, i) ensures m[l] == s.mem[l] { }
  }

  // However the engine interleaves with a race-free host, once the host is
  // done no transfer is outstanding and memory is what copying eagerly gives.
  lemma EngineUnobservable(k: Kernel, trace: seq<Action>, m: Mem, cs: seq<Choice>, s': State)
    requires RaceFree(k, trace) && Runs(k, Initial(trace, m), cs, s') && s'.todo == []
    ensures s'.out == map[] && s'.mem == ExecAll(k, m, trace)
  {
    InitialInv(k, trace, m);
    var eager := RunKeeps(k, Initial(trace, m), cs, s', m, ExecAll(k, m, trace));
    assert Xfers(s'.out) == map[];
    assert s'.out.Keys == Xfers(s'.out).Keys;
    forall l: Loc ensures eager[l] == s'.mem[l] {
      assert forall u, i: nat :: !IsPending(s'.out, l, u, i);
    }
    assert eager == s'.mem;
  }

  // ----- every run is finite -----

  // The elements still to move, each under its transfer's tag.
  ghost function Moves(out: map<Tag, Pending>): (r: set<(Tag, nat)>)
    ensures forall g: Tag, j: nat :: (g, j) in r <==> g in out && j in out[g].left
  {
    set g, j | g in out && j in out[g].left :: (g, j)
  }

  ghost function HostWork(todo: seq<Action>): nat {
    if todo == [] then 0 else 1 + (if todo[0].Start? then |todo[0].dst| else 0) + HostWork(todo[1..])
  }

  // Actions to take, and elements to move now or by transfers yet to start.
  ghost function Work(s: State): nat { HostWork(s.todo) + |Moves(s.out)| }

  ghost function MovesOf(tag: Tag, n: nat): (r: set<(Tag, nat)>)
    ensures forall g: Tag, j: nat :: (g, j) in r <==> g == tag && j < n
    ensures |r| == n
  {
    if n == 0 then {} else MovesOf(tag, n - 1) + {(tag, n - 1)}
  }

  lemma StartAddsMoves(out: map<Tag, Pending>, tag: Tag, x: Transfer)
    requires Settles(out, tag)
    ensures |Moves(out[tag := Pending(x, Indices(|x.dst|))])| == |Moves(out)| + |x.dst|
  {
    hide *;
    var out' := out[tag := Pending(x, Indices(|x.dst|))];
    MovesOfStart(out, out', tag, x);
    SamePairs(Moves(out'), Moves(out) + MovesOf(tag, |x.dst|));
    NoPairShared(Moves(out), MovesOf(tag, |x.dst|));
  }

  lemma MovesOfStart(out: map<Tag, Pending>, out': map<Tag, Pending>, tag: Tag, x: Transfer)
    requires Settles(out, tag) && out' == out[tag := Pending(x, Indices(|x.dst|))]
    ensures forall g: Tag, j: nat :: (g, j) in Moves(out') <==> (g, j) in Moves(out) || (g, j) in MovesOf(tag, |x.dst|)
    ensures forall g: Tag, j: nat :: (g, j) in Moves(out) ==> (g, j) !in MovesOf(tag, |x.dst|)
  {
  }

  lemma NoPairShared(a: set<(Tag, nat)>, b: set<(Tag, nat)>)
    requires forall g: Tag, j: nat :: (g, j) in a ==> (g, j) !in b
    ensures |a + b| == |a| + |b|
  {
    forall e | e in a ensures e !in b { assert e == (e.0, e.1); }
    assert a !! b;
  }

  lemma SamePairs(a: set<(Tag, nat)>, b: set<(Tag, nat)>)
    requires forall g: Tag, j: nat :: (g, j) in a <==> (g, j) in b
    ensures a == b
  {
    forall e: (Tag, nat) ensures e in a <==> e in b { assert e == (e.0, e.1); }
  }

  lemma StepLowersWork(k: Kernel, s: State, c: Choice)
    requires Enabled(s, c)
    ensures Work(Apply(k, s, c)) == Work(s) - 1
  {
    var s' := Apply(k, s, c);
    if c.Move? {
      assert Moves(s'.out) == Moves(s.out) - {(c.tag, c.j)};
    } else if s.todo[0].Start? {
      StartAddsMoves(s.out, s.todo[0].tag, Transfer(s.todo[0].src, s.todo[0].dst));
    } else {
      assert Moves(s'.out) == Moves(s.out);
    }
  }

  // Each step of host or engine takes one unit of work, so a run has at most Work(s) steps.
  lemma {:induction false} RunsAreBounded(k: Kernel, s: State, cs: seq<Choice>, s': State)
    requires Runs(k, s, cs, s')
    ensures |cs| + Work(s') == Work(s)
    decreases cs
  {
    hide Work, Apply, Enabled;
    if cs != [] {
      StepLowersWork(k, s, cs[0]);
      RunsAreBounded(k, Apply(k, s, cs[0]), cs[1..], s');
    }
  }

  // A race-free host is never stuck: it can step, or a transfer it waits for
  // still has elements to move.
  lemma NeverStuck(k: Kernel, trace: seq<Action>, m: Mem, cs: seq<Choice>, s': State)
    requires RaceFree(k, trace) && Runs(k, Initial(trace, m), cs, s') && s'.todo != []
    ensures exists c :: Enabled(s', c)
  {
    InitialInv(k, trace, m);
    var eager := RunKeeps(k, Initial(trace, m), cs, s', m, ExecAll(k, m, trace));
    SafeNow(k, s');
    match s'.todo[0]
    case Wait(tag) =>
      assert tag in s'.out;
      if s'.out[tag].left != {} {
        var j :| j in s'.out[tag].left;
        assert Enabled(s', Move(tag, j));
      } else {
        assert Enabled(s', Host);
      }
    case _ => assert Enabled(s', Host);
  }

  // A run of a race-free host that has stopped has done everything; and it has
  // to stop, since no run is longer than the work there is.
  lemma EveryRunCompletes(k: Kernel, trace: seq<Action>, m: Mem, cs: seq<Choice>, s': State)
    requires RaceFree(k, trace) && Runs(k, Initial(trace, m), cs, s')
    ensures |cs| <= Work(Initial(trace, m))
    ensures (forall c :: !Enabled(s', c)) <==> s'.todo == []
    ensures (forall c :: !Enabled(s', c)) ==> s'.out == map[] && s'.mem == ExecAll(k, m, trace)
  {
    hide Enabled, RaceFree, Work;
    RunsAreBounded(k, Initial(trace, m), cs, s');
    if s'.todo == [] {
      EngineUnobservable(k, trace, m, cs, s');
      NothingLeft(s');
    } else {
      NeverStuck(k, trace, m, cs, s');
    }
  }

  lemma NothingLeft(s: State)
    requires s.todo == [] && s.out == map[]
    ensures forall c :: !Enabled(s, c)
  {
  }

  // ----- a run in which the engine is quick -----

  lemma {:induction false} RunsAppend(k: Kernel, s: State, cs: seq<Choice>, mid: State, cs': seq<Choice>, end: State)
    requires Runs(k, s, cs, mid) && Runs(k, mid, cs', end)
    ensures Runs(k, s, cs + cs', end)
    decreases cs
  {
    hide Enabled, Apply;
    if cs == [] {
      assert cs + cs' == cs';
    } else {
      assert (cs + cs')[0] == cs[0] && (cs + cs')[1..] == cs[1..] + cs';
      RunsAppend(k, Apply(k, s, cs[0]), cs[1..], mid, cs', end);
    }
  }

  lemma OneStep(k: Kernel, s: State, c: Choice)
    requires Enabled(s, c)
    ensures Runs(k, s, [c], Apply(k, s, c))
  {
    assert Runs(k, Apply(k, s, c), [c][1..], Apply(k, s, c));
  }

  // The transfer under a tag has moved its first n elements, one after the other.
  ghost predicate Moved(s: State, s': State, tag: Tag, x: Transfer, n: nat)
    requires n <= |x.src| == |x.dst|
  {
    && s'.todo == s.todo && s'.out.Keys == s.out.Keys + {tag}
    && (forall g :: g in s.out && g != tag ==> s'.out[g] == s.out[g])
    && s'.out[tag].xfer == x && (forall j: nat :: j in s'.out[tag].left <==> n <= j < |x.dst|)
    && s'.mem == Copied(s.mem, x.src, x.dst, n)
  }

  lemma MoveNext(k: Kernel, s: State, s': State, tag: Tag, x: Transfer, n: nat)
    requires n < |x.src| == |x.dst| && Moved(s, s', tag, x, n)
    ensures Enabled(s', Move(tag, n)) && Moved(s, Apply(k, s', Move(tag, n)), tag, x, n + 1)
  {
  }

  lemma {:induction false} MoveAll(k: Kernel, s: State, s': State, tag: Tag, x: Transfer, n: nat)
    returns (cs: seq<Choice>, end: State)
    requires n <= |x.src| == |x.dst| && Moved(s, s', tag, x, n)
    ensures Runs(k, s', cs, end) && Moved(s, end, tag, x, |x.dst|)
    decreases |x.dst| - n
  {
    hide Moved, Enabled, Apply;
    if n == |x.dst| {
      cs, end := [], s';
    } else {
      MoveNext(k, s, s', tag, x, n);
      OneStep(k, s', Move(tag, n));
      var s1 := Apply(k, s', Move(tag, n));
      cs, end := MoveAll(k, s, s1, tag, x, n + 1);
      RunsAppend(k, s', [Move(tag, n)], s1, cs, end);
      cs := [Move(tag, n)] + cs;
    }
  }

  ghost predicate AllSettled(s: State) { forall g :: g in s.out ==> s.out[g].left == {} }

  ghost predicate EvenStarts(todo: seq<Action>) {
    forall i :: 0 <= i < |todo| && todo[i].Start? ==> |todo[i].src| == |todo[i].dst|
  }

  lemma QuickStart(k: Kernel, s: State) returns (cs: seq<Choice>, end: State)
    requires AllSettled(s) && s.todo != [] && s.todo[0].Start? && |s.todo[0].src| == |s.todo[0].dst|
    ensures Runs(k, s, cs, end) && AllSettled(end) && end.todo == s.todo[1..] && end.mem == Exec(k, s.mem, s.todo[0])
  {
    var x := Transfer(s.todo[0].src, s.todo[0].dst);
    var s0 := s.(todo := s.todo[1..]);
    assert Enabled(s, Host);
    OneStep(k, s, Host);
    cs, end := MoveAll(k, s0, Apply(k, s, Host), s.todo[0].tag, x, 0);
    RunsAppend(k, s, [Host], Apply(k, s, Host), cs, end);
    cs := [Host] + cs;
  }

  lemma QuickStep(k: Kernel, s: State) returns (cs: seq<Choice>, end: State)
    requires AllSettled(s) && s.todo != [] && (s.todo[0].Start? ==> |s.todo[0].src| == |s.todo[0].dst|)
    ensures Runs(k, s, cs, end) && AllSettled(end) && end.todo == s.todo[1..] && end.mem == Exec(k, s.mem, s.todo[0])
  {
    if s.todo[0].Start? {
      cs, end := QuickStart(k, s);
    } else {
      assert Enabled(s, Host);
      OneStep(k, s, Host);
      cs, end := [Host], Apply(k, s, Host);
    }
  }

  // Moving everything as soon as it is started, and returning from every wait, the host
  // gets to its end and leaves what copying at once leaves - race-free or not.
  lemma {:induction false} QuickRun(k: Kernel, s: State) returns (cs: seq<Choice>, end: State)
    requires AllSettled(s) && EvenStarts(s.todo)
    ensures Runs(k, s, cs, end) && end.todo == [] && end.mem == ExecAll(k, s.mem, s.todo)
    decreases |s.todo|
  {
    hide Exec;
    if s.todo == [] {
      cs, end := [], s;
    } else {
      var first, mid := QuickStep(k, s);
      cs, end := QuickRun(k, mid);
      RunsAppend(k, s, first, mid, cs, end);
      cs := first + cs;
    }
  }

  // ----- what a wait cannot change -----

  // No action before the last n writes l, and no transfer outstanding does.
  ghost predicate Spared(k: Kernel, s: State, n: nat, l: Loc) {
    && (forall i :: 0 <= i < |s.todo| - n ==> Spares(k, s.todo[i], l))
    && forall g :: g in s.out ==> l !in s.out[g].xfer.dst
  }

  ghost predicate Spares(k: Kernel, a: Action, l: Loc) {
    match a
    case Copy(_, dst) => l !in dst
    case Start(_, _, dst) => l !in dst
    case Wait(_) => true
    case Compute(side, _) => !k.Owns(side, l)
  }

  lemma SparedStep(k: Kernel, s: State, c: Choice, n: nat, l: Loc)
    requires Spared(k, s, n, l) && Enabled(s, c) && (c.Host? ==> |s.todo| > n)
    ensures Spared(k, Apply(k, s, c), n, l) && Apply(k, s, c).mem[l] == s.mem[l]
  {
    var s' := Apply(k, s, c);
    if c.Host? {
      assert forall i :: 0 <= i < |s'.todo| ==> s'.todo[i] == s.todo[i + 1];
      assert Spares(k, s.todo[0], l);
      if s.todo[0].Copy? && |s.todo[0].src| == |s.todo[0].dst| {
        CopiedElsewhere(s.mem, s.todo[0].src, s.todo[0].dst, |s.todo[0].src|, l);
      }
    } else {
      assert s.out[c.tag].xfer.dst[c.j] != l;
    }
  }

  lemma TodoShrinks(k: Kernel, s: State, cs: seq<Choice>, s': State)
    requires Runs(k, s, cs, s')
    ensures |s'.todo| <= |s.todo|
    decreases cs
  {
    if cs != [] { TodoShrinks(k, Apply(k, s, cs[0]), cs[1..], s'); }
  }

  // A run that has not gone past its last n actions has left alone what those before spare.
  lemma {:induction false} SparedStays(k: Kernel, s: State, cs: seq<Choice>, s': State, n: nat, l: Loc)
    requires Runs(k, s, cs, s') && Spared(k, s, n, l) && |s'.todo| >= n
    ensures s'.mem[l] == s.mem[l]
    decreases cs
  {
    hide Spared;
    if cs != [] {
      TodoShrinks(k, Apply(k, s, cs[0]), cs[1..], s');
      SparedStep(k, s, cs[0], n, l);
      SparedStays(k, Apply(k, s, cs[0]), cs[1..], s', n, l);
    }
  }
}
