// AsyncRuntime.cpp as atomic steps: tokens, groups, their awaiters and their
// reference counts.  A step is what one thread does under one lock; setting a
// token's state is several, with the token's mutex held from SetState to
// Unlock and one step for each awaiter run in between.
module AsyncRuntime {

  datatype TokenState = Unavailable | Available | Failed

  // Progress of setTokenState: awaiter `next` is up; `dropping` says that its
  // group has been told and the reference to it is still to be dropped.
  datatype Setter = Idle | Running(next: nat, dropping: bool) | Unlocked | Finished

  // A token's awaiter: a group registration, or a coroutine to resume.
  datatype Awaiter = OnGroup(reg: nat) | Resume(coro: nat)

  // refs is the object's count; owned are the references callers hold.
  datatype Token = Token(state: TokenState, awaiters: seq<Awaiter>, setter: Setter, refs: int, owned: nat)
  datatype Group = Group(size: nat, pending: int, errors: int, rank: nat, awaiters: seq<nat>, refs: int, owned: nat)

  // One token added to one group; `index` is its place among the awaiters.
  datatype Phase = Waiting | Counted | Done
  datatype Reg = Reg(token: nat, index: nat, group: nat, phase: Phase)

  // Where a coroutine is registered, or what it found ready.
  datatype Place = AtToken(t: nat, i: nat) | AtGroup(g: nat, k: nat) | OnceToken(t: nat) | OnceGroup(g: nat)

  // runs[c] counts how often coroutine c was resumed, places[c] is where it
  // was registered; live is numRefCountedObjects.
  datatype State = State(tokens: seq<Token>, groups: seq<Group>, regs: seq<Reg>, runs: seq<nat>, places: seq<Place>,
    live: int)

  datatype Step =
    | CreateToken
    | CreateGroup(size: nat)
    | TokenRef(t: nat, n: int)
    | GroupRef(g: nat, n: int)
    | AddToken(t: nat, g: nat)
    | SetState(t: nat, state: TokenState)
    | RunAwaiter(t: nat)
    | DropGroupRef(t: nat)
    | Unlock(t: nat)
    | DropSelf(t: nat)
    | AwaitToken(t: nat)
    | AwaitGroup(g: nat)

  ghost function Init(): State { State([], [], [], [], [], 0) }

  // ----- the steps -----

  ghost predicate Ready(t: Token) { !t.state.Unavailable? }

  ghost predicate LockFree(t: Token) { !t.setter.Running? }

  ghost predicate TokenAlive(t: Token) { t.refs > 0 }

  ghost predicate GroupAlive(g: Group) { g.refs > 0 }

  // Callers use objects they hold a reference to, drop what they hold, set a
  // state once, and add no more tokens to a group than its size.
  ghost predicate Enabled(s: State, x: Step) {
    match x
    case CreateToken => true
    case CreateGroup(_) => true
    case TokenRef(t, n) => t < |s.tokens| && s.tokens[t].owned > 0 && s.tokens[t].owned + n >= 0
    case GroupRef(g, n) => g < |s.groups| && s.groups[g].owned > 0 && s.groups[g].owned + n >= 0
    case AddToken(t, g) =>
      && t < |s.tokens| && s.tokens[t].owned > 0 && LockFree(s.tokens[t])
      && g < |s.groups| && s.groups[g].owned > 0 && s.groups[g].rank < s.groups[g].size
    case SetState(t, state) => t < |s.tokens| && s.tokens[t].setter.Idle? && !state.Unavailable?
    case RunAwaiter(t) =>
      t < |s.tokens| && s.tokens[t].setter.Running? && !s.tokens[t].setter.dropping
        && s.tokens[t].setter.next < |s.tokens[t].awaiters|
    case DropGroupRef(t) => t < |s.tokens| && s.tokens[t].setter.Running? && s.tokens[t].setter.dropping
    case Unlock(t) =>
      t < |s.tokens| && s.tokens[t].setter.Running? && !s.tokens[t].setter.dropping
        && s.tokens[t].setter.next == |s.tokens[t].awaiters|
    case DropSelf(t) => t < |s.tokens| && s.tokens[t].setter.Unlocked?
    case AwaitToken(t) => t < |s.tokens| && s.tokens[t].owned > 0 && LockFree(s.tokens[t])
    case AwaitGroup(g) => g < |s.groups| && s.groups[g].owned > 0
  }

  // Resume every coroutine of a list.
  ghost function Bump(runs: seq<nat>, cs: seq<nat>): (r: seq<nat>)
    ensures |r| == |runs|
  {
    seq(|runs|, c requires 0 <= c < |runs| => runs[c] + if c in cs then 1 else 0)
  }

  // onTokenReady: count the token, and run the awaiters if it was the last.
  ghost function TokenReady(s: State, g: nat, error: bool): State
    requires g < |s.groups|
  {
    var x := s.groups[g];
    var x' := x.(errors := x.errors + if error then 1 else 0, pending := x.pending - 1);
    s.(groups := s.groups[g := x'], runs := if x.pending == 1 then Bump(s.runs, x.awaiters) else s.runs)
  }

  // dropRef destroys the object when the count falls to zero.
  ghost function Destroyed(before: int, n: int): int {
    if before + n == 0 then 1 else 0
  }

  ghost function Apply(s: State, x: Step): State
    requires Enabled(s, x) && Inv(s)
  {
    match x
    case CreateToken =>
      s.(tokens := s.tokens + [Token(Unavailable, [], Idle, 2, 1)], live := s.live + 1)
    case CreateGroup(size) =>
      s.(groups := s.groups + [Group(size, size, 0, 0, [], 1, 1)], live := s.live + 1)
    case TokenRef(t, n) =>
      var k := s.tokens[t];
      s.(tokens := s.tokens[t := k.(refs := k.refs + n, owned := k.owned + n)], live := s.live - Destroyed(k.refs, n))
    case GroupRef(g, n) =>
      var k := s.groups[g];
      s.(groups := s.groups[g := k.(refs := k.refs + n, owned := k.owned + n)], live := s.live - Destroyed(k.refs, n))
    case AddToken(t, g) =>
      var k, x := s.tokens[t], s.groups[g];
      var ranked := s.(groups := s.groups[g := x.(rank := x.rank + 1)]);
      if Ready(k) then
        TokenReady(ranked, g, k.state.Failed?).(regs := s.regs + [Reg(t, 0, g, Done)])
      else
        s.(groups := s.groups[g := x.(rank := x.rank + 1, refs := x.refs + 1)],
           tokens := s.tokens[t := k.(awaiters := k.awaiters + [OnGroup(|s.regs|)])],
           regs := s.regs + [Reg(t, |k.awaiters|, g, Waiting)])
    case SetState(t, state) =>
      s.(tokens := s.tokens[t := s.tokens[t].(state := state, setter := Running(0, false))])
    case RunAwaiter(t) =>
      var k := s.tokens[t];
      var i := k.setter.next;
      assert AwaiterInv(s, t, i);
      (match k.awaiters[i]
       case Resume(c) =>
         s.(tokens := s.tokens[t := k.(setter := Running(i + 1, false))], runs := s.runs[c := s.runs[c] + 1])
       case OnGroup(r) =>
         TokenReady(s, s.regs[r].group, k.state.Failed?)
           .(tokens := s.tokens[t := k.(setter := Running(i, true))],
             regs := s.regs[r := s.regs[r].(phase := Counted)]))
    case DropGroupRef(t) =>
      var k := s.tokens[t];
      assert AwaiterInv(s, t, k.setter.next);
      var r := k.awaiters[k.setter.next].reg;
      var g := s.regs[r].group;
      var x := s.groups[g];
      s.(groups := s.groups[g := x.(refs := x.refs - 1)], live := s.live - Destroyed(x.refs, -1),
         tokens := s.tokens[t := k.(setter := Running(k.setter.next + 1, false))],
         regs := s.regs[r := s.regs[r].(phase := Done)])
    case Unlock(t) =>
      s.(tokens := s.tokens[t := s.tokens[t].(setter := Unlocked)])
    case DropSelf(t) =>
      var k := s.tokens[t];
      s.(tokens := s.tokens[t := k.(setter := Finished, refs := k.refs - 1)], live := s.live - Destroyed(k.refs, -1))
    case AwaitToken(t) =>
      var k, c := s.tokens[t], |s.runs|;
      if Ready(k) then s.(runs := s.runs + [1], places := s.places + [OnceToken(t)])
      else s.(runs := s.runs + [0], places := s.places + [AtToken(t, |k.awaiters|)],
              tokens := s.tokens[t := k.(awaiters := k.awaiters + [Resume(c)])])
    case AwaitGroup(g) =>
      var x, c := s.groups[g], |s.runs|;
      if x.pending == 0 then s.(runs := s.runs + [1], places := s.places + [OnceGroup(g)])
      else s.(runs := s.runs + [0], places := s.places + [AtGroup(g, |x.awaiters|)],
              groups := s.groups[g := x.(awaiters := x.awaiters + [c])])
  }

  // ----- counting registrations and objects -----

  ghost function Count<T>(xs: seq<T>, p: T -> bool): nat {
    if xs == [] then 0 else Count(xs[..|xs| - 1], p) + if p(xs[|xs| - 1]) then 1 else 0
  }

  lemma {:induction false} CountUpdate<T>(xs: seq<T>, i: nat, x: T, p: T -> bool)
    requires i < |xs|
    ensures Count(xs[i := x], p) == Count(xs, p) - (if p(xs[i]) then 1 else 0) + (if p(x) then 1 else 0)
  {
    var last := |xs| - 1;
    if i == last {
      assert xs[i := x][..last] == xs[..last];
    } else {
      assert xs[i := x][..last] == xs[..last][i := x];
      CountUpdate(xs[..last], i, x, p);
    }
  }

  lemma CountSnoc<T>(xs: seq<T>, x: T, p: T -> bool)
    ensures Count(xs + [x], p) == Count(xs, p) + if p(x) then 1 else 0
  {
    assert (xs + [x])[..|xs|] == xs;
  }

  lemma {:induction false} CountSame<T>(xs: seq<T>, p: T -> bool, q: T -> bool)
    requires forall i :: 0 <= i < |xs| ==> p(xs[i]) == q(xs[i])
    ensures Count(xs, p) == Count(xs, q)
  {
    if xs != [] { CountSame(xs[..|xs| - 1], p, q); }
  }

  lemma {:induction false} CountSome<T>(xs: seq<T>, p: T -> bool)
    ensures Count(xs, p) > 0 <==> exists i :: 0 <= i < |xs| && p(xs[i])
  {
    if xs != [] {
      CountSome(xs[..|xs| - 1], p);
      if Count(xs[..|xs| - 1], p) > 0 {
        var i :| 0 <= i < |xs| - 1 && p(xs[..|xs| - 1][i]);
        assert p(xs[i]);
      }
    }
  }

  lemma {:induction false} CountLess<T>(xs: seq<T>, p: T -> bool, q: T -> bool)
    requires forall i :: 0 <= i < |xs| && p(xs[i]) ==> q(xs[i])
    ensures Count(xs, p) <= Count(xs, q)
  {
    if xs != [] { CountLess(xs[..|xs| - 1], p, q); }
  }

  ghost function Added(g: nat): Reg -> bool { (r: Reg) => r.group == g }
  ghost function CountedIn(g: nat): Reg -> bool { (r: Reg) => r.group == g && r.phase != Waiting }
  ghost function Holding(g: nat): Reg -> bool { (r: Reg) => r.group == g && r.phase != Done }
  ghost function FailedIn(g: nat, tokens: seq<Token>): Reg -> bool {
    (r: Reg) => r.group == g && r.phase != Waiting && r.token < |tokens| && tokens[r.token].state == Failed
  }
  ghost function LiveToken(): Token -> bool { (k: Token) => TokenAlive(k) }
  ghost function LiveGroup(): Group -> bool { (x: Group) => GroupAlive(x) }

  // ----- the invariant -----

  ghost function PhaseAt(x: Setter, i: nat): Phase {
    match x
    case Idle => Waiting
    case Running(next, dropping) => if i < next then Done else if i == next && dropping then Counted else Waiting
    case _ => Done
  }

  // The count is the callers' references plus the producer's, which lasts
  // until the state is set and every awaiter has run.
  ghost predicate TokenCounts(k: Token) {
    && k.refs == k.owned + (if k.setter.Finished? then 0 else 1)
    && (k.setter.Idle? <==> k.state.Unavailable?)
    && (k.setter.Running? ==> k.setter.next <= |k.awaiters|)
    && (k.setter.Running? && k.setter.dropping ==> k.setter.next < |k.awaiters| && k.awaiters[k.setter.next].OnGroup?)
  }

  ghost predicate AwaiterInv(s: State, t: nat, i: nat)
    requires t < |s.tokens| && i < |s.tokens[t].awaiters| && |s.places| == |s.runs|
  {
    match s.tokens[t].awaiters[i]
    case OnGroup(r) =>
      && r < |s.regs| && s.regs[r].token == t && s.regs[r].index == i && s.regs[r].group < |s.groups|
      && s.regs[r].phase == PhaseAt(s.tokens[t].setter, i)
    case Resume(c) =>
      && c < |s.runs| && s.places[c] == AtToken(t, i)
      && s.runs[c] == if PhaseAt(s.tokens[t].setter, i) == Done then 1 else 0
  }

  // The count is the callers' references plus one for every registration
  // whose awaiter has not finished; each added token is counted once.
  ghost predicate GroupCounts(x: Group, g: nat, regs: seq<Reg>, tokens: seq<Token>) {
    && x.refs == x.owned + Count(regs, Holding(g))
    && x.rank == Count(regs, Added(g)) <= x.size
    && x.pending == x.size - Count(regs, CountedIn(g))
    && x.errors == Count(regs, FailedIn(g, tokens))
  }

  ghost predicate GroupAwaiterInv(s: State, g: nat, k: nat)
    requires g < |s.groups| && k < |s.groups[g].awaiters| && |s.places| == |s.runs|
  {
    var c := s.groups[g].awaiters[k];
    c < |s.runs| && s.places[c] == AtGroup(g, k) && s.runs[c] == if s.groups[g].pending == 0 then 1 else 0
  }

  ghost predicate RegInv(s: State, r: nat)
    requires r < |s.regs|
  {
    var x := s.regs[r];
    && x.token < |s.tokens| && x.group < |s.groups|
    && (x.phase != Waiting ==> Ready(s.tokens[x.token]))
    && (x.phase != Done ==> x.index < |s.tokens[x.token].awaiters| && s.tokens[x.token].awaiters[x.index] == OnGroup(r))
  }

  ghost predicate PlaceInv(s: State, c: nat)
    requires c < |s.places| == |s.runs|
  {
    match s.places[c]
    case AtToken(t, i) => t < |s.tokens| && i < |s.tokens[t].awaiters| && s.tokens[t].awaiters[i] == Resume(c)
    case AtGroup(g, k) => g < |s.groups| && k < |s.groups[g].awaiters| && s.groups[g].awaiters[k] == c
    case OnceToken(t) => t < |s.tokens| && Ready(s.tokens[t]) && s.runs[c] == 1
    case OnceGroup(g) => g < |s.groups| && s.groups[g].pending == 0 && s.runs[c] == 1
  }

  ghost predicate Inv(s: State) {
    && |s.places| == |s.runs|
    && (forall t :: 0 <= t < |s.tokens| ==> TokenCounts(s.tokens[t]))
    && (forall t, i :: 0 <= t < |s.tokens| && 0 <= i < |s.tokens[t].awaiters| ==> AwaiterInv(s, t, i))
    && (forall g :: 0 <= g < |s.groups| ==> GroupCounts(s.groups[g], g, s.regs, s.tokens))
    && (forall g, k :: 0 <= g < |s.groups| && 0 <= k < |s.groups[g].awaiters| ==> GroupAwaiterInv(s, g, k))
    && (forall r :: 0 <= r < |s.regs| ==> RegInv(s, r))
    && (forall c :: 0 <= c < |s.runs| ==> PlaceInv(s, c))
    && s.live == Count(s.tokens, LiveToken()) + Count(s.groups, LiveGroup())
  }

  // ----- every step keeps it -----

  lemma InitInv()
    ensures Inv(Init())
  {
  }

  lemma CreateTokenKeeps(s: State)
    requires Inv(s)
    ensures Inv(Apply(s, CreateToken))
  {
    hide Count;
    var s' := Apply(s, CreateToken);
    CountSnoc(s.tokens, s'.tokens[|s.tokens|], LiveToken());
    forall t, i | 0 <= t < |s'.tokens| && 0 <= i < |s'.tokens[t].awaiters| ensures AwaiterInv(s', t, i) {
      assert AwaiterInv(s, t, i);
    }
    forall g | 0 <= g < |s.groups| ensures GroupCounts(s'.groups[g], g, s'.regs, s'.tokens) {
      assert GroupCounts(s.groups[g], g, s.regs, s.tokens);
      forall r | 0 <= r < |s.regs| ensures FailedIn(g, s.tokens)(s.regs[r]) == FailedIn(g, s'.tokens)(s.regs[r]) {
        assert RegInv(s, r);
      }
      CountSame(s.regs, FailedIn(g, s.tokens), FailedIn(g, s'.tokens));
    }
    forall g, k | 0 <= g < |s'.groups| && 0 <= k < |s'.groups[g].awaiters| ensures GroupAwaiterInv(s', g, k) {
      assert GroupAwaiterInv(s, g, k);
    }
    forall r | 0 <= r < |s'.regs| ensures RegInv(s', r) { assert RegInv(s, r); }
    forall c | 0 <= c < |s'.runs| ensures PlaceInv(s', c) { assert PlaceInv(s, c); }
  }

  lemma CreateGroupKeeps(s: State, size: nat)
    requires Inv(s)
    ensures Inv(Apply(s, CreateGroup(size)))
  {
    hide Count;
    var s' := Apply(s, CreateGroup(size));
    var n := |s.groups|;
    CountSnoc(s.groups, s'.groups[n], LiveGroup());
    forall t, i | 0 <= t < |s'.tokens| && 0 <= i < |s'.tokens[t].awaiters| ensures AwaiterInv(s', t, i) {
      assert AwaiterInv(s, t, i);
    }
    forall g | 0 <= g < |s'.groups| ensures GroupCounts(s'.groups[g], g, s'.regs, s'.tokens) {
      if g == n {
        NoRegs(s, n);
      } else {
        assert GroupCounts(s.groups[g], g, s.regs, s.tokens);
      }
    }
    forall g, k | 0 <= g < |s'.groups| && 0 <= k < |s'.groups[g].awaiters| ensures GroupAwaiterInv(s', g, k) {
      assert GroupAwaiterInv(s, g, k);
    }
    forall r | 0 <= r < |s'.regs| ensures RegInv(s', r) { assert RegInv(s, r); }
    forall c | 0 <= c < |s'.runs| ensures PlaceInv(s', c) { assert PlaceInv(s, c); }
  }

  // A group that does not exist yet has no registrations.
  lemma NoRegs(s: State, g: nat)
    requires Inv(s) && g == |s.groups|
    ensures Count(s.regs, Added(g)) == Count(s.regs, CountedIn(g)) == Count(s.regs, Holding(g)) == 0
    ensures Count(s.regs, FailedIn(g, s.tokens)) == 0
  {
    forall r | 0 <= r < |s.regs| ensures s.regs[r].group != g {
      assert RegInv(s, r);
    }
    CountSome(s.regs, Added(g));
    CountSome(s.regs, CountedIn(g));
    CountSome(s.regs, Holding(g));
    CountSome(s.regs, FailedIn(g, s.tokens));
  }

  // Changing a token's counts or setter, but not its state or awaiters.
  lemma TokenRefKeeps(s: State, t: nat, n: int)
    requires Inv(s) && Enabled(s, TokenRef(t, n))
    ensures Inv(Apply(s, TokenRef(t, n)))
  {
    hide Count;
    var s' := Apply(s, TokenRef(t, n));
    CountUpdate(s.tokens, t, s'.tokens[t], LiveToken());
    SameTokens(s, s');
  }

  // The parts of the invariant that do not look at counts of tokens.
  lemma SameTokens(s: State, s': State)
    requires Inv(s) && s' == s.(tokens := s'.tokens, live := s'.live) && |s'.tokens| == |s.tokens|
    requires forall t :: 0 <= t < |s.tokens| ==>
      s'.tokens[t].state == s.tokens[t].state && s'.tokens[t].awaiters == s.tokens[t].awaiters
      && forall i :: 0 <= i < |s.tokens[t].awaiters| ==>
        PhaseAt(s'.tokens[t].setter, i) == PhaseAt(s.tokens[t].setter, i)
    ensures forall t, i :: 0 <= t < |s'.tokens| && 0 <= i < |s'.tokens[t].awaiters| ==> AwaiterInv(s', t, i)
    ensures forall g :: 0 <= g < |s'.groups| ==> GroupCounts(s'.groups[g], g, s'.regs, s'.tokens)
    ensures forall g, k :: 0 <= g < |s'.groups| && 0 <= k < |s'.groups[g].awaiters| ==> GroupAwaiterInv(s', g, k)
    ensures forall r :: 0 <= r < |s'.regs| ==> RegInv(s', r)
    ensures forall c :: 0 <= c < |s'.runs| ==> PlaceInv(s', c)
  {
    hide Count;
    forall t, i | 0 <= t < |s'.tokens| && 0 <= i < |s'.tokens[t].awaiters| ensures AwaiterInv(s', t, i) {
      assert AwaiterInv(s, t, i);
    }
    forall g | 0 <= g < |s'.groups| ensures GroupCounts(s'.groups[g], g, s'.regs, s'.tokens) {
      assert GroupCounts(s.groups[g], g, s.regs, s.tokens);
      CountSame(s.regs, FailedIn(g, s.tokens), FailedIn(g, s'.tokens));
    }
    forall g, k | 0 <= g < |s'.groups| && 0 <= k < |s'.groups[g].awaiters| ensures GroupAwaiterInv(s', g, k) {
      assert GroupAwaiterInv(s, g, k);
    }
    forall r | 0 <= r < |s'.regs| ensures RegInv(s', r) { assert RegInv(s, r); }
    forall c | 0 <= c < |s'.runs| ensures PlaceInv(s', c) { assert PlaceInv(s, c); }
  }

  lemma GroupRefKeeps(s: State, g: nat, n: int)
    requires Inv(s) && Enabled(s, GroupRef(g, n))
    ensures Inv(Apply(s, GroupRef(g, n)))
  {
    hide Count;
    var s' := Apply(s, GroupRef(g, n));
    CountUpdate(s.groups, g, s'.groups[g], LiveGroup());
    forall t, i | 0 <= t < |s'.tokens| && 0 <= i < |s'.tokens[t].awaiters| ensures AwaiterInv(s', t, i) {
      assert AwaiterInv(s, t, i);
    }
    forall h | 0 <= h < |s'.groups| ensures GroupCounts(s'.groups[h], h, s'.regs, s'.tokens) {
      assert GroupCounts(s.groups[h], h, s.regs, s.tokens);
    }
    forall h, k | 0 <= h < |s'.groups| && 0 <= k < |s'.groups[h].awaiters| ensures GroupAwaiterInv(s', h, k) {
      assert GroupAwaiterInv(s, h, k);
    }
    forall r | 0 <= r < |s'.regs| ensures RegInv(s', r) { assert RegInv(s, r); }
    forall c | 0 <= c < |s'.runs| ensures PlaceInv(s', c) { assert PlaceInv(s, c); }
  }

  lemma SetterMoves(s: State, x: Step)
    requires Inv(s) && Enabled(s, x) && (x.Unlock? || x.DropSelf?)
    ensures Inv(Apply(s, x))
  {
    hide Count;
    var s' := Apply(s, x);
    CountUpdate(s.tokens, x.t, s'.tokens[x.t], LiveToken());
    SameTokens(s, s');
  }

  lemma SetStateKeeps(s: State, t: nat, state: TokenState)
    requires Inv(s) && Enabled(s, SetState(t, state))
    ensures Inv(Apply(s, SetState(t, state)))
  {
    hide Count;
    var s' := Apply(s, SetState(t, state));
    CountUpdate(s.tokens, t, s'.tokens[t], LiveToken());
    forall u, i | 0 <= u < |s'.tokens| && 0 <= i < |s'.tokens[u].awaiters| ensures AwaiterInv(s', u, i) {
      assert AwaiterInv(s, u, i);
    }
    forall g | 0 <= g < |s'.groups| ensures GroupCounts(s'.groups[g], g, s'.regs, s'.tokens) {
      assert GroupCounts(s.groups[g], g, s.regs, s.tokens);
      forall r | 0 <= r < |s.regs| ensures FailedIn(g, s.tokens)(s.regs[r]) == FailedIn(g, s'.tokens)(s.regs[r]) {
        assert RegInv(s, r);
      }
      CountSame(s.regs, FailedIn(g, s.tokens), FailedIn(g, s'.tokens));
    }
    forall g, k | 0 <= g < |s'.groups| && 0 <= k < |s'.groups[g].awaiters| ensures GroupAwaiterInv(s', g, k) {
      assert GroupAwaiterInv(s, g, k);
    }
    forall r | 0 <= r < |s'.regs| ensures RegInv(s', r) { assert RegInv(s, r); }
    forall c | 0 <= c < |s'.runs| ensures PlaceInv(s', c) { assert PlaceInv(s, c); }
  }

  lemma ResumeKeeps(s: State, t: nat)
    requires Inv(s) && Enabled(s, RunAwaiter(t)) && s.tokens[t].awaiters[s.tokens[t].setter.next].Resume?
    ensures Inv(Apply(s, RunAwaiter(t)))
  {
    hide Count;
    var s' := Apply(s, RunAwaiter(t));
    var n := s.tokens[t].setter.next;
    assert AwaiterInv(s, t, n);
    CountUpdate(s.tokens, t, s'.tokens[t], LiveToken());
    forall u, i | 0 <= u < |s'.tokens| && 0 <= i < |s'.tokens[u].awaiters| ensures AwaiterInv(s', u, i) {
      assert AwaiterInv(s, u, i);
    }
    forall g | 0 <= g < |s'.groups| ensures GroupCounts(s'.groups[g], g, s'.regs, s'.tokens) {
      assert GroupCounts(s.groups[g], g, s.regs, s.tokens);
      CountSame(s.regs, FailedIn(g, s.tokens), FailedIn(g, s'.tokens));
    }
    forall g, k | 0 <= g < |s'.groups| && 0 <= k < |s'.groups[g].awaiters| ensures GroupAwaiterInv(s', g, k) {
      assert GroupAwaiterInv(s, g, k);
    }
    forall r | 0 <= r < |s'.regs| ensures RegInv(s', r) { assert RegInv(s, r); }
    forall c | 0 <= c < |s'.runs| ensures PlaceInv(s', c) { assert PlaceInv(s, c); }
  }

  // A token not yet counted keeps its group's count of pending tokens above
  // zero: the runtime's own assertion holds.
  lemma StillPending(s: State, r: nat)
    requires Inv(s) && r < |s.regs| && s.regs[r].phase == Waiting
    ensures s.regs[r].group < |s.groups| && s.groups[s.regs[r].group].pending > 0
  {
    assert RegInv(s, r);
    var g := s.regs[r].group;
    var regs := s.regs[r := s.regs[r].(phase := Counted)];
    assert GroupCounts(s.groups[g], g, s.regs, s.tokens);
    CountUpdate(s.regs, r, regs[r], CountedIn(g));
    CountUpdate(s.regs, r, regs[r], Added(g));
    CountLess(regs, CountedIn(g), Added(g));
  }

  // The same assertion when a token is added that is ready already: what a group has room
  // for, it still waits for.
  lemma PendingBeforeAdd(s: State, t: nat, g: nat)
    requires Inv(s) && Enabled(s, AddToken(t, g))
    ensures s.groups[g].pending >= s.groups[g].size - s.groups[g].rank > 0
  {
    assert GroupCounts(s.groups[g], g, s.regs, s.tokens);
    CountLess(s.regs, CountedIn(g), Added(g));
  }

  lemma OnGroupKeeps(s: State, t: nat)
    requires Inv(s) && Enabled(s, RunAwaiter(t)) && s.tokens[t].awaiters[s.tokens[t].setter.next].OnGroup?
    ensures Inv(Apply(s, RunAwaiter(t)))
  {
    hide Count;
    var s' := Apply(s, RunAwaiter(t));
    var n := s.tokens[t].setter.next;
    var r := s.tokens[t].awaiters[n].reg;
    assert AwaiterInv(s, t, n) && RegInv(s, r);
    StillPending(s, r);
    CountUpdate(s.tokens, t, s'.tokens[t], LiveToken());
    CountUpdate(s.groups, s.regs[r].group, s'.groups[s.regs[r].group], LiveGroup());
    forall u, i | 0 <= u < |s'.tokens| && 0 <= i < |s'.tokens[u].awaiters| ensures AwaiterInv(s', u, i) {
      assert AwaiterInv(s, u, i);
      if s.tokens[u].awaiters[i].Resume? { NotInGroup(s, u, i, s.regs[r].group); }
    }
    forall h | 0 <= h < |s'.groups| ensures GroupCounts(s'.groups[h], h, s'.regs, s'.tokens) {
      assert GroupCounts(s.groups[h], h, s.regs, s.tokens);
      CountUpdate(s.regs, r, s'.regs[r], Holding(h));
      CountUpdate(s.regs, r, s'.regs[r], Added(h));
      CountUpdate(s.regs, r, s'.regs[r], CountedIn(h));
      CountUpdate(s.regs, r, s'.regs[r], FailedIn(h, s.tokens));
      CountSame(s'.regs, FailedIn(h, s.tokens), FailedIn(h, s'.tokens));
    }
    GroupAwaitersBumped(s, s', s.regs[r].group);
    forall q | 0 <= q < |s'.regs| ensures RegInv(s', q) { assert RegInv(s, q); }
    forall c | 0 <= c < |s'.runs| ensures PlaceInv(s', c) {
      assert PlaceInv(s, c);
      if Once(s.places[c]) { OnceNotInGroup(s, c, s.regs[r].group); }
    }
  }

  lemma NotInGroup(s: State, t: nat, i: nat, g: nat)
    requires Inv(s) && t < |s.tokens| && i < |s.tokens[t].awaiters| && s.tokens[t].awaiters[i].Resume? && g < |s.groups|
    ensures s.tokens[t].awaiters[i].coro !in s.groups[g].awaiters
  {
    assert AwaiterInv(s, t, i);
    forall k | 0 <= k < |s.groups[g].awaiters| ensures s.groups[g].awaiters[k] != s.tokens[t].awaiters[i].coro {
      assert GroupAwaiterInv(s, g, k);
    }
  }

  ghost predicate Once(p: Place) { p.OnceToken? || p.OnceGroup? }

  lemma OnceNotInGroup(s: State, c: nat, g: nat)
    requires Inv(s) && c < |s.runs| && Once(s.places[c]) && g < |s.groups|
    ensures c !in s.groups[g].awaiters
  {
    forall k | 0 <= k < |s.groups[g].awaiters| ensures s.groups[g].awaiters[k] != c {
      assert GroupAwaiterInv(s, g, k);
    }
  }

  // When the last pending token of g is counted its awaiters run, once.
  lemma GroupAwaitersBumped(s: State, s': State, g: nat)
    requires Inv(s) && g < |s.groups| && s.groups[g].pending > 0
    requires |s'.groups| == |s.groups| && s'.places == s.places && |s'.runs| == |s.runs|
    requires forall h :: 0 <= h < |s.groups| ==> s'.groups[h].awaiters == s.groups[h].awaiters
    requires forall h :: 0 <= h < |s.groups| && h != g ==> s'.groups[h].pending == s.groups[h].pending
    requires s'.groups[g].pending == s.groups[g].pending - 1
    requires s'.runs == if s.groups[g].pending == 1 then Bump(s.runs, s.groups[g].awaiters) else s.runs
    ensures forall h, k :: 0 <= h < |s'.groups| && 0 <= k < |s'.groups[h].awaiters| ==> GroupAwaiterInv(s', h, k)
  {
    forall h, k | 0 <= h < |s'.groups| && 0 <= k < |s'.groups[h].awaiters| ensures GroupAwaiterInv(s', h, k) {
      assert GroupAwaiterInv(s, h, k);
      var c := s.groups[h].awaiters[k];
      if h != g {
        forall j | 0 <= j < |s.groups[g].awaiters| ensures s.groups[g].awaiters[j] != c {
          assert GroupAwaiterInv(s, g, j);
        }
      }
    }
  }

  lemma DropGroupRefKeeps(s: State, t: nat)
    requires Inv(s) && Enabled(s, DropGroupRef(t))
    ensures Inv(Apply(s, DropGroupRef(t)))
  {
    hide Count;
    var s' := Apply(s, DropGroupRef(t));
    var n := s.tokens[t].setter.next;
    var r := s.tokens[t].awaiters[n].reg;
    assert AwaiterInv(s, t, n) && RegInv(s, r);
    var g := s.regs[r].group;
    CountUpdate(s.tokens, t, s'.tokens[t], LiveToken());
    CountUpdate(s.groups, g, s'.groups[g], LiveGroup());
    GroupHeld(s, r);
    forall u, i | 0 <= u < |s'.tokens| && 0 <= i < |s'.tokens[u].awaiters| ensures AwaiterInv(s', u, i) {
      assert AwaiterInv(s, u, i);
    }
    forall h | 0 <= h < |s'.groups| ensures GroupCounts(s'.groups[h], h, s'.regs, s'.tokens) {
      assert GroupCounts(s.groups[h], h, s.regs, s.tokens);
      CountUpdate(s.regs, r, s'.regs[r], Holding(h));
      CountUpdate(s.regs, r, s'.regs[r], Added(h));
      CountUpdate(s.regs, r, s'.regs[r], CountedIn(h));
      CountUpdate(s.regs, r, s'.regs[r], FailedIn(h, s.tokens));
      CountSame(s'.regs, FailedIn(h, s.tokens), FailedIn(h, s'.tokens));
    }
    forall h, k | 0 <= h < |s'.groups| && 0 <= k < |s'.groups[h].awaiters| ensures GroupAwaiterInv(s', h, k) {
      assert GroupAwaiterInv(s, h, k);
    }
    forall q | 0 <= q < |s'.regs| ensures RegInv(s', q) { assert RegInv(s, q); }
    forall c | 0 <= c < |s'.runs| ensures PlaceInv(s', c) { assert PlaceInv(s, c); }
  }

  // A group with an unfinished awaiter on some token is alive.
  lemma GroupHeld(s: State, r: nat)
    requires Inv(s) && r < |s.regs| && s.regs[r].phase != Done
    ensures s.regs[r].group < |s.groups| && GroupAlive(s.groups[s.regs[r].group])
  {
    assert RegInv(s, r);
    var g := s.regs[r].group;
    assert GroupCounts(s.groups[g], g, s.regs, s.tokens);
    assert Holding(g)(s.regs[r]);
    CountSome(s.regs, Holding(g));
  }

  lemma AwaitTokenKeeps(s: State, t: nat)
    requires Inv(s) && Enabled(s, AwaitToken(t))
    ensures Inv(Apply(s, AwaitToken(t)))
  {
    hide Count;
    var s' := Apply(s, AwaitToken(t));
    assert TokenCounts(s.tokens[t]);
    CountUpdate(s.tokens, t, s'.tokens[t], LiveToken());
    forall u, i | 0 <= u < |s'.tokens| && 0 <= i < |s'.tokens[u].awaiters| ensures AwaiterInv(s', u, i) {
      if u != t || i < |s.tokens[t].awaiters| { assert AwaiterInv(s, u, i); }
    }
    forall g | 0 <= g < |s'.groups| ensures GroupCounts(s'.groups[g], g, s'.regs, s'.tokens) {
      assert GroupCounts(s.groups[g], g, s.regs, s.tokens);
      CountSame(s.regs, FailedIn(g, s.tokens), FailedIn(g, s'.tokens));
    }
    forall g, k | 0 <= g < |s'.groups| && 0 <= k < |s'.groups[g].awaiters| ensures GroupAwaiterInv(s', g, k) {
      assert GroupAwaiterInv(s, g, k);
    }
    forall r | 0 <= r < |s'.regs| ensures RegInv(s', r) { assert RegInv(s, r); }
    forall c | 0 <= c < |s'.runs| ensures PlaceInv(s', c) {
      if c < |s.runs| { assert PlaceInv(s, c); }
    }
  }

  lemma AwaitGroupKeeps(s: State, g: nat)
    requires Inv(s) && Enabled(s, AwaitGroup(g))
    ensures Inv(Apply(s, AwaitGroup(g)))
  {
    hide Count;
    var s' := Apply(s, AwaitGroup(g));
    CountUpdate(s.groups, g, s'.groups[g], LiveGroup());
    forall u, i | 0 <= u < |s'.tokens| && 0 <= i < |s'.tokens[u].awaiters| ensures AwaiterInv(s', u, i) {
      assert AwaiterInv(s, u, i);
    }
    forall h | 0 <= h < |s'.groups| ensures GroupCounts(s'.groups[h], h, s'.regs, s'.tokens) {
      assert GroupCounts(s.groups[h], h, s.regs, s.tokens);
    }
    forall h, k | 0 <= h < |s'.groups| && 0 <= k < |s'.groups[h].awaiters| ensures GroupAwaiterInv(s', h, k) {
      if h != g || k < |s.groups[g].awaiters| { assert GroupAwaiterInv(s, h, k); }
    }
    forall r | 0 <= r < |s'.regs| ensures RegInv(s', r) { assert RegInv(s, r); }
    forall c | 0 <= c < |s'.runs| ensures PlaceInv(s', c) {
      if c < |s.runs| { assert PlaceInv(s, c); }
    }
  }

  lemma AddReadyKeeps(s: State, t: nat, g: nat)
    requires Inv(s) && Enabled(s, AddToken(t, g)) && Ready(s.tokens[t])
    ensures Inv(Apply(s, AddToken(t, g)))
  {
    hide Count;
    var s' := Apply(s, AddToken(t, g));
    var n := |s.regs|;
    PendingBeforeAdd(s, t, g);
    CountUpdate(s.groups, g, s'.groups[g], LiveGroup());
    assert s'.groups == s.groups[g := s'.groups[g]];
    forall u, i | 0 <= u < |s'.tokens| && 0 <= i < |s'.tokens[u].awaiters| ensures AwaiterInv(s', u, i) {
      assert AwaiterInv(s, u, i);
      if s.tokens[u].awaiters[i].Resume? { NotInGroup(s, u, i, g); }
    }
    forall h | 0 <= h < |s'.groups| ensures GroupCounts(s'.groups[h], h, s'.regs, s'.tokens) {
      assert GroupCounts(s.groups[h], h, s.regs, s.tokens);
      CountSnoc(s.regs, s'.regs[n], Holding(h));
      CountSnoc(s.regs, s'.regs[n], Added(h));
      CountSnoc(s.regs, s'.regs[n], CountedIn(h));
      CountSnoc(s.regs, s'.regs[n], FailedIn(h, s.tokens));
    }
    GroupAwaitersBumped(s, s', g);
    forall r | 0 <= r < |s'.regs| ensures RegInv(s', r) {
      if r < n { assert RegInv(s, r); }
    }
    forall c | 0 <= c < |s'.runs| ensures PlaceInv(s', c) {
      assert PlaceInv(s, c);
      if Once(s.places[c]) { OnceNotInGroup(s, c, g); }
    }
  }

  lemma AddUnreadyKeeps(s: State, t: nat, g: nat)
    requires Inv(s) && Enabled(s, AddToken(t, g)) && !Ready(s.tokens[t])
    ensures Inv(Apply(s, AddToken(t, g)))
  {
    hide Count;
    var s' := Apply(s, AddToken(t, g));
    var n := |s.regs|;
    assert TokenCounts(s.tokens[t]) && GroupCounts(s.groups[g], g, s.regs, s.tokens);
    CountUpdate(s.tokens, t, s'.tokens[t], LiveToken());
    CountUpdate(s.groups, g, s'.groups[g], LiveGroup());
    forall u, i | 0 <= u < |s'.tokens| && 0 <= i < |s'.tokens[u].awaiters| ensures AwaiterInv(s', u, i) {
      if u != t || i < |s.tokens[t].awaiters| { assert AwaiterInv(s, u, i); }
    }
    forall h | 0 <= h < |s'.groups| ensures GroupCounts(s'.groups[h], h, s'.regs, s'.tokens) {
      assert GroupCounts(s.groups[h], h, s.regs, s.tokens);
      CountSnoc(s.regs, s'.regs[n], Holding(h));
      CountSnoc(s.regs, s'.regs[n], Added(h));
      CountSnoc(s.regs, s'.regs[n], CountedIn(h));
      CountSnoc(s.regs, s'.regs[n], FailedIn(h, s.tokens));
      CountSame(s'.regs, FailedIn(h, s.tokens), FailedIn(h, s'.tokens));
    }
    forall h, k | 0 <= h < |s'.groups| && 0 <= k < |s'.groups[h].awaiters| ensures GroupAwaiterInv(s', h, k) {
      assert GroupAwaiterInv(s, h, k);
    }
    forall r | 0 <= r < |s'.regs| ensures RegInv(s', r) {
      if r < n { assert RegInv(s, r); }
    }
    forall c | 0 <= c < |s'.runs| ensures PlaceInv(s', c) { assert PlaceInv(s, c); }
  }

  // ----- every run -----

  lemma StepKeeps(s: State, x: Step)
    requires Inv(s) && Enabled(s, x)
    ensures Inv(Apply(s, x))
  {
    hide Inv, Apply;
    match x
    case CreateToken => CreateTokenKeeps(s);
    case CreateGroup(size) => CreateGroupKeeps(s, size);
    case TokenRef(t, n) => TokenRefKeeps(s, t, n);
    case GroupRef(g, n) => GroupRefKeeps(s, g, n);
    case AddToken(t, g) => if Ready(s.tokens[t]) { AddReadyKeeps(s, t, g); } else { AddUnreadyKeeps(s, t, g); }
    case SetState(t, state) => SetStateKeeps(s, t, state);
    case RunAwaiter(t) =>
      if s.tokens[t].awaiters[s.tokens[t].setter.next].Resume? { ResumeKeeps(s, t); } else { OnGroupKeeps(s, t); }
    case DropGroupRef(t) => DropGroupRefKeeps(s, t);
    case Unlock(t) => SetterMoves(s, x);
    case DropSelf(t) => SetterMoves(s, x);
    case AwaitToken(t) => AwaitTokenKeeps(s, t);
    case AwaitGroup(g) => AwaitGroupKeeps(s, g);
  }

  // Steps have a meaning in states that satisfy the invariant, which RunInv
  // shows to be all that occur.
  ghost predicate Next(s: State, x: Step, s': State) {
    Enabled(s, x) && (Inv(s) ==> s' == Apply(s, x))
  }

  // States along an interleaving of any number of threads.
  ghost predicate Run(ss: seq<State>, xs: seq<Step>) {
    |ss| == |xs| + 1 && ss[0] == Init() && forall i, j :: 0 <= i < |xs| && j == i + 1 ==> Next(ss[i], xs[i], ss[j])
  }

  lemma {:induction false} RunInv(ss: seq<State>, xs: seq<Step>, i: nat)
    requires Run(ss, xs) && i < |ss|
    ensures Inv(ss[i])
  {
    hide Inv, Apply, Enabled;
    if i == 0 {
      InitInv();
    } else {
      RunInv(ss, xs, i - 1);
      assert Next(ss[i - 1], xs[i - 1], ss[i]);
      StepKeeps(ss[i - 1], xs[i - 1]);
    }
  }

  // Each coroutine awaiting a group is resumed at most once, and has been
  // exactly when the group has no pending token left.
  lemma GroupAwaiterRunsOnce(ss: seq<State>, xs: seq<Step>, n: nat, g: nat, k: nat)
    requires Run(ss, xs) && n < |ss| && g < |ss[n].groups| && k < |ss[n].groups[g].awaiters|
    ensures var c := ss[n].groups[g].awaiters[k];
      c < |ss[n].runs| && ss[n].runs[c] == if ss[n].groups[g].pending == 0 then 1 else 0
  {
    RunInv(ss, xs, n);
    assert GroupAwaiterInv(ss[n], g, k);
  }

  // Each coroutine awaiting a token is resumed at most once, and only after
  // the token's state is set.
  lemma TokenAwaiterRunsOnce(ss: seq<State>, xs: seq<Step>, n: nat, t: nat, i: nat)
    requires Run(ss, xs) && n < |ss| && t < |ss[n].tokens| && i < |ss[n].tokens[t].awaiters|
             && ss[n].tokens[t].awaiters[i].Resume?
    ensures var c := ss[n].tokens[t].awaiters[i].coro;
      && c < |ss[n].runs| && ss[n].runs[c] <= 1
      && (ss[n].runs[c] == 1 ==> Ready(ss[n].tokens[t]))
      && (ss[n].tokens[t].setter in {Unlocked, Finished} ==> ss[n].runs[c] == 1)
  {
    RunInv(ss, xs, n);
    assert AwaiterInv(ss[n], t, i) && TokenCounts(ss[n].tokens[t]);
  }

  // Every token added to a group is counted exactly once, ready or not when
  // it was added; the group reports an error iff a counted token failed.
  lemma GroupCountsTokensOnce(ss: seq<State>, xs: seq<Step>, n: nat, g: nat)
    requires Run(ss, xs) && n < |ss| && g < |ss[n].groups|
    ensures ss[n].groups[g].pending == ss[n].groups[g].size - Count(ss[n].regs, CountedIn(g))
    ensures ss[n].groups[g].errors > 0 <==> exists r :: 0 <= r < |ss[n].regs| && CountedFailure(ss[n], g, r)
  {
    RunInv(ss, xs, n);
    var s := ss[n];
    assert GroupCounts(s.groups[g], g, s.regs, s.tokens);
    CountSome(s.regs, FailedIn(g, s.tokens));
    forall r | 0 <= r < |s.regs| ensures CountedFailure(s, g, r) <==> FailedIn(g, s.tokens)(s.regs[r]) {
    }
  }

  ghost predicate CountedFailure(s: State, g: nat, r: nat)
    requires r < |s.regs|
  {
    var x := s.regs[r];
    x.group == g && x.phase != Waiting && x.token < |s.tokens| && s.tokens[x.token].state == Failed
  }

  // A registration still to be finished belongs to a token still being set.
  lemma UnfinishedToken(s: State, r: nat)
    requires Inv(s) && r < |s.regs| && s.regs[r].phase != Done
    ensures s.regs[r].token < |s.tokens| && s.tokens[s.regs[r].token].setter !in {Unlocked, Finished}
  {
    assert RegInv(s, r);
    assert AwaiterInv(s, s.regs[r].token, s.regs[r].index);
  }

  // Once a group is full and all its tokens have been set to the end, nothing
  // is pending and every awaiter has run.
  lemma FullGroupCompletes(ss: seq<State>, xs: seq<Step>, n: nat, g: nat)
    requires Run(ss, xs) && n < |ss| && g < |ss[n].groups| && ss[n].groups[g].rank == ss[n].groups[g].size
    requires forall r :: 0 <= r < |ss[n].regs| && ss[n].regs[r].group == g && ss[n].regs[r].token < |ss[n].tokens| ==>
      ss[n].tokens[ss[n].regs[r].token].setter in {Unlocked, Finished}
    ensures ss[n].groups[g].pending == 0
    ensures forall k :: 0 <= k < |ss[n].groups[g].awaiters| ==>
      ss[n].groups[g].awaiters[k] < |ss[n].runs| && ss[n].runs[ss[n].groups[g].awaiters[k]] == 1
  {
    RunInv(ss, xs, n);
    var s := ss[n];
    assert GroupCounts(s.groups[g], g, s.regs, s.tokens);
    forall r | 0 <= r < |s.regs| ensures Added(g)(s.regs[r]) == CountedIn(g)(s.regs[r]) {
      assert RegInv(s, r);
      if s.regs[r].phase == Waiting { UnfinishedToken(s, r); }
    }
    CountSame(s.regs, Added(g), CountedIn(g));
    forall k | 0 <= k < |s.groups[g].awaiters|
      ensures s.groups[g].awaiters[k] < |s.runs| && s.runs[s.groups[g].awaiters[k]] == 1
    {
      assert GroupAwaiterInv(s, g, k);
    }
  }

  // ----- what callers asked for, and what became of it -----

  // States stay set, groups keep their size, and every registration and place stays what it was.
  ghost predicate Extends(s: State, s': State) {
    && |s.tokens| <= |s'.tokens| && |s.groups| <= |s'.groups| && |s.regs| <= |s'.regs| && s.places <= s'.places
    && (forall t :: 0 <= t < |s.tokens| && Ready(s.tokens[t]) ==> s'.tokens[t].state == s.tokens[t].state)
    && (forall g :: 0 <= g < |s.groups| ==> s'.groups[g].size == s.groups[g].size)
    && (forall r :: 0 <= r < |s.regs| ==> SameReg(s.regs[r], s'.regs[r]))
  }

  ghost predicate SameReg(x: Reg, x': Reg) { x'.token == x.token && x'.group == x.group }

  lemma StepExtends(s: State, x: Step)
    requires Inv(s) && Enabled(s, x)
    ensures Extends(s, Apply(s, x))
  {
    hide Inv, Apply, Enabled;
    StatesStay(s, x);
    GroupsStay(s, x);
    RegsStay(s, x);
  }

  lemma StatesStay(s: State, x: Step)
    requires Inv(s) && Enabled(s, x)
    ensures |s.tokens| <= |Apply(s, x).tokens|
    ensures forall t :: 0 <= t < |s.tokens| && Ready(s.tokens[t]) ==> Apply(s, x).tokens[t].state == s.tokens[t].state
  {
    if x.SetState? { assert TokenCounts(s.tokens[x.t]); }
    if x.RunAwaiter? || x.DropGroupRef? { assert AwaiterInv(s, x.t, s.tokens[x.t].setter.next); }
  }

  lemma GroupsStay(s: State, x: Step)
    requires Inv(s) && Enabled(s, x)
    ensures |s.groups| <= |Apply(s, x).groups| && s.places <= Apply(s, x).places
    ensures forall g :: 0 <= g < |s.groups| ==> Apply(s, x).groups[g].size == s.groups[g].size
  {
    if x.RunAwaiter? || x.DropGroupRef? { assert AwaiterInv(s, x.t, s.tokens[x.t].setter.next); }
  }

  lemma RegsStay(s: State, x: Step)
    requires Inv(s) && Enabled(s, x)
    ensures |s.regs| <= |Apply(s, x).regs|
    ensures forall r :: 0 <= r < |s.regs| ==> SameReg(s.regs[r], Apply(s, x).regs[r])
  {
    if x.RunAwaiter? || x.DropGroupRef? { assert AwaiterInv(s, x.t, s.tokens[x.t].setter.next); }
  }

  lemma {:induction false} RunExtends(ss: seq<State>, xs: seq<Step>, i: nat, n: nat)
    requires Run(ss, xs) && i <= n < |ss|
    ensures Extends(ss[i], ss[n])
    decreases n
  {
    hide Inv, Apply, Enabled;
    if i < n {
      RunExtends(ss, xs, i, n - 1);
      RunInv(ss, xs, n - 1);
      assert Next(ss[n - 1], xs[n - 1], ss[n]);
      StepExtends(ss[n - 1], xs[n - 1]);
    }
  }

  // The state a step of a run starts from is fit for it, and ends in the next one.
  lemma StepOfRun(ss: seq<State>, xs: seq<Step>, i: nat)
    requires Run(ss, xs) && i < |xs|
    ensures Inv(ss[i]) && Enabled(ss[i], xs[i]) && ss[i + 1] == Apply(ss[i], xs[i])
  {
    hide Inv, Apply, Enabled;
    RunInv(ss, xs, i);
    assert Next(ss[i], xs[i], ss[i + 1]);
  }

  // A coroutine that awaits a group, however many tokens it was missing then: at any later
  // time it has been resumed once if the group has no pending token left, else not at all.
  lemma AwaitedGroupResumes(ss: seq<State>, xs: seq<Step>, i: nat, n: nat, g: nat)
    requires Run(ss, xs) && i < n < |ss| && xs[i] == AwaitGroup(g)
    ensures var c := |ss[i].runs|;
      && c < |ss[n].runs| && g < |ss[n].groups|
      && ss[n].runs[c] == if ss[n].groups[g].pending == 0 then 1 else 0
  {
    hide Apply, Extends, Inv;
    var c := |ss[i].runs|;
    StepOfRun(ss, xs, i);
    GroupPlace(ss[i], g);
    RunExtends(ss, xs, i + 1, n);
    RunInv(ss, xs, n);
    PlaceStays(ss[i + 1], ss[n], c);
    GroupResumed(ss[n], c, g);
  }

  ghost predicate AwaitsGroup(s: State, c: nat, g: nat) {
    c < |s.places| == |s.runs| && (s.places[c] == OnceGroup(g) || (s.places[c].AtGroup? && s.places[c].g == g))
  }

  ghost predicate AwaitsToken(s: State, c: nat, t: nat) {
    c < |s.places| == |s.runs| && (s.places[c] == OnceToken(t) || (s.places[c].AtToken? && s.places[c].t == t))
  }

  lemma GroupPlace(s: State, g: nat)
    requires Inv(s) && Enabled(s, AwaitGroup(g))
    ensures AwaitsGroup(Apply(s, AwaitGroup(g)), |s.runs|, g)
  {
  }

  lemma TokenPlace(s: State, t: nat)
    requires Inv(s) && Enabled(s, AwaitToken(t))
    ensures AwaitsToken(Apply(s, AwaitToken(t)), |s.runs|, t)
  {
  }

  lemma PlaceStays(s: State, s': State, c: nat)
    requires Extends(s, s') && c < |s.places| && Inv(s')
    ensures c < |s'.places| == |s'.runs| && s'.places[c] == s.places[c]
  {
  }

  lemma GroupResumed(s: State, c: nat, g: nat)
    requires Inv(s) && AwaitsGroup(s, c, g)
    ensures g < |s.groups| && s.runs[c] == if s.groups[g].pending == 0 then 1 else 0
  {
    assert PlaceInv(s, c);
    if s.places[c].AtGroup? { assert GroupAwaiterInv(s, g, s.places[c].k); }
  }

  lemma TokenResumed(s: State, c: nat, t: nat)
    requires Inv(s) && AwaitsToken(s, c, t)
    ensures t < |s.tokens| && s.runs[c] <= 1
    ensures s.runs[c] == 1 ==> Ready(s.tokens[t])
    ensures s.tokens[t].setter in {Unlocked, Finished} ==> s.runs[c] == 1
  {
    assert PlaceInv(s, c);
    if s.places[c].AtToken? { assert AwaiterInv(s, t, s.places[c].i) && TokenCounts(s.tokens[t]); }
  }

  // A coroutine that awaits a token is resumed at most once, only when the token's state is
  // set, and by the time the token is let go of.
  lemma AwaitedTokenResumes(ss: seq<State>, xs: seq<Step>, i: nat, n: nat, t: nat)
    requires Run(ss, xs) && i < n < |ss| && xs[i] == AwaitToken(t)
    ensures var c := |ss[i].runs|;
      && c < |ss[n].runs| && t < |ss[n].tokens| && ss[n].runs[c] <= 1
      && (ss[n].runs[c] == 1 ==> Ready(ss[n].tokens[t]))
      && (ss[n].tokens[t].setter in {Unlocked, Finished} ==> ss[n].runs[c] == 1)
  {
    hide Apply, Extends, Inv;
    var c := |ss[i].runs|;
    StepOfRun(ss, xs, i);
    TokenPlace(ss[i], t);
    RunExtends(ss, xs, i + 1, n);
    RunInv(ss, xs, n);
    PlaceStays(ss[i + 1], ss[n], c);
    TokenResumed(ss[n], c, t);
  }

  // A state that was set stays, and a token's state is never anything but what was set.
  lemma StateIsWhatWasSet(ss: seq<State>, xs: seq<Step>, n: nat, t: nat, state: TokenState)
    requires Run(ss, xs) && n < |ss| && t < |ss[n].tokens| && !state.Unavailable?
    ensures ss[n].tokens[t].state == state <==> SetBefore(xs, n, t, state)
  {
    hide Inv, Apply, Enabled;
    if SetBefore(xs, n, t, state) {
      var i :| 0 <= i < n && xs[i] == SetState(t, state);
      StepOfRun(ss, xs, i);
      StateSet(ss[i], t, state);
      RunExtends(ss, xs, i + 1, n);
    } else {
      NeverSet(ss, xs, n, t, state);
    }
  }

  ghost predicate SetBefore(xs: seq<Step>, n: nat, t: nat, state: TokenState)
    requires n <= |xs|
  {
    exists i :: 0 <= i < n && xs[i] == SetState(t, state)
  }

  lemma StateSet(s: State, t: nat, state: TokenState)
    requires Inv(s) && Enabled(s, SetState(t, state))
    ensures t < |Apply(s, SetState(t, state)).tokens| && Apply(s, SetState(t, state)).tokens[t].state == state
  {
  }

  lemma {:induction false} NeverSet(ss: seq<State>, xs: seq<Step>, n: nat, t: nat, state: TokenState)
    requires Run(ss, xs) && n < |ss| && t < |ss[n].tokens| && !state.Unavailable? && !SetBefore(xs, n, t, state)
    ensures ss[n].tokens[t].state != state
    decreases n
  {
    hide Inv, Apply, Enabled;
    if n > 0 {
      StepOfRun(ss, xs, n - 1);
      assert !SetBefore(xs, n - 1, t, state);
      if t < |ss[n - 1].tokens| { NeverSet(ss, xs, n - 1, t, state); }
      OtherStep(ss[n - 1], xs[n - 1], t, state);
    }
  }

  lemma OtherStep(s: State, x: Step, t: nat, state: TokenState)
    requires Inv(s) && Enabled(s, x) && x != SetState(t, state) && !state.Unavailable?
    requires t < |s.tokens| ==> s.tokens[t].state != state
    ensures t < |Apply(s, x).tokens| ==> Apply(s, x).tokens[t].state != state
  {
  }

  // A token added to a group is counted in that group from the step that adds it on.
  lemma AddedTokenIsRegistered(ss: seq<State>, xs: seq<Step>, i: nat, n: nat, t: nat, g: nat)
    requires Run(ss, xs) && i < n < |ss| && xs[i] == AddToken(t, g)
    ensures var r := |ss[i].regs|; r < |ss[n].regs| && ss[n].regs[r].token == t && ss[n].regs[r].group == g
  {
    hide Inv, Apply, Enabled;
    StepOfRun(ss, xs, i);
    RegAdded(ss[i], t, g);
    RunExtends(ss, xs, i + 1, n);
  }

  lemma RegAdded(s: State, t: nat, g: nat)
    requires Inv(s) && Enabled(s, AddToken(t, g))
    ensures var s' := Apply(s, AddToken(t, g)); var r := |s.regs|;
      |s'.regs| == r + 1 && s'.regs[r].token == t && s'.regs[r].group == g
  {
  }

  lemma CreatedGroupSize(ss: seq<State>, xs: seq<Step>, i: nat, n: nat, size: nat)
    requires Run(ss, xs) && i < n < |ss| && xs[i] == CreateGroup(size)
    ensures |ss[i].groups| < |ss[n].groups| && ss[n].groups[|ss[i].groups|].size == size
  {
    hide Inv, Enabled;
    StepOfRun(ss, xs, i);
    RunExtends(ss, xs, i + 1, n);
  }

  // ----- as many of each as callers asked for -----

  ghost function Creates(): Step -> bool { (x: Step) => x.CreateToken? }
  ghost function CreatesGroup(): Step -> bool { (x: Step) => x.CreateGroup? }
  ghost function Adds(): Step -> bool { (x: Step) => x.AddToken? }
  ghost function AddsTo(g: nat): Step -> bool { (x: Step) => x.AddToken? && x.g == g }
  ghost function Awaits(): Step -> bool { (x: Step) => x.AwaitToken? || x.AwaitGroup? }

  lemma {:induction false} AsManyAsAsked(ss: seq<State>, xs: seq<Step>, n: nat)
    requires Run(ss, xs) && n < |ss|
    ensures |ss[n].tokens| == Count(xs[..n], Creates()) && |ss[n].groups| == Count(xs[..n], CreatesGroup())
    ensures |ss[n].regs| == Count(xs[..n], Adds()) && |ss[n].runs| == Count(xs[..n], Awaits())
    ensures forall g :: 0 <= g < |ss[n].groups| ==> ss[n].groups[g].rank == Count(xs[..n], AddsTo(g))
    ensures forall g :: |ss[n].groups| <= g ==> Count(xs[..n], AddsTo(g)) == 0
    decreases n
  {
    hide Inv, Enabled, Apply, Count;
    if n > 0 {
      var x := xs[n - 1];
      assert xs[..n] == xs[..n - 1] + [x];
      AsManyAsAsked(ss, xs, n - 1);
      StepOfRun(ss, xs, n - 1);
      OneMore(ss[n - 1], x);
      OneRankMore(ss[n - 1], x);
      CountSnoc(xs[..n - 1], x, Creates());
      CountSnoc(xs[..n - 1], x, CreatesGroup());
      CountSnoc(xs[..n - 1], x, Adds());
      CountSnoc(xs[..n - 1], x, Awaits());
      forall g ensures Count(xs[..n], AddsTo(g)) == Count(xs[..n - 1], AddsTo(g)) + if AddsTo(g)(x) then 1 else 0 {
        CountSnoc(xs[..n - 1], x, AddsTo(g));
      }
    } else {
      NothingYet(ss, xs);
    }
  }

  lemma NothingYet(ss: seq<State>, xs: seq<Step>)
    requires Run(ss, xs)
    ensures forall p: Step -> bool :: Count(xs[..0], p) == 0
    ensures ss[0].tokens == [] && ss[0].groups == [] && ss[0].regs == [] && ss[0].runs == []
  {
  }

  lemma OneMore(s: State, x: Step)
    requires Inv(s) && Enabled(s, x)
    ensures var s' := Apply(s, x);
      && |s'.tokens| == |s.tokens| + (if x.CreateToken? then 1 else 0)
      && |s'.groups| == |s.groups| + (if x.CreateGroup? then 1 else 0)
      && |s'.regs| == |s.regs| + (if x.AddToken? then 1 else 0)
      && |s'.runs| == |s.runs| + (if x.AwaitToken? || x.AwaitGroup? then 1 else 0)
  {
    if x.RunAwaiter? || x.DropGroupRef? { assert AwaiterInv(s, x.t, s.tokens[x.t].setter.next); }
  }

  lemma OneRankMore(s: State, x: Step)
    requires Inv(s) && Enabled(s, x)
    ensures var s' := Apply(s, x);
      && |s'.groups| == |s.groups| + (if x.CreateGroup? then 1 else 0)
      && (forall g :: 0 <= g < |s.groups| ==> s'.groups[g].rank == s.groups[g].rank + if AddsTo(g)(x) then 1 else 0)
      && (x.CreateGroup? ==> s'.groups[|s.groups|].rank == 0)
      && (x.AddToken? ==> x.g < |s.groups|)
  {
    if x.RunAwaiter? || x.DropGroupRef? { assert AwaiterInv(s, x.t, s.tokens[x.t].setter.next); }
  }

  // References callers were given and took, less those they dropped.
  ghost function TokenRefs(xs: seq<Step>, t: nat): int {
    if xs == [] then 0
    else TokenRefs(xs[..|xs| - 1], t) + match xs[|xs| - 1] case TokenRef(u, n) => if u == t then n else 0 case _ => 0
  }

  ghost function GroupRefs(xs: seq<Step>, g: nat): int {
    if xs == [] then 0
    else GroupRefs(xs[..|xs| - 1], g) + match xs[|xs| - 1] case GroupRef(h, n) => if h == g then n else 0 case _ => 0
  }

  // A token's count is the creator's reference and those taken since, and the producer's until
  // it lets go; a group's, those of callers and one for each registration not yet finished.
  lemma CountsFollowCallers(ss: seq<State>, xs: seq<Step>, n: nat)
    requires Run(ss, xs) && n < |ss|
    ensures forall t :: 0 <= t < |ss[n].tokens| ==>
      ss[n].tokens[t].refs == 1 + TokenRefs(xs[..n], t) + if ss[n].tokens[t].setter.Finished? then 0 else 1
    ensures forall g :: 0 <= g < |ss[n].groups| ==>
      ss[n].groups[g].refs == 1 + GroupRefs(xs[..n], g) + Count(ss[n].regs, Holding(g))
  {
    hide TokenRefs, GroupRefs, Count;
    RunInv(ss, xs, n);
    OwnedFollows(ss, xs, n);
    forall t | 0 <= t < |ss[n].tokens|
      ensures ss[n].tokens[t].refs == 1 + TokenRefs(xs[..n], t) + if ss[n].tokens[t].setter.Finished? then 0 else 1
    {
      assert TokenCounts(ss[n].tokens[t]);
    }
    forall g | 0 <= g < |ss[n].groups|
      ensures ss[n].groups[g].refs == 1 + GroupRefs(xs[..n], g) + Count(ss[n].regs, Holding(g))
    {
      assert GroupCounts(ss[n].groups[g], g, ss[n].regs, ss[n].tokens);
    }
  }

  lemma {:induction false} OwnedFollows(ss: seq<State>, xs: seq<Step>, n: nat)
    requires Run(ss, xs) && n < |ss|
    ensures forall t: nat :: if t < |ss[n].tokens| then ss[n].tokens[t].owned == 1 + TokenRefs(xs[..n], t)
                             else TokenRefs(xs[..n], t) == 0
    ensures forall g: nat :: if g < |ss[n].groups| then ss[n].groups[g].owned == 1 + GroupRefs(xs[..n], g)
                             else GroupRefs(xs[..n], g) == 0
    decreases n
  {
    hide Inv, Enabled, Apply;
    if n > 0 {
      OwnedFollows(ss, xs, n - 1);
      StepOfRun(ss, xs, n - 1);
      OwnedStep(ss[n - 1], xs[n - 1]);
      assert xs[..n][..n - 1] == xs[..n - 1];
    }
  }

  lemma OwnedStep(s: State, x: Step)
    requires Inv(s) && Enabled(s, x)
    ensures var s' := Apply(s, x);
      && (x.TokenRef? ==> x.t < |s.tokens|) && (x.GroupRef? ==> x.g < |s.groups|)
      && |s'.tokens| == |s.tokens| + (if x.CreateToken? then 1 else 0)
      && |s'.groups| == |s.groups| + (if x.CreateGroup? then 1 else 0)
      && (forall t :: 0 <= t < |s.tokens| ==>
            s'.tokens[t].owned == s.tokens[t].owned + if x.TokenRef? && x.t == t then x.n else 0)
      && (forall g :: 0 <= g < |s.groups| ==>
            s'.groups[g].owned == s.groups[g].owned + if x.GroupRef? && x.g == g then x.n else 0)
      && (x.CreateToken? ==> s'.tokens[|s.tokens|].owned == 1) && (x.CreateGroup? ==> s'.groups[|s.groups|].owned == 1)
  {
    if x.RunAwaiter? || x.DropGroupRef? { assert AwaiterInv(s, x.t, s.tokens[x.t].setter.next); }
  }

  // ----- what a group reports when no token is just being set -----

  ghost predicate Quiet(s: State) { forall t :: 0 <= t < |s.tokens| ==> !s.tokens[t].setter.Running? }

  lemma {:induction false} RegFromStep(ss: seq<State>, xs: seq<Step>, n: nat, r: nat) returns (i: nat)
    requires Run(ss, xs) && n < |ss| && r < |ss[n].regs|
    ensures i < n && xs[i] == AddToken(ss[n].regs[r].token, ss[n].regs[r].group)
    decreases n
  {
    hide Inv, Apply, Enabled;
    i := 0;
    if n == 0 {
      NothingYet(ss, xs);
      assert false;
    } else {
      StepOfRun(ss, xs, n - 1);
      OneMore(ss[n - 1], xs[n - 1]);
      if r < |ss[n - 1].regs| {
        RunExtends(ss, xs, n - 1, n);
        i := RegFromStep(ss, xs, n - 1, r);
      } else {
        i := n - 1;
        RegAdded(ss[i], xs[i].t, xs[i].g);
      }
    }
  }

  // While no token is being set, a registration is counted exactly when its token is ready.
  lemma QuietCount(s: State, r: nat)
    requires Inv(s) && Quiet(s) && r < |s.regs|
    ensures s.regs[r].token < |s.tokens| && (s.regs[r].phase != Waiting <==> Ready(s.tokens[s.regs[r].token]))
  {
    assert RegInv(s, r);
    if s.regs[r].phase == Waiting {
      assert AwaiterInv(s, s.regs[r].token, s.regs[r].index);
      assert TokenCounts(s.tokens[s.regs[r].token]);
    }
  }

  lemma {:induction false} CountAll<T>(xs: seq<T>, p: T -> bool, q: T -> bool)
    requires forall i :: 0 <= i < |xs| && p(xs[i]) ==> q(xs[i])
    ensures Count(xs, p) <= Count(xs, q)
    ensures Count(xs, p) == Count(xs, q) <==> forall i :: 0 <= i < |xs| && q(xs[i]) ==> p(xs[i])
  {
    if xs != [] {
      var last := |xs| - 1;
      CountAll(xs[..last], p, q);
      assert xs == xs[..last] + [xs[last]];
    }
  }

  ghost predicate AddedTo(xs: seq<Step>, n: nat, t: nat, g: nat)
    requires n <= |xs|
  {
    exists i :: 0 <= i < n && xs[i] == AddToken(t, g)
  }

  ghost predicate WasSet(xs: seq<Step>, n: nat, t: nat)
    requires n <= |xs|
  {
    SetBefore(xs, n, t, Available) || SetBefore(xs, n, t, Failed)
  }

  // Then a group has no pending token exactly when it is full and each token added to it has
  // been set, and reports an error exactly when one of them was set to one.
  lemma QuietGroupReports(ss: seq<State>, xs: seq<Step>, n: nat, g: nat)
    requires Run(ss, xs) && n < |ss| && Quiet(ss[n]) && g < |ss[n].groups|
    ensures ss[n].groups[g].pending == 0 <==>
            ss[n].groups[g].rank == ss[n].groups[g].size
            && forall t: nat :: AddedTo(xs, n, t, g) ==> WasSet(xs, n, t)
    ensures ss[n].groups[g].errors > 0 <==> exists t: nat :: AddedTo(xs, n, t, g) && SetBefore(xs, n, t, Failed)
  {
    hide Inv, Enabled, Apply, AddedTo, SetBefore, Quiet, Count;
    var s := ss[n];
    RunInv(ss, xs, n);
    QuietPending(s, g);
    QuietErrors(s, g);
    forall r: nat | r < |s.regs| && s.regs[r].group == g ensures AddedTo(xs, n, s.regs[r].token, g) {
      var i := RegFromStep(ss, xs, n, r);
      AddedHere(xs, n, i);
    }
    forall t: nat | AddedTo(xs, n, t, g) ensures HasReg(s, t, g) { RegOfAdded(ss, xs, n, t, g); }
    forall t: nat | t < |s.tokens|
      ensures Ready(s.tokens[t]) <==> WasSet(xs, n, t)
      ensures s.tokens[t].state == Failed <==> SetBefore(xs, n, t, Failed)
    {
      StateIsWhatWasSet(ss, xs, n, t, Failed);
      StateIsWhatWasSet(ss, xs, n, t, Available);
    }
  }

  lemma AddedHere(xs: seq<Step>, n: nat, i: nat)
    requires i < n <= |xs| && xs[i].AddToken?
    ensures AddedTo(xs, n, xs[i].t, xs[i].g)
  {
  }

  ghost predicate HasReg(s: State, t: nat, g: nat) {
    exists r :: 0 <= r < |s.regs| && s.regs[r].token == t && s.regs[r].group == g
  }

  lemma RegOfAdded(ss: seq<State>, xs: seq<Step>, n: nat, t: nat, g: nat)
    requires Run(ss, xs) && n < |ss| && AddedTo(xs, n, t, g)
    ensures HasReg(ss[n], t, g)
  {
    hide Inv, Enabled, Apply;
    var i :| 0 <= i < n && xs[i] == AddToken(t, g);
    AddedTokenIsRegistered(ss, xs, i, n, t, g);
  }

  lemma QuietPending(s: State, g: nat)
    requires Inv(s) && Quiet(s) && g < |s.groups|
    ensures forall r :: 0 <= r < |s.regs| ==> s.regs[r].token < |s.tokens|
    ensures s.groups[g].pending == 0 <==>
            s.groups[g].rank == s.groups[g].size
            && forall r :: 0 <= r < |s.regs| && s.regs[r].group == g ==> Ready(s.tokens[s.regs[r].token])
  {
    assert GroupCounts(s.groups[g], g, s.regs, s.tokens);
    forall r: nat | r < |s.regs|
      ensures s.regs[r].token < |s.tokens| && (s.regs[r].phase != Waiting <==> Ready(s.tokens[s.regs[r].token]))
    {
      QuietCount(s, r);
    }
    CountAll(s.regs, CountedIn(g), Added(g));
    forall r | 0 <= r < |s.regs|
      ensures CountedIn(g)(s.regs[r]) <==> s.regs[r].group == g && Ready(s.tokens[s.regs[r].token])
    {
    }
  }

  lemma QuietErrors(s: State, g: nat)
    requires Inv(s) && Quiet(s) && g < |s.groups|
    ensures forall r :: 0 <= r < |s.regs| ==> s.regs[r].token < |s.tokens|
    ensures s.groups[g].errors > 0 <==>
            exists r :: 0 <= r < |s.regs| && s.regs[r].group == g && s.tokens[s.regs[r].token].state == Failed
  {
    assert GroupCounts(s.groups[g], g, s.regs, s.tokens);
    CountSome(s.regs, FailedIn(g, s.tokens));
    forall r: nat | r < |s.regs|
      ensures s.regs[r].token < |s.tokens|
      ensures FailedIn(g, s.tokens)(s.regs[r]) <==> s.regs[r].group == g && s.tokens[s.regs[r].token].state == Failed
    {
      QuietCount(s, r);
    }
  }

  // The objects whose memory a step uses.
  ghost predicate UsesToken(s: State, x: Step, t: nat) {
    (x.TokenRef? || x.AddToken? || x.SetState? || x.RunAwaiter? || x.DropGroupRef? || x.Unlock? || x.DropSelf?
      || x.AwaitToken?)
    && x.t == t
  }

  ghost predicate UsesGroup(s: State, x: Step, g: nat)
    requires Enabled(s, x)
  {
    match x
    case GroupRef(h, _) => h == g
    case AddToken(_, h) => h == g
    case AwaitGroup(h) => h == g
    case RunAwaiter(t) => UsesRegGroup(s, s.tokens[t].awaiters[s.tokens[t].setter.next], g)
    case DropGroupRef(t) =>
      s.tokens[t].setter.next < |s.tokens[t].awaiters|
        && UsesRegGroup(s, s.tokens[t].awaiters[s.tokens[t].setter.next], g)
    case _ => false
  }

  ghost predicate UsesRegGroup(s: State, a: Awaiter, g: nat) {
    a.OnGroup? && a.reg < |s.regs| && s.regs[a.reg].group == g
  }

  // No step touches a destroyed token or group.
  lemma NoUseAfterFree(ss: seq<State>, xs: seq<Step>, n: nat)
    requires Run(ss, xs) && n < |xs|
    ensures Enabled(ss[n], xs[n])
    ensures forall t: nat :: UsesToken(ss[n], xs[n], t) ==> t < |ss[n].tokens| && TokenAlive(ss[n].tokens[t])
    ensures forall g: nat :: UsesGroup(ss[n], xs[n], g) ==> g < |ss[n].groups| && GroupAlive(ss[n].groups[g])
  {
    RunInv(ss, xs, n);
    var s, x := ss[n], xs[n];
    assert Next(s, x, ss[n + 1]);
    forall g: nat | UsesGroup(s, x, g) ensures g < |s.groups| && GroupAlive(s.groups[g]) {
      if x.RunAwaiter? || x.DropGroupRef? {
        var i := s.tokens[x.t].setter.next;
        assert AwaiterInv(s, x.t, i);
        GroupHeld(s, s.tokens[x.t].awaiters[i].reg);
      } else {
        assert GroupCounts(s.groups[g], g, s.regs, s.tokens);
      }
    }
  }

  // When callers hold nothing and every token was set, everything has been
  // destroyed: the assertion of the runtime's destructor.
  lemma NoLeaks(ss: seq<State>, xs: seq<Step>, n: nat)
    requires Run(ss, xs) && n < |ss|
    requires forall t :: 0 <= t < |ss[n].tokens| ==> ss[n].tokens[t].setter.Finished? && ss[n].tokens[t].owned == 0
    requires forall g :: 0 <= g < |ss[n].groups| ==> ss[n].groups[g].owned == 0
    ensures ss[n].live == 0
  {
    RunInv(ss, xs, n);
    var s := ss[n];
    forall g | 0 <= g < |s.groups| ensures !GroupAlive(s.groups[g]) {
      assert GroupCounts(s.groups[g], g, s.regs, s.tokens);
      forall r | 0 <= r < |s.regs| ensures s.regs[r].phase == Done {
        assert RegInv(s, r);
        if s.regs[r].phase != Done { UnfinishedToken(s, r); }
      }
      CountSome(s.regs, Holding(g));
    }
    CountSome(s.tokens, LiveToken());
    CountSome(s.groups, LiveGroup());
  }
}
