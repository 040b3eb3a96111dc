// UserDMA.cc over RingBuffer.h: 32-bit tokens that wrap, slots reused in a
// ring, and an engine that finishes linked descriptors in any order while the
// host polls.
module UserDma {
  import opened Arith
  import opened DmaDescriptors

  const TWO32: nat := 0x1_0000_0000
  type uint32 = x: nat | x < TWO32

  datatype Status = Success | Failure

  // A slot number survives the wrap of the token it is computed from.
  lemma SlotOfToken(g: nat, capacity: nat)
    requires IsPow2(capacity) && capacity <= TWO32
    ensures (g % TWO32) % capacity == g % capacity
  {
    Pow2Constants();
    var k := Pow2Divides(capacity, TWO32);
    ModOfMod(g, k, capacity);
  }

  lemma TokenAhead(h: nat, i: nat)
    ensures (h % TWO32 + i) % TWO32 == (h + i) % TWO32
  {
    ModAdd(h, i, TWO32);
  }

  // Transfers fewer than `capacity` apart never share a slot.
  lemma SlotsDiffer(g: nat, h: nat, capacity: nat)
    requires capacity > 0 && g < h < g + capacity
    ensures g % capacity != h % capacity
  {
    if g % capacity == h % capacity {
      var k := SameRemainder(g, h, capacity);
      if k <= 0 { MulMono(k, 0, capacity); } else { MulMono(1, k, capacity); }
    }
  }

  // The engine holds the descriptor it is at, the oldest it has not finished or the last of
  // its chain.
  class DmaEngine {
    ghost var at: DmaDesc2D?

    constructor ()
      ensures at == null
    {
      at := null;
    }

    method DmStart(next: DmaDesc2D)
      modifies this
      ensures at == next
    {
      at := next;
    }

    // Stores the successor's address; an engine that has come to the end of its chain goes on.
    method DmLink(last: DmaDesc2D, next: DmaDesc2D)
      modifies this, last`nextState, last`successor
      ensures last.successor == next && (old(last.Ends()) ==> last.LinkedTo(next))
      ensures last.Done() == old(last.Done()) && forall r: Request :: last.Asks(r) == old(last.Asks(r))
      ensures at == if old(at == last && last.Done()) then next else old(at)
    {
      hide DmaDesc2D.Asks, DmaDesc2D.GetDone, DmaDesc2D.Ends, DmaDesc2D.LinkedTo;
      assert (0x10 as bv32) & NEXT_MASK != 0;
      var address: bv32 :| address & NEXT_MASK != 0;
      last.Link(address, next);
      if at == last && last.Done() {
        at := next;
      }
    }

    // The engine follows the link of a finished descriptor; a link to itself leads nowhere else.
    ghost method Fetch()
      modifies this
      ensures old(at) != null && old(at.Done()) && old(at.successor) != null ==> at == old(at.successor)
      ensures old(at) == null || !old(at.Done()) || old(at.successor) == null ==> at == old(at)
    {
      if at != null && at.Done() && at.successor != null {
        at := at.successor;
      }
    }
  }

  datatype Outcome = Spinning | Returned(status: Status, token: uint32)

  // Addresses are limited to 32 bits, and null is refused.
  predicate Addressable(a: bv64) { 0 < a <= 0xFFFF_FFFF }

  class UserDma {
    const capacity: nat
    const ring: seq<DmaDesc2D>
    const engine: DmaEngine
    var head: uint32
    var tail: uint32
    var isFirstDMA: bool
    var tailDMADesc: DmaDesc2D?

    // Unbounded counters behind head and tail, the transfers issued so far,
    // those of them the engine has finished, and the one whose descriptor it is at.
    ghost var H: nat
    ghost var T: nat
    ghost var reqs: seq<Request>
    ghost var complete: set<nat>
    ghost var E: nat

    ghost predicate Shape() {
      && IsPow2(capacity) && capacity <= 0x8000_0000 && |ring| == capacity
      && forall i, j :: 0 <= i < j < capacity ==> ring[i] != ring[j]
    }

    function SlotOf(g: nat): (i: nat)
      requires capacity > 0
      ensures i < capacity
    {
      g % capacity
    }

    // The slot of transfer g still describes g, and shows whether it is done.
    ghost predicate Current(g: nat)
      requires Shape() && g < |reqs|
      reads this`reqs, this`complete, ring
    {
      ring[SlotOf(g)].Asks(reqs[g]) && (ring[SlotOf(g)].Done() <==> g in complete)
    }

    // The descriptor of transfer g leads to that of the next one, and the last one's nowhere -
    // but a ring of one has its only descriptor lead to itself.
    ghost predicate Linked(g: nat)
      requires Shape() && g < |reqs|
      reads this`reqs, ring
    {
      if g + 1 < |reqs| then ring[SlotOf(g)].LinkedTo(ring[SlotOf(g + 1)])
      else if capacity == 1 && g > 0 then ring[0].LinkedTo(ring[0])
      else ring[SlotOf(g)].Ends()
    }

    // The engine is at the oldest transfer it has not finished, or at the last.
    ghost predicate EngineAt()
      requires Shape()
      reads this`reqs, this`complete, this`E, engine
    {
      if reqs == [] then engine.at == null && E == 0
      else
        && E < |reqs| && engine.at == ring[SlotOf(E)]
        && (forall g: nat :: g < E ==> g in complete)
        && (E in complete ==> E + 1 == |reqs|)
    }

    // Everything freed is complete; every slot not reused since is current.
    // Between alloc and submission the tail is one ahead of the transfers.
    ghost predicate Inv()
      reads this, ring, engine
    {
      && Shape()
      && H <= |reqs| <= T <= |reqs| + 1 && T <= H + capacity
      && head == H % TWO32 && tail == T % TWO32
      && (forall g :: g in complete ==> g < |reqs|)
      && (forall g: nat :: g < H ==> g in complete)
      && (forall g: nat :: g < |reqs| && T <= g + capacity ==> Current(g) && Linked(g))
      && EngineAt()
      && (isFirstDMA <==> reqs == [])
      && (reqs != [] ==> tailDMADesc == ring[SlotOf(|reqs| - 1)])
    }

    ghost predicate Valid()
      reads this, ring, engine
    {
      Inv() && T == |reqs|
    }

    constructor (capacity: nat)
      requires IsPow2(capacity) && capacity <= 0x8000_0000
      ensures Valid() && this.capacity == capacity && reqs == [] && fresh(ring) && fresh(engine)
    {
      this.capacity := capacity;
      head, tail := 0, 0;
      isFirstDMA, tailDMADesc := true, null;
      H, T, E, reqs, complete := 0, 0, 0, [], {};
      var slots: seq<DmaDesc2D> := [];
      while |slots| < capacity
        invariant |slots| <= capacity && fresh(slots)
        invariant forall i, j :: 0 <= i < j < |slots| ==> slots[i] != slots[j]
      {
        var d := new DmaDesc2D();
        slots := slots + [d];
      }
      ring := slots;
      engine := new DmaEngine();
    }

    // The number of live tokens, whatever the wraps so far.
    method Size() returns (n: nat)
      requires Inv()
      ensures n == T - H
    {
      hide Current, SlotOf, IsPow2;
      if head <= tail {
        return tail - head;
      }
      return (TWO32 - 1) - head + tail + 1;
    }

    method IsFull() returns (full: bool)
      requires Inv()
      ensures full <==> T - H == capacity
    {
      hide Inv;
      var n := Size();
      return n == capacity;
    }

    method GetDataPtr(token: uint32, ghost g: nat) returns (d: DmaDesc2D)
      requires Shape() && token == g % TWO32
      ensures d == ring[SlotOf(g)]
    {
      SlotOfToken(g, capacity);
      return ring[token % capacity];
    }

    // The engine may finish any of the outstanding transfers, in any order,
    // whenever the host looks.
    method EngineSteps()
      requires Valid()
      modifies this`complete, this`E, engine, ring
      ensures Valid() && old(complete) <= complete
    {
      hide Current, SlotOf, IsPow2;
      var n := Size();
      for i := 0 to n
        invariant Valid() && old(complete) <= complete && n == T - H
      {
        TokenAhead(H, i);
        var d := GetDataPtr((head + i) % TWO32, H + i);
        var finish: bool := *;
        if finish && !d.Done() {
          Finish(d, H + i);
        }
      }
    }

    method Finish(d: DmaDesc2D, ghost g: nat)
      requires Valid() && H <= g < T && d == ring[SlotOf(g)]
      modifies this`complete, this`E, engine, d
      ensures Valid() && complete == old(complete) + {g}
    {
      hide IsPow2, SlotOf, DmaDesc2D.Asks, DmaDesc2D.Done, DmaDesc2D.LinkedTo, DmaDesc2D.Ends, Decode, Split;
      assert Current(g);
      d.Complete(reqs[g]);
      complete := complete + {g};
      forall h: nat | h < |reqs| && T <= h + capacity ensures Current(h) && Linked(h) {
        assert old(Current(h) && Linked(h));
        if h != g { OtherSlot(g, h); }
      }
      GoOn();
    }

    // The engine goes on to the next descriptor as long as it is at a finished one.
    ghost method GoOn()
      requires Shape() && reqs != [] && H <= |reqs| == T <= H + capacity
      requires E < |reqs| && engine.at == ring[SlotOf(E)] && forall g: nat :: g < E ==> g in complete
      requires forall g :: g in complete ==> g < |reqs|
      requires forall g: nat :: g < H ==> g in complete
      requires forall g: nat :: g < |reqs| && T <= g + capacity ==> Current(g) && Linked(g)
      requires H <= E || E + 1 == |reqs|
      modifies this`E, engine
      ensures EngineAt() && forall g: nat :: g < |reqs| && T <= g + capacity ==> Current(g) && Linked(g)
    {
      hide IsPow2, SlotOf, DmaDesc2D.Asks, DmaDesc2D.Done, Decode, Split;
      while E in complete && E + 1 < |reqs|
        invariant E < |reqs| && engine.at == ring[SlotOf(E)]
        invariant forall g: nat :: g < E ==> g in complete
        invariant H <= E || E + 1 == |reqs|
        decreases |reqs| - E
      {
        assert Current(E) && Linked(E);
        engine.Fetch();
        E := E + 1;
      }
    }

    lemma OtherSlot(g: nat, h: nat)
      requires Shape() && g != h && g < h + capacity && h < g + capacity
      ensures ring[SlotOf(g)] != ring[SlotOf(h)]
    {
      if g < h { SlotsDiffer(g, h, capacity); } else { SlotsDiffer(h, g, capacity); }
    }

    method InFlight(d: DmaDesc2D) returns (b: bool)
      requires Valid() && d in ring
      modifies this`complete, this`E, engine, ring
      ensures Valid() && old(complete) <= complete && b == !d.Done()
    {
      hide Valid;
      EngineSteps();
      return !d.Done();
    }

    // One pass of alloc over a full ring: free the finished prefix.
    method FreeFinished()
      requires Valid()
      modifies this`head, this`H, this`complete, this`E, engine, ring
      ensures Valid() && old(complete) <= complete && old(H) <= H
      ensures old(H) < T && old(H) in old(complete) ==> old(H) < H
      ensures H < T ==> H !in complete
    {
      hide SlotOf, IsPow2, DmaDesc2D.Asks, DmaDesc2D.Done, Decode;
      var numFreed := 0;
      var sampledSize := Size();
      while true
        invariant Valid() && old(complete) <= complete
        invariant H == old(H) + numFreed && numFreed <= sampledSize == T - old(H)
        decreases sampledSize - numFreed
      {
        var d := GetDataPtr(head, H);
        var inFlight := InFlight(d);
        assert H < T ==> Current(H);
        if inFlight || numFreed >= sampledSize {
          break;
        }
        FreeHead();
        numFreed := numFreed + 1;
      }
      if numFreed == sampledSize {
        assert head == tail;
      }
    }

    method FreeHead()
      requires Valid() && H < T && H in complete
      modifies this`head, this`H
      ensures Valid() && H == old(H) + 1
    {
      hide SlotOf, IsPow2, DmaDesc2D.Asks, DmaDesc2D.Done, Decode;
      TokenAhead(H, 1);
      head := (head + 1) % TWO32;
      H := H + 1;
      assert forall g: nat :: g < |reqs| ==> old(Current(g)) ==> Current(g);
    }

    // `patience` bounds the passes over a ring that stays full; the source
    // keeps polling.
    method Alloc(patience: nat) returns (ok: bool, token: uint32, d: DmaDesc2D)
      requires Valid()
      modifies this`head, this`tail, this`H, this`T, this`complete, this`E, engine, ring
      ensures Inv() && old(complete) <= complete && T == |reqs| + if ok then 1 else 0
      ensures ok ==> token == |reqs| % TWO32 && d == ring[SlotOf(|reqs|)] && d in ring
      ensures ok ==> forall g: nat :: g < |reqs| && g !in complete ==> ring[SlotOf(g)] != d
      ensures old(T - H) < capacity || (patience > 0 && old(H) in old(complete)) ==> ok
    {
      hide SlotOf, DmaDesc2D.Asks, DmaDesc2D.Done, Decode;
      var full := IsFull();
      var budget: nat := patience;
      while full
        invariant Valid() && old(complete) <= complete && (full <==> T - H == capacity) && T == old(T)
        invariant budget < patience && old(H) in old(complete) ==> !full
        invariant budget == patience ==> H == old(H)
        invariant old(T - H) < capacity ==> budget == patience
        decreases budget
      {
        if budget == 0 {
          return false, 0, ring[0];
        }
        budget := budget - 1;
        FreeFinished();
        full := IsFull();
      }
      token := tail;
      d := GetDataPtr(token, T);
      Reserve();
      return true, token, d;
    }

    method Reserve()
      requires Valid() && T < H + capacity
      modifies this`tail, this`T
      ensures Inv() && T == old(T) + 1
      ensures forall g: nat :: g < |reqs| && g !in complete ==> ring[SlotOf(g)] != ring[SlotOf(|reqs|)]
    {
      hide SlotOf, IsPow2, DmaDesc2D.Asks, DmaDesc2D.Done, Decode;
      TokenAhead(T, 1);
      tail := (tail + 1) % TWO32;
      T := T + 1;
      forall g: nat | g < |reqs| && g !in complete ensures ring[SlotOf(g)] != ring[SlotOf(|reqs|)] {
        OtherSlot(g, |reqs|);
      }
      assert forall g: nat :: g < |reqs| ==> old(Current(g)) ==> Current(g);
    }

    // Writing the reserved slot disturbs no transfer still described by its own.
    method Program(d: DmaDesc2D, r: Request)
      requires Inv() && T == |reqs| + 1 && d == ring[SlotOf(|reqs|)] && (r.Linear? ==> r.length <= LENGTH_MASK)
      modifies d
      ensures Inv() && d.Asks(Truncated(r)) && !d.Done() && d.Ends()
    {
      hide SlotOf, IsPow2, DmaDesc2D.Asks, DmaDesc2D.Done, DmaDesc2D.LinkedTo, DmaDesc2D.Ends, Decode;
      match r {
        case Linear(_, _, _, _, _) => d.ProgramLinear(r);
        case Box(_, _, _, _, _, _, _, _) => d.ProgramBox(r);
      }
      forall g: nat | g < |reqs| && T <= g + capacity ensures Current(g) && Linked(g) {
        assert old(Current(g) && Linked(g));
        OtherSlot(g, |reqs|);
      }
    }

    // Between the link and the record of a new transfer: its descriptor ends the chain.
    ghost predicate Chained(d: DmaDesc2D)
      reads this`head, this`tail, this`isFirstDMA, this`H, this`T, this`E, this`reqs, this`complete, ring, engine
    {
      && Shape()
      && H <= |reqs| && T == |reqs| + 1 <= H + capacity && head == H % TWO32 && tail == T % TWO32
      && (forall g :: g in complete ==> g < |reqs|)
      && (forall g: nat :: g < H ==> g in complete)
      && d == ring[SlotOf(|reqs|)] && !d.Done() && !isFirstDMA
      && (forall g: nat :: g < |reqs| && T <= g + capacity ==> Current(g) && (g + 1 < |reqs| ==> Linked(g)))
      && E <= |reqs| && E !in complete && engine.at == ring[SlotOf(E)] && (forall g: nat :: g < E ==> g in complete)
      && if reqs == [] then d.Ends()
         else if capacity == 1 then d.LinkedTo(d)
         else d.Ends() && ring[SlotOf(|reqs| - 1)].LinkedTo(d)
    }

    // The link goes out from the slot of the previous transfer, which nothing has reused, and
    // which is the new slot itself only in a ring of one.
    method LinkTail(last: DmaDesc2D, d: DmaDesc2D)
      requires Inv() && T == |reqs| + 1 && d == ring[SlotOf(|reqs|)] && !d.Done() && d.Ends()
      requires last == tailDMADesc && reqs != []
      modifies this`E, engine, last`nextState, last`successor
      ensures Chained(d) && last.LinkedTo(d)
    {
      hide IsPow2, SlotOf, DmaDesc2D.Asks, DmaDesc2D.GetDone, DmaDesc2D.LinkedTo, DmaDesc2D.Ends, Decode;
      ghost var n := |reqs| - 1;
      NextSlot(n);
      assert capacity > 1 ==> Current(n) && Linked(n);
      if E !in complete && E < n { OtherSlot(E, n); }
      engine.DmLink(last, d);
      if E in complete {
        E := E + 1;
      }
      forall g: nat | g <= n && T <= g + capacity ensures Current(g) && (g < n ==> Linked(g)) {
        assert old(Current(g) && Linked(g));
        if g < n { OtherSlot(g, n); }
      }
      if capacity == 1 { OnlySlot(); }
    }

    lemma OnlySlot()
      requires Shape() && capacity == 1
      ensures forall g: nat :: SlotOf(g) == 0
    {
    }

    method StartFirst(d: DmaDesc2D)
      requires Inv() && T == |reqs| + 1 && d == ring[SlotOf(|reqs|)] && !d.Done() && d.Ends() && isFirstDMA
      modifies this`isFirstDMA, engine
      ensures Chained(d) && engine.at == d
    {
      hide IsPow2, SlotOf, DmaDesc2D.Asks, DmaDesc2D.GetDone, DmaDesc2D.LinkedTo, DmaDesc2D.Ends, Decode;
      engine.DmStart(d);
      isFirstDMA := false;
    }

    lemma TailOfChain()
      requires Inv()
      ensures Shape() && |ring| == capacity > 0
      ensures isFirstDMA <==> reqs == []
      ensures reqs != [] ==> tailDMADesc == ring[SlotOf(|reqs| - 1)]
      ensures reqs != [] && T == |reqs| + 1 && capacity > 1 ==> Current(|reqs| - 1)
    {
      hide Current, Linked, EngineAt;
    }

    // dmstart or dmlink, then remember the new tail of the chain.
    method Submit(d: DmaDesc2D, ghost r: Request)
      requires Inv() && T == |reqs| + 1 && d == ring[SlotOf(|reqs|)] && d.Asks(r) && !d.Done() && d.Ends()
      modifies this`isFirstDMA, this`tailDMADesc, this`reqs, this`E, engine, ring
      ensures Valid() && reqs == old(reqs) + [r]
      ensures old(reqs) == [] ==> engine.at == d && d.Ends()
      ensures old(reqs) != [] ==>
              ring[SlotOf(|reqs| - 2)].LinkedTo(d) && (ring[SlotOf(|reqs| - 2)] != d <==> capacity > 1)
      ensures old(reqs) != [] && capacity > 1 ==> old(Current(|reqs| - 1))
    {
      hide *;
      TailOfChain();
      if isFirstDMA {
        StartFirst(d);
      } else {
        NextSlot(|reqs| - 1);
        LinkTail(tailDMADesc, d);
      }
      tailDMADesc := d;
      Record(d, r);
    }

    ghost method Record(d: DmaDesc2D, r: Request)
      requires Chained(d) && d.Asks(r) && tailDMADesc == d
      modifies this`reqs
      ensures Valid() && reqs == old(reqs) + [r]
    {
      hide IsPow2, SlotOf, DmaDesc2D.Asks, DmaDesc2D.GetDone, DmaDesc2D.LinkedTo, DmaDesc2D.Ends, Decode;
      ghost var n := |reqs|;
      reqs := reqs + [r];
      if capacity == 1 { OnlySlot(); }
      forall g: nat | g <= n && T <= g + capacity ensures Current(g) && Linked(g) {
        assert g < n ==> old(Current(g) && (g + 1 < n ==> Linked(g)));
      }
    }

    lemma NextSlot(g: nat)
      requires Shape()
      ensures ring[SlotOf(g)] != ring[SlotOf(g + 1)] <==> capacity > 1
    {
      if capacity > 1 { OtherSlot(g, g + 1); }
    }

    // ----- what the engine reaches -----

    // The descriptor n links further on.
    ghost function Hop(d: DmaDesc2D?, n: nat): DmaDesc2D?
      reads ring
      decreases n
    {
      if n == 0 || d == null || d !in ring then d else Hop(d.successor, n - 1)
    }

    lemma LinkHere(g: nat)
      requires Valid() && E <= g < |reqs|
      ensures Linked(g) && |ring| == capacity && ring[SlotOf(g)] in ring
    {
    }

    lemma {:induction false} HopFrom(g: nat, n: nat)
      requires Valid() && capacity > 1 && E <= g && g + n < |reqs|
      ensures Hop(ring[SlotOf(g)], n) == ring[SlotOf(g + n)]
      decreases n
    {
      hide Valid, SlotOf;
      LinkHere(g);
      if n > 0 { HopFrom(g + 1, n - 1); }
    }

    lemma {:induction false} HopPast(g: nat)
      requires Valid() && capacity > 1 && E <= g < |reqs|
      ensures Hop(ring[SlotOf(g)], |reqs| - g) == null
      decreases |reqs| - g
    {
      hide Valid, SlotOf;
      LinkHere(g);
      if g + 1 < |reqs| {
        HopPast(g + 1);
      } else {
        assert Hop(ring[SlotOf(g)].successor, 0) == null;
      }
    }

    // From the descriptor the engine is at, the links lead through the slots of all transfers
    // since, in the order of their tokens, and end behind the last; what it has not finished
    // is among them.
    lemma EngineReachesAll()
      requires Valid() && capacity > 1 && reqs != []
      ensures E < |reqs| && forall g: nat :: g < |reqs| && g !in complete ==> E <= g
      ensures forall g: nat :: E <= g < |reqs| ==> Hop(engine.at, g - E) == ring[SlotOf(g)]
      ensures Hop(engine.at, |reqs| - E) == null
    {
      hide SlotOf, Current, Linked;
      forall g: nat | E <= g < |reqs| ensures Hop(engine.at, g - E) == ring[SlotOf(g)] { HopFrom(E, g - E); }
      HopPast(E);
    }

    lemma {:induction false} RoundAndRound(n: nat)
      requires Shape() && capacity == 1 && ring[0].successor == ring[0]
      ensures Hop(ring[0], n) == ring[0]
    {
      if n > 0 { RoundAndRound(n - 1); }
    }

    // A ring of one sends the engine round for ever from the second transfer on.
    lemma ChainEndsIff()
      requires Valid() && reqs != []
      ensures (exists n :: Hop(engine.at, n) == null) <==> capacity > 1 || |reqs| == 1
    {
      hide Current, IsPow2;
      if capacity > 1 {
        EngineReachesAll();
        var n: nat := |reqs| - E;
        assert Hop(engine.at, n) == null;
      } else {
        OnlySlot();
        LinkHere(|reqs| - 1);
        if |reqs| == 1 {
          assert Hop(ring[0].successor, 0) == null;
          var n: nat := 1;
          assert Hop(engine.at, n) == null;
        } else {
          forall n: nat ensures Hop(engine.at, n) != null { RoundAndRound(n); }
        }
      }
    }

    // ----- copying and waiting -----

    method Copy(src: bv64, dst: bv64, numBytes: bv32, bypassCacheSrc: bool, bypassCacheDst: bool, patience: nat)
      returns (out: Outcome)
      requires Valid()
      modifies this, engine, ring
      ensures Inv() && old(complete) <= complete
      ensures !Addressable(src) || !Addressable(dst) || numBytes > LENGTH_MASK ==>
        out == Returned(Failure, 0) && Valid() && reqs == old(reqs) && H == old(H)
      ensures Addressable(src) && Addressable(dst) && numBytes <= LENGTH_MASK ==>
        Issued(out, old(reqs), Linear(src as bv32, dst as bv32, numBytes, bypassCacheSrc, bypassCacheDst))
      ensures old(T - H) < capacity || (patience > 0 && old(H) in old(complete)) ==> out.Returned?
    {
      hide SlotOf, Shape, Current, DmaDesc2D.Asks, DmaDesc2D.Done, Decode;
      if numBytes > LENGTH_MASK || !Addressable(src) || !Addressable(dst) {
        return Returned(Failure, 0);
      }
      var ok, token, d := Alloc(patience);
      if !ok {
        return Spinning;
      }
      var r := Linear(src as bv32, dst as bv32, numBytes, bypassCacheSrc, bypassCacheDst);
      Program(d, r);
      Submit(d, r);
      return Returned(Success, token);
    }

    // A call that was neither refused nor left polling: the next token, for
    // the transfer asked for, in a slot no unfinished transfer holds.
    ghost predicate Issued(out: Outcome, before: seq<Request>, r: Request)
      reads this, ring, engine
    {
      && Valid()
      && if out.Spinning? then reqs == before
         else
           && out == Returned(Success, |before| % TWO32) && reqs == before + [r]
           && (capacity > 0 ==> forall g: nat :: g < |before| && g !in complete ==> SlotOf(g) != SlotOf(|before|))
    }

    method Copy2D(src: bv64, dst: bv64, width: bv32, height: bv32, srcStride: bv32, dstStride: bv32,
                  bypassCacheSrc: bool, bypassCacheDst: bool, patience: nat)
      returns (out: Outcome)
      requires Valid()
      modifies this, engine, ring
      ensures Inv() && old(complete) <= complete
      ensures !Addressable(src) || !Addressable(dst) ==>
        out == Returned(Failure, 0) && Valid() && reqs == old(reqs) && H == old(H)
      ensures Addressable(src) && Addressable(dst) ==>
        Issued(out, old(reqs),
          Truncated(Box(src as bv32, dst as bv32, width, height, srcStride, dstStride, bypassCacheSrc, bypassCacheDst)))
      ensures old(T - H) < capacity || (patience > 0 && old(H) in old(complete)) ==> out.Returned?
    {
      hide SlotOf, Shape, Current, DmaDesc2D.Asks, DmaDesc2D.Done, Decode;
      if !Addressable(src) || !Addressable(dst) {
        return Returned(Failure, 0);
      }
      var ok, token, d := Alloc(patience);
      if !ok {
        return Spinning;
      }
      var r := Box(src as bv32, dst as bv32, width, height, srcStride, dstStride, bypassCacheSrc, bypassCacheDst);
      Program(d, r);
      Submit(d, Truncated(r));
      return Returned(Success, token);
    }

    // When wait comes back the awaited transfer is complete, even if its slot
    // has since gone to later transfers.
    method Wait(token: uint32, ghost g: nat, patience: nat) returns (ok: bool)
      requires Valid() && g < |reqs| && token == g % TWO32
      modifies this`complete, this`E, engine, ring
      ensures Valid() && old(complete) <= complete
      ensures ok ==> g in complete
      ensures ok <== patience > 0 && forall h: nat :: h < |reqs| ==> h in old(complete)
    {
      var d := GetDataPtr(token, g);
      var budget: nat := patience;
      while budget > 0
        invariant Valid() && old(complete) <= complete
        invariant budget < patience ==> exists h: nat :: h < |reqs| && h !in old(complete)
      {
        budget := budget - 1;
        var inFlight := InFlight(d);
        ghost var last := LastInSlot(g);
        if !inFlight {
          return true;
        }
      }
      return false;
    }

    // The latest transfer of a slot, and so the one its done bit is about.
    lemma LastInSlot(g: nat) returns (h: nat)
      requires Valid() && g < |reqs|
      ensures g <= h < |reqs| && SlotOf(h) == SlotOf(g) && Current(h)
      ensures h in complete ==> g in complete
    {
      h := g;
      while h + capacity < |reqs|
        invariant g <= h < |reqs| && SlotOf(h) == SlotOf(g)
        invariant h != g ==> g + capacity < |reqs|
      {
        ModAdd(capacity, h, capacity);
        h := h + capacity;
      }
    }
  }

  // On a new ring a copy of a box 65536 wide succeeds, and asks the engine for one 0 wide.
  method WideBoxIsLost(capacity: nat, height: bv32, srcStride: bv32, dstStride: bv32) returns (u: UserDma, out: Outcome)
    requires IsPow2(capacity) && capacity <= 0x8000_0000
    ensures out == Returned(Success, 0) && |u.ring| == capacity > 0
    ensures Decode(u.ring[0].flags).descType == 1 && Split(u.ring[0].roi).low == 0
  {
    u := new UserDma(capacity);
    out := u.Copy2D(4096, 8192, 65536, height, srcStride, dstStride, false, false, 0);
    assert u.Current(0);
  }
}
