// HexagonThreadPool.cpp as atomic steps at lock granularity: enqueuers, worker
// threads, threads in wait(), and the destructor.
module ThreadPool {

  // A worker before its lock-and-test, blocked in condition.wait, inside a
  // task, between the task and the decrement of activeTasks, or gone.
  datatype Worker = AtLock | Asleep | InTask(task: nat) | Finishing | Exited

  // A thread in wait(): about to test activeTasks, blocked, or back.
  datatype Waiter = Checking | Sleeping | Returned

  // pushing: an enqueuer holds the queue lock between tasks.push and
  // ++activeTasks.  notifies: notify_one calls still to come.  ran[t] counts
  // the executions of the t-th task pushed.
  datatype Pool = Pool(queue: seq<nat>, workers: seq<Worker>, stop: bool, active: int, pushing: bool, notifies: nat,
                       stopNotify: bool, waiters: seq<Waiter>, ran: seq<nat>)

  datatype Step =
    | Push | CountTask | NotifyOne(w: nat) | Spurious(w: nat)
    | Test(w: nat) | RunTask(w: nat) | Finish(w: nat)
    | SetStop | NotifyAll
    | Wait | CheckDone(v: nat)

  ghost function Init(numThreads: nat): Pool {
    Pool([], seq(numThreads, _ => AtLock), false, 0, false, 0, false, [], [])
  }

  ghost predicate AllExited(s: Pool) { forall w :: 0 <= w < |s.workers| ==> s.workers[w].Exited? }
  ghost predicate NoneAsleep(s: Pool) { forall w :: 0 <= w < |s.workers| ==> !s.workers[w].Asleep? }

  ghost predicate Enabled(s: Pool, x: Step) {
    match x
    case Push => !s.pushing
    case CountTask => s.pushing
    case NotifyOne(w) => s.notifies > 0 && ((w < |s.workers| && s.workers[w].Asleep?) || NoneAsleep(s))
    case Spurious(w) => w < |s.workers| && s.workers[w].Asleep?
    case Test(w) => w < |s.workers| && s.workers[w].AtLock? && !s.pushing
    case RunTask(w) => w < |s.workers| && s.workers[w].InTask? && s.workers[w].task < |s.ran|
    case Finish(w) => w < |s.workers| && s.workers[w].Finishing?
    case SetStop => !s.stop && !s.pushing
    case NotifyAll => s.stopNotify
    case Wait => true
    case CheckDone(v) => v < |s.waiters| && s.waiters[v].Checking?
  }

  ghost function WakeAll(ws: seq<Worker>): (r: seq<Worker>)
    ensures |r| == |ws|
  {
    seq(|ws|, w requires 0 <= w < |ws| => if ws[w].Asleep? then AtLock else ws[w])
  }

  ghost function WakeWaiters(vs: seq<Waiter>): (r: seq<Waiter>)
    ensures |r| == |vs|
  {
    seq(|vs|, v requires 0 <= v < |vs| => if vs[v].Sleeping? then Checking else vs[v])
  }

  ghost function Apply(s: Pool, x: Step): Pool
    requires Enabled(s, x)
  {
    match x
    case Push => s.(queue := s.queue + [|s.ran|], ran := s.ran + [0], pushing := true)
    case CountTask => s.(active := s.active + 1, pushing := false, notifies := s.notifies + 1)
    case NotifyOne(w) =>
      var s' := s.(notifies := s.notifies - 1);
      if w < |s.workers| && s.workers[w].Asleep? then s'.(workers := s.workers[w := AtLock]) else s'
    case Spurious(w) => s.(workers := s.workers[w := AtLock])
    case Test(w) =>
      if s.stop && s.queue == [] then s.(workers := s.workers[w := Exited])
      else if s.queue == [] then s.(workers := s.workers[w := Asleep])
      else s.(workers := s.workers[w := InTask(s.queue[0])], queue := s.queue[1..])
    case RunTask(w) =>
      var t := s.workers[w].task;
      s.(workers := s.workers[w := Finishing], ran := s.ran[t := s.ran[t] + 1])
    case Finish(w) =>
      s.(workers := s.workers[w := AtLock], active := s.active - 1,
         waiters := if s.active == 1 then WakeWaiters(s.waiters) else s.waiters)
    case SetStop => s.(stop := true, stopNotify := true)
    case NotifyAll => s.(stopNotify := false, workers := WakeAll(s.workers))
    case Wait => s.(waiters := s.waiters + [Checking])
    case CheckDone(v) => s.(waiters := s.waiters[v := if s.active == 0 then Returned else Sleeping])
  }

  // ----- the invariant -----

  ghost function Busy(ws: seq<Worker>): nat {
    if ws == [] then 0 else Busy(ws[..|ws| - 1]) + if ws[|ws| - 1].InTask? || ws[|ws| - 1].Finishing? then 1 else 0
  }

  lemma {:induction false} BusyUpdate(ws: seq<Worker>, w: nat, x: Worker)
    requires w < |ws|
    ensures Busy(ws[w := x]) == Busy(ws) - (if ws[w].InTask? || ws[w].Finishing? then 1 else 0)
                                         + (if x.InTask? || x.Finishing? then 1 else 0)
  {
    var last := |ws| - 1;
    if w == last {
      assert ws[w := x][..last] == ws[..last];
    } else {
      assert ws[w := x][..last] == ws[..last][w := x];
      BusyUpdate(ws[..last], w, x);
    }
  }

  lemma {:induction false} BusyWake(ws: seq<Worker>)
    ensures Busy(WakeAll(ws)) == Busy(ws)
  {
    if ws != [] {
      BusyWake(ws[..|ws| - 1]);
      assert WakeAll(ws)[..|ws| - 1] == WakeAll(ws[..|ws| - 1]);
    }
  }

  lemma {:induction false} BusySome(ws: seq<Worker>)
    ensures Busy(ws) == 0 <==> forall w :: 0 <= w < |ws| ==> !ws[w].InTask? && !ws[w].Finishing?
  {
    if ws != [] { BusySome(ws[..|ws| - 1]); }
  }

  // A worker that will look at the queue without being woken.
  ghost predicate SomeoneUp(s: Pool) {
    exists w :: 0 <= w < |s.workers| && Up(s.workers[w])
  }

  ghost predicate Up(x: Worker) { x.AtLock? || x.InTask? || x.Finishing? }

  // Tasks are numbered as pushed and the queue is first in, first out, so the
  // queue holds the last |queue| numbers.
  ghost function Popped(s: Pool): int { |s.ran| - |s.queue| }

  // A popped task has run once, or exactly one worker is about to run it.
  ghost predicate TaskInv(s: Pool, t: nat)
    requires t < |s.ran|
  {
    && s.ran[t] <= 1
    && (s.ran[t] == 0 && t < Popped(s) ==> exists w :: 0 <= w < |s.workers| && s.workers[w] == InTask(t))
    && (s.ran[t] == 1 ==> t < Popped(s))
  }

  ghost predicate HeldOnce(s: Pool) {
    && (forall w :: 0 <= w < |s.workers| && s.workers[w].InTask? ==>
         s.workers[w].task < |s.ran| && s.workers[w].task < Popped(s) && s.ran[s.workers[w].task] == 0)
    && (forall w, v :: 0 <= w < v < |s.workers| && s.workers[w].InTask? && s.workers[v].InTask? ==>
         s.workers[w].task != s.workers[v].task)
  }

  ghost predicate Tasks(s: Pool) {
    && |s.queue| <= |s.ran|
    && (forall i :: 0 <= i < |s.queue| ==> s.queue[i] == Popped(s) + i)
    && (forall t :: 0 <= t < |s.ran| ==> TaskInv(s, t))
    && HeldOnce(s)
  }

  ghost predicate Inv(s: Pool) {
    && s.active + (if s.pushing then 1 else 0) == |s.queue| + Busy(s.workers)
    && (s.pushing ==> s.queue != [])
    && Tasks(s)
    && (s.queue != [] ==> s.pushing || s.notifies > 0 || SomeoneUp(s) || NoneAsleep(s))
    && (s.stop && !NoneAsleep(s) ==> s.stopNotify)
    && (forall v :: 0 <= v < |s.waiters| && s.waiters[v].Sleeping? ==> s.active > 0)
  }

  // No worker is left for the queue.
  ghost predicate Stranded(s: Pool) { AllExited(s) && s.queue != [] }

  lemma InitInv(numThreads: nat)
    ensures Inv(Init(numThreads))
  {
    BusySome(Init(numThreads).workers);
  }

  lemma PushKeeps(s: Pool)
    requires Inv(s) && Enabled(s, Push)
    ensures Inv(Apply(s, Push))
  {
    var s' := Apply(s, Push);
    forall t | 0 <= t < |s'.ran| ensures TaskInv(s', t) {
      if t < |s.ran| { assert TaskInv(s, t); }
    }
  }

  lemma SameTasks(s: Pool, s': Pool)
    requires Tasks(s) && s'.queue == s.queue && s'.ran == s.ran && |s'.workers| == |s.workers|
    requires forall w :: 0 <= w < |s.workers| ==>
             s'.workers[w] == s.workers[w] || (!s'.workers[w].InTask? && !s.workers[w].InTask?)
    ensures Tasks(s')
  {
    forall t | 0 <= t < |s'.ran| ensures TaskInv(s', t) {
      assert TaskInv(s, t);
      if s.ran[t] == 0 && t < Popped(s) {
        var w :| 0 <= w < |s.workers| && s.workers[w] == InTask(t);
        assert s'.workers[w] == InTask(t);
      }
    }
  }

  lemma StillUp(s: Pool, s': Pool)
    requires SomeoneUp(s) && |s'.workers| == |s.workers|
    requires forall w :: 0 <= w < |s.workers| && Up(s.workers[w]) ==> Up(s'.workers[w])
    ensures SomeoneUp(s')
  {
    var w :| 0 <= w < |s.workers| && Up(s.workers[w]);
    assert Up(s'.workers[w]);
  }

  lemma WakeOneKeeps(s: Pool, x: Step)
    requires Inv(s) && Enabled(s, x) && (x.NotifyOne? || x.Spurious?)
    ensures Inv(Apply(s, x))
  {
    hide Tasks, TaskInv, HeldOnce, Busy;
    var s' := Apply(s, x);
    SameTasks(s, s');
    if x.w < |s.workers| && s.workers[x.w].Asleep? {
      BusyUpdate(s.workers, x.w, AtLock);
      assert Up(s'.workers[x.w]);
      assert !s'.workers[x.w].Exited?;
    }
    if !NoneAsleep(s') {
      var w :| 0 <= w < |s'.workers| && s'.workers[w].Asleep?;
      assert s.workers[w].Asleep?;
    }
  }

  lemma TestKeeps(s: Pool, w: nat)
    requires Inv(s) && Enabled(s, Test(w))
    ensures Inv(Apply(s, Test(w)))
  {
    var s' := Apply(s, Test(w));
    BusyUpdate(s.workers, w, s'.workers[w]);
    if s.queue == [] {
      SameTasks(s, s');
      if !NoneAsleep(s') && s.stop {
        var v :| 0 <= v < |s'.workers| && s'.workers[v].Asleep?;
        assert s.workers[v].Asleep?;
      }
    } else {
      assert Up(s'.workers[w]);
      PopKeepsTasks(s, s', w);
      if !NoneAsleep(s') {
        var v :| 0 <= v < |s'.workers| && s'.workers[v].Asleep?;
        assert s.workers[v].Asleep?;
      }
    }
  }

  lemma PopKeepsTasks(s: Pool, s': Pool, w: nat)
    requires Tasks(s) && w < |s.workers| && s.workers[w].AtLock? && s.queue != []
    requires s'.queue == s.queue[1..] && s'.ran == s.ran && s'.workers == s.workers[w := InTask(s.queue[0])]
    ensures Tasks(s')
  {
    forall t | 0 <= t < |s'.ran| ensures TaskInv(s', t) {
      assert TaskInv(s, t);
      if t == s.queue[0] {
        assert s'.workers[w] == InTask(t);
      } else if s.ran[t] == 0 && t < Popped(s) {
        var v :| 0 <= v < |s.workers| && s.workers[v] == InTask(t);
        assert s'.workers[v] == InTask(t);
      }
    }
    assert TaskInv(s, s.queue[0]);
  }

  lemma RunTaskKeeps(s: Pool, w: nat)
    requires Inv(s) && Enabled(s, RunTask(w))
    ensures Inv(Apply(s, RunTask(w)))
  {
    var s' := Apply(s, RunTask(w));
    BusyUpdate(s.workers, w, Finishing);
    forall t | 0 <= t < |s'.ran| ensures TaskInv(s', t) {
      assert TaskInv(s, t);
      if t != s.workers[w].task && s.ran[t] == 0 && t < Popped(s) {
        var v :| 0 <= v < |s.workers| && s.workers[v] == InTask(t);
        assert s'.workers[v] == InTask(t);
      }
    }
    assert Up(s'.workers[w]);
    if !NoneAsleep(s') {
      var v :| 0 <= v < |s'.workers| && s'.workers[v].Asleep?;
      assert s.workers[v].Asleep?;
    }
  }

  lemma FinishKeeps(s: Pool, w: nat)
    requires Inv(s) && Enabled(s, Finish(w))
    ensures Inv(Apply(s, Finish(w)))
  {
    var s' := Apply(s, Finish(w));
    BusyUpdate(s.workers, w, AtLock);
    SameTasks(s, s');
    assert Up(s'.workers[w]);
    if !NoneAsleep(s') {
      var v :| 0 <= v < |s'.workers| && s'.workers[v].Asleep?;
      assert s.workers[v].Asleep?;
    }
  }

  lemma NotifyAllKeeps(s: Pool)
    requires Inv(s) && Enabled(s, NotifyAll)
    ensures Inv(Apply(s, NotifyAll))
  {
    var s' := Apply(s, NotifyAll);
    BusyWake(s.workers);
    SameTasks(s, s');
    if AllExited(s') {
      forall w | 0 <= w < |s.workers| ensures s.workers[w].Exited? { assert s'.workers[w].Exited?; }
    }
  }

  lemma SameWorkers(s: Pool, s': Pool)
    requires s'.workers == s.workers
    ensures SomeoneUp(s) ==> SomeoneUp(s')
    ensures NoneAsleep(s) == NoneAsleep(s') && AllExited(s) == AllExited(s')
  {
    if SomeoneUp(s) { StillUp(s, s'); }
  }

  lemma PlainKeeps(s: Pool, x: Step)
    requires Inv(s) && Enabled(s, x) && (x.CountTask? || x.SetStop? || x.Wait? || x.CheckDone?)
    ensures Inv(Apply(s, x))
  {
    hide TaskInv, HeldOnce, Tasks, SomeoneUp, NoneAsleep, AllExited;
    SameTasks(s, Apply(s, x));
    SameWorkers(s, Apply(s, x));
    if x.SetStop? && !NoneAsleep(s) { assert Apply(s, x).stopNotify; }
  }

  lemma StepKeeps(s: Pool, x: Step)
    requires Inv(s) && Enabled(s, x)
    ensures Inv(Apply(s, x))
  {
    hide Inv, Apply, Enabled;
    match x
    case Push => PushKeeps(s);
    case NotifyOne(_) => WakeOneKeeps(s, x);
    case Spurious(_) => WakeOneKeeps(s, x);
    case Test(w) => TestKeeps(s, w);
    case RunTask(w) => RunTaskKeeps(s, w);
    case Finish(w) => FinishKeeps(s, w);
    case NotifyAll => NotifyAllKeeps(s);
    case _ => PlainKeeps(s, x);
  }

  // ----- whole runs -----

  // s' is reached from s by the steps xs, each enabled when taken.
  ghost predicate Runs(s: Pool, xs: seq<Step>, s': Pool)
    decreases |xs|
  {
    if xs == [] then s' == s
    else Enabled(s, xs[0]) && Runs(Apply(s, xs[0]), xs[1..], s')
  }

  lemma {:induction false} RunKeeps(s: Pool, xs: seq<Step>, s': Pool)
    requires Inv(s) && Runs(s, xs, s')
    ensures Inv(s')
    decreases |xs|
  {
    hide Inv, Apply, Enabled;
    if xs != [] {
      StepKeeps(s, xs[0]);
      RunKeeps(Apply(s, xs[0]), xs[1..], s');
    }
  }

  // Some task of the run is pushed when every worker has gone.
  ghost predicate LatePush(s: Pool, xs: seq<Step>)
    decreases |xs|
  {
    xs != [] && Enabled(s, xs[0]) && ((xs[0].Push? && AllExited(s)) || LatePush(Apply(s, xs[0]), xs[1..]))
  }

  lemma StrandedStep(s: Pool, x: Step)
    requires Enabled(s, x)
    ensures Stranded(Apply(s, x)) <==> Stranded(s) || (x.Push? && AllExited(s))
  {
    var s' := Apply(s, x);
    if AllExited(s') && !AllExited(s) {
      var w :| 0 <= w < |s.workers| && !s.workers[w].Exited?;
      assert s'.workers[w].Exited?;
    }
    if AllExited(s) {
      forall w | 0 <= w < |s'.workers| ensures s'.workers[w].Exited? { assert s.workers[w].Exited?; }
    }
  }

  // A queue is stranded by a late push and by nothing else.
  lemma {:induction false} StrandedIff(s: Pool, xs: seq<Step>, s': Pool)
    requires Runs(s, xs, s')
    ensures Stranded(s') <==> Stranded(s) || LatePush(s, xs)
    decreases |xs|
  {
    hide Stranded, Apply, Enabled;
    if xs != [] {
      StrandedStep(s, xs[0]);
      StrandedIff(Apply(s, xs[0]), xs[1..], s');
    }
  }

  // Queued plus running tasks, whenever no enqueuer is inside its critical section.
  lemma ActiveCountsTasks(numThreads: nat, xs: seq<Step>, s: Pool)
    requires Runs(Init(numThreads), xs, s)
    ensures s.active >= 0
    ensures !s.pushing ==> s.active == |s.queue| + Busy(s.workers)
    ensures s.pushing ==> s.active + 1 == |s.queue| + Busy(s.workers)
  {
    InitInv(numThreads);
    RunKeeps(Init(numThreads), xs, s);
  }

  // No interleaving runs a task twice, and a task not yet run is still queued or in a worker's hands.
  lemma NeverTwice(numThreads: nat, xs: seq<Step>, s: Pool, t: nat)
    requires Runs(Init(numThreads), xs, s) && t < |s.ran|
    ensures s.ran[t] <= 1
    ensures s.ran[t] == 0 <==> t in s.queue || exists w :: 0 <= w < |s.workers| && s.workers[w] == InTask(t)
  {
    InitInv(numThreads);
    RunKeeps(Init(numThreads), xs, s);
    assert TaskInv(s, t);
    if t >= Popped(s) { assert s.queue[t - Popped(s)] == t; }
  }

  // ----- waiting -----

  ghost function Occurrences(xs: seq<Step>, p: Step -> bool): nat
    decreases |xs|
  {
    if xs == [] then 0 else (if p(xs[0]) then 1 else 0) + Occurrences(xs[1..], p)
  }

  ghost function Pushes(): Step -> bool { (x: Step) => x.Push? }
  ghost function Counts(): Step -> bool { (x: Step) => x.CountTask? }
  ghost function Waits(): Step -> bool { (x: Step) => x.Wait? }
  ghost function Stops(): Step -> bool { (x: Step) => x.SetStop? }

  // Tasks whose enqueuer has counted them.
  ghost function Counted(s: Pool): int { |s.ran| - if s.pushing then 1 else 0 }

  // Every task enqueued, every call of wait and every call of the destructor is there, and no
  // thread is lost.
  lemma {:induction false} CallsAreKept(s: Pool, xs: seq<Step>, s': Pool)
    requires Runs(s, xs, s')
    ensures |s'.ran| == |s.ran| + Occurrences(xs, Pushes()) && |s'.waiters| == |s.waiters| + Occurrences(xs, Waits())
    ensures Counted(s') == Counted(s) + Occurrences(xs, Counts())
    ensures s'.stop <==> s.stop || Occurrences(xs, Stops()) > 0
    ensures |s'.workers| == |s.workers|
    decreases |xs|
  {
    hide Enabled, Apply;
    if xs != [] {
      CallIsKept(s, xs[0]);
      CallsAreKept(Apply(s, xs[0]), xs[1..], s');
    }
  }

  lemma CallIsKept(s: Pool, x: Step)
    requires Enabled(s, x)
    ensures var s' := Apply(s, x);
      && |s'.ran| == |s.ran| + (if x.Push? then 1 else 0) && |s'.waiters| == |s.waiters| + (if x.Wait? then 1 else 0)
      && Counted(s') == Counted(s) + (if x.CountTask? then 1 else 0)
      && (s'.stop <==> s.stop || x.SetStop?) && |s'.workers| == |s.workers|
  {
  }

  ghost predicate IsBack(s: Pool, v: nat) { v < |s.waiters| && s.waiters[v].Returned? }

  // Nothing is queued but what is not counted yet, and no worker is at a task.
  ghost predicate Idle(s: Pool) { Busy(s.workers) == 0 && |s.queue| <= if s.pushing then 1 else 0 }

  // A thread comes back from wait() by no step but its own test, and that brings it back
  // exactly when the pool is idle; then every task counted so far has run, once.
  lemma WaitReturnsIff(numThreads: nat, xs: seq<Step>, s: Pool, x: Step, v: nat)
    requires Runs(Init(numThreads), xs, s) && Enabled(s, x) && !IsBack(s, v)
    ensures IsBack(Apply(s, x), v) <==> x == CheckDone(v) && Idle(s)
    ensures IsBack(Apply(s, x), v) ==> forall t: nat :: t < Counted(s) ==> s.ran[t] == 1
  {
    hide Tasks, Busy, Runs, SomeoneUp, NoneAsleep;
    InitInv(numThreads);
    RunKeeps(Init(numThreads), xs, s);
    if IsBack(Apply(s, x), v) { IdleMeansRun(s); }
  }

  lemma IdleMeansRun(s: Pool)
    requires Inv(s) && Idle(s)
    ensures forall t: nat :: t < Counted(s) ==> s.ran[t] == 1
  {
    BusySome(s.workers);
    forall t: nat | t < Counted(s) ensures s.ran[t] == 1 { assert TaskInv(s, t); }
  }

  // Who is back stays back.
  lemma {:induction false} BackForGood(s: Pool, xs: seq<Step>, s': Pool, v: nat)
    requires Runs(s, xs, s') && IsBack(s, v)
    ensures IsBack(s', v)
    decreases |xs|
  {
    if xs != [] { BackForGood(Apply(s, xs[0]), xs[1..], s', v); }
  }

  // ----- progress -----

  // The pool's own steps: everything but new calls from outside and spurious wake-ups.
  ghost predicate Internal(x: Step) {
    x.CountTask? || x.NotifyOne? || x.Test? || x.RunTask? || x.Finish? || x.NotifyAll? || x.CheckDone?
  }

  ghost predicate Quiescent(s: Pool) {
    forall x: Step :: Internal(x) ==> !Enabled(s, x)
  }

  ghost function WorkerWeight(x: Worker, waiters: nat): nat {
    match x
    case AtLock => 1
    case InTask(_) => 3 + waiters
    case Finishing => 2 + waiters
    case _ => 0
  }

  ghost function WorkersWeight(ws: seq<Worker>, waiters: nat): nat {
    if ws == [] then 0 else WorkersWeight(ws[..|ws| - 1], waiters) + WorkerWeight(ws[|ws| - 1], waiters)
  }

  ghost function CheckingCount(vs: seq<Waiter>): (n: nat)
    ensures n <= |vs|
  {
    if vs == [] then 0 else CheckingCount(vs[..|vs| - 1]) + if vs[|vs| - 1].Checking? then 1 else 0
  }

  // Bounds the number of internal steps still to come.
  ghost function Work(s: Pool): nat {
    (if s.pushing then 4 else 0) + 3 * s.notifies + (if s.stopNotify then |s.workers| + 1 else 0)
    + WorkersWeight(s.workers, |s.waiters|) + (3 + |s.waiters|) * |s.queue| + CheckingCount(s.waiters)
  }

  lemma {:induction false} WeightUpdate(ws: seq<Worker>, w: nat, x: Worker, waiters: nat)
    requires w < |ws|
    ensures WorkersWeight(ws[w := x], waiters) ==
            WorkersWeight(ws, waiters) - WorkerWeight(ws[w], waiters) + WorkerWeight(x, waiters)
  {
    var last := |ws| - 1;
    if w == last {
      assert ws[w := x][..last] == ws[..last];
    } else {
      assert ws[w := x][..last] == ws[..last][w := x];
      WeightUpdate(ws[..last], w, x, waiters);
    }
  }

  lemma {:induction false} WeightWake(ws: seq<Worker>, waiters: nat)
    ensures WorkersWeight(WakeAll(ws), waiters) <= WorkersWeight(ws, waiters) + |ws|
  {
    if ws != [] {
      WeightWake(ws[..|ws| - 1], waiters);
      assert WakeAll(ws)[..|ws| - 1] == WakeAll(ws[..|ws| - 1]);
    }
  }

  lemma {:induction false} CheckingUpdate(vs: seq<Waiter>, v: nat, x: Waiter)
    requires v < |vs| && vs[v].Checking? && !x.Checking?
    ensures CheckingCount(vs[v := x]) == CheckingCount(vs) - 1
  {
    var last := |vs| - 1;
    if v == last {
      assert vs[v := x][..last] == vs[..last];
    } else {
      assert vs[v := x][..last] == vs[..last][v := x];
      CheckingUpdate(vs[..last], v, x);
    }
  }

  lemma PopWeight(k: nat, q: nat)
    requires q > 0
    ensures k * (q - 1) == k * q - k
  {
  }

  lemma TestProgresses(s: Pool, w: nat)
    requires Enabled(s, Test(w))
    ensures Work(Apply(s, Test(w))) < Work(s)
  {
    hide WorkersWeight, CheckingCount;
    var n := |s.waiters|;
    WeightUpdate(s.workers, w, Apply(s, Test(w)).workers[w], n);
    if s.queue != [] { PopWeight(3 + n, |s.queue|); }
  }

  lemma WorkerStepProgresses(s: Pool, x: Step)
    requires Enabled(s, x) && (x.NotifyOne? || x.RunTask? || x.Finish?)
    ensures Work(Apply(s, x)) < Work(s)
  {
    hide WorkersWeight, CheckingCount;
    var s' := Apply(s, x);
    if x.w < |s.workers| { WeightUpdate(s.workers, x.w, s'.workers[x.w], |s.waiters|); }
    assert s'.workers == s.workers || s'.workers == s.workers[x.w := s'.workers[x.w]];
  }

  // Every internal step makes progress, so any schedule of them reaches quiescence.
  lemma InternalStepProgresses(s: Pool, x: Step)
    requires Enabled(s, x) && Internal(x)
    ensures Work(Apply(s, x)) < Work(s)
  {
    hide WorkersWeight, CheckingCount;
    match x
    case Test(w) => TestProgresses(s, w);
    case CountTask =>
    case NotifyAll => WeightWake(s.workers, |s.waiters|);
    case CheckDone(v) => CheckingUpdate(s.waiters, v, Apply(s, x).waiters[v]);
    case _ => WorkerStepProgresses(s, x);
  }

  lemma {:induction false} RunsAreBounded(s: Pool, xs: seq<Step>, s': Pool)
    requires Runs(s, xs, s') && forall i :: 0 <= i < |xs| ==> Internal(xs[i])
    ensures |xs| + Work(s') <= Work(s)
    decreases |xs|
  {
    hide Work, Apply, Enabled;
    if xs != [] {
      InternalStepProgresses(s, xs[0]);
      RunsAreBounded(Apply(s, xs[0]), xs[1..], s');
    }
  }

  lemma PendingNotify(s: Pool) returns (x: Step)
    requires s.notifies > 0
    ensures Internal(x) && Enabled(s, x)
  {
    if NoneAsleep(s) {
      x := NotifyOne(0);
    } else {
      var w: nat :| w < |s.workers| && s.workers[w].Asleep?;
      x := NotifyOne(w);
    }
  }

  // What quiescence says of the threads: nobody is between two steps of its own.
  lemma QuiescentThreads(s: Pool)
    requires Inv(s) && Quiescent(s)
    ensures !s.pushing && !s.stopNotify && s.notifies == 0
    ensures forall w :: 0 <= w < |s.workers| ==> s.workers[w].Asleep? || s.workers[w].Exited?
    ensures forall v :: 0 <= v < |s.waiters| ==> !s.waiters[v].Checking?
    ensures Busy(s.workers) == 0 && !SomeoneUp(s)
  {
    hide Tasks;
    assert !Enabled(s, CountTask) && !Enabled(s, NotifyAll);
    if s.notifies > 0 { var x := PendingNotify(s); }
    forall w | 0 <= w < |s.workers| ensures s.workers[w].Asleep? || s.workers[w].Exited? { QuiescentWorker(s, w); }
    forall v | 0 <= v < |s.waiters| ensures !s.waiters[v].Checking? { assert !Enabled(s, CheckDone(v)); }
    BusySome(s.workers);
  }

  lemma QuiescentWorker(s: Pool, w: nat)
    requires Inv(s) && Quiescent(s) && w < |s.workers| && !s.pushing
    ensures s.workers[w].Asleep? || s.workers[w].Exited?
  {
    assert !Enabled(s, Test(w)) && !Enabled(s, RunTask(w)) && !Enabled(s, Finish(w));
  }

  // When the pool has come to rest: every task pushed ran exactly once and every
  // thread in wait() is back, exactly when no task was pushed after the last worker had
  // gone; otherwise that task never runs.
  lemma RestMeansDone(numThreads: nat, xs: seq<Step>, s: Pool)
    requires Runs(Init(numThreads), xs, s) && Quiescent(s)
    ensures !LatePush(Init(numThreads), xs) <==> s.active == 0
    ensures !LatePush(Init(numThreads), xs) <==> forall t :: 0 <= t < |s.ran| ==> s.ran[t] == 1
    ensures !LatePush(Init(numThreads), xs) ==> forall v :: 0 <= v < |s.waiters| ==> s.waiters[v].Returned?
    ensures s.stop ==> AllExited(s)
  {
    hide Runs, LatePush;
    InitInv(numThreads);
    StrandedIff(Init(numThreads), xs, s);
    RunKeeps(Init(numThreads), xs, s);
    QuiescentThreads(s);
    RestingQueue(s);
    RestingTasks(s);
  }

  lemma RestingQueue(s: Pool)
    requires Inv(s) && Quiescent(s) && !s.pushing && s.notifies == 0 && !SomeoneUp(s) && !s.stopNotify
    requires forall w :: 0 <= w < |s.workers| ==> s.workers[w].Asleep? || s.workers[w].Exited?
    ensures s.queue == [] <==> !Stranded(s)
    ensures s.stop ==> AllExited(s)
  {
    hide Tasks;
    if s.queue != [] { assert NoneAsleep(s); assert AllExited(s); }
  }

  lemma RestingTasks(s: Pool)
    requires Inv(s) && forall w :: 0 <= w < |s.workers| ==> !s.workers[w].InTask?
    ensures s.queue == [] <==> forall t :: 0 <= t < |s.ran| ==> s.ran[t] == 1
  {
    if s.queue == [] {
      forall t | 0 <= t < |s.ran| ensures s.ran[t] == 1 { assert TaskInv(s, t); }
    } else {
      assert TaskInv(s, s.queue[0]) && s.ran[s.queue[0]] != 1;
    }
  }

  // Once joined, ~HexagonThreadPool has run every task exactly once, whatever was
  // queued when destruction began: the condition is that no task came after the last worker left.
  lemma DestructorRunsEverything(numThreads: nat, xs: seq<Step>, s: Pool)
    requires Runs(Init(numThreads), xs, s) && AllExited(s)
    ensures !LatePush(Init(numThreads), xs) <==> forall t :: 0 <= t < |s.ran| ==> s.ran[t] == 1
  {
    hide Runs, LatePush;
    InitInv(numThreads);
    StrandedIff(Init(numThreads), xs, s);
    RunKeeps(Init(numThreads), xs, s);
    RestingTasks(s);
  }

  // Destruction begins, the one worker leaves, then a task is enqueued and waited for.
  const LATE_RUN: seq<Step> := [SetStop, NotifyAll, Test(0), Push, CountTask, NotifyOne(0), Wait, CheckDone(0)]

  ghost function LateState(i: nat): Pool {
    Pool(if i >= 4 then [0] else [], [if i >= 3 then Exited else AtLock], i >= 1, if i >= 5 then 1 else 0, i == 4,
         if i == 5 then 1 else 0, i == 1,
         if i >= 8 then [Sleeping] else if i == 7 then [Checking] else [], if i >= 4 then [0] else [])
  }

  lemma LateStep(i: nat)
    requires i < 8
    ensures Enabled(LateState(i), LATE_RUN[i]) && Apply(LateState(i), LATE_RUN[i]) == LateState(i + 1)
  {
    assert LATE_RUN[i].NotifyAll? ==> WakeAll(LateState(i).workers) == LateState(i).workers;
  }

  lemma {:induction false} LateTail(i: nat)
    requires i <= 8
    ensures Runs(LateState(i), LATE_RUN[i..], LateState(8))
    ensures i <= 3 ==> LatePush(LateState(i), LATE_RUN[i..])
    decreases 8 - i
  {
    hide Apply, Enabled;
    if i < 8 {
      LateStep(i);
      LateTail(i + 1);
      assert LATE_RUN[i..][1..] == LATE_RUN[i + 1..];
    }
  }

  // The pool comes to rest with the task never run and the waiting thread asleep for good.
  lemma LateTaskNeverRuns() returns (s: Pool)
    ensures Runs(Init(1), LATE_RUN, s) && LatePush(Init(1), LATE_RUN) && Quiescent(s)
    ensures s.ran == [0] && s.waiters == [Sleeping] && AllExited(s)
  {
    hide Runs, LatePush;
    s := LateState(8);
    LateTail(0);
    assert LATE_RUN[0..] == LATE_RUN && LateState(0) == Init(1);
  }
}
