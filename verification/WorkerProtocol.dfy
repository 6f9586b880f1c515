/** The two threads around the queue of src/utils.c as a step system: the main thread pushes texts
    and finally stops, joins and destroys; the worker waits, pops and speaks. A step is what one thread
    does between two points where the other can intervene. Texts are numbered as they are accepted. */
module WorkerProtocol {
  import opened Fifo
  import opened Options

  datatype Owner = Nobody | MainThread | Worker

  /** The main thread: idle; in `queue_push` before the lock, holding it, before the signal, before the
      unlock; in `queue_stop` at the same four points; in `pthread_join`; after `queue_destroy`. */
  datatype MainPc = Idle | PushLock | PushHeld | PushSignal | PushUnlock
                  | StopLock | StopHeld | StopBroadcast | StopUnlock | Join | Destroyed

  /** The worker: in `queue_pop` before the lock, holding it at the loop test, asleep in
      `pthread_cond_wait` (woken or not), before the unlock with what it popped; speaking; finished. */
  datatype WorkerPc = Lock | Test | Asleep(woken: bool) | Unlock(item: Option<nat>) | Speak(text: nat) | Done

  datatype State = State(queue: seq<nat>, stop: bool, mutex: Owner, main: MainPc, worker: WorkerPc,
                         accepted: nat, delivered: seq<nat>, owed: Option<seq<nat>>)

  predicate Init(s: State) {
    s == State([], false, Nobody, Idle, Lock, 0, [], None)
  }

  // ---- main thread

  predicate BeginPush(s: State, t: State) { s.main == Idle && t == s.(main := PushLock) }
  predicate LockForPush(s: State, t: State) {
    s.main == PushLock && s.mutex == Nobody && t == s.(main := PushHeld, mutex := MainThread)
  }
  predicate DoPush(s: State, t: State) {
    s.main == PushHeld &&
    t == if s.stop then s.(main := PushUnlock)
         else s.(main := PushSignal, queue := Append<nat>(s.queue, s.accepted), accepted := s.accepted + 1)
  }

  /** A signal wakes the worker if it is asleep and is lost otherwise. */
  function Wake(w: WorkerPc): WorkerPc {
    if w.Asleep? then Asleep(true) else w
  }
  predicate Signal(s: State, t: State) {
    s.main == PushSignal && t == s.(main := PushUnlock, worker := Wake(s.worker))
  }
  predicate UnlockAfterPush(s: State, t: State) {
    s.main == PushUnlock && t == s.(main := Idle, mutex := Nobody)
  }

  predicate BeginStop(s: State, t: State) { s.main == Idle && t == s.(main := StopLock) }
  predicate LockForStop(s: State, t: State) {
    s.main == StopLock && s.mutex == Nobody && t == s.(main := StopHeld, mutex := MainThread)
  }
  /** `owed` records what has been delivered, is being spoken or is queued when stop is set. */
  predicate DoStop(s: State, t: State) {
    s.main == StopHeld && t == s.(main := StopBroadcast, stop := true, owed := Some(All(s)))
  }
  predicate Broadcast(s: State, t: State) {
    s.main == StopBroadcast && t == s.(main := StopUnlock, worker := Wake(s.worker))
  }
  predicate UnlockAfterStop(s: State, t: State) {
    s.main == StopUnlock && t == s.(main := Join, mutex := Nobody)
  }
  predicate Joined(s: State, t: State) {
    s.main == Join && s.worker == Done && t == s.(main := Destroyed)
  }

  // ---- worker

  predicate LockForPop(s: State, t: State) {
    s.worker == Lock && s.mutex == Nobody && t == s.(worker := Test, mutex := Worker)
  }
  /** The loop test: wait (which releases the mutex), take the oldest item, or leave with nothing. */
  predicate TestQueue(s: State, t: State) {
    s.worker == Test &&
    t == if s.queue == [] && !s.stop then s.(worker := Asleep(false), mutex := Nobody)
         else if s.queue != [] then s.(worker := Unlock(Some(s.queue[0])), queue := s.queue[1..])
         else s.(worker := Unlock(None))
  }
  /** `pthread_cond_wait` returns after a signal; it has to take the mutex again, and the loop test
      follows. */
  predicate WakeUp(s: State, t: State) { s.worker == Asleep(true) && t == s.(worker := Lock) }
  predicate SpuriousWakeUp(s: State, t: State) { s.worker == Asleep(false) && t == s.(worker := Lock) }
  predicate UnlockAfterPop(s: State, t: State) {
    s.worker.Unlock? &&
    t == s.(mutex := Nobody, worker := if s.worker.item.Some? then Speak(s.worker.item.value) else Done)
  }
  /** `backend_say`, abstractly: it ends, and the text is delivered. */
  predicate Say(s: State, t: State) {
    s.worker.Speak? && t == s.(worker := Lock, delivered := s.delivered + [s.worker.text])
  }

  predicate MainStep(s: State, t: State) {
    || BeginPush(s, t) || LockForPush(s, t) || DoPush(s, t) || Signal(s, t) || UnlockAfterPush(s, t)
    || BeginStop(s, t) || LockForStop(s, t) || DoStop(s, t) || Broadcast(s, t) || UnlockAfterStop(s, t)
    || Joined(s, t)
  }
  predicate WorkerStep(s: State, t: State) {
    || LockForPop(s, t) || TestQueue(s, t) || WakeUp(s, t) || UnlockAfterPop(s, t) || Say(s, t)
  }
  predicate Next(s: State, t: State) {
    MainStep(s, t) || WorkerStep(s, t) || SpuriousWakeUp(s, t)
  }

  // ---- invariant

  predicate MainHolds(m: MainPc) {
    m in {PushHeld, PushSignal, PushUnlock, StopHeld, StopBroadcast, StopUnlock}
  }
  predicate WorkerHolds(w: WorkerPc) { w == Test || w.Unlock? }

  /** The item the worker has taken and not yet delivered. */
  function InHand(w: WorkerPc): seq<nat> {
    match w
    case Unlock(Some(i)) => [i]
    case Speak(i) => [i]
    case _ => []
  }
  function All(s: State): seq<nat> { s.delivered + InHand(s.worker) + s.queue }

  predicate Mutex(s: State) {
    && (MainHolds(s.main) <==> s.mutex == MainThread)
    && (WorkerHolds(s.worker) <==> s.mutex == Worker)
  }

  /** The worker is not asleep un-woken over work or a stop, unless the main thread still holds the
      mutex and is about to signal. */
  predicate NoLostWakeUp(s: State) {
    s.worker == Asleep(false) && (s.queue != [] || s.stop) ==> s.main == PushSignal || s.main == StopBroadcast
  }

  predicate Stopping(s: State) {
    && (s.stop <==> s.main in {StopBroadcast, StopUnlock, Join, Destroyed})
    && (s.stop <==> s.owed.Some?)
    && (s.stop ==> All(s) == s.owed.value)
    && (s.worker == Unlock(None) || s.worker == Done ==> s.stop && s.queue == [])
    && (s.main == Destroyed ==> s.worker == Done)
  }

  /** Everything in circulation is numbered in order below `accepted`. */
  predicate Ordered(s: State) {
    IncreasingBelow(All(s), s.accepted) && |s.queue| <= CAP
  }

  predicate Invariant(s: State) { Mutex(s) && NoLostWakeUp(s) && Stopping(s) && Ordered(s) }

  lemma InitHolds(s: State)
    requires Init(s)
    ensures Invariant(s)
  {
  }

  predicate IncreasingBelow(q: seq<nat>, n: nat) {
    && (forall i, j :: 0 <= i < j < |q| ==> q[i] < q[j])
    && (forall i :: 0 <= i < |q| ==> q[i] < n)
  }

  lemma AppendIncreases(base: seq<nat>, q: seq<nat>, n: nat)
    requires IncreasingBelow(base + q, n)
    ensures IncreasingBelow(base + Append<nat>(q, n), n + 1)
  {
    var all, all' := base + q, base + Append<nat>(q, n);
    var d := if |q| == CAP then 1 else 0;
    forall i | 0 <= i < |all'| - 1 ensures all'[i] == all[if i < |base| then i else i + d] {
    }
  }

  lemma PushKeepsOrder(s: State, t: State)
    requires Ordered(s) && DoPush(s, t)
    ensures Ordered(t)
  {
    AppendIncreases(s.delivered + InHand(s.worker), s.queue, s.accepted);
  }

  lemma MainKeeps(s: State, t: State)
    requires Invariant(s) && MainStep(s, t)
    ensures Invariant(t)
  {
    if DoPush(s, t) {
      PushKeepsOrder(s, t);
    } else {
      assert All(t) == All(s);
    }
    hide Append, Ordered;
    assert Mutex(t) && NoLostWakeUp(t) && Stopping(t);
  }

  lemma WorkerKeeps(s: State, t: State)
    requires Invariant(s) && (WorkerStep(s, t) || SpuriousWakeUp(s, t))
    ensures Invariant(t)
  {
    assert All(t) == All(s);
  }

  // ---- runs

  predicate IsRun(run: seq<State>) {
    |run| > 0 && Init(run[0]) && forall i :: 0 <= i < |run| - 1 ==> Next(run[i], run[i + 1])
  }

  lemma {:induction false} EveryRunKeepsInvariant(run: seq<State>, i: nat)
    requires IsRun(run) && i < |run|
    ensures Invariant(run[i])
  {
    hide Init, Invariant, Next;
    if i == 0 {
      InitHolds(run[0]);
    } else {
      EveryRunKeepsInvariant(run, i - 1);
      assert Next(run[i - 1], run[i - 1 + 1]);
      NextKeeps(run[i - 1], run[i]);
    }
  }

  lemma NextKeeps(s: State, t: State)
    requires Invariant(s) && Next(s, t)
    ensures Invariant(t)
  {
    hide Invariant, MainStep, WorkerStep, SpuriousWakeUp;
    if MainStep(s, t) {
      MainKeeps(s, t);
    } else {
      WorkerKeeps(s, t);
    }
  }

  // ---- after the stop

  lemma {:induction false} OwedStays(run: seq<State>, i: nat, j: nat)
    requires IsRun(run) && i <= j < |run| && run[i].stop
    ensures run[j].stop && run[j].owed == run[i].owed
  {
    hide Init, Invariant, Next;
    if i < j {
      OwedStays(run, i, j - 1);
      EveryRunKeepsInvariant(run, j - 1);
      assert Next(run[j - 1], run[j - 1 + 1]);
      OwedKept(run[j - 1], run[j]);
    }
  }

  lemma OwedKept(s: State, t: State)
    requires Invariant(s) && Next(s, t) && s.stop
    ensures t.stop && t.owed == s.owed
  {
    hide Mutex, NoLostWakeUp, Ordered, All;
  }

  /** Complete drain: when the main thread is past `pthread_join`, the worker is done, the queue is
      empty, and what has been delivered is what had been delivered when stop was set, then the item the
      worker held, then the items queued at that moment, in order. */
  lemma StopDrains(run: seq<State>, i: nat, j: nat)
    requires IsRun(run) && i + 1 <= j < |run| && DoStop(run[i], run[i + 1]) && run[j].main == Destroyed
    ensures run[j].worker == Done && run[j].queue == []
    ensures run[j].delivered == run[i].delivered + InHand(run[i].worker) + run[i].queue
  {
    hide Init, Mutex, NoLostWakeUp, Ordered, Next;
    OwedStays(run, i + 1, j);
    EveryRunKeepsInvariant(run, j);
    assert All(run[j]) == run[j].delivered;
  }

  // ---- progress

  /** Bound on the worker's steps until it sleeps or is done. */
  function Rank(s: State): nat {
    4 * |s.queue| + match s.worker
                    case Done => 0
                    case Asleep(woken) => if woken then 4 else 0
                    case Unlock(item) => if item.Some? then 5 else 1
                    case Test => 2
                    case Lock => 3
                    case Speak(_) => 4
  }

  lemma WorkerStepsDescend(s: State, t: State)
    requires WorkerStep(s, t)
    ensures Rank(t) < Rank(s)
  {
  }

  /** No lost wake-up, as progress: with work queued or stop set, and the mutex not in the main thread's
      hands, the worker can always take a step, in every reachable state; no spurious wake-up is needed. */
  lemma WorkerCanMove(s: State) returns (t: State)
    requires Invariant(s) && !MainHolds(s.main) && (s.queue != [] || s.stop) && s.worker != Done
    ensures WorkerStep(s, t)
  {
    match s.worker
    case Lock => t := s.(worker := Test, mutex := Worker);
    case Test => t := if s.queue != [] then s.(worker := Unlock(Some(s.queue[0])), queue := s.queue[1..])
                      else s.(worker := Unlock(None));
    case Asleep(_) => t := s.(worker := Lock);
    case Unlock(item) => t := s.(mutex := Nobody, worker := if item.Some? then Speak(item.value) else Done);
    case Speak(text) => t := s.(worker := Lock, delivered := s.delivered + [text]);
  }

  /** While the main thread waits in `pthread_join`, only the worker moves, and not more often than its
      rank: together with `WorkerCanMove`, the join always comes to an end. */
  lemma {:induction false} JoinIsBounded(run: seq<State>, i: nat, j: nat)
    requires IsRun(run) && i <= j < |run| && run[i].main == Join && run[j].main == Join
    ensures Rank(run[j]) + (j - i) <= Rank(run[i])
  {
    hide Init, Rank, Invariant, Next;
    if i < j {
      EveryRunKeepsInvariant(run, j - 1);
      EveryRunKeepsInvariant(run, j);
      assert Next(run[j - 1], run[j - 1 + 1]);
      JoinStep(run[j - 1], run[j]);
      JoinOnward(run, i, j - 1);
      JoinIsBounded(run, i, j - 1);
    }
  }

  lemma {:induction false} JoinOnward(run: seq<State>, i: nat, j: nat)
    requires IsRun(run) && i <= j < |run| && run[i].main == Join
    ensures run[j].main == Join || run[j].main == Destroyed
  {
    hide Init;
    if i < j {
      JoinOnward(run, i, j - 1);
      assert Next(run[j - 1], run[j - 1 + 1]);
    }
  }

  lemma JoinStep(s: State, t: State)
    requires Invariant(s) && Invariant(t) && Next(s, t) && t.main == Join
    ensures s.main == Join ==> WorkerStep(s, t) && Rank(t) < Rank(s)
    ensures s.main == Join || s.main == StopUnlock
  {
    hide IncreasingBelow, Append, Rank;
    if s.main == Join {
      assert !SpuriousWakeUp(s, t);
      WorkerStepsDescend(s, t);
    }
  }

  /** No deadlock: until the queue is destroyed, and unless the main thread is idle, some thread can
      take a step that is not a spurious wake-up. */
  lemma NeverStuck(s: State) returns (t: State)
    requires Invariant(s) && s.main != Idle && s.main != Destroyed
    ensures MainStep(s, t) || WorkerStep(s, t)
  {
    hide IncreasingBelow, All;
    if s.main == Join {
      if s.worker == Done { t := s.(main := Destroyed); } else { t := WorkerCanMove(s); }
    } else if s.mutex == Worker {
      t := HolderMoves(s);
    } else {
      t := MainMoves(s);
    }
  }

  lemma HolderMoves(s: State) returns (t: State)
    requires WorkerHolds(s.worker)
    ensures WorkerStep(s, t)
  {
    match s.worker
    case Test => t := if s.queue == [] && !s.stop then s.(worker := Asleep(false), mutex := Nobody)
                      else if s.queue != [] then s.(worker := Unlock(Some(s.queue[0])), queue := s.queue[1..])
                      else s.(worker := Unlock(None));
    case Unlock(item) => t := s.(mutex := Nobody, worker := if item.Some? then Speak(item.value) else Done);
  }

  lemma MainMoves(s: State) returns (t: State)
    requires Mutex(s) && s.mutex != Worker && s.main != Join && s.main != Destroyed && s.main != Idle
    ensures MainStep(s, t)
  {
    hide Append, All;
    match s.main
    case PushLock => t := s.(main := PushHeld, mutex := MainThread);
    case PushHeld => t := if s.stop then s.(main := PushUnlock)
                          else s.(main := PushSignal, queue := Append<nat>(s.queue, s.accepted),
                                  accepted := s.accepted + 1);
    case PushSignal => t := s.(main := PushUnlock, worker := Wake(s.worker));
    case PushUnlock => t := s.(main := Idle, mutex := Nobody);
    case StopLock => t := s.(main := StopHeld, mutex := MainThread);
    case StopHeld => t := s.(main := StopBroadcast, stop := true, owed := Some(All(s)));
    case StopBroadcast => t := s.(main := StopUnlock, worker := Wake(s.worker));
    case StopUnlock => t := s.(main := Join, mutex := Nobody);
  }

  /** A sleeping worker may wake up at any time, signalled or not. */
  lemma SleeperMayWake(s: State) returns (t: State)
    requires s.worker.Asleep?
    ensures Next(s, t) && t == s.(worker := Lock)
  {
    t := s.(worker := Lock);
    assert WakeUp(s, t) || SpuriousWakeUp(s, t);
  }

  /** A worker that is awake and has not ended waits for nothing but the mutex. */
  lemma AwakeWorkerMoves(s: State) returns (t: State)
    requires Mutex(s) && !s.worker.Asleep? && s.worker != Done && (s.worker == Lock ==> s.mutex == Nobody)
    ensures WorkerStep(s, t)
  {
    match s.worker
    case Lock => t := s.(worker := Test, mutex := Worker);
    case Test => t := HolderMoves(s);
    case Unlock(_) => t := HolderMoves(s);
    case Speak(text) => t := s.(worker := Lock, delivered := s.delivered + [text]);
  }

  /** An idle main thread may push or stop. */
  lemma IdleMayBegin(s: State) returns (pushing: State, stopping: State)
    requires s.main == Idle
    ensures Next(s, pushing) && pushing.main == PushLock && Next(s, stopping) && stopping.main == StopLock
  {
    pushing, stopping := s.(main := PushLock), s.(main := StopLock);
    assert BeginPush(s, pushing) && BeginStop(s, stopping);
  }

  /** How far the main thread is from the end, when it stops as soon as it is idle. */
  function Distance(m: MainPc): nat {
    match m
    case PushLock => 10 case PushHeld => 9 case PushSignal => 8 case PushUnlock => 7
    case Idle => 6
    case StopLock => 5 case StopHeld => 4 case StopBroadcast => 3 case StopUnlock => 2
    case Join => 1
    case Destroyed => 0
  }

  lemma NearerTheEnd(s: State) returns (t: State)
    requires Invariant(s) && s.main != Destroyed
    ensures Next(s, t) && Invariant(t)
    ensures Distance(t.main) < Distance(s.main) || (t.main == s.main && Rank(t) < Rank(s))
  {
    hide IncreasingBelow, All, Rank, Append, NoLostWakeUp;
    if s.main == Idle {
      var _, stopping := IdleMayBegin(s);
      t := stopping;
    } else if s.main == Join {
      if s.worker == Done { t := s.(main := Destroyed); } else { t := WorkerCanMove(s); }
    } else if s.mutex == Worker {
      t := HolderMoves(s);
    } else {
      t := MainMoves(s);
    }
    if WorkerStep(s, t) { WorkerStepsDescend(s, t); }
    NextKeeps(s, t);
  }

  /** From every reachable state the service can be closed: some run goes on to the destroyed queue. */
  lemma {:induction false} EveryStateCanFinish(s: State) returns (run: seq<State>)
    requires Invariant(s)
    ensures |run| > 0 && run[0] == s && run[|run| - 1].main == Destroyed
    ensures forall i :: 0 <= i < |run| - 1 ==> Next(run[i], run[i + 1])
    decreases Distance(s.main), Rank(s)
  {
    hide Invariant, Next, Rank, Distance;
    if s.main == Destroyed {
      run := [s];
    } else {
      var t := NearerTheEnd(s);
      var rest := EveryStateCanFinish(t);
      run := [s] + rest;
      forall i | 0 <= i < |run| - 1 ensures Next(run[i], run[i + 1]) {
        if i > 0 { assert run[i] == rest[i - 1] && run[i + 1] == rest[i - 1 + 1]; }
      }
    }
  }

  /** Every run can be continued until the queue is destroyed. */
  lemma EveryRunCanFinish(run: seq<State>) returns (all: seq<State>)
    requires IsRun(run)
    ensures run <= all && IsRun(all) && all[|all| - 1].main == Destroyed
  {
    hide Invariant, Next, Init;
    var n := |run|;
    EveryRunKeepsInvariant(run, n - 1);
    var more := EveryStateCanFinish(run[n - 1]);
    all := run + more[1..];
    forall i | 0 <= i < |all| - 1 ensures Next(all[i], all[i + 1]) {
      if i >= n - 1 {
        assert all[i] == more[i - (n - 1)] && all[i + 1] == more[i - (n - 1) + 1];
      } else {
        assert all[i] == run[i] && all[i + 1] == run[i + 1];
      }
    }
    assert all[|all| - 1] == more[|more| - 1];
  }

  /** A destroyed queue has been stopped on the way, so `StopDrains` speaks of every run that ends. */
  lemma {:induction false} StoppedOnTheWay(run: seq<State>, j: nat) returns (i: nat)
    requires IsRun(run) && j < |run| && run[j].stop
    ensures i + 1 <= j && DoStop(run[i], run[i + 1])
    decreases j
  {
    hide Invariant, All, Append;
    assert j > 0;
    assert Next(run[j - 1], run[j - 1 + 1]);
    if run[j - 1].stop {
      i := StoppedOnTheWay(run, j - 1);
    } else {
      i := j - 1;
    }
  }

  /** Whatever happens, by the time the queue is destroyed everything queued at the stop has been delivered. */
  lemma DestroyedIsDrained(run: seq<State>, j: nat) returns (i: nat)
    requires IsRun(run) && j < |run| && run[j].main == Destroyed
    ensures i + 1 <= j && DoStop(run[i], run[i + 1]) && run[j].queue == [] && run[j].worker == Done
    ensures run[j].delivered == run[i].delivered + InHand(run[i].worker) + run[i].queue
  {
    hide Init, Mutex, NoLostWakeUp, Ordered, Next, All;
    EveryRunKeepsInvariant(run, j);
    i := StoppedOnTheWay(run, j);
    StopDrains(run, i, j);
  }

  // ---- every run is a queue history

  /** The state shows the queue, the stop flag and the deliveries of the history `h`; the item in the
      worker's hand counts as popped. */
  predicate Shows(s: State, h: History) {
    && h.queue == s.queue && |h.accepted| == s.accepted && h.stop == s.stop
    && h.delivered == s.delivered + InHand(s.worker)
  }

  /** The queue operation a step performs, if any. */
  function OpOf(s: State, t: State): Option<Op> {
    if DoPush(s, t) && !s.stop then Some(Op.Push("text", true))
    else if DoStop(s, t) then Some(Op.Stop)
    else if TestQueue(s, t) && s.queue != [] then Some(Op.Pop)
    else None
  }

  lemma StepShows(s: State, t: State, h: History)
    requires Invariant(s) && Next(s, t) && Shows(s, h)
    ensures Shows(t, if OpOf(s, t).Some? then Apply(h, OpOf(s, t).value) else h)
  {
    hide Append, All, IncreasingBelow;
    if DoPush(s, t) && !s.stop {
      assert |"text"| != |""|;
    } else if DoStop(s, t) {
    } else if TestQueue(s, t) && s.queue != [] {
      assert s.delivered + [] == s.delivered;
    } else {
      assert t.delivered + InHand(t.worker) == s.delivered + InHand(s.worker);
    }
  }

  /** Whatever the interleaving, the shared queue goes through a history of the drop-oldest queue, so
      everything `EveryHistoryIsSound` says holds of every run. */
  lemma {:induction false} EveryRunIsAHistory(run: seq<State>, i: nat) returns (ops: seq<Op>)
    requires IsRun(run) && i < |run|
    ensures Shows(run[i], Replay(ops)) && Sound(Replay(ops))
  {
    hide Invariant, Next, Shows, OpOf, Sound, Apply;
    if i == 0 {
      ops := [];
      StartShows(run[0]);
    } else {
      ops := EveryRunIsAHistory(run, i - 1);
      EveryRunKeepsInvariant(run, i - 1);
      assert Next(run[i - 1], run[i - 1 + 1]);
      StepShows(run[i - 1], run[i], Replay(ops));
      if OpOf(run[i - 1], run[i]).Some? {
        var op := OpOf(run[i - 1], run[i]).value;
        assert (ops + [op])[..|ops + [op]| - 1] == ops;
        ops := ops + [op];
      }
    }
    EveryHistoryIsSound(ops);
  }

  lemma StartShows(s: State)
    requires Init(s)
    ensures Shows(s, Replay([]))
  {
  }
}
