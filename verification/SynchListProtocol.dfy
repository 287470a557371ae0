/** The monitor of NachOS/threads/synchlist.cc over the lock and the condition of synch.cc, for
    any number of threads. Each step is one statement; the threads interleave freely, so a
    thread that calls Acquire may overtake one that a signal has woken (barging). Of a
    semaphore only the value matters here: P goes on when it is positive and takes one off. */
module SynchListProtocol {
  import opened KernelState
  import opened Options
  import opened Sequences

  // The statement a thread is about to execute. The waiter semaphore that Wait creates is
  // named after its thread.
  datatype Pc<T> =
    | Out
    // Append(item)
    | AppendP(item: T) | AppendHold(item: T) | AppendPut(item: T) | AppendSignal | AppendWake(waiter: ThreadId)
    | AppendClear | AppendV
    // RemoveFront()
    | RemoveP | RemoveHold | RemoveCheck | RemoveTake | RemoveClear | RemoveV
    // listEmpty->Wait(lock)
    | WaitEnqueue | WaitClear | WaitV | WaitSleep | WaitP | WaitHold

  // failed records an assertion of the source that did not hold; the program is then over.
  datatype State<T> = State(
    pc: map<ThreadId, Pc<T>>, lockValue: nat, lockHolder: Option<ThreadId>, list: seq<T>,
    waitQueue: seq<ThreadId>, waiterValue: map<ThreadId, nat>,
    appended: seq<T>, removed: seq<T>, failed: bool)

  datatype Event<T> = StartAppend(thread: ThreadId, item: T) | StartRemove(thread: ThreadId) | Go(thread: ThreadId)

  // P waits for a positive value; everything else can always go on.
  predicate Enabled<T>(st: State<T>, e: Event<T>) {
    match e
    case StartAppend(t, _) => t in st.pc && st.pc[t] == Out
    case StartRemove(t) => t in st.pc && st.pc[t] == Out
    case Go(t) =>
      && t in st.pc
      && match st.pc[t]
         case Out => false
         case AppendP(_) => st.lockValue > 0
         case RemoveP => st.lockValue > 0
         case WaitP => st.lockValue > 0
         case WaitSleep => t in st.waiterValue && st.waiterValue[t] > 0
         case _ => true
  }

  // Where the source asserts that the current thread holds the lock.
  predicate Asserts<T>(p: Pc<T>) {
    p.AppendSignal? || p.AppendClear? || p.RemoveClear? || p.WaitEnqueue? || p.WaitClear?
  }

  // The assertions of the statement t is about to execute: the lock is held, an item that
  // List::Append gets is not on the list, and List::RemoveFront does not find it empty.
  ghost predicate Passes<T>(st: State<T>, t: ThreadId)
    requires t in st.pc
  {
    && (Asserts(st.pc[t]) ==> st.lockHolder == Some(t))
    && (st.pc[t].AppendPut? ==> st.pc[t].item !in st.list)
    && (st.pc[t].RemoveTake? ==> st.list != [])
    && (st.pc[t].WaitEnqueue? ==> t !in st.waitQueue)
  }

  function To<T>(st: State<T>, t: ThreadId, p: Pc<T>): State<T> {
    st.(pc := st.pc[t := p])
  }

  // What the statement does when its assertions hold.
  function Step<T>(st: State<T>, t: ThreadId): State<T>
    requires Enabled(st, Go(t))
  {
    match st.pc[t]
    // lock->Acquire()
    case AppendP(x) => To(st, t, AppendHold(x)).(lockValue := st.lockValue - 1)
    case AppendHold(x) => To(st, t, AppendPut(x)).(lockHolder := Some(t))
    // list->Append(item)
    case AppendPut(x) => To(st, t, AppendSignal).(list := st.list + [x], appended := st.appended + [x])
    // listEmpty->Signal(lock)
    case AppendSignal =>
      if st.waitQueue == [] then To(st, t, AppendClear)
      else To(st, t, AppendWake(st.waitQueue[0])).(waitQueue := st.waitQueue[1..])
    case AppendWake(w) =>
      To(st, t, AppendClear).(waiterValue := st.waiterValue[w := (if w in st.waiterValue then st.waiterValue[w] else 0) + 1])
    // lock->Release()
    case AppendClear => To(st, t, AppendV).(lockHolder := None)
    case AppendV => To(st, t, Out).(lockValue := st.lockValue + 1)
    case RemoveP => To(st, t, RemoveHold).(lockValue := st.lockValue - 1)
    case RemoveHold => To(st, t, RemoveCheck).(lockHolder := Some(t))
    // while (list->IsEmpty())
    case RemoveCheck => To(st, t, if st.list == [] then WaitEnqueue else RemoveTake)
    // item = list->RemoveFront()
    case RemoveTake => if st.list == [] then st else To(st, t, RemoveClear).(list := st.list[1..], removed := st.removed + [st.list[0]])
    case RemoveClear => To(st, t, RemoveV).(lockHolder := None)
    case RemoveV => To(st, t, Out).(lockValue := st.lockValue + 1)
    // waiter = new Semaphore("condition", 0); waitQueue->Append(waiter)
    case WaitEnqueue => To(st, t, WaitClear).(waitQueue := st.waitQueue + [t], waiterValue := st.waiterValue[t := 0])
    case WaitClear => To(st, t, WaitV).(lockHolder := None)
    case WaitV => To(st, t, WaitSleep).(lockValue := st.lockValue + 1)
    // waiter->P()
    case WaitSleep => To(st, t, WaitP).(waiterValue := st.waiterValue[t := st.waiterValue[t] - 1])
    case WaitP => To(st, t, WaitHold).(lockValue := st.lockValue - 1)
    case WaitHold => To(st, t, RemoveCheck).(lockHolder := Some(t))
  }

  ghost function Apply<T>(st: State<T>, e: Event<T>): State<T>
    requires Enabled(st, e)
  {
    match e
    case StartAppend(t, x) => To(st, t, AppendP(x))
    case StartRemove(t) => To(st, t, RemoveP)
    case Go(t) => if Passes(st, t) then Step(st, t) else st.(failed := true)
  }

  // ---- the invariant ------------------------------------------------------------------

  // Between the P of the lock and its V.
  predicate Inside<T>(p: Pc<T>) {
    || p.AppendHold? || p.AppendPut? || p.AppendSignal? || p.AppendWake? || p.AppendClear? || p.AppendV?
    || p.RemoveHold? || p.RemoveCheck? || p.RemoveTake? || p.RemoveClear? || p.RemoveV?
    || p.WaitEnqueue? || p.WaitClear? || p.WaitV? || p.WaitHold?
  }

  // Inside, with lockHolder set.
  predicate Holding<T>(p: Pc<T>) {
    || p.AppendPut? || p.AppendSignal? || p.AppendWake? || p.AppendClear?
    || p.RemoveCheck? || p.RemoveTake? || p.RemoveClear? || p.WaitEnqueue? || p.WaitClear?
  }

  // On the wait queue, or taken off it but not past the P of its waiter yet.
  predicate Parked<T>(p: Pc<T>) {
    p.WaitClear? || p.WaitV? || p.WaitSleep?
  }

  // Consumers that have been signalled and have still to recheck the list.
  function Signalled<T>(st: State<T>): set<ThreadId> {
    set t | t in st.pc && ((Parked(st.pc[t]) && t !in st.waitQueue) || st.pc[t].WaitP? || st.pc[t].WaitHold?)
  }

  // One item may be in hand: just appended and not signalled, or about to be taken.
  predicate InHand<T>(p: Pc<T>) {
    p.AppendSignal? || p.RemoveCheck? || p.RemoveTake?
  }

  ghost predicate Mutex<T>(st: State<T>) {
    && st.lockValue <= 1
    && (st.lockValue == 1 ==> forall t :: t in st.pc ==> !Inside(st.pc[t]))
    && (forall t, u :: t in st.pc && u in st.pc && Inside(st.pc[t]) && Inside(st.pc[u]) ==> t == u)
    && (st.lockValue == 0 ==> exists t :: t in st.pc && Inside(st.pc[t]))
    && (forall t :: t in st.pc && Holding(st.pc[t]) ==> st.lockHolder == Some(t))
    && (st.lockHolder.Some? ==> st.lockHolder.value in st.pc && Holding(st.pc[st.lockHolder.value]))
  }

  ghost predicate Queue<T>(st: State<T>) {
    && (forall i, j :: 0 <= i < j < |st.waitQueue| ==> st.waitQueue[i] != st.waitQueue[j])
    && (forall t :: t in st.waitQueue ==> t in st.pc && Parked(st.pc[t]))
    && (forall t :: t in st.pc && Parked(st.pc[t]) ==> t in st.waiterValue && Woken(st, t))
    && (forall t :: t in st.pc && st.pc[t].AppendWake? ==>
          && st.pc[t].waiter in st.pc && st.pc[st.pc[t].waiter] == WaitSleep && st.pc[t].waiter !in st.waitQueue)
  }

  ghost predicate BeingWoken<T>(st: State<T>, t: ThreadId) {
    exists p :: p in st.pc && st.pc[p] == AppendWake(t)
  }

  // A parked consumer is queued, or the producer that took it off the queue is about to raise
  // its waiter, or the waiter has been raised.
  ghost predicate Woken<T>(st: State<T>, t: ThreadId)
    requires t in st.waiterValue
  {
    st.waiterValue[t] == if t in st.waitQueue || BeingWoken(st, t) then 0 else 1
  }

  ghost predicate SomeInHand<T>(st: State<T>) {
    exists t :: t in st.pc && InHand(st.pc[t])
  }

  // As long as a consumer is queued, every item has a signalled consumer coming for it.
  ghost predicate Covered<T>(st: State<T>) {
    st.waitQueue != [] ==>
      |st.list| <= |Signalled(st)| + if SomeInHand(st) then 1 else 0
  }

  ghost predicate Inv<T>(st: State<T>) {
    && st.appended == st.removed + st.list && Distinct(st.list)
    && Mutex(st) && Queue(st) && Covered(st)
    && (forall t :: t in st.pc && st.pc[t].RemoveTake? ==> st.list != [])
    && (forall t :: t in st.pc && st.pc[t].WaitEnqueue? ==> st.list == [])
  }

  ghost predicate Init<T>(st: State<T>) {
    && (forall t :: t in st.pc ==> st.pc[t] == Out) && st.lockValue == 1 && st.lockHolder == None
    && st.list == [] && st.waitQueue == [] && st.waiterValue == map[] && st.appended == [] && st.removed == []
    && !st.failed
  }

  // ---- every step keeps the invariant -------------------------------------------------

  // What a step does to the lock: nothing, P, the setting of lockHolder, its clearing, or V.
  ghost predicate LockMove<T>(st: State<T>, st': State<T>, t: ThreadId) {
    && t in st.pc && t in st'.pc && st'.pc == st.pc[t := st'.pc[t]]
    && var p, q := st.pc[t], st'.pc[t];
       || (Inside(p) == Inside(q) && Holding(p) == Holding(q) && st'.lockValue == st.lockValue && st'.lockHolder == st.lockHolder)
       || (!Inside(p) && Inside(q) && !Holding(q) && st.lockValue == st'.lockValue + 1 && st'.lockHolder == st.lockHolder)
       || (Inside(p) && !Holding(p) && Holding(q) && st'.lockValue == st.lockValue && st'.lockHolder == Some(t))
       || (Holding(p) && Inside(q) && !Holding(q) && st'.lockValue == st.lockValue && st'.lockHolder == None)
       || (Inside(p) && !Holding(p) && !Inside(q) && st'.lockValue == st.lockValue + 1 && st'.lockHolder == st.lockHolder)
  }

  predicate Appending<T>(p: Pc<T>) {
    || p.AppendP? || p.AppendHold? || p.AppendPut? || p.AppendSignal? || p.AppendWake? || p.AppendClear? || p.AppendV?
  }

  lemma EveryLockMove<T>(st: State<T>, t: ThreadId)
    requires Enabled(st, Go(t))
    ensures LockMove(st, Step(st, t), t)
  {
    ComingStep(st, t);
    hide Step, LockMove;
    if Appending(st.pc[t]) {
      AppendLockMove(st, t);
    } else {
      RemoveLockMove(st, t);
    }
  }

  lemma AppendLockMove<T>(st: State<T>, t: ThreadId)
    requires Enabled(st, Go(t)) && Moves(st, Step(st, t), t) && Appending(st.pc[t])
    ensures LockMove(st, Step(st, t), t)
  {
    hide LockMove, Moves;
    var st' := Step(st, t);
    match st.pc[t] {
      case AppendP(_) => MoveIn(st, st', t);
      case AppendHold(_) => SetHolder(st, st', t);
      case AppendClear => ClearHolder(st, st', t);
      case AppendV => MoveOut(st, st', t);
      case _ => LockStays(st, st', t);
    }
  }

  lemma RemoveLockMove<T>(st: State<T>, t: ThreadId)
    requires Enabled(st, Go(t)) && Moves(st, Step(st, t), t) && !Appending(st.pc[t])
    ensures LockMove(st, Step(st, t), t)
  {
    hide LockMove, Moves;
    var st' := Step(st, t);
    match st.pc[t] {
      case RemoveP => MoveIn(st, st', t);
      case WaitP => MoveIn(st, st', t);
      case RemoveHold => SetHolder(st, st', t);
      case WaitHold => SetHolder(st, st', t);
      case RemoveClear => ClearHolder(st, st', t);
      case WaitClear => ClearHolder(st, st', t);
      case RemoveV => MoveOut(st, st', t);
      case WaitV => MoveOut(st, st', t);
      case _ => LockStays(st, st', t);
    }
  }

  // The five kinds of step, as rules to apply by hand.
  ghost predicate Moves<T>(st: State<T>, st': State<T>, t: ThreadId) {
    t in st.pc && t in st'.pc && st'.pc == st.pc[t := st'.pc[t]]
  }

  lemma LockStays<T>(st: State<T>, st': State<T>, t: ThreadId)
    requires Moves(st, st', t) && Inside(st.pc[t]) == Inside(st'.pc[t]) && Holding(st.pc[t]) == Holding(st'.pc[t])
    requires st'.lockValue == st.lockValue && st'.lockHolder == st.lockHolder
    ensures LockMove(st, st', t)
  {
  }

  lemma MoveIn<T>(st: State<T>, st': State<T>, t: ThreadId)
    requires Moves(st, st', t) && !Inside(st.pc[t]) && Inside(st'.pc[t]) && !Holding(st'.pc[t])
    requires st.lockValue == st'.lockValue + 1 && st'.lockHolder == st.lockHolder
    ensures LockMove(st, st', t)
  {
  }

  lemma SetHolder<T>(st: State<T>, st': State<T>, t: ThreadId)
    requires Moves(st, st', t) && Inside(st.pc[t]) && !Holding(st.pc[t]) && Holding(st'.pc[t])
    requires st'.lockValue == st.lockValue && st'.lockHolder == Some(t)
    ensures LockMove(st, st', t)
  {
  }

  lemma ClearHolder<T>(st: State<T>, st': State<T>, t: ThreadId)
    requires Moves(st, st', t) && Holding(st.pc[t]) && Inside(st'.pc[t]) && !Holding(st'.pc[t])
    requires st'.lockValue == st.lockValue && st'.lockHolder == None
    ensures LockMove(st, st', t)
  {
  }

  lemma MoveOut<T>(st: State<T>, st': State<T>, t: ThreadId)
    requires Moves(st, st', t) && Inside(st.pc[t]) && !Holding(st.pc[t]) && !Inside(st'.pc[t])
    requires st'.lockValue == st.lockValue + 1 && st'.lockHolder == st.lockHolder
    ensures LockMove(st, st', t)
  {
  }

  lemma MutexMove<T>(st: State<T>, st': State<T>, t: ThreadId)
    requires Mutex(st) && LockMove(st, st', t)
    ensures Mutex(st')
  {
    hide Inside, Holding;
    HoldingInside(st);
    HoldingInside(st');
    var p, q := st.pc[t], st'.pc[t];
    assert forall u :: u in st.pc && u != t ==> st'.pc[u] == st.pc[u];
    if st'.lockValue == 0 {
      if Inside(q) {
        assert t in st'.pc && Inside(st'.pc[t]);
      } else {
        var u :| u in st.pc && Inside(st.pc[u]);
        assert u in st'.pc && Inside(st'.pc[u]);
      }
    }
  }

  lemma HoldingInside<T>(st: State<T>)
    ensures forall t :: t in st.pc && Holding(st.pc[t]) ==> Inside(st.pc[t])
  {
  }

  lemma MutexStep<T>(st: State<T>, t: ThreadId)
    requires Mutex(st) && Enabled(st, Go(t))
    ensures Mutex(Step(st, t))
  {
    hide Mutex, Step, LockMove;
    EveryLockMove(st, t);
    MutexMove(st, Step(st, t), t);
  }

  // No assertion of Release, Wait or Signal fails.
  lemma AssertsHold<T>(st: State<T>, t: ThreadId)
    requires Mutex(st) && t in st.pc && Asserts(st.pc[t])
    ensures st.lockHolder == Some(t)
  {
  }

  // The steps that the wait queue does not see.
  lemma QueueSame<T>(st: State<T>, st': State<T>, t: ThreadId)
    requires Queue(st) && t in st.pc && t in st'.pc && st'.pc == st.pc[t := st'.pc[t]]
    requires st'.waitQueue == st.waitQueue && st'.waiterValue == st.waiterValue
    requires Parked(st'.pc[t]) == Parked(st.pc[t])
    requires !st.pc[t].AppendWake? && !st'.pc[t].AppendWake?
    requires st.pc[t] == WaitSleep ==> st'.pc[t] == WaitSleep
    ensures Queue(st')
  {
    forall u | u in st'.pc && Parked(st'.pc[u]) ensures u in st'.waiterValue && Woken(st', u) {
      assert Woken(st, u);
      SameBeingWoken(st, st', t, u);
    }
  }

  lemma SameBeingWoken<T>(st: State<T>, st': State<T>, t: ThreadId, u: ThreadId)
    requires t in st.pc && t in st'.pc && st'.pc == st.pc[t := st'.pc[t]]
    requires st.pc[t] == AppendWake(u) <==> st'.pc[t] == AppendWake(u)
    ensures BeingWoken(st', u) == BeingWoken(st, u)
  {
    if BeingWoken(st, u) {
      var p :| p in st.pc && st.pc[p] == AppendWake(u);
      assert p in st'.pc && st'.pc[p] == AppendWake(u);
    }
    if BeingWoken(st', u) {
      var p :| p in st'.pc && st'.pc[p] == AppendWake(u);
      assert p in st.pc && st.pc[p] == AppendWake(u);
    }
  }

  // Signal takes the first waiter off the queue.
  lemma QueuePop<T>(st: State<T>, t: ThreadId)
    requires Mutex(st) && Queue(st) && t in st.pc && st.pc[t] == AppendSignal && st.waitQueue != []
    ensures Queue(Step(st, t))
  {
    var st', w := Step(st, t), st.waitQueue[0];
    assert w in st.waitQueue && w !in st.waitQueue[1..];
    assert forall u :: u in st.waitQueue <==> u == w || u in st.waitQueue[1..];
    assert st'.pc[t] == AppendWake(w);
    forall u | u in st'.pc && Parked(st'.pc[u]) ensures u in st'.waiterValue && Woken(st', u) {
      assert Woken(st, u);
      if u == w {
        assert BeingWoken(st', w);
      } else {
        SameBeingWoken(st, st', t, u);
      }
    }
  }

  // V on the waiter.
  lemma QueueRaise<T>(st: State<T>, t: ThreadId)
    requires Mutex(st) && Queue(st) && t in st.pc && st.pc[t].AppendWake?
    ensures Queue(Step(st, t))
  {
    var st', w := Step(st, t), st.pc[t].waiter;
    assert Woken(st, w) && BeingWoken(st, w);
    forall u | u in st'.pc && Parked(st'.pc[u]) ensures u in st'.waiterValue && Woken(st', u) {
      assert Woken(st, u);
      if u == w {
        assert !BeingWoken(st', w);
      } else {
        SameBeingWoken(st, st', t, u);
      }
    }
  }

  // Wait puts a fresh waiter on the queue.
  lemma QueuePark<T>(st: State<T>, t: ThreadId)
    requires Mutex(st) && Queue(st) && t in st.pc && st.pc[t] == WaitEnqueue
    ensures Queue(Step(st, t))
  {
    var st' := Step(st, t);
    forall u | u in st'.pc && Parked(st'.pc[u]) ensures u in st'.waiterValue && Woken(st', u) {
      if u != t {
        assert Woken(st, u);
        SameBeingWoken(st, st', t, u);
      }
    }
  }

  // The waiter's P: the consumer is not parked any more.
  lemma QueueUnpark<T>(st: State<T>, t: ThreadId)
    requires Mutex(st) && Queue(st) && t in st.pc && st.pc[t] == WaitSleep && t in st.waiterValue && st.waiterValue[t] > 0
    ensures Queue(Step(st, t))
  {
    var st' := Step(st, t);
    assert Woken(st, t);
    forall u | u in st'.pc && Parked(st'.pc[u]) ensures u in st'.waiterValue && Woken(st', u) {
      assert Woken(st, u);
      SameBeingWoken(st, st', t, u);
    }
    forall p | p in st'.pc && st'.pc[p].AppendWake?
      ensures st'.pc[p].waiter in st'.pc && st'.pc[st'.pc[p].waiter] == WaitSleep && st'.pc[p].waiter !in st'.waitQueue
    {
      assert st.pc[p] == AppendWake(st.pc[p].waiter);
      assert BeingWoken(st, st.pc[p].waiter);
    }
  }

  lemma QueueStep<T>(st: State<T>, t: ThreadId)
    requires Mutex(st) && Queue(st) && Enabled(st, Go(t))
    ensures Queue(Step(st, t))
  {
    hide Mutex, Queue;
    match st.pc[t] {
      case AppendSignal => if st.waitQueue == [] { QueueSame(st, Step(st, t), t); } else { QueuePop(st, t); }
      case AppendWake(_) => QueueRaise(st, t);
      case WaitEnqueue => QueuePark(st, t);
      case WaitSleep => QueueUnpark(st, t);
      case Out =>
      case _ => QueueSame(st, Step(st, t), t);
    }
  }

  // With the lock held by t alone, an item is in hand exactly when t has it.
  lemma OnlyInHand<T>(st: State<T>, t: ThreadId)
    requires Mutex(st) && t in st.pc && Inside(st.pc[t])
    ensures SomeInHand(st) <==> InHand(st.pc[t])
  {
    forall u | u in st.pc && InHand(st.pc[u]) ensures u == t {
      assert Inside(st.pc[u]);
    }
  }

  lemma InHandSame<T>(st: State<T>, st': State<T>, t: ThreadId)
    requires t in st.pc && t in st'.pc && st'.pc == st.pc[t := st'.pc[t]] && InHand(st.pc[t]) == InHand(st'.pc[t])
    ensures SomeInHand(st') == SomeInHand(st)
  {
    if SomeInHand(st) {
      var u :| u in st.pc && InHand(st.pc[u]);
      assert u in st'.pc && InHand(st'.pc[u]);
    }
    if SomeInHand(st') {
      var u :| u in st'.pc && InHand(st'.pc[u]);
      assert u in st.pc && InHand(st.pc[u]);
    }
  }

  // Signalled, but for the thread that moved.
  predicate IsSignalled<T>(st: State<T>, t: ThreadId)
    requires t in st.pc
  {
    (Parked(st.pc[t]) && t !in st.waitQueue) || st.pc[t].WaitP? || st.pc[t].WaitHold?
  }

  lemma SignalledMove<T>(st: State<T>, st': State<T>, t: ThreadId)
    requires t in st.pc && t in st'.pc && st'.pc == st.pc[t := st'.pc[t]]
    requires forall u :: u != t ==> (u in st'.waitQueue <==> u in st.waitQueue)
    ensures Signalled(st') == (if IsSignalled(st', t) then Signalled(st) + {t} else Signalled(st) - {t})
    ensures IsSignalled(st, t) <==> t in Signalled(st)
  {
  }

  // A step that leaves the list, the wait queue, and what t counts for alone.
  lemma CoveredSame<T>(st: State<T>, st': State<T>, t: ThreadId)
    requires Covered(st) && t in st.pc && t in st'.pc && st'.pc == st.pc[t := st'.pc[t]]
    requires st'.list == st.list && st'.waitQueue == st.waitQueue
    requires InHand(st'.pc[t]) == InHand(st.pc[t]) && IsSignalled(st', t) == IsSignalled(st, t)
    ensures Covered(st')
  {
    InHandSame(st, st', t);
    SignalledMove(st, st', t);
    assert Signalled(st') == Signalled(st);
  }

  // The steps by which an item comes into hand, or leaves it.
  lemma CoveredPut<T>(st: State<T>, t: ThreadId)
    requires Mutex(st) && Covered(st) && t in st.pc && st.pc[t].AppendPut?
    ensures Covered(Step(st, t))
  {
    HandMoves(st, t);
    SignalledMove(st, Step(st, t), t);
    assert Signalled(Step(st, t)) == Signalled(st);
  }

  lemma CoveredHold<T>(st: State<T>, t: ThreadId)
    requires Mutex(st) && Covered(st) && t in st.pc && st.pc[t].RemoveHold?
    ensures Covered(Step(st, t))
  {
    HandMoves(st, t);
    SignalledMove(st, Step(st, t), t);
    assert Signalled(Step(st, t)) == Signalled(st);
  }

  lemma CoveredTake<T>(st: State<T>, t: ThreadId)
    requires Mutex(st) && Covered(st) && t in st.pc && st.pc[t].RemoveTake? && st.list != []
    ensures Covered(Step(st, t))
  {
    HandMoves(st, t);
    SignalledMove(st, Step(st, t), t);
    assert Signalled(Step(st, t)) == Signalled(st);
  }

  lemma HandMoves<T>(st: State<T>, t: ThreadId)
    requires Mutex(st) && Enabled(st, Go(t)) && Inside(st.pc[t])
    ensures SomeInHand(st) <==> InHand(st.pc[t])
    ensures Inside(Step(st, t).pc[t]) ==> (SomeInHand(Step(st, t)) <==> InHand(Step(st, t).pc[t]))
  {
    hide Mutex, LockMove;
    MutexStep(st, t);
    OnlyInHand(st, t);
    if Inside(Step(st, t).pc[t]) {
      OnlyInHand(Step(st, t), t);
    }
  }

  lemma CoveredCheck<T>(st: State<T>, t: ThreadId)
    requires Mutex(st) && Queue(st) && Covered(st) && t in st.pc && (st.pc[t].RemoveCheck? || (st.pc[t].WaitEnqueue? && st.list == []))
    ensures Covered(Step(st, t))
  {
    var st' := Step(st, t);
    if st.list != [] {
      InHandSame(st, st', t);
      SignalledMove(st, st', t);
      assert Signalled(st') == Signalled(st);
    }
  }

  lemma CoveredRecheck<T>(st: State<T>, t: ThreadId)
    requires Mutex(st) && Queue(st) && Covered(st) && t in st.pc && st.pc[t].WaitHold?
    ensures Covered(Step(st, t))
  {
    var st' := Step(st, t);
    HandMoves(st, t);
    SignalledMove(st, st', t);
    assert Signalled(st') == Signalled(st) - {t};
  }

  lemma CoveredSignal<T>(st: State<T>, t: ThreadId)
    requires Mutex(st) && Queue(st) && Covered(st) && t in st.pc && st.pc[t].AppendSignal?
    ensures Covered(Step(st, t))
  {
    if st.waitQueue != [] {
      SignalAddsOne(st, t);
      hide Mutex, Queue, Signalled;
      HandMoves(st, t);
    }
  }

  lemma SignalAddsOne<T>(st: State<T>, t: ThreadId)
    requires Queue(st) && t in st.pc && st.pc[t].AppendSignal? && st.waitQueue != []
    ensures Signalled(Step(st, t)) == Signalled(st) + {st.waitQueue[0]} && st.waitQueue[0] !in Signalled(st)
  {
    var w := st.waitQueue[0];
    assert w in st.waitQueue && w !in st.waitQueue[1..];
    assert forall u :: u in st.waitQueue <==> u == w || u in st.waitQueue[1..];
    assert Parked(st.pc[w]);
  }

  lemma CoveredStep<T>(st: State<T>, t: ThreadId)
    requires Inv(st) && Enabled(st, Go(t))
    ensures Covered(Step(st, t))
  {
    ComingStep(st, t);
    hide Step, Mutex, Queue, Covered;
    if Appending(st.pc[t]) {
      CoveredAppend(st, t);
    } else {
      CoveredRemove(st, t);
    }
  }

  lemma CoveredAppend<T>(st: State<T>, t: ThreadId)
    requires Mutex(st) && Queue(st) && Covered(st) && Enabled(st, Go(t)) && Appending(st.pc[t]) && Moves(st, Step(st, t), t)
    ensures Covered(Step(st, t))
  {
    hide Mutex, Queue, Covered;
    var st' := Step(st, t);
    match st.pc[t] {
      case AppendPut(_) => CoveredPut(st, t);
      case AppendSignal => CoveredSignal(st, t);
      case _ => CoveredSame(st, st', t);
    }
  }

  lemma CoveredRemove<T>(st: State<T>, t: ThreadId)
    requires Inv(st) && Enabled(st, Go(t)) && !Appending(st.pc[t]) && Moves(st, Step(st, t), t)
    ensures Covered(Step(st, t))
  {
    hide Mutex, Queue, Covered;
    var st' := Step(st, t);
    match st.pc[t] {
      case RemoveHold => CoveredHold(st, t);
      case RemoveCheck => CoveredCheck(st, t);
      case RemoveTake => CoveredTake(st, t);
      case WaitEnqueue => CoveredCheck(st, t);
      case WaitSleep => RaisedNotQueued(st, t); CoveredSame(st, st', t);
      case WaitHold => CoveredRecheck(st, t);
      case _ => CoveredSame(st, st', t);
    }
  }

  lemma RaisedNotQueued<T>(st: State<T>, t: ThreadId)
    requires Queue(st) && Enabled(st, Go(t)) && st.pc[t].WaitSleep?
    ensures t !in st.waitQueue
  {
    assert Woken(st, t);
  }

  lemma StartKeeps<T>(st: State<T>, e: Event<T>)
    requires Inv(st) && Enabled(st, e) && !e.Go?
    ensures Inv(Apply(st, e))
  {
    hide Mutex, Queue, Covered;
    var st', t := Apply(st, e), e.thread;
    MutexMove(st, st', t);
    QueueSame(st, st', t);
    CoveredSame(st, st', t);
  }

  lemma InvKept<T>(st: State<T>, e: Event<T>)
    requires Inv(st) && Enabled(st, e)
    ensures Inv(Apply(st, e))
  {
    if !e.Go? {
      StartKeeps(st, e);
    } else if Passes(st, e.thread) {
      MutexStep(st, e.thread);
      QueueStep(st, e.thread);
      CoveredStep(st, e.thread);
      RestStep(st, e.thread);
    } else {
      FailedKeeps(st);
    }
  }

  lemma FailedKeeps<T>(st: State<T>)
    requires Inv(st)
    ensures Inv(st.(failed := true))
  {
    var st' := st.(failed := true);
    forall t | t in st'.pc && Parked(st'.pc[t]) ensures t in st'.waiterValue && Woken(st', t) {
      assert Woken(st, t);
      assert BeingWoken(st', t) == BeingWoken(st, t);
    }
    assert Signalled(st') == Signalled(st) && SomeInHand(st') == SomeInHand(st);
  }

  // Appended is what was removed and what is listed;
  lemma DeliveryStep<T>(st: State<T>, t: ThreadId)
    requires st.appended == st.removed + st.list && Distinct(st.list) && Enabled(st, Go(t)) && Passes(st, t)
    ensures Step(st, t).appended == Step(st, t).removed + Step(st, t).list && Distinct(Step(st, t).list)
  {
    if st.pc[t].RemoveTake? && st.list != [] {
      assert st.removed + st.list == (st.removed + [st.list[0]]) + st.list[1..];
    }
  }

  // and what the current thread has seen of the list still holds, for the lock is its own.
  lemma RestStep<T>(st: State<T>, t: ThreadId)
    requires Inv(st) && Enabled(st, Go(t)) && Passes(st, t)
    ensures Step(st, t).appended == Step(st, t).removed + Step(st, t).list && Distinct(Step(st, t).list)
    ensures forall u :: u in Step(st, t).pc && Step(st, t).pc[u].RemoveTake? ==> Step(st, t).list != []
    ensures forall u :: u in Step(st, t).pc && Step(st, t).pc[u].WaitEnqueue? ==> Step(st, t).list == []
  {
    hide Queue, Covered;
    DeliveryStep(st, t);
    var st' := Step(st, t);
    forall u | u in st'.pc && (st'.pc[u].RemoveTake? || st'.pc[u].WaitEnqueue?)
      ensures st'.pc[u].RemoveTake? ==> st'.list != []
      ensures st'.pc[u].WaitEnqueue? ==> st'.list == []
    {
      SeenHolds(st, t, u);
    }
  }

  lemma SeenHolds<T>(st: State<T>, t: ThreadId, u: ThreadId)
    requires Mutex(st) && Enabled(st, Go(t)) && u in st.pc
    requires (st.pc[u].RemoveTake? ==> st.list != []) && (st.pc[u].WaitEnqueue? ==> st.list == [])
    ensures Step(st, t).pc[u].RemoveTake? ==> Step(st, t).list != []
    ensures Step(st, t).pc[u].WaitEnqueue? ==> Step(st, t).list == []
  {
    if u != t && Inside(st.pc[u]) {
      assert !Inside(st.pc[t]);
    }
  }

  // ---- runs ---------------------------------------------------------------------------

  ghost predicate Run<T(!new)>(sts: seq<State<T>>, es: seq<Event<T>>) {
    && |sts| == |es| + 1
    && forall k :: 0 <= k < |es| ==> RunStep(sts, es, k)
  }

  ghost predicate RunStep<T(!new)>(sts: seq<State<T>>, es: seq<Event<T>>, k: nat)
    requires |sts| == |es| + 1 && k < |es|
  {
    !sts[k].failed && Enabled(sts[k], es[k]) && sts[k + 1] == Apply(sts[k], es[k])
  }

  lemma InitInv<T>(st: State<T>)
    requires Init(st)
    ensures Inv(st)
  {
  }

  lemma {:induction false} RunInv<T(!new)>(sts: seq<State<T>>, es: seq<Event<T>>, k: nat)
    requires Run(sts, es) && Init(sts[0]) && k <= |es|
    ensures Inv(sts[k])
    decreases k
  {
    if k == 0 {
      InitInv(sts[0]);
    } else {
      RunInv(sts, es, k - 1);
      assert RunStep(sts, es, k - 1);
      InvKept(sts[k - 1], es[k - 1]);
    }
  }

  // In every reachable state: items leave in the order they came, each once; at most one
  // thread is between Acquire and Release; the lock is held where that is asserted, and the list
  // is not empty where List::RemoveFront is called; and whenever the lock is free and a
  // consumer waits, each listed item has a signalled consumer of its own coming for it.
  lemma MonitorSafe<T(!new)>(sts: seq<State<T>>, es: seq<Event<T>>, k: nat)
    requires Run(sts, es) && Init(sts[0]) && k <= |es|
    ensures sts[k].appended == sts[k].removed + sts[k].list && Distinct(sts[k].list)
    ensures forall t, u :: t in sts[k].pc && u in sts[k].pc && Inside(sts[k].pc[t]) && Inside(sts[k].pc[u]) ==> t == u
    ensures forall t :: t in sts[k].pc && Asserts(sts[k].pc[t]) ==> sts[k].lockHolder == Some(t)
    ensures forall t :: t in sts[k].pc && sts[k].pc[t].RemoveTake? ==> sts[k].list != []
    ensures sts[k].lockValue == 1 && sts[k].waitQueue != [] ==> |sts[k].list| <= |Signalled(sts[k])|
  {
    RunInv(sts, es, k);
    forall t | t in sts[k].pc && Asserts(sts[k].pc[t]) ensures sts[k].lockHolder == Some(t) {
      AssertsHold(sts[k], t);
    }
    forall t | t in sts[k].pc && sts[k].lockValue == 1 ensures !InHand(sts[k].pc[t]) {
      assert !Inside(sts[k].pc[t]);
    }
  }

  // ---- the assertions of the source ---------------------------------------------------

  // Of all assertions only the one of List::Append can fail, that the item is not listed.
  lemma OnlyListed<T>(st: State<T>, t: ThreadId)
    requires Inv(st) && Enabled(st, Go(t))
    ensures Passes(st, t) <==> !(st.pc[t].AppendPut? && st.pc[t].item in st.list)
  {
    if Asserts(st.pc[t]) {
      AssertsHold(st, t);
    }
  }

  // An append of x whose list->Append comes before an earlier x has been taken off again.
  ghost predicate TooEarly<T(!new)>(sts: seq<State<T>>, es: seq<Event<T>>, k: nat)
    requires |sts| == |es| + 1 && k < |es|
  {
    es[k].Go? && es[k].thread in sts[k].pc && sts[k].pc[es[k].thread].AppendPut?
    && exists i :: |sts[k].removed| <= i < |sts[k].appended| && sts[k].appended[i] == sts[k].pc[es[k].thread].item
  }

  // In every run, the program fails at exactly those steps.
  lemma FailsIff<T(!new)>(sts: seq<State<T>>, es: seq<Event<T>>, k: nat)
    requires Run(sts, es) && Init(sts[0]) && k < |es|
    ensures sts[k + 1].failed <==> TooEarly(sts, es, k)
  {
    RunInv(sts, es, k);
    assert RunStep(sts, es, k);
    var st, e := sts[k], es[k];
    if e.Go? {
      OnlyListed(st, e.thread);
      if st.pc[e.thread].AppendPut? && st.pc[e.thread].item in st.list {
        var j :| 0 <= j < |st.list| && st.list[j] == st.pc[e.thread].item;
        assert st.appended[|st.removed| + j] == st.list[j];
      }
      if TooEarly(sts, es, k) {
        var i :| |st.removed| <= i < |st.appended| && st.appended[i] == st.pc[e.thread].item;
        assert st.list[i - |st.removed|] == st.appended[i];
      }
    }
  }

  // On its way to the list.
  predicate Coming<T>(p: Pc<T>) {
    p.AppendP? || p.AppendHold? || p.AppendPut?
  }

  // Nobody is appending x, and x is not listed.
  ghost predicate Away<T>(st: State<T>, x: T) {
    x !in st.list && forall u :: u in st.pc && Coming(st.pc[u]) ==> st.pc[u].item != x
  }

  // What is coming is not listed, nor coming twice.
  ghost predicate Separate<T>(st: State<T>) {
    && (forall u :: u in st.pc && Coming(st.pc[u]) ==> st.pc[u].item !in st.list)
    && (forall u, v :: u in st.pc && v in st.pc && Coming(st.pc[u]) && Coming(st.pc[v]) && st.pc[u].item == st.pc[v].item ==> u == v)
  }

  // What a caller can see to: Append is called only with items that are away. Then no
  // assertion ever fails.
  lemma {:induction false} CarefulRun<T(!new)>(sts: seq<State<T>>, es: seq<Event<T>>, k: nat)
    requires Run(sts, es) && Init(sts[0]) && k <= |es|
    requires forall j :: 0 <= j < k && es[j].StartAppend? ==> Away(sts[j], es[j].item)
    ensures Separate(sts[k]) && !sts[k].failed
    decreases k
  {
    if k > 0 {
      CarefulRun(sts, es, k - 1);
      RunInv(sts, es, k - 1);
      assert RunStep(sts, es, k - 1);
      SeparateKept(sts[k - 1], es[k - 1]);
    }
  }

  // Nothing starts coming by a statement, and only AppendPut lists an item.
  lemma ComingStep<T>(st: State<T>, t: ThreadId)
    requires Enabled(st, Go(t))
    ensures t in Step(st, t).pc && Step(st, t).pc == st.pc[t := Step(st, t).pc[t]] && Step(st, t).failed == st.failed
    ensures Coming(Step(st, t).pc[t]) ==> Coming(st.pc[t]) && Step(st, t).pc[t].item == st.pc[t].item
    ensures st.pc[t].AppendPut? ==> !Coming(Step(st, t).pc[t]) && Step(st, t).list == st.list + [st.pc[t].item]
    ensures !st.pc[t].AppendPut? ==> Step(st, t).list == st.list || (st.list != [] && Step(st, t).list == st.list[1..])
  {
    assert st.pc[t := st.pc[t]] == st.pc;
    match st.pc[t] {
      case Out =>
      case AppendP(_) =>
      case AppendHold(_) =>
      case AppendPut(_) =>
      case AppendSignal =>
      case AppendWake(_) =>
      case AppendClear =>
      case AppendV =>
      case RemoveP =>
      case RemoveHold =>
      case RemoveCheck =>
      case RemoveTake =>
      case RemoveClear =>
      case RemoveV =>
      case WaitEnqueue =>
      case WaitClear =>
      case WaitV =>
      case WaitSleep =>
      case WaitP =>
      case WaitHold =>
    }
  }

  lemma SeparateKept<T>(st: State<T>, e: Event<T>)
    requires Inv(st) && Separate(st) && !st.failed && Enabled(st, e) && (e.StartAppend? ==> Away(st, e.item))
    ensures Separate(Apply(st, e)) && !Apply(st, e).failed
  {
    hide Step, Inv;
    if e.Go? {
      OnlyListed(st, e.thread);
      ComingStep(st, e.thread);
    }
  }

  // Without interference the state before the call decides: with the lock free, Append(x) by a
  // thread that runs alone fails exactly if x is listed.
  lemma AppendAlone<T>(st: State<T>, t: ThreadId, x: T) returns (st': State<T>)
    requires Inv(st) && !st.failed && Enabled(st, StartAppend(t, x)) && st.lockValue == 1
    ensures var s1 := Apply(st, StartAppend(t, x));
            && Enabled(s1, Go(t)) && Enabled(Apply(s1, Go(t)), Go(t)) && Enabled(Apply(Apply(s1, Go(t)), Go(t)), Go(t))
            && st' == Apply(Apply(Apply(s1, Go(t)), Go(t)), Go(t))
    ensures st'.failed <==> x in st.list
  {
    var s1 := Apply(st, StartAppend(t, x));
    var s2 := Apply(s1, Go(t));
    var s3 := Apply(s2, Go(t));
    assert s3.pc[t] == AppendPut(x) && s3.list == st.list && !s3.failed;
    st' := Apply(s3, Go(t));
  }

  lemma Extend<T(!new)>(sts: seq<State<T>>, es: seq<Event<T>>, e: Event<T>) returns (sts': seq<State<T>>, es': seq<Event<T>>)
    requires Run(sts, es) && !sts[|es|].failed && Enabled(sts[|es|], e)
    ensures sts' == sts + [Apply(sts[|es|], e)] && es' == es + [e] && Run(sts', es')
  {
    sts', es' := sts + [Apply(sts[|es|], e)], es + [e];
    forall k | 0 <= k < |es'| ensures RunStep(sts', es', k) {
      if k < |es| {
        assert RunStep(sts, es, k);
      }
    }
  }

  // A run that fails: the same item is appended twice, with no consumer in between.
  lemma AppendTwice<T(!new)>(x: T) returns (sts: seq<State<T>>, es: seq<Event<T>>)
    ensures Run(sts, es) && Init(sts[0]) && sts[|es|].failed
    ensures forall e :: e in es ==> e == StartAppend(0, x) || e == Go(0)
  {
    sts, es := AppendOnce(x);
    hide Run;
    sts, es := Extend(sts, es, StartAppend(0, x));
    sts, es := Extend(sts, es, Go(0));
    sts, es := Extend(sts, es, Go(0));
    sts, es := Extend(sts, es, Go(0));
  }

  // One thread, which is out, with these items listed and none taken yet.
  function Alone<T>(items: seq<T>): State<T> {
    State.State(map[0 := Out], 1, None, items, [], map[], items, [], false)
  }

  lemma AppendOnce<T(!new)>(x: T) returns (sts: seq<State<T>>, es: seq<Event<T>>)
    ensures Run(sts, es) && sts[0] == Alone([]) && sts[|es|] == Alone([x])
    ensures forall e :: e in es ==> e == StartAppend(0, x) || e == Go(0)
  {
    sts, es := [Alone([])], [];
    assert Run(sts, es);
    hide Run;
    sts, es := Extend(sts, es, StartAppend(0, x));
    sts, es := Extend(sts, es, Go(0));
    sts, es := Extend(sts, es, Go(0));
    sts, es := Extend(sts, es, Go(0));
    assert sts[|es|] == Alone([x]).(pc := map[0 := AppendSignal], lockValue := 0, lockHolder := Some(0));
    sts, es := Extend(sts, es, Go(0));
    sts, es := Extend(sts, es, Go(0));
    sts, es := Extend(sts, es, Go(0));
  }

  // ---- no deadlock --------------------------------------------------------------------

  // In every reachable state some statement can be executed, unless every thread is out of the
  // monitor or asleep on the condition, and then the list is empty if any is asleep.
  lemma NoDeadlock<T(!new)>(sts: seq<State<T>>, es: seq<Event<T>>, k: nat)
    requires Run(sts, es) && Init(sts[0]) && k <= |es|
    requires forall t :: t in sts[k].pc ==> !Enabled(sts[k], Go(t))
    ensures forall t :: t in sts[k].pc ==> sts[k].pc[t] == Out || (sts[k].pc[t] == WaitSleep && t in sts[k].waitQueue)
    ensures sts[k].waitQueue != [] ==> sts[k].list == []
  {
    RunInv(sts, es, k);
    var st := sts[k];
    if st.lockValue == 0 {
      var t :| t in st.pc && Inside(st.pc[t]);
      assert Enabled(st, Go(t));
    }
    forall t | t in st.pc ensures st.pc[t] == Out || (st.pc[t] == WaitSleep && t in st.waitQueue) {
      assert !Enabled(st, Go(t));
      if st.pc[t] == WaitSleep {
        NobodyWakes(st, t);
      }
    }
    NobodySignalled(st);
  }

  lemma NobodyWakes<T>(st: State<T>, t: ThreadId)
    requires Inv(st) && t in st.pc && st.pc[t] == WaitSleep
    requires forall u :: u in st.pc ==> !Enabled(st, Go(u))
    ensures t in st.waitQueue
  {
    assert Woken(st, t);
  }

  lemma NobodySignalled<T>(st: State<T>)
    requires Covered(st)
    requires forall t :: t in st.pc ==> st.pc[t] == Out || (st.pc[t] == WaitSleep && t in st.waitQueue)
    ensures st.waitQueue != [] ==> st.list == []
  {
    assert Signalled(st) == {} && !SomeInHand(st);
  }

  // A signalled consumer gets past its waiter: the P is enabled, or the producer that will
  // raise the waiter is enabled.
  lemma SignalledGoesOn<T(!new)>(sts: seq<State<T>>, es: seq<Event<T>>, k: nat, t: ThreadId)
    requires Run(sts, es) && Init(sts[0]) && k <= |es|
    requires t in sts[k].pc && sts[k].pc[t] == WaitSleep && t !in sts[k].waitQueue
    ensures Enabled(sts[k], Go(t)) || exists p :: p in sts[k].pc && sts[k].pc[p] == AppendWake(t) && Enabled(sts[k], Go(p))
  {
    RunInv(sts, es, k);
    assert Woken(sts[k], t);
    if BeingWoken(sts[k], t) {
      var p :| p in sts[k].pc && sts[k].pc[p] == AppendWake(t);
      assert Enabled(sts[k], Go(p));
    }
  }

  // Over a run the removed items only grow, so what a consumer took stays taken.
  lemma {:induction false} RemovedGrows<T(!new)>(sts: seq<State<T>>, es: seq<Event<T>>, i: nat, j: nat)
    requires Run(sts, es) && i <= j <= |es|
    ensures sts[i].removed <= sts[j].removed && sts[i].appended <= sts[j].appended
    decreases j
  {
    if i < j {
      RemovedGrows(sts, es, i, j - 1);
      assert RunStep(sts, es, j - 1);
    }
  }
}
