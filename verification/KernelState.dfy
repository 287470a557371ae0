/** Threads, the ready list and semaphores as a state machine (NachOS/threads/thread.cc,
    scheduler.cc, synch.cc). There is one processor: a region that runs with interrupts off is
    one step, and between steps an interrupt or another thread may come in. */
module KernelState {
  import opened BitSpec
  import opened Options
  import opened Sequences

  type ThreadId = nat
  type SemId = nat

  datatype Status = Running | Ready | Blocked

  // Where a thread goes on when it is switched in: at its start, behind Yield, or at the
  // while loop of P. An Active thread is running, or is finishing for good.
  datatype Where = Fresh | Yielded | Waiting(sem: SemId) | Active

  // What the processor does: the current thread runs with interrupts on; it is in the while
  // loop of Sleep, where interrupt handlers run but nothing else; or it has just been
  // switched in, interrupts still off.
  datatype Phase = User | Sleeping(finishing: bool) | Resumed

  // A semaphore, with the number of operations completed on it.
  datatype Sem = Sem(value: nat, queue: seq<ThreadId>, initial: nat, ps: nat, vs: nat)

  // The list log is ghost: every thread that FindNextToRun has returned so far, in order.
  datatype State = State(
    current: ThreadId, phase: Phase, ready: seq<ThreadId>, toBeDestroyed: Option<ThreadId>,
    status: map<ThreadId, Status>, pc: map<ThreadId, Where>, sems: map<SemId, Sem>, log: seq<ThreadId>)

  datatype Event =
    | Fork(thread: ThreadId)
    | Yield
    | P(sem: SemId)
    | V(sem: SemId)
    | Finish
    | Interrupt(sem: SemId)
    | Dispatch
    | Resume

  // ---- the steps ----------------------------------------------------------------------

  // ReadyToRun
  function MakeReady(st: State, t: ThreadId): State {
    st.(status := st.status[t := Ready], ready := st.ready + [t])
  }

  // FindNextToRun, when a thread is ready.
  function Pop(st: State): State
    requires st.ready != []
  {
    st.(ready := st.ready[1..], log := st.log + [st.ready[0]])
  }

  // Run, up to the switch.
  function Switch(st: State, next: ThreadId, finishing: bool): State {
    st.(current := next, phase := Resumed, status := st.status[next := Running],
        toBeDestroyed := if finishing then Some(st.current) else st.toBeDestroyed)
  }

  // The body of V.
  function Signal(st: State, s: SemId): State
    requires s in st.sems
  {
    var q := st.sems[s];
    var st' := if q.queue == [] then st else MakeReady(st, q.queue[0]);
    st'.(sems := st.sems[s := q.(value := q.value + 1, vs := q.vs + 1, queue := if q.queue == [] then [] else q.queue[1..])])
  }

  // One trip through the while loop of P.
  function TryP(st: State, s: SemId): State
    requires s in st.sems
  {
    var q, me := st.sems[s], st.current;
    if q.value > 0 then
      st.(sems := st.sems[s := q.(value := q.value - 1, ps := q.ps + 1)], pc := st.pc[me := Active], phase := User)
    else
      st.(sems := st.sems[s := q.(queue := q.queue + [me])], pc := st.pc[me := Waiting(s)],
          status := st.status[me := Blocked], phase := Sleeping(false))
  }

  // CheckToBeDestroyed
  function Reap(st: State): State {
    match st.toBeDestroyed
    case None => st
    case Some(t) => st.(status := st.status - {t}, pc := st.pc - {t}, toBeDestroyed := None)
  }

  // When each step can happen.
  predicate Enabled(st: State, e: Event) {
    match e
    case Fork(t) => st.phase == User && t !in st.status && t !in st.pc
    case Yield => st.phase == User
    case P(s) => st.phase == User && s in st.sems
    case V(s) => st.phase == User && s in st.sems
    case Finish => st.phase == User
    case Interrupt(s) => (st.phase == User || st.phase.Sleeping?) && s in st.sems
    case Dispatch => st.phase.Sleeping? && st.ready != []
    case Resume => st.phase == Resumed && st.current in st.pc
                   && (st.pc[st.current].Waiting? ==> st.pc[st.current].sem in st.sems)
  }

  function Apply(st: State, e: Event): State
    requires Enabled(st, e)
  {
    match e
    case Fork(t) => MakeReady(st.(pc := st.pc[t := Fresh]), t)
    case Yield =>
      if st.ready == [] then st
      else
        Switch(MakeReady(Pop(st).(pc := st.pc[st.current := Yielded]), st.current), st.ready[0], false)
    case P(s) => TryP(st, s)
    case V(s) => Signal(st, s)
    case Finish => st.(status := st.status[st.current := Blocked], phase := Sleeping(true))
    case Interrupt(s) => Signal(st, s)
    case Dispatch => Switch(Pop(st), st.ready[0], st.phase.finishing)
    case Resume =>
      var st' := Reap(st);
      if st.pc[st.current].Waiting? then TryP(st', st.pc[st.current].sem)
      else st'.(pc := st'.pc[st.current := Active], phase := User)
  }

  // ---- the invariant ------------------------------------------------------------------

  // A thread that has run its last instruction but has not been deleted yet.
  predicate Doomed(st: State, t: ThreadId) {
    (st.phase == Sleeping(true) && t == st.current) || st.toBeDestroyed == Some(t)
  }

  ghost predicate ReadyOk(st: State) {
    && Distinct(st.ready)
    && forall t :: t in st.ready <==> t in st.status && st.status[t] == Ready
  }

  ghost predicate QueueOk(st: State, s: SemId)
    requires s in st.sems
  {
    && Distinct(st.sems[s].queue)
    && forall t :: t in st.sems[s].queue <==> t in st.status && st.status[t] == Blocked && t in st.pc && st.pc[t] == Waiting(s)
  }

  ghost predicate ThreadOk(st: State, t: ThreadId)
    requires t in st.status && t in st.pc
  {
    && (st.status[t] == Running <==> t == st.current && !st.phase.Sleeping?)
    && (st.status[t] == Ready ==> st.pc[t] != Active)
    && (st.status[t] == Blocked ==> st.pc[t].Waiting? || (st.pc[t] == Active && Doomed(st, t)))
    && (Doomed(st, t) ==> st.status[t] == Blocked && st.pc[t] == Active)
    && (st.pc[t].Waiting? ==> st.pc[t].sem in st.sems)
  }

  // Threads that V has taken off the queue of s and that have not rechecked the value yet.
  function Woken(st: State, s: SemId): set<ThreadId>
    requires s in st.sems
  {
    set t | t in st.pc && st.pc[t] == Waiting(s) && t !in st.sems[s].queue
  }

  // The value is what the completed operations say, and as long as a thread is queued
  // there is a woken thread for every unit of it: no wakeup is lost.
  ghost predicate SemOk(st: State, s: SemId)
    requires s in st.sems
  {
    var q := st.sems[s];
    && q.value == q.initial + q.vs - q.ps
    && (q.queue != [] ==> q.value <= |Woken(st, s)|)
  }

  ghost predicate Inv(st: State) {
    && st.current in st.status && st.pc.Keys == st.status.Keys
    && (st.phase == User ==> st.pc[st.current] == Active)
    && (st.phase == Resumed ==> st.pc[st.current] != Active)
    && (st.phase == Sleeping(true) ==> st.pc[st.current] == Active)
    && (st.phase == Sleeping(false) ==> st.pc[st.current].Waiting?)
    && (st.toBeDestroyed.Some? ==> st.phase == Resumed && st.toBeDestroyed.value != st.current
                                   && st.toBeDestroyed.value in st.status)
    && ReadyOk(st)
    && (forall t :: t in st.status ==> ThreadOk(st, t))
    && (forall s :: s in st.sems ==> QueueOk(st, s))
    && (forall s :: s in st.sems ==> SemOk(st, s))
  }

  // The kernel when it starts: the main thread, and semaphores nobody has used.
  ghost predicate Init(st: State) {
    && st.status == map[st.current := Running] && st.pc == map[st.current := Active]
    && st.phase == User && st.ready == [] && st.toBeDestroyed == None && st.log == []
    && forall s :: s in st.sems ==> st.sems[s].queue == [] && st.sems[s].ps == 0 && st.sems[s].vs == 0
                                    && st.sems[s].value == st.sems[s].initial
  }

  // ---- every step keeps the invariant -------------------------------------------------

  lemma InvKept(st: State, e: Event)
    requires Inv(st) && Enabled(st, e)
    ensures Inv(Apply(st, e))
  {
    match e
    case Fork(t) => ForkKeeps(st, t);
    case Yield => YieldKeeps(st);
    case P(s) => TryKeeps(st, s);
    case V(s) => SignalKeeps(st, s);
    case Finish => FinishKeeps(st);
    case Interrupt(s) => SignalKeeps(st, s);
    case Dispatch => DispatchKeeps(st);
    case Resume => ResumeKeeps(st);
  }

  lemma SameWoken(st: State, st': State, s: SemId)
    requires s in st.sems && s in st'.sems && st'.sems[s].queue == st.sems[s].queue
    requires forall t :: t in st'.pc && st'.pc[t] == Waiting(s) <==> t in st.pc && st.pc[t] == Waiting(s)
    ensures Woken(st', s) == Woken(st, s)
  {
  }

  lemma SemsSame(st: State, st': State)
    requires Inv(st) && st'.sems == st.sems
    requires forall t, s :: (t in st'.pc && st'.pc[t] == Waiting(s)) <==> (t in st.pc && st.pc[t] == Waiting(s))
    ensures forall s :: s in st'.sems ==> SemOk(st', s)
  {
    forall s | s in st'.sems ensures SemOk(st', s) {
      assert SemOk(st, s);
      SameWoken(st, st', s);
    }
  }

  lemma ForkKeeps(st: State, t: ThreadId)
    requires Inv(st) && Enabled(st, Fork(t))
    ensures Inv(Apply(st, Fork(t)))
  {
    var st' := Apply(st, Fork(t));
    SemsSame(st, st');
    forall s | s in st'.sems ensures QueueOk(st', s) {
      assert QueueOk(st, s);
    }
    forall u | u in st'.status ensures ThreadOk(st', u) {
      assert u != t ==> ThreadOk(st, u);
    }
  }

  lemma FinishKeeps(st: State)
    requires Inv(st) && Enabled(st, Finish)
    ensures Inv(Apply(st, Finish))
  {
    var st' := Apply(st, Finish);
    assert ThreadOk(st, st.current);
    SemsSame(st, st');
    forall s | s in st'.sems ensures QueueOk(st', s) {
      assert QueueOk(st, s);
    }
    forall u | u in st'.status ensures ThreadOk(st', u) {
      assert ThreadOk(st, u);
    }
  }

  lemma YieldKeeps(st: State)
    requires Inv(st) && Enabled(st, Yield)
    ensures Inv(Apply(st, Yield))
  {
    if st.ready != [] {
      var st' := Apply(st, Yield);
      YieldReady(st);
      assert ThreadOk(st, st.current) && ThreadOk(st, st.ready[0]);
      SemsSame(st, st');
      forall s | s in st'.sems ensures QueueOk(st', s) {
        assert QueueOk(st, s);
      }
      forall u | u in st'.status ensures ThreadOk(st', u) {
        assert ThreadOk(st, u);
      }
    }
  }

  lemma YieldReady(st: State)
    requires Inv(st) && Enabled(st, Yield) && st.ready != []
    ensures ReadyOk(Apply(st, Yield)) && st.ready[0] in st.status && st.ready[0] in st.pc
    ensures st.ready[0] != st.current && st.status[st.ready[0]] == Ready
  {
    hide QueueOk, SemOk;
    var st', next := Apply(st, Yield), st.ready[0];
    assert ThreadOk(st, st.current) && next in st.ready && st.current !in st.ready;
    assert st'.ready == st.ready[1..] + [st.current];
    assert forall t :: t in st.ready <==> t == next || t in st.ready[1..];
  }

  lemma DispatchKeeps(st: State)
    requires Inv(st) && Enabled(st, Dispatch)
    ensures Inv(Apply(st, Dispatch))
  {
    var st' := Apply(st, Dispatch);
    var next := st.ready[0];
    assert next in st.ready;
    assert ThreadOk(st, st.current) && ThreadOk(st, next);
    SemsSame(st, st');
    forall s | s in st'.sems ensures QueueOk(st', s) {
      assert QueueOk(st, s);
    }
    forall u | u in st'.status ensures ThreadOk(st', u) {
      assert ThreadOk(st, u);
    }
  }

  lemma SignalKeeps(st: State, s: SemId)
    requires Inv(st) && s in st.sems && st.phase != Resumed
    ensures Inv(Signal(st, s))
  {
    var st' := Signal(st, s);
    var q := st.sems[s].queue;
    assert QueueOk(st, s);
    if q != [] {
      assert q[0] in q;
      assert ThreadOk(st, q[0]);
    }
    forall r | r in st'.sems ensures QueueOk(st', r) && SemOk(st', r) {
      SignalSem(st, s, r);
    }
    forall u | u in st'.status ensures ThreadOk(st', u) {
      assert ThreadOk(st, u);
    }
  }

  lemma SignalSem(st: State, s: SemId, r: SemId)
    requires Inv(st) && s in st.sems && r in st.sems
    ensures QueueOk(Signal(st, s), r) && SemOk(Signal(st, s), r)
  {
    var st', q := Signal(st, s), st.sems[s].queue;
    assert QueueOk(st, r) && SemOk(st, r) && QueueOk(st, s);
    if r != s {
      SameWoken(st, st', r);
    } else if q != [] {
      assert q[0] in q && q[0] !in q[1..];
      assert forall t :: t in q <==> t == q[0] || t in q[1..];
      assert Woken(st', s) == Woken(st, s) + {q[0]};
    }
  }

  // The current thread at the while loop of P, with interrupts off: on entry, or woken.
  predicate AtLoop(st: State, s: SemId) {
    st.phase == User
    || (st.phase == Resumed && st.current in st.pc && st.pc[st.current] == Waiting(s) && st.toBeDestroyed == None)
  }

  lemma TryKeeps(st: State, s: SemId)
    requires Inv(st) && s in st.sems && AtLoop(st, s)
    ensures Inv(TryP(st, s))
  {
    var st', me := TryP(st, s), st.current;
    assert QueueOk(st, s) && SemOk(st, s);
    assert ThreadOk(st, me);
    forall r | r in st'.sems ensures QueueOk(st', r) && SemOk(st', r) {
      TryWoken(st, s, r);
    }
    forall u | u in st'.status ensures ThreadOk(st', u) {
      assert ThreadOk(st, u);
    }
  }

  lemma TryWoken(st: State, s: SemId, r: SemId)
    requires Inv(st) && s in st.sems && r in st.sems && AtLoop(st, s)
    ensures QueueOk(TryP(st, s), r) && SemOk(TryP(st, s), r)
  {
    assert QueueOk(st, s) && QueueOk(st, r) && ThreadOk(st, st.current);
    TryValue(st, s, r);
  }

  lemma TryValue(st: State, s: SemId, r: SemId)
    requires Inv(st) && s in st.sems && r in st.sems && AtLoop(st, s)
    ensures SemOk(TryP(st, s), r)
  {
    hide ReadyOk;
    var st', me := TryP(st, s), st.current;
    assert SemOk(st, r) && QueueOk(st, s) && ThreadOk(st, me);
    if r != s {
      SameWoken(st, st', r);
    } else if st.sems[s].value > 0 {
      assert Woken(st', s) == Woken(st, s) - {me};
    }
  }

  lemma ReapKeeps(st: State)
    requires Inv(st) && st.phase == Resumed
    ensures Inv(Reap(st)) && Reap(st).toBeDestroyed == None
  {
    var st' := Reap(st);
    if st.toBeDestroyed.Some? {
      var t := st.toBeDestroyed.value;
      assert ThreadOk(st, t);
      SemsSame(st, st');
      forall s | s in st'.sems ensures QueueOk(st', s) {
        assert QueueOk(st, s);
      }
      forall u | u in st'.status ensures ThreadOk(st', u) {
        assert ThreadOk(st, u);
      }
    }
  }

  lemma ResumeKeeps(st: State)
    requires Inv(st) && Enabled(st, Resume)
    ensures Inv(Apply(st, Resume))
  {
    hide Inv;
    ReapKeeps(st);
    var st' := Reap(st);
    if st.pc[st.current].Waiting? {
      TryKeeps(st', st.pc[st.current].sem);
    } else {
      GoOnKeeps(st');
    }
  }

  // A thread that starts, or goes on behind Yield.
  lemma GoOnKeeps(st: State)
    requires Inv(st) && st.phase == Resumed && st.toBeDestroyed == None && st.current in st.pc && !st.pc[st.current].Waiting?
    ensures Inv(st.(pc := st.pc[st.current := Active], phase := User))
  {
    var st' := st.(pc := st.pc[st.current := Active], phase := User);
    assert ThreadOk(st, st.current);
    SemsSame(st, st');
    forall s | s in st'.sems ensures QueueOk(st', s) {
      assert QueueOk(st, s);
    }
    forall u | u in st'.status ensures ThreadOk(st', u) {
      assert ThreadOk(st, u);
    }
  }

  // ---- what List::Append asserts ------------------------------------------------------

  // The current thread is on no list when it is put on one, and a thread taken off a queue
  // is not on the ready list.
  lemma NotOnReadyList(st: State)
    requires Inv(st) && !st.phase.Sleeping?
    ensures st.current !in st.ready
  {
    assert ThreadOk(st, st.current);
  }

  lemma NotOnQueue(st: State, s: SemId)
    requires Inv(st) && s in st.sems && !st.phase.Sleeping?
    ensures st.current !in st.sems[s].queue
  {
    assert ThreadOk(st, st.current) && QueueOk(st, s);
  }

  lemma QueuedNotReady(st: State, s: SemId)
    requires Inv(st) && s in st.sems && st.sems[s].queue != []
    ensures st.sems[s].queue[0] !in st.ready
  {
    assert QueueOk(st, s) && st.sems[s].queue[0] in st.sems[s].queue;
  }

  // ---- runs ---------------------------------------------------------------------------

  // sts is the list of states before, between and after the events.
  ghost predicate Run(sts: seq<State>, es: seq<Event>) {
    && |sts| == |es| + 1
    && forall k :: 0 <= k < |es| ==> RunStep(sts, es, k)
  }

  ghost predicate RunStep(sts: seq<State>, es: seq<Event>, k: nat)
    requires |sts| == |es| + 1 && k < |es|
  {
    Enabled(sts[k], es[k]) && sts[k + 1] == Apply(sts[k], es[k])
  }

  lemma InitInv(st: State)
    requires Init(st)
    ensures Inv(st)
  {
  }

  lemma {:induction false} RunInv(sts: seq<State>, es: seq<Event>, k: nat)
    requires Run(sts, es) && Init(sts[0]) && k <= |es|
    ensures Inv(sts[k])
    decreases k
  {
    if k == 0 {
      InitInv(sts[0]);
    } else {
      RunInv(sts, es, k - 1);
      assert RunStep(sts, es, k - 1);
      InvKept(sts[k - 1], es[k - 1]);
    }
  }

  // In every reachable state and for every semaphore, the value is the initial one plus the
  // completed V's minus the completed P's; and if a thread is queued although the value is
  // positive, then a woken thread is on its way to recheck it.
  lemma NoLostWakeup(sts: seq<State>, es: seq<Event>, k: nat, s: SemId)
    requires Run(sts, es) && Init(sts[0]) && k <= |es| && s in sts[k].sems
    ensures sts[k].sems[s].value == sts[k].sems[s].initial + sts[k].sems[s].vs - sts[k].sems[s].ps
    ensures sts[k].sems[s].queue != [] ==> sts[k].sems[s].value <= |Woken(sts[k], s)|
    ensures sts[k].sems[s].queue != [] && sts[k].sems[s].value > 0 ==>
      exists t :: t in Woken(sts[k], s) && (t in sts[k].ready || (t == sts[k].current && sts[k].phase == Resumed))
  {
    RunInv(sts, es, k);
    var st := sts[k];
    assert SemOk(st, s);
    if st.sems[s].queue != [] && st.sems[s].value > 0 {
      assert Woken(st, s) != {};
      var t :| t in Woken(st, s);
      assert ThreadOk(st, t) && QueueOk(st, s);
    }
  }

  // The current thread completes a P on s: it finds the value positive.
  predicate CompletesP(st: State, e: Event, s: SemId)
    requires s in st.sems
  {
    && st.sems[s].value > 0
    && (e == P(s) || (e == Resume && st.current in st.pc && st.pc[st.current] == Waiting(s)))
  }

  // Seen from outside, a semaphore is its value: V and the interrupt handlers add one, a P
  // completes by taking one off a positive value, and nothing else changes it. A P that finds
  // no value waits in the queue instead. SynchListProtocol and SynchDiskProtocol stand on this.
  lemma SeenFromOutside(st: State, e: Event, s: SemId)
    requires Inv(st) && Enabled(st, e) && s in st.sems
    ensures s in Apply(st, e).sems
    ensures Apply(st, e).sems[s].value == st.sems[s].value
              + (if e == V(s) || e == Interrupt(s) then 1 else 0) - (if CompletesP(st, e, s) then 1 else 0)
    ensures e == P(s) ==> if st.sems[s].value > 0 then Apply(st, e).phase == User
                          else st.current in Apply(st, e).sems[s].queue && Apply(st, e).phase == Sleeping(false)
    ensures e == Resume && st.pc[st.current] == Waiting(s) ==>
      if st.sems[s].value > 0 then Apply(st, e).phase == User
      else st.current in Apply(st, e).sems[s].queue && Apply(st, e).phase == Sleeping(false)
  {
    hide Inv;
    if e == P(s) || (e == Resume && st.pc[st.current] == Waiting(s)) {
      var queue := Apply(st, e).sems[s].queue;
      assert st.sems[s].value == 0 ==> queue[|queue| - 1] == st.current;
    }
  }

  // Where a thread can be.
  datatype Place = OnProcessor | OnReadyList(k: nat) | OnQueue(s: SemId, k: nat) | Finishing

  ghost predicate InPlace(st: State, t: ThreadId, p: Place) {
    match p
    case OnProcessor => t == st.current && !st.phase.Sleeping?
    case OnReadyList(k) => k < |st.ready| && st.ready[k] == t
    case OnQueue(s, k) => s in st.sems && k < |st.sems[s].queue| && st.sems[s].queue[k] == t
    case Finishing => Doomed(st, t)
  }

  // In every reachable state each live thread is in exactly one place.
  lemma OnePlace(sts: seq<State>, es: seq<Event>, k: nat, t: ThreadId) returns (p: Place)
    requires Run(sts, es) && Init(sts[0]) && k <= |es| && t in sts[k].status
    ensures InPlace(sts[k], t, p)
    ensures forall q :: InPlace(sts[k], t, q) ==> q == p
  {
    RunInv(sts, es, k);
    var st := sts[k];
    assert ThreadOk(st, t);
    match st.status[t]
    case Running => p := OnProcessor;
    case Ready =>
      assert t in st.ready;
      var i :| 0 <= i < |st.ready| && st.ready[i] == t;
      p := OnReadyList(i);
    case Blocked =>
      if st.pc[t].Waiting? {
        var s := st.pc[t].sem;
        assert QueueOk(st, s) && t in st.sems[s].queue;
        var i :| 0 <= i < |st.sems[s].queue| && st.sems[s].queue[i] == t;
        p := OnQueue(s, i);
      } else {
        p := Finishing;
      }
    forall q | InPlace(st, t, q) ensures q == p {
      SamePlace(st, t, p, q);
    }
  }

  lemma SamePlace(st: State, t: ThreadId, p: Place, q: Place)
    requires Inv(st) && t in st.status && InPlace(st, t, p) && InPlace(st, t, q)
    ensures p == q
  {
    assert ThreadOk(st, t);
    assert p.OnReadyList? ==> st.ready[p.k] in st.ready;
    assert q.OnReadyList? ==> st.ready[q.k] in st.ready;
    assert p.OnQueue? ==> QueueOk(st, p.s) && st.sems[p.s].queue[p.k] in st.sems[p.s].queue;
    assert q.OnQueue? ==> QueueOk(st, q.s) && st.sems[q.s].queue[q.k] in st.sems[q.s].queue;
  }

  // toBeDestroyed is empty whenever Run is entered, and never names the current thread.
  lemma RunEntered(sts: seq<State>, es: seq<Event>, k: nat)
    requires Run(sts, es) && Init(sts[0]) && k < |es|
    ensures es[k] == Dispatch || (es[k] == Yield && sts[k].ready != []) ==> sts[k].toBeDestroyed == None
    ensures sts[k].toBeDestroyed != Some(sts[k].current)
  {
    RunInv(sts, es, k);
    assert RunStep(sts, es, k);
  }

  // ---- what each step does, field by field --------------------------------------------

  // Yield gives up the processor to the first ready thread and puts the current one behind all
  // others; with nobody ready it goes on.
  lemma YieldGivesUp(st: State)
    requires Inv(st) && Enabled(st, Yield)
    ensures var st' := Apply(st, Yield);
            if st.ready == [] then st' == st
            else
              && st'.current == st.ready[0] && st'.ready == st.ready[1..] + [st.current] && st'.phase == Resumed
              && st'.status[st.ready[0]] == Running && st'.status[st.current] == Ready && st'.pc[st.current] == Yielded
              && st'.toBeDestroyed == None && st'.sems == st.sems
              && forall t :: t != st.current && t != st.ready[0] ==>
                   (t in st'.status <==> t in st.status) && (t in st.status ==> st'.status[t] == st.status[t] && st'.pc[t] == st.pc[t])
  {
    if st.ready != [] {
      assert st.ready[0] in st.ready;
      assert ThreadOk(st, st.current) && ThreadOk(st, st.ready[0]);
    }
  }

  // The while loop of Sleep hands over to the first ready thread, and a thread that finishes
  // is marked for deletion.
  lemma DispatchHandsOver(st: State)
    requires Inv(st) && Enabled(st, Dispatch)
    ensures var st' := Apply(st, Dispatch);
            && st'.current == st.ready[0] && st'.ready == st.ready[1..] && st'.phase == Resumed
            && st'.status[st.ready[0]] == Running
            && st'.toBeDestroyed == (if st.phase == Sleeping(true) then Some(st.current) else None)
            && st'.pc == st.pc && st'.sems == st.sems
            && forall t :: t != st.ready[0] && t in st.status ==> t in st'.status && st'.status[t] == st.status[t]
  {
  }

  // A new thread is ready, behind all others, and starts at its beginning; the current one
  // goes on.
  lemma ForkEnters(st: State, t: ThreadId)
    requires Inv(st) && Enabled(st, Fork(t))
    ensures var st' := Apply(st, Fork(t));
            && st'.ready == st.ready + [t] && t in st'.status && st'.status[t] == Ready && st'.pc[t] == Fresh
            && st'.current == st.current && st'.phase == User && st'.sems == st.sems
            && forall u :: u in st.status ==> u in st'.status && st'.status[u] == st.status[u] && st'.pc[u] == st.pc[u]
  {
  }

  // V, by the current thread or an interrupt handler, makes the thread that has waited longest
  // ready, behind all others, and nobody else; it never switches.
  lemma SignalWakesFirst(st: State, e: Event, s: SemId)
    requires Inv(st) && Enabled(st, e) && (e == V(s) || e == Interrupt(s))
    ensures var st', q := Apply(st, e), st.sems[s].queue;
            && st'.current == st.current && st'.phase == st.phase && st'.pc == st.pc
            && (q == [] ==> st'.ready == st.ready && st'.sems[s].queue == [] && st'.status == st.status)
            && (q != [] ==> && st'.ready == st.ready + [q[0]] && st'.sems[s].queue == q[1..]
                            && st'.status == st.status[q[0] := Ready])
            && forall r :: r in st.sems && r != s ==> r in st'.sems && st'.sems[r] == st.sems[r]
  {
  }

  // A P that finds no value puts the current thread behind all that wait already, and it
  // sleeps; one that finds a value takes one and goes on.
  lemma WaitsBehind(st: State, e: Event, s: SemId)
    requires Inv(st) && Enabled(st, e) && (e == P(s) || (e == Resume && st.pc[st.current] == Waiting(s)))
    requires s in st.sems
    ensures var st', q, me := Apply(st, e), st.sems[s], st.current;
            && st'.current == me && st'.ready == st.ready && s in st'.sems && me in st'.pc && me in st'.status
            && (q.value == 0 ==> && st'.sems[s].queue == q.queue + [me] && st'.phase == Sleeping(false)
                                 && st'.status[me] == Blocked && st'.pc[me] == Waiting(s))
            && (q.value > 0 ==> && st'.sems[s].queue == q.queue && st'.phase == User
                                && st'.status[me] == Running && st'.pc[me] == Active)
            && forall r :: r in st.sems && r != s ==> r in st'.sems && st'.sems[r] == st.sems[r]
  {
    assert ThreadOk(st, st.current);
  }

  // A thread that starts or goes on behind Yield runs; the thread that has finished is gone.
  lemma ResumeGoesOn(st: State)
    requires Inv(st) && Enabled(st, Resume)
    ensures var st' := Apply(st, Resume);
            && st'.toBeDestroyed == None && st'.ready == st.ready && st'.current == st.current
            && (st.toBeDestroyed.Some? ==> st.toBeDestroyed.value !in st'.status && st.toBeDestroyed.value !in st'.pc)
            && (!st.pc[st.current].Waiting? ==> st'.phase == User && st'.pc[st.current] == Active && st'.sems == st.sems)
  {
  }

  // Finish leaves the thread asleep for good: with its next switch it is marked, and behind
  // the switch it is gone.
  lemma FinishEnds(st: State, st1: State, st2: State, st3: State)
    requires Inv(st) && Enabled(st, Finish) && st1 == Apply(st, Finish)
    requires Enabled(st1, Dispatch) && st2 == Apply(st1, Dispatch) && Enabled(st2, Resume) && st3 == Apply(st2, Resume)
    ensures st1.current == st.current && st1.phase == Sleeping(true) && st1.status[st.current] == Blocked && st1.ready == st.ready
    ensures st.current !in st3.status && st.current !in st3.ready && st3.current == st.ready[0]
  {
    InvKept(st, Finish);
    InvKept(st1, Dispatch);
    InvKept(st2, Resume);
    ResumeGoesOn(st2);
  }

  // What FindNextToRun has returned, followed by the ready list, only grows at its end.
  lemma StepOrder(st: State, e: Event)
    requires Enabled(st, e)
    ensures st.log + st.ready <= Apply(st, e).log + Apply(st, e).ready
    ensures |st.log| <= |Apply(st, e).log|
  {
    if st.ready != [] {
      assert st.log + st.ready == (st.log + [st.ready[0]]) + st.ready[1..];
    }
  }

  lemma {:induction false} RunOrder(sts: seq<State>, es: seq<Event>, i: nat, j: nat)
    requires Run(sts, es) && i <= j <= |es|
    ensures sts[i].log + sts[i].ready <= sts[j].log + sts[j].ready
    decreases j
  {
    if i < j {
      RunOrder(sts, es, i, j - 1);
      assert RunStep(sts, es, j - 1);
      StepOrder(sts[j - 1], es[j - 1]);
    }
  }

  // The thread at position k of the ready list is what the (k + 1)-th FindNextToRun from
  // then on returns.
  lemma DispatchedInOrder(sts: seq<State>, es: seq<Event>, i: nat, j: nat, k: nat)
    requires Run(sts, es) && i <= j <= |es| && k < |sts[i].ready| && |sts[j].log| > |sts[i].log| + k
    ensures sts[j].log[|sts[i].log| + k] == sts[i].ready[k]
  {
    RunOrder(sts, es, i, j);
    var a, b := sts[i].log + sts[i].ready, sts[j].log + sts[j].ready;
    assert a[|sts[i].log| + k] == b[|sts[i].log| + k];
  }

  // ---- who runs when ------------------------------------------------------------------

  // A step that takes a thread off the ready list and switches to it.
  predicate Switches(st: State, e: Event) {
    st.ready != [] && (e == Dispatch || e == Yield)
  }

  // How many of the events from i up to j do.
  function SwitchCount(sts: seq<State>, es: seq<Event>, i: nat, j: nat): nat
    requires i <= j <= |es| <= |sts|
  {
    if i == j then 0 else SwitchCount(sts, es, i, j - 1) + if Switches(sts[j - 1], es[j - 1]) then 1 else 0
  }

  lemma {:induction false} LogCounts(sts: seq<State>, es: seq<Event>, i: nat, j: nat)
    requires Run(sts, es) && i <= j <= |es|
    ensures |sts[j].log| == |sts[i].log| + SwitchCount(sts, es, i, j)
    decreases j
  {
    if i < j {
      LogCounts(sts, es, i, j - 1);
      assert RunStep(sts, es, j - 1);
    }
  }

  // The thread at position k of the ready list is what the processor runs after the (k + 1)-th
  // switch from then on, be it that threads before it yield, sleep or finish.
  lemma RunsInTurn(sts: seq<State>, es: seq<Event>, i: nat, j: nat, k: nat)
    requires Run(sts, es) && Init(sts[0]) && i <= j < |es| && k < |sts[i].ready|
    requires SwitchCount(sts, es, i, j) == k && Switches(sts[j], es[j])
    ensures sts[j + 1].current == sts[i].ready[k] && sts[j + 1].phase == Resumed
  {
    assert RunStep(sts, es, j);
    LogCounts(sts, es, i, j);
    DispatchedInOrder(sts, es, i, j + 1, k);
    var log := sts[j + 1].log;
    assert log == sts[j].log + [sts[j].ready[0]];
  }

  // How many times s is signalled by the events from i up to j.
  function SignalCount(es: seq<Event>, s: SemId, i: nat, j: nat): nat
    requires i <= j <= |es|
  {
    if i == j then 0 else SignalCount(es, s, i, j - 1) + if es[j - 1] == V(s) || es[j - 1] == Interrupt(s) then 1 else 0
  }

  // First come, first woken: with each signal the thread at position k of the queue of s moves
  // on by one,
  lemma {:induction false} MovesOn(sts: seq<State>, es: seq<Event>, s: SemId, i: nat, j: nat, k: nat)
    requires Run(sts, es) && i <= j <= |es| && s in sts[i].sems && k < |sts[i].sems[s].queue|
    requires SignalCount(es, s, i, j) <= k
    ensures s in sts[j].sems
    ensures k - SignalCount(es, s, i, j) < |sts[j].sems[s].queue|
    ensures sts[j].sems[s].queue[k - SignalCount(es, s, i, j)] == sts[i].sems[s].queue[k]
    decreases j
  {
    hide Apply, Enabled;
    if i < j {
      MovesOn(sts, es, s, i, j - 1, k);
      assert RunStep(sts, es, j - 1);
      QueueMoves(sts[j - 1], es[j - 1], s);
    }
  }

  // and with the (k + 1)-th it is put on the ready list, behind all others.
  lemma WokenInTurn(sts: seq<State>, es: seq<Event>, s: SemId, i: nat, j: nat, k: nat)
    requires Run(sts, es) && Init(sts[0]) && i <= j < |es| && s in sts[i].sems && k < |sts[i].sems[s].queue|
    requires SignalCount(es, s, i, j) == k && (es[j] == V(s) || es[j] == Interrupt(s))
    ensures sts[j + 1].ready == sts[j].ready + [sts[i].sems[s].queue[k]]
  {
    hide Apply, Enabled, Inv;
    MovesOn(sts, es, s, i, j, k);
    RunInv(sts, es, j);
    assert RunStep(sts, es, j);
    SignalWakesFirst(sts[j], es[j], s);
  }

  // A queue loses its front by a signal, and else only grows at its end.
  lemma QueueMoves(st: State, e: Event, s: SemId)
    requires Enabled(st, e) && s in st.sems
    ensures s in Apply(st, e).sems
    ensures e == V(s) || e == Interrupt(s) ==>
      Apply(st, e).sems[s].queue == if st.sems[s].queue == [] then [] else st.sems[s].queue[1..]
    ensures !(e == V(s) || e == Interrupt(s)) ==> st.sems[s].queue <= Apply(st, e).sems[s].queue
  {
  }
}
