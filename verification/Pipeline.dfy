/** The producer and consumer pipeline of Pthread/NTHU-OS-Pthreads: a reader, four producers, a
    changing set of consumers with their controller, and a writer, over three bounded queues.
    A critical section is one step. Waiting and signalling follow IEEE Std 1003.1-2017,
    pthread_cond_wait and pthread_cond_signal: a signal wakes at least one waiter if there is
    one, and a waiter may also wake spuriously; a woken thread tests its condition again. */
module Pipelines {

  type Positive = n: nat | n >= 1 witness 1

  // Capacities of the reader, worker and writer queue, and the controller's thresholds.
  const ReaderQueueSize: Positive
  const WorkerQueueSize: Positive
  const WriterQueueSize: Positive
  const LowThreshold: int
  const HighThreshold: nat
  const Producers: nat := 4

  datatype Item = Item(key: int, val: nat, opcode: int)

  // The transforms: any functions of opcode and value.
  const ProducerTransform: (int, nat) -> nat
  const ConsumerTransform: (int, nat) -> nat

  datatype Role = Reader | Writer | Producer | Consumer

  // What a thread is about to do; items are named by their pointers.
  datatype Pc =
    | Loop                                     // the test of its while loop
    | GetReady | GetAsleep | GetWoken          // dequeue
    | Have(item: nat)                          // transform or write the item
    | PutReady(item: nat) | PutAsleep(item: nat) | PutWoken(item: nat)   // enqueue
    | Done

  datatype Thread = Thread(role: Role, pc: Pc, cancelled: bool)

  // store maps a pointer to the item there; consumers is the controller's vector.
  datatype State = State(
    threads: seq<Thread>, store: seq<Item>, read: nat, queues: seq<seq<nat>>, written: seq<nat>, consumers: seq<nat>)

  // wake is the set of threads that the signal of the step, if any, wakes up.
  datatype Event = Move(thread: nat, wake: set<nat>) | Spurious(thread: nat) | Check

  function Capacity(k: nat): Positive {
    if k == 0 then ReaderQueueSize else if k == 1 then WorkerQueueSize else WriterQueueSize
  }

  // The queue a thread takes from, and the queue it puts into.
  function From(r: Role): nat {
    match r case Producer => 0 case Consumer => 1 case Writer => 2 case Reader => 3
  }

  function Into(r: Role): nat {
    match r case Reader => 0 case Producer => 1 case Consumer => 2 case Writer => 3
  }

  predicate Getting(th: Thread) {
    th.pc.GetReady? || th.pc.GetWoken?
  }

  predicate Putting(th: Thread) {
    th.pc.PutReady? || th.pc.PutWoken?
  }

  predicate Asleep(th: Thread) {
    th.pc.GetAsleep? || th.pc.PutAsleep?
  }

  function Wake(th: Thread): Thread {
    match th.pc
    case GetAsleep => th.(pc := GetWoken)
    case PutAsleep(i) => th.(pc := PutWoken(i))
    case _ => th
  }

  function WakeAll(threads: seq<Thread>, wake: set<nat>): (r: seq<Thread>)
    ensures |r| == |threads|
  {
    seq(|threads|, i requires 0 <= i < |threads| => if i in wake then Wake(threads[i]) else threads[i])
  }

  // The condition variables of queue k.
  datatype Cond = CondDequeue(k: nat) | CondEnqueue(k: nat)

  predicate Woken(th: Thread) {
    th.pc.GetWoken? || th.pc.PutWoken?
  }

  // The condition variable that a sleeping or woken thread waits or has waited on.
  function WaitsOn(th: Thread): Cond {
    if th.pc.GetAsleep? || th.pc.GetWoken? then CondDequeue(From(th.role)) else CondEnqueue(Into(th.role))
  }

  function Sleepers(threads: seq<Thread>, c: Cond): set<nat> {
    set t | 0 <= t < |threads| && Asleep(threads[t]) && WaitsOn(threads[t]) == c
  }

  // Threads that have been woken from c and have not tested their condition again.
  function Wokens(threads: seq<Thread>, c: Cond): set<nat> {
    set t | 0 <= t < |threads| && Woken(threads[t]) && WaitsOn(threads[t]) == c
  }

  // ---- steps --------------------------------------------------------------------------

  predicate Takes(st: State, t: nat)
    requires t < |st.threads|
  {
    Getting(st.threads[t]) && From(st.threads[t].role) < |st.queues| && st.queues[From(st.threads[t].role)] != []
  }

  predicate Gives(st: State, t: nat)
    requires t < |st.threads|
  {
    && Putting(st.threads[t]) && Into(st.threads[t].role) < |st.queues|
    && |st.queues[Into(st.threads[t].role)]| < Capacity(Into(st.threads[t].role))
  }

  // Whom the step of thread t may signal.
  function Signals(st: State, t: nat): set<nat>
    requires t < |st.threads|
  {
    if Takes(st, t) then Sleepers(st.threads, CondEnqueue(From(st.threads[t].role)))
    else if Gives(st, t) then Sleepers(st.threads, CondDequeue(Into(st.threads[t].role)))
    else {}
  }

  predicate Enabled(st: State, e: Event) {
    match e
    case Move(t, wake) =>
      && t < |st.threads| && !Asleep(st.threads[t]) && st.threads[t].pc != Done
      && wake <= Signals(st, t) && (Signals(st, t) != {} ==> wake != {})
    case Spurious(t) => t < |st.threads| && Asleep(st.threads[t])
    case Check => true
  }

  function SetPc(st: State, t: nat, pc: Pc): State
    requires t < |st.threads|
  {
    st.(threads := st.threads[t := st.threads[t].(pc := pc)])
  }

  function LoopTest(n: nat, st: State, t: nat): State
    requires t < |st.threads|
  {
    match st.threads[t].role
    case Reader => if st.read < n then SetPc(st, t, PutReady(st.read)).(read := st.read + 1) else SetPc(st, t, Done)
    case Writer => SetPc(st, t, if |st.written| < n then GetReady else Done)
    case Producer => SetPc(st, t, GetReady)
    case Consumer => SetPc(st, t, if st.threads[t].cancelled then Done else GetReady)
  }

  function Process(st: State, t: nat): State
    requires t < |st.threads| && st.threads[t].pc.Have?
  {
    var i := st.threads[t].pc.item;
    match st.threads[t].role
    case Writer => SetPc(st, t, Loop).(written := st.written + [i])
    case Reader => st
    case Producer => SetPc(st, t, PutReady(i)).(store := Changed(st.store, i, ProducerTransform))
    case Consumer => SetPc(st, t, PutReady(i)).(store := Changed(st.store, i, ConsumerTransform))
  }

  function Changed(store: seq<Item>, i: nat, f: (int, nat) -> nat): (r: seq<Item>)
    ensures |r| == |store|
  {
    if i < |store| then store[i := store[i].(val := f(store[i].opcode, store[i].val))] else store
  }

  function Dequeue(st: State, t: nat, wake: set<nat>): State
    requires t < |st.threads| && Takes(st, t)
  {
    var k := From(st.threads[t].role);
    var st' := SetPc(st, t, Have(st.queues[k][0]));
    st'.(queues := st.queues[k := st.queues[k][1..]], threads := WakeAll(st'.threads, wake))
  }

  function Enqueue(st: State, t: nat, wake: set<nat>): State
    requires t < |st.threads| && Gives(st, t)
  {
    var k := Into(st.threads[t].role);
    var st' := SetPc(st, t, Loop);
    st'.(queues := st.queues[k := st.queues[k] + [st.threads[t].pc.item]], threads := WakeAll(st'.threads, wake))
  }

  function Step(n: nat, st: State, t: nat, wake: set<nat>): State
    requires t < |st.threads|
  {
    var th := st.threads[t];
    if th.pc.Loop? then LoopTest(n, st, t)
    else if th.pc.Have? then Process(st, t)
    else if Takes(st, t) then Dequeue(st, t, wake)
    else if Gives(st, t) then Enqueue(st, t, wake)
    else if Getting(th) then SetPc(st, t, GetAsleep)
    else if Putting(th) then SetPc(st, t, PutAsleep(th.pc.item))
    else st
  }

  // One check of the controller.
  function Control(st: State): State {
    var size := if |st.queues| > 1 then |st.queues[1]| else 0;
    if size > HighThreshold then
      st.(threads := st.threads + [Thread(Consumer, Loop, false)], consumers := st.consumers + [|st.threads|])
    else if size < LowThreshold && |st.consumers| > 1 then
      var last := st.consumers[|st.consumers| - 1];
      st.(threads := if last < |st.threads| then st.threads[last := st.threads[last].(cancelled := true)] else st.threads,
          consumers := st.consumers[..|st.consumers| - 1])
    else st
  }

  function Apply(n: nat, st: State, e: Event): State
    requires Enabled(st, e)
  {
    match e
    case Move(t, wake) => Step(n, st, t, wake)
    case Spurious(t) => st.(threads := st.threads[t := Wake(st.threads[t])])
    case Check => Control(st)
  }

  ghost predicate Init(input: seq<Item>, st: State) {
    && |st.threads| == 2 + Producers && st.threads[0] == Thread(Reader, Loop, false) && st.threads[1] == Thread(Writer, Loop, false)
    && (forall t :: 2 <= t < |st.threads| ==> st.threads[t] == Thread(Producer, Loop, false))
    && st.store == input && st.read == 0 && st.queues == [[], [], []] && st.written == [] && st.consumers == []
  }

  // ---- conservation -------------------------------------------------------------------

  predicate Holds(th: Thread) {
    th.pc.Have? || th.pc.PutReady? || th.pc.PutAsleep? || th.pc.PutWoken?
  }

  predicate HoldsItem(th: Thread, id: nat) {
    Holds(th) && th.pc.item == id
  }

  // How many threads have an item in hand.
  function Hands(threads: seq<Thread>, id: nat): nat {
    if threads == [] then 0
    else Hands(threads[..|threads| - 1], id) + if HoldsItem(threads[|threads| - 1], id) then 1 else 0
  }

  // In how many places an item is: the three queues, the written items, the hands of threads.
  function Places(st: State, id: nat): nat
    requires |st.queues| == 3
  {
    multiset(st.queues[0])[id] + multiset(st.queues[1])[id] + multiset(st.queues[2])[id]
    + multiset(st.written)[id] + Hands(st.threads, id)
  }

  // Every item read so far is in exactly one place, and no other is anywhere.
  ghost predicate Conserved(st: State) {
    && |st.queues| == 3 && st.read <= |st.store|
    && forall id: nat :: Places(st, id) == if id < st.read then 1 else 0
  }

  lemma {:induction false} HandsUpdate(threads: seq<Thread>, t: nat, th: Thread, id: nat)
    requires t < |threads|
    ensures Hands(threads[t := th], id) + (if HoldsItem(threads[t], id) then 1 else 0)
         == Hands(threads, id) + (if HoldsItem(th, id) then 1 else 0)
    decreases |threads|
  {
    var n := |threads| - 1;
    var front, after := threads[..n], threads[t := th];
    if t < n {
      HandsUpdate(front, t, th, id);
      assert after[..n] == front[t := th] && after[n] == threads[n];
    } else {
      assert after[..n] == front && after[n] == th;
    }
  }

  lemma {:induction false} HandsSame(a: seq<Thread>, b: seq<Thread>, id: nat)
    requires |a| == |b| && forall i :: 0 <= i < |a| ==> (HoldsItem(a[i], id) <==> HoldsItem(b[i], id))
    ensures Hands(a, id) == Hands(b, id)
    decreases |a|
  {
    if a != [] {
      HandsSame(a[..|a| - 1], b[..|b| - 1], id);
    }
  }

  lemma HandsAwake(threads: seq<Thread>, wake: set<nat>, id: nat)
    ensures Hands(WakeAll(threads, wake), id) == Hands(threads, id)
  {
    HandsSame(WakeAll(threads, wake), threads, id);
  }

  lemma CountTail(q: seq<nat>, id: nat)
    requires q != []
    ensures multiset(q)[id] == multiset(q[1..])[id] + if q[0] == id then 1 else 0
  {
    assert q == [q[0]] + q[1..];
  }

  lemma CountAppend(q: seq<nat>, x: nat, id: nat)
    ensures multiset(q + [x])[id] == multiset(q)[id] + if x == id then 1 else 0
  {
  }

  lemma LoopConserves(n: nat, st: State, t: nat)
    requires Conserved(st) && n == |st.store| && t < |st.threads| && st.threads[t].pc.Loop?
    ensures Conserved(LoopTest(n, st, t))
  {
    var st' := LoopTest(n, st, t);
    forall id: nat ensures Places(st', id) == if id < st'.read then 1 else 0 {
      LoopPlaces(n, st, t, id);
    }
  }

  lemma LoopPlaces(n: nat, st: State, t: nat, id: nat)
    requires Conserved(st) && n == |st.store| && t < |st.threads| && st.threads[t].pc.Loop?
    ensures Places(LoopTest(n, st, t), id) == if id < LoopTest(n, st, t).read then 1 else 0
  {
    HandsUpdate(st.threads, t, LoopTest(n, st, t).threads[t], id);
    assert Places(st, id) == if id < st.read then 1 else 0;
  }

  lemma ProcessConserves(st: State, t: nat)
    requires Conserved(st) && t < |st.threads| && st.threads[t].pc.Have?
    ensures Conserved(Process(st, t))
  {
    var st' := Process(st, t);
    forall id: nat ensures Places(st', id) == if id < st'.read then 1 else 0 {
      ProcessPlaces(st, t, id);
    }
  }

  lemma ProcessPlaces(st: State, t: nat, id: nat)
    requires Conserved(st) && t < |st.threads| && st.threads[t].pc.Have?
    ensures Places(Process(st, t), id) == if id < st.read then 1 else 0
  {
    hide Hands, Changed;
    HandsUpdate(st.threads, t, Process(st, t).threads[t], id);
    CountAppend(st.written, st.threads[t].pc.item, id);
    assert Places(st, id) == if id < st.read then 1 else 0;
  }

  lemma DequeueConserves(st: State, t: nat, wake: set<nat>)
    requires Conserved(st) && t < |st.threads| && Takes(st, t)
    ensures Conserved(Dequeue(st, t, wake))
  {
    var st', k := Dequeue(st, t, wake), From(st.threads[t].role);
    var th := st.threads[t].(pc := Have(st.queues[k][0]));
    forall id: nat ensures Places(st', id) == if id < st'.read then 1 else 0 {
      HandsUpdate(st.threads, t, th, id);
      HandsAwake(st.threads[t := th], wake, id);
      CountTail(st.queues[k], id);
      assert Places(st, id) == if id < st.read then 1 else 0;
    }
  }

  lemma EnqueueConserves(st: State, t: nat, wake: set<nat>)
    requires Conserved(st) && t < |st.threads| && Gives(st, t)
    ensures Conserved(Enqueue(st, t, wake))
  {
    var st', k := Enqueue(st, t, wake), Into(st.threads[t].role);
    var th := st.threads[t].(pc := Loop);
    forall id: nat ensures Places(st', id) == if id < st'.read then 1 else 0 {
      HandsUpdate(st.threads, t, th, id);
      HandsAwake(st.threads[t := th], wake, id);
      CountAppend(st.queues[k], st.threads[t].pc.item, id);
      assert Places(st, id) == if id < st.read then 1 else 0;
    }
  }

  // A thread that only falls asleep or wakes up keeps what it has in hand.
  lemma SleepConserves(st: State, t: nat, th: Thread)
    requires Conserved(st) && t < |st.threads| && forall id :: HoldsItem(th, id) <==> HoldsItem(st.threads[t], id)
    ensures Conserved(st.(threads := st.threads[t := th]))
  {
    var st' := st.(threads := st.threads[t := th]);
    forall id: nat ensures Places(st', id) == if id < st'.read then 1 else 0 {
      HandsUpdate(st.threads, t, th, id);
      assert Places(st, id) == if id < st.read then 1 else 0;
    }
  }

  lemma ControlConserves(st: State)
    requires Conserved(st)
    ensures Conserved(Control(st))
  {
    var st' := Control(st);
    forall id: nat ensures Places(st', id) == if id < st'.read then 1 else 0 {
      assert Places(st, id) == if id < st.read then 1 else 0;
      if |st'.threads| > |st.threads| {
        assert st'.threads[..|st'.threads| - 1] == st.threads;
      } else {
        HandsSame(st'.threads, st.threads, id);
      }
    }
  }

  lemma EventConserves(n: nat, st: State, e: Event)
    requires Conserved(st) && n == |st.store| && Enabled(st, e)
    ensures Conserved(Apply(n, st, e))
  {
    hide Conserved;
    match e
    case Move(t, wake) =>
      var th := st.threads[t];
      if th.pc.Loop? {
        LoopConserves(n, st, t);
      } else if th.pc.Have? {
        ProcessConserves(st, t);
      } else if Takes(st, t) {
        DequeueConserves(st, t, wake);
      } else if Gives(st, t) {
        EnqueueConserves(st, t, wake);
      } else if Getting(th) {
        SleepConserves(st, t, th.(pc := GetAsleep));
      } else if Putting(th) {
        SleepConserves(st, t, th.(pc := PutAsleep(th.pc.item)));
      }
    case Spurious(t) => SleepConserves(st, t, Wake(st.threads[t]));
    case Check => ControlConserves(st);
  }

  // ---- threads ------------------------------------------------------------------------

  function RoleAt(t: nat): Role {
    if t == 0 then Reader else if t == 1 then Writer else if t < 2 + Producers then Producer else Consumer
  }

  // Threads keep to their part.
  ghost predicate RoleOk(st: State, t: nat)
    requires t < |st.threads|
  {
    var th := st.threads[t];
    && th.role == RoleAt(t)
    && (th.pc.GetReady? || th.pc.GetAsleep? || th.pc.GetWoken? || th.pc.Have? ==> th.role != Reader)
    && (th.pc.PutReady? || th.pc.PutAsleep? || th.pc.PutWoken? ==> th.role != Writer)
    && (th.pc.Done? ==> th.role != Producer)
    && (th.pc.Done? && th.role == Consumer ==> th.cancelled)
    && (th.pc.Done? && th.role == Reader ==> st.read >= |st.store|)
    && (th.pc.Done? && th.role == Writer ==> |st.written| >= |st.store|)
  }

  ghost predicate RolesOk(st: State) {
    && |st.threads| >= 2 + Producers && |st.queues| == 3
    && (forall t :: 0 <= t < |st.threads| ==> RoleOk(st, t))
    && (forall k :: 0 <= k < 3 ==> |st.queues[k]| <= Capacity(k))
  }

  lemma RolesAwake(st: State, st': State, wake: set<nat>)
    requires RolesOk(st) && st' == st.(threads := WakeAll(st.threads, wake))
    ensures RolesOk(st')
  {
    forall t | 0 <= t < |st'.threads| ensures RoleOk(st', t) {
      assert RoleOk(st, t);
    }
  }

  // A step of t within its part; nothing is unread or unwritten.
  lemma RolesMove(st: State, st': State, t: nat)
    requires RolesOk(st) && t < |st.threads| && |st'.threads| == |st.threads| && st'.threads == st.threads[t := st'.threads[t]]
    requires |st'.store| == |st.store| && st'.read >= st.read && |st'.written| >= |st.written|
    requires |st'.queues| == 3 && forall k :: 0 <= k < 3 ==> |st'.queues[k]| <= Capacity(k)
    requires RoleOk(st', t)
    ensures RolesOk(st')
  {
    forall u | 0 <= u < |st'.threads| ensures RoleOk(st', u) {
      assert RoleOk(st, u);
    }
  }

  lemma MoveRoles(st: State, t: nat, wake: set<nat>)
    requires RolesOk(st) && t < |st.threads|
    ensures RolesOk(Step(|st.store|, st, t, wake))
  {
    var st', th := Step(|st.store|, st, t, wake), st.threads[t];
    assert RoleOk(st, t);
    if th.pc.Loop? || th.pc.Have? {
      RolesMove(st, st', t);
    } else if Takes(st, t) {
      var k := From(th.role);
      var mid := SetPc(st, t, Have(st.queues[k][0])).(queues := st.queues[k := st.queues[k][1..]]);
      RolesMove(st, mid, t);
      RolesAwake(mid, st', wake);
    } else if Gives(st, t) {
      var k := Into(th.role);
      var mid := SetPc(st, t, Loop).(queues := st.queues[k := st.queues[k] + [th.pc.item]]);
      RolesMove(st, mid, t);
      RolesAwake(mid, st', wake);
    } else {
      RolesMove(st, st', t);
    }
  }

  lemma EventRoles(st: State, e: Event)
    requires RolesOk(st) && Enabled(st, e)
    ensures RolesOk(Apply(|st.store|, st, e))
  {
    match e
    case Move(t, wake) => MoveRoles(st, t, wake);
    case Spurious(t) =>
      assert RoleOk(st, t);
      RolesMove(st, Apply(|st.store|, st, e), t);
    case Check =>
      var st' := Control(st);
      forall u | 0 <= u < |st'.threads| ensures RoleOk(st', u) {
        assert u < |st.threads| ==> RoleOk(st, u);
      }
  }
}
