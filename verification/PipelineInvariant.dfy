/** The invariant of the pipeline: beside the parts of the threads, the places of the items and
    the waiting, what the items hold and which consumers the controller runs. Every step of
    every thread keeps it. */
module PipelineInvariant {
  import opened Pipelines
  import opened PipelineWaits

  // ---- values -------------------------------------------------------------------------

  // An item that has been through the first stages of the pipeline.
  function AtStage(x: Item, stage: nat): (y: Item)
    ensures y.key == x.key && y.opcode == x.opcode
  {
    if stage == 0 then x
    else
      var made := x.(val := ProducerTransform(x.opcode, x.val));
      if stage == 1 then made else made.(val := ConsumerTransform(made.opcode, made.val))
  }

  // How far an item in the hand of a thread has come.
  function HeldStage(th: Thread): nat {
    match th.role
    case Reader => 0
    case Producer => if th.pc.Have? then 0 else 1
    case Consumer => if th.pc.Have? then 1 else 2
    case Writer => 2
  }

  predicate ValueOk(input: seq<Item>, store: seq<Item>, id: nat, stage: nat) {
    id < |input| == |store| && store[id] == AtStage(input[id], stage)
  }

  ghost predicate ValuesOk(input: seq<Item>, st: State) {
    && |st.queues| == 3 && |st.store| == |input|
    && (forall k, id :: 0 <= k < 3 && id in st.queues[k] ==> ValueOk(input, st.store, id, k))
    && (forall id :: id in st.written ==> ValueOk(input, st.store, id, 2))
    && (forall t :: 0 <= t < |st.threads| && Holds(st.threads[t]) ==>
          ValueOk(input, st.store, st.threads[t].pc.item, HeldStage(st.threads[t])))
    && (forall id :: st.read <= id < |input| ==> st.store[id] == input[id])
  }

  lemma HandsOne(threads: seq<Thread>, t: nat, id: nat)
    requires t < |threads| && HoldsItem(threads[t], id)
    ensures Hands(threads, id) >= 1
    ensures forall u :: 0 <= u < |threads| && u != t && HoldsItem(threads[u], id) ==> Hands(threads, id) >= 2
  {
    var less := threads[t := threads[t].(pc := Loop)];
    HandsUpdate(threads, t, threads[t].(pc := Loop), id);
    forall u | 0 <= u < |threads| && u != t && HoldsItem(threads[u], id) ensures Hands(threads, id) >= 2 {
      HandsUpdate(less, u, threads[u].(pc := Loop), id);
    }
  }

  // An item in the hand of a thread is nowhere else.
  lemma OnlyHere(st: State, t: nat)
    requires Conserved(st) && t < |st.threads| && Holds(st.threads[t])
    ensures st.threads[t].pc.item < st.read
    ensures forall k :: 0 <= k < 3 ==> st.threads[t].pc.item !in st.queues[k]
    ensures st.threads[t].pc.item !in st.written
    ensures forall u :: 0 <= u < |st.threads| && u != t ==> !HoldsItem(st.threads[u], st.threads[t].pc.item)
  {
    var i := st.threads[t].pc.item;
    HandsOne(st.threads, t, i);
    assert Places(st, i) == if i < st.read then 1 else 0;
    assert multiset(st.queues[0])[i] == 0 && multiset(st.queues[1])[i] == 0 && multiset(st.queues[2])[i] == 0;
    assert multiset(st.written)[i] == 0;
  }

  lemma ProcessValues(input: seq<Item>, st: State, t: nat)
    requires Conserved(st) && ValuesOk(input, st) && t < |st.threads| && st.threads[t].pc.Have? && st.threads[t].role != Reader
    ensures ValuesOk(input, Process(st, t))
  {
    hide Conserved, AtStage;
    var st', i := Process(st, t), st.threads[t].pc.item;
    OnlyHere(st, t);
    assert ValueOk(input, st.store, i, HeldStage(st.threads[t]));
    assert ValueOk(input, st'.store, i, if st.threads[t].role == Producer then 1 else 2) by {
      ProcessedItem(input, st, t);
    }
    forall u | 0 <= u < |st'.threads| && Holds(st'.threads[u])
      ensures ValueOk(input, st'.store, st'.threads[u].pc.item, HeldStage(st'.threads[u]))
    {
      if u != t {
        assert !HoldsItem(st.threads[u], i);
        assert ValueOk(input, st.store, st.threads[u].pc.item, HeldStage(st.threads[u]));
      }
    }
  }

  lemma ProcessedItem(input: seq<Item>, st: State, t: nat)
    requires t < |st.threads| && st.threads[t].pc.Have? && st.threads[t].role != Reader
    requires ValueOk(input, st.store, st.threads[t].pc.item, HeldStage(st.threads[t]))
    ensures ValueOk(input, Process(st, t).store, st.threads[t].pc.item, if st.threads[t].role == Producer then 1 else 2)
  {
  }

  // A step that moves items but does not change them.
  lemma MoveValues(input: seq<Item>, st: State, st': State)
    requires ValuesOk(input, st) && st'.store == st.store && |st'.queues| == 3 && st'.read >= st.read
    requires forall k, id :: 0 <= k < 3 && id in st'.queues[k] ==> ValueOk(input, st.store, id, k)
    requires st'.written == st.written
    requires forall t :: 0 <= t < |st'.threads| && Holds(st'.threads[t]) ==>
      ValueOk(input, st.store, st'.threads[t].pc.item, HeldStage(st'.threads[t]))
    ensures ValuesOk(input, st')
  {
  }

  lemma AwakeHolds(th: Thread)
    ensures Holds(Wake(th)) == Holds(th) && HeldStage(Wake(th)) == HeldStage(th)
    ensures Holds(th) ==> Wake(th).pc.item == th.pc.item
  {
  }

  lemma EventValues(input: seq<Item>, st: State, e: Event)
    requires Conserved(st) && ValuesOk(input, st) && RolesOk(st) && Enabled(st, e)
    ensures ValuesOk(input, Apply(|input|, st, e))
  {
    hide Conserved, AtStage;
    var st' := Apply(|input|, st, e);
    if e.Move? && st.threads[e.thread].pc.Have? {
      assert RoleOk(st, e.thread);
      ProcessValues(input, st, e.thread);
    } else {
      forall t | 0 <= t < |st'.threads| && Holds(st'.threads[t])
        ensures ValueOk(input, st.store, st'.threads[t].pc.item, HeldStage(st'.threads[t]))
      {
        HeldAfter(input, st, e, t);
      }
      QueuesAfter(input, st, e);
      MoveValues(input, st, st');
    }
  }

  lemma HeldAfter(input: seq<Item>, st: State, e: Event, t: nat)
    requires ValuesOk(input, st) && RolesOk(st) && Enabled(st, e)
    requires e.Move? ==> !st.threads[e.thread].pc.Have?
    requires t < |Apply(|input|, st, e).threads| && Holds(Apply(|input|, st, e).threads[t])
    ensures ValueOk(input, st.store, Apply(|input|, st, e).threads[t].pc.item, HeldStage(Apply(|input|, st, e).threads[t]))
  {
    hide AtStage, Step, RolesOk;
    if e.Move? && t == e.thread {
      HeldActor(input, st, t, e.wake);
    } else {
      HeldOther(|input|, st, e, t);
    }
  }

  // Other threads keep what they have, awake or asleep; a new consumer has nothing.
  lemma HeldOther(n: nat, st: State, e: Event, t: nat)
    requires Enabled(st, e) && t < |Apply(n, st, e).threads| && Holds(Apply(n, st, e).threads[t])
    requires e.Move? ==> t != e.thread
    ensures t < |st.threads| && Holds(st.threads[t])
    ensures Apply(n, st, e).threads[t].pc.item == st.threads[t].pc.item
    ensures HeldStage(Apply(n, st, e).threads[t]) == HeldStage(st.threads[t])
  {
    if t < |st.threads| {
      AwakeHolds(st.threads[t]);
    }
  }

  lemma HeldActor(input: seq<Item>, st: State, t: nat, wake: set<nat>)
    requires ValuesOk(input, st) && RolesOk(st) && t < |st.threads| && !st.threads[t].pc.Have?
    requires Holds(Step(|input|, st, t, wake).threads[t])
    ensures ValueOk(input, st.store, Step(|input|, st, t, wake).threads[t].pc.item, HeldStage(Step(|input|, st, t, wake).threads[t]))
  {
    assert RoleOk(st, t);
    if Takes(st, t) {
      var q := st.queues[From(st.threads[t].role)];
      assert q[0] in q;
      AwakeHolds(st.threads[t].(pc := Have(q[0])));
    }
  }

  lemma QueuesAfter(input: seq<Item>, st: State, e: Event)
    requires ValuesOk(input, st) && RolesOk(st) && Enabled(st, e)
    requires e.Move? ==> !st.threads[e.thread].pc.Have?
    ensures |Apply(|input|, st, e).queues| == 3
    ensures forall k, id :: 0 <= k < 3 && id in Apply(|input|, st, e).queues[k] ==> ValueOk(input, st.store, id, k)
  {
    hide AtStage;
    if e.Move? {
      assert RoleOk(st, e.thread);
    }
  }

  // ---- the controller -----------------------------------------------------------------

  const FirstConsumer: nat := 2 + Producers

  // The vector holds exactly the consumers that have not been cancelled, in the order in which
  // they were started; once a consumer has started it is not empty; before that nothing has
  // passed the worker queue.
  ghost predicate ControlOk(st: State) {
    && |st.threads| >= FirstConsumer && |st.queues| == 3
    && (forall c :: c in st.consumers <==> FirstConsumer <= c < |st.threads| && !st.threads[c].cancelled)
    && (forall i, j :: 0 <= i < j < |st.consumers| ==> st.consumers[i] < st.consumers[j])
    && (|st.threads| > FirstConsumer ==> st.consumers != [])
    && (|st.threads| == FirstConsumer ==> st.queues[2] == [] && st.written == [] && !Holds(st.threads[1]))
  }

  lemma MoveControl(n: nat, st: State, t: nat, wake: set<nat>)
    requires ControlOk(st) && RolesOk(st) && t < |st.threads|
    ensures ControlOk(Step(n, st, t, wake))
  {
    assert RoleOk(st, t) && RoleOk(st, 1);
    AwakeHolds(st.threads[1]);
    SameFlags(n, st, t, wake);
  }

  lemma SameFlags(n: nat, st: State, t: nat, wake: set<nat>)
    requires t < |st.threads|
    ensures |Step(n, st, t, wake).threads| == |st.threads| && Step(n, st, t, wake).consumers == st.consumers
    ensures forall u :: 0 <= u < |st.threads| ==> Step(n, st, t, wake).threads[u].cancelled == st.threads[u].cancelled
  {
  }

  lemma CheckControl(st: State)
    requires ControlOk(st)
    ensures ControlOk(Control(st))
  {
    if |st.queues[1]| > HighThreshold {
      StartControl(st);
    } else if |st.queues[1]| < LowThreshold && |st.consumers| > 1 {
      CancelControl(st);
    }
  }

  lemma StartControl(st: State)
    requires ControlOk(st) && |st.queues[1]| > HighThreshold
    ensures ControlOk(Control(st))
  {
    var st', new0 := Control(st), |st.threads|;
    assert new0 !in st.consumers;
    forall i, j | 0 <= i < j < |st'.consumers| ensures st'.consumers[i] < st'.consumers[j] {
      assert st.consumers[i] in st.consumers;
    }
    forall c ensures c in st'.consumers <==> FirstConsumer <= c < |st'.threads| && !st'.threads[c].cancelled {
      assert c in st'.consumers <==> c in st.consumers || c == new0;
    }
  }

  lemma CancelControl(st: State)
    requires ControlOk(st) && |st.queues[1]| <= HighThreshold && |st.queues[1]| < LowThreshold && |st.consumers| > 1
    ensures ControlOk(Control(st))
  {
    var st', m := Control(st), |st.consumers| - 1;
    var last := st.consumers[m];
    assert last in st.consumers;
    forall c ensures c in st'.consumers <==> c in st.consumers && c != last {
      if c in st.consumers && c != last {
        var i :| 0 <= i < |st.consumers| && st.consumers[i] == c;
        assert st'.consumers[i] == c;
      }
    }
  }

  lemma EventControl(n: nat, st: State, e: Event)
    requires ControlOk(st) && RolesOk(st) && Enabled(st, e)
    ensures ControlOk(Apply(n, st, e))
  {
    match e
    case Move(t, wake) => MoveControl(n, st, t, wake);
    case Spurious(t) =>
      assert RoleOk(st, 1);
      AwakeHolds(st.threads[t]);
    case Check => CheckControl(st);
  }

  // ---- runs ---------------------------------------------------------------------------

  ghost predicate Inv(input: seq<Item>, st: State) {
    RolesOk(st) && Conserved(st) && ValuesOk(input, st) && Waits(st) && ControlOk(st)
  }

  ghost predicate Run(input: seq<Item>, sts: seq<State>, es: seq<Event>) {
    && |sts| == |es| + 1 && Init(input, sts[0])
    && forall k :: 0 <= k < |es| ==> RunStep(input, sts, es, k)
  }

  ghost predicate RunStep(input: seq<Item>, sts: seq<State>, es: seq<Event>, k: nat)
    requires |sts| == |es| + 1 && k < |es|
  {
    Enabled(sts[k], es[k]) && sts[k + 1] == Apply(|input|, sts[k], es[k])
  }

  lemma InitInv(input: seq<Item>, st: State)
    requires Init(input, st)
    ensures Inv(input, st)
  {
    forall t | 0 <= t < |st.threads| ensures RoleOk(st, t) && !Holds(st.threads[t]) && !Asleep(st.threads[t]) {}
    forall c: Cond | c.k < 3 ensures WaitOk(st, c) {
      assert Sleepers(st.threads, c) == {};
    }
    forall id: nat ensures Places(st, id) == 0 {
      NobodyHolds(st.threads, id);
    }
  }

  lemma {:induction false} NobodyHolds(threads: seq<Thread>, id: nat)
    requires forall t :: 0 <= t < |threads| ==> !HoldsItem(threads[t], id)
    ensures Hands(threads, id) == 0
    decreases |threads|
  {
    if threads != [] {
      NobodyHolds(threads[..|threads| - 1], id);
    }
  }

  lemma StoreSize(input: seq<Item>, st: State)
    requires ValuesOk(input, st)
    ensures |st.store| == |input|
  {
  }

  lemma InvKept(input: seq<Item>, st: State, e: Event)
    requires Inv(input, st) && Enabled(st, e)
    ensures Inv(input, Apply(|input|, st, e))
  {
    StoreSize(input, st);
    hide RolesOk, Conserved, ValuesOk, Waits, ControlOk, Apply, Enabled;
    EventRoles(st, e);
    EventConserves(|input|, st, e);
    EventValues(input, st, e);
    EventWaits(|input|, st, e);
    EventControl(|input|, st, e);
  }

  lemma {:induction false} RunInv(input: seq<Item>, sts: seq<State>, es: seq<Event>, k: nat)
    requires Run(input, sts, es) && k <= |es|
    ensures Inv(input, sts[k])
    decreases k
  {
    hide RolesOk, Conserved, ValuesOk, Waits, ControlOk, Apply, Enabled;
    if k == 0 {
      InitInv(input, sts[0]);
    } else {
      RunInv(input, sts, es, k - 1);
      assert RunStep(input, sts, es, k - 1);
      InvKept(input, sts[k - 1], es[k - 1]);
    }
  }
}
