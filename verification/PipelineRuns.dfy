/** What holds in every run of the producer and consumer pipeline: nothing is lost, nothing is
    duplicated, every written item is transformed once by each stage, and with enough items
    the pipeline never gets stuck. */
module PipelineRuns {
  import opened PipelineInvariant
  import opened Pipelines
  import opened PipelineWaits

  // ---- safety -------------------------------------------------------------------------

  // In every reachable state each item read is in exactly one place (a queue, the hand of a
  // thread, or the output), nothing else is, and a written item keeps its key and opcode and
  // has the value that both transforms, in order, make of its input value.
  lemma PipelineSafe(input: seq<Item>, sts: seq<State>, es: seq<Event>, k: nat, id: nat)
    requires Run(input, sts, es) && k <= |es|
    ensures |sts[k].queues| == 3 && Places(sts[k], id) == if id < sts[k].read then 1 else 0
    ensures sts[k].read <= |input| == |sts[k].store|
    ensures id in sts[k].written ==> id < |input|
    ensures id in sts[k].written ==> sts[k].store[id].key == input[id].key && sts[k].store[id].opcode == input[id].opcode
    ensures id in sts[k].written ==>
      sts[k].store[id].val == ConsumerTransform(input[id].opcode, ProducerTransform(input[id].opcode, input[id].val))
  {
    RunInv(input, sts, es, k);
    assert id in sts[k].written ==> ValueOk(input, sts[k].store, id, 2);
  }

  // Once a consumer has started there is always one that is not cancelled.
  lemma ConsumerStays(input: seq<Item>, sts: seq<State>, es: seq<Event>, k: nat)
    requires Run(input, sts, es) && k <= |es| && |sts[k].threads| > FirstConsumer
    ensures exists c :: FirstConsumer <= c < |sts[k].threads| && sts[k].threads[c].role == Consumer
                     && !sts[k].threads[c].cancelled && sts[k].threads[c].pc != Done
  {
    RunInv(input, sts, es, k);
    var c := sts[k].consumers[0];
    assert c in sts[k].consumers;
    assert RoleOk(sts[k], c);
  }

  // ---- progress -----------------------------------------------------------------------

  // A step that moves an item, brings a thread on towards one, or starts a consumer.
  ghost predicate Productive(n: nat, st: State, e: Event) {
    Enabled(st, e) &&
    match e
    case Check => |st.queues| > 1 && |st.queues[1]| > HighThreshold
    case Spurious(_) => false
    case Move(t, _) =>
      var th := st.threads[t];
      || Takes(st, t) || Gives(st, t) || th.pc.Have?
      || (th.pc.Loop? && match th.role
                         case Reader => st.read < n
                         case Writer => |st.written| < n
                         case Producer => true
                         case Consumer => !th.cancelled)
  }

  // When queue k has an item and some thread is dequeuing, asleep or not, one can.
  lemma SomeoneGets(n: nat, st: State, k: nat, t: nat) returns (e: Event)
    requires Waits(st) && k < 3 && st.queues[k] != [] && t < |st.threads| && From(st.threads[t].role) == k
    requires Getting(st.threads[t]) || st.threads[t].pc.GetAsleep?
    ensures Productive(n, st, e) && e.Move?
  {
    var u := t;
    if st.threads[t].pc.GetAsleep? {
      var c := CondDequeue(k);
      assert WaitOk(st, c) && t in Sleepers(st.threads, c);
      assert Wokens(st.threads, c) != {};
      u :| u in Wokens(st.threads, c);
    }
    assert Takes(st, u);
    e := Move(u, Signals(st, u));
  }

  // When queue k has room and some thread is enqueuing, asleep or not, one can.
  lemma SomeonePuts(n: nat, st: State, k: nat, t: nat) returns (e: Event)
    requires Waits(st) && k < 3 && |st.queues[k]| < Capacity(k) && t < |st.threads| && Into(st.threads[t].role) == k
    requires Putting(st.threads[t]) || st.threads[t].pc.PutAsleep?
    ensures Productive(n, st, e) && e.Move?
  {
    var u := t;
    if st.threads[t].pc.PutAsleep? {
      var c := CondEnqueue(k);
      assert WaitOk(st, c) && t in Sleepers(st.threads, c);
      assert Wokens(st.threads, c) != {};
      u :| u in Wokens(st.threads, c);
    }
    assert Gives(st, u);
    e := Move(u, Signals(st, u));
  }

  lemma MoveOn(n: nat, st: State, t: nat) returns (e: Event)
    requires t < |st.threads| && (st.threads[t].pc.Have? || st.threads[t].pc.Loop?)
    requires st.threads[t].pc.Loop? ==>
      match st.threads[t].role
      case Reader => st.read < n
      case Writer => |st.written| < n
      case Producer => true
      case Consumer => !st.threads[t].cancelled
    ensures Productive(n, st, e) && e.Move?
  {
    e := Move(t, {});
  }

  // No thread can do anything productive.
  ghost predicate Idle(n: nat, st: State) {
    forall e: Event :: e.Move? ==> !Productive(n, st, e)
  }

  lemma IdleThread(n: nat, st: State, t: nat)
    requires RolesOk(st) && Waits(st) && Idle(n, st) && t < |st.threads|
    ensures !st.threads[t].pc.Have?
    ensures Holds(st.threads[t]) ==> Into(st.threads[t].role) < 3
    ensures Holds(st.threads[t]) ==> |st.queues[Into(st.threads[t].role)]| >= Capacity(Into(st.threads[t].role))
    ensures st.threads[t].role == Writer && |st.written| < n ==> st.threads[t].pc.Done? || st.queues[2] == []
    ensures st.threads[t].role == Consumer && !st.threads[t].cancelled && !Holds(st.threads[t]) ==> st.queues[1] == []
    ensures st.threads[t].role == Producer && !Holds(st.threads[t]) ==> st.queues[0] == []
    ensures st.threads[t].role == Reader && !Holds(st.threads[t]) ==> st.read >= n || st.threads[t].pc.Done?
  {
    var th := st.threads[t];
    assert RoleOk(st, t);
    if th.pc.Have? {
      var e := MoveOn(n, st, t);
      assert false;
    }
    if Holds(th) && |st.queues[Into(th.role)]| < Capacity(Into(th.role)) {
      var e := SomeonePuts(n, st, Into(th.role), t);
      assert false;
    }
    if !Holds(th) && th.role != Reader && st.queues[From(th.role)] != [] && !th.pc.Done? && !th.pc.Loop? {
      var e := SomeoneGets(n, st, From(th.role), t);
      assert false;
    }
    if th.pc.Loop? && (th.role == Producer || (th.role == Consumer && !th.cancelled)
                       || (th.role == Reader && st.read < n) || (th.role == Writer && |st.written| < n)) {
      var e := MoveOn(n, st, t);
      assert false;
    }
  }

  // From the output back to the input: where nothing productive can happen, nobody has an
  // item in hand, and all items are in the worker queue or written.
  lemma IdleDrained(input: seq<Item>, st: State)
    requires Inv(input, st) && Idle(|input|, st) && |st.written| < |input| && HighThreshold < WorkerQueueSize
    requires |st.threads| > FirstConsumer || |st.queues[1]| <= HighThreshold
    ensures st.queues[0] == [] && st.queues[2] == [] && st.read == |input|
    ensures |st.queues[1]| <= HighThreshold && (|st.threads| > FirstConsumer ==> st.queues[1] == [])
    ensures forall t :: 0 <= t < |st.threads| ==> !Holds(st.threads[t])
  {
    var n := |input|;
    forall t | 0 <= t < |st.threads|
      ensures RoleOk(st, t)
      ensures Holds(st.threads[t]) ==> Into(st.threads[t].role) < 3
      ensures Holds(st.threads[t]) ==> |st.queues[Into(st.threads[t].role)]| >= Capacity(Into(st.threads[t].role))
    {
      IdleThread(n, st, t);
    }
    IdleThread(n, st, 1);
    assert st.queues[2] == [];
    IdleWorkerQueue(input, st);
    IdleThread(n, st, 2);
    assert st.queues[0] == [];
    IdleThread(n, st, 0);
  }

  lemma IdleWorkerQueue(input: seq<Item>, st: State)
    requires Inv(input, st) && Idle(|input|, st) && st.queues[2] == []
    ensures |st.threads| > FirstConsumer ==> st.queues[1] == []
  {
    if |st.threads| > FirstConsumer {
      var c := st.consumers[0];
      assert c in st.consumers;
      assert RoleOk(st, c);
      IdleThread(|input|, st, c);
    }
  }

  lemma CountAll(s: seq<nat>, n: nat)
    requires forall id: nat :: multiset(s)[id] == if id < n then 1 else 0
    ensures |s| == n
  {
    forall id: nat ensures multiset(s)[id] == multiset(Upto(n))[id] {
      UptoCount(n, id);
    }
    assert multiset(s) == multiset(Upto(n));
    assert |multiset(s)| == |s| && |multiset(Upto(n))| == |Upto(n)|;
  }

  function Upto(n: nat): (s: seq<nat>)
    ensures |s| == n
  {
    if n == 0 then [] else Upto(n - 1) + [n - 1]
  }

  lemma {:induction false} UptoCount(n: nat, id: nat)
    ensures multiset(Upto(n))[id] == if id < n then 1 else 0
    decreases n
  {
    if n > 0 {
      UptoCount(n - 1, id);
      CountAppend(Upto(n - 1), n - 1, id);
    }
  }

  // With more items than the controller's threshold, and a worker queue that can hold more
  // than that, the pipeline never gets stuck: in every reachable state before the last write
  // some item can move on, or the controller's next check starts a consumer.
  lemma Progress(input: seq<Item>, sts: seq<State>, es: seq<Event>, k: nat)
    requires Run(input, sts, es) && k <= |es|
    requires |input| > HighThreshold && HighThreshold < WorkerQueueSize && |sts[k].written| < |input|
    ensures exists e :: Productive(|input|, sts[k], e)
  {
    RunInv(input, sts, es, k);
    var e := NextStep(input, sts[k]);
  }

  // Once a consumer has started, some thread can always move on.
  lemma NextStep(input: seq<Item>, st: State) returns (e: Event)
    requires Inv(input, st) && |input| > HighThreshold && HighThreshold < WorkerQueueSize && |st.written| < |input|
    ensures Productive(|input|, st, e)
    ensures |st.threads| > FirstConsumer ==> e.Move?
  {
    if Idle(|input|, st) {
      if |st.threads| > FirstConsumer || |st.queues[1]| <= HighThreshold {
        IdleEnds(input, st);
      }
      e := Check;
    } else {
      e :| e.Move? && Productive(|input|, st, e);
    }
  }

  lemma IdleEnds(input: seq<Item>, st: State)
    requires Inv(input, st) && Idle(|input|, st) && HighThreshold < WorkerQueueSize
    requires |st.threads| > FirstConsumer || |st.queues[1]| <= HighThreshold
    ensures |st.written| >= |input| || |input| <= HighThreshold
  {
    if |st.written| < |input| {
      IdleDrained(input, st);
      forall id: nat ensures multiset(st.queues[1])[id] + multiset(st.written)[id] == if id < |input| then 1 else 0 {
        NobodyHolds(st.threads, id);
        assert Places(st, id) == if id < st.read then 1 else 0;
      }
      if |st.threads| > FirstConsumer {
        CountAll(st.written, |input|);
        assert false;
      } else {
        CountAll(st.queues[1], |input|);
      }
    }
  }

  // Otherwise no consumer is ever started and nothing is ever written: the writer of a
  // nonempty input waits forever. With Progress, that settles every input and every choice of
  // the constants: what the controller needs is that more than HighThreshold items exist and
  // fit into the worker queue.
  lemma {:induction false} NeverStarts(input: seq<Item>, sts: seq<State>, es: seq<Event>, k: nat)
    requires Run(input, sts, es) && k <= |es|
    requires |input| <= HighThreshold || WorkerQueueSize <= HighThreshold
    ensures |sts[k].threads| == FirstConsumer && sts[k].written == []
    decreases k
  {
    RunInv(input, sts, es, k);
    if k > 0 {
      NeverStarts(input, sts, es, k - 1);
      RunInv(input, sts, es, k - 1);
      assert RunStep(input, sts, es, k - 1);
      FewQueued(input, sts[k - 1]);
      assert |sts[k - 1].queues[1]| <= Capacity(1);
    }
  }

  // A queue holds no more items than there are.
  lemma FewQueued(input: seq<Item>, st: State)
    requires Inv(input, st)
    ensures |st.queues[1]| <= |input|
  {
    var q := st.queues[1];
    forall id: nat ensures multiset(q)[id] <= multiset(Upto(|input|))[id] {
      assert Places(st, id) == if id < st.read then 1 else 0;
      UptoCount(|input|, id);
    }
    assert multiset(q) <= multiset(Upto(|input|));
    SmallerMultiset(multiset(q), multiset(Upto(|input|)));
    assert |multiset(q)| == |q| && |multiset(Upto(|input|))| == |Upto(|input|)|;
  }

  lemma SmallerMultiset(a: multiset<nat>, b: multiset<nat>)
    requires a <= b
    ensures |a| <= |b|
  {
    assert b == a + (b - a);
  }

  // Nothing is written twice, and nothing that is not an item.
  lemma WrittenOnce(input: seq<Item>, st: State)
    requires Inv(input, st)
    ensures multiset(st.written) <= multiset(Upto(|input|))
  {
    forall id: nat ensures multiset(st.written)[id] <= multiset(Upto(|input|))[id] {
      assert Places(st, id) == if id < st.read then 1 else 0;
      UptoCount(|input|, id);
    }
  }

  // When the writer is done, every item has been written exactly once.
  lemma WriterDone(input: seq<Item>, sts: seq<State>, es: seq<Event>, k: nat)
    requires Run(input, sts, es) && k <= |es| && |sts[k].threads| > 1 && sts[k].threads[1].pc == Done
    ensures multiset(sts[k].written) == multiset(Upto(|input|))
  {
    RunInv(input, sts, es, k);
    var st := sts[k];
    assert RoleOk(st, 1);
    WrittenOnce(input, st);
    hide Run, Inv;
    var a, b := multiset(st.written), multiset(Upto(|input|));
    assert b == a + (b - a);
    assert |a| == |st.written| && |b| == |input| && |b - a| == 0;
  }
}
