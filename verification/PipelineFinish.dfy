/** What the controller does to the consumers, how a cancelled consumer ends, and that the
    pipeline can always get through all its items. */
module PipelineFinish {
  import opened PipelineInvariant
  import opened PipelineRuns
  import opened Pipelines
  import opened PipelineWaits

  // ---- scaling up and down ------------------------------------------------------------

  // The consumers that have not been cancelled.
  ghost function Uncancelled(st: State): set<nat> {
    set c | FirstConsumer <= c < |st.threads| && !st.threads[c].cancelled
  }

  ghost function Elements(s: seq<nat>): set<nat> {
    set c | c in s
  }

  lemma {:induction false} IncreasingSize(s: seq<nat>)
    requires forall i, j :: 0 <= i < j < |s| ==> s[i] < s[j]
    ensures |Elements(s)| == |s|
    decreases |s|
  {
    if s == [] {
      assert Elements(s) == {};
    } else {
      var n := |s| - 1;
      var front, last := s[..n], s[n];
      IncreasingSize(front);
      assert s == front + [last];
      assert Elements(s) == Elements(front) + {last};
      assert last !in Elements(front);
    }
  }

  lemma ConsumerCount(st: State)
    requires ControlOk(st)
    ensures |Uncancelled(st)| == |st.consumers|
    ensures forall c :: c in Uncancelled(st) ==> c <= st.consumers[|st.consumers| - 1]
  {
    IncreasingSize(st.consumers);
    assert Uncancelled(st) == Elements(st.consumers);
    forall c | c in Uncancelled(st) ensures c <= st.consumers[|st.consumers| - 1] {
      var i :| 0 <= i < |st.consumers| && st.consumers[i] == c;
    }
  }

  // One check of the controller: above the high threshold exactly one consumer starts; below
  // the low one, the consumer that was started last is cancelled if there are others; in
  // between, or if there is only one, nothing happens.
  lemma CheckEffect(input: seq<Item>, st: State) returns (last: nat)
    requires Inv(input, st)
    ensures var st', size, k := Apply(|input|, st, Check), |st.queues[1]|, |Uncancelled(st)|;
            && st'.queues == st.queues && st'.store == st.store && st'.read == st.read && st'.written == st.written
            && (size > HighThreshold ==>
                  st'.threads == st.threads + [Thread(Consumer, Loop, false)] && |Uncancelled(st')| == k + 1)
            && (size <= HighThreshold && size < LowThreshold && k > 1 ==>
                  && last in Uncancelled(st) && (forall c :: c in Uncancelled(st) ==> c <= last)
                  && st'.threads == st.threads[last := st.threads[last].(cancelled := true)]
                  && Uncancelled(st') == Uncancelled(st) - {last} && |Uncancelled(st')| == k - 1)
            && (size <= HighThreshold && (size >= LowThreshold || k <= 1) ==> st' == st)
  {
    var st', size, n := Apply(|input|, st, Check), |st.queues[1]|, |st.threads|;
    last := 0;
    ConsumerCount(st);
    if size > HighThreshold {
      assert Uncancelled(st') == Uncancelled(st) + {n};
    } else if size < LowThreshold && |st.consumers| > 1 {
      last := st.consumers[|st.consumers| - 1];
      assert last in st.consumers;
      assert Uncancelled(st') == Uncancelled(st) - {last};
    }
  }

  // A flag that is set stays set, and threads keep their roles.
  lemma CancelStays(n: nat, st: State, e: Event, t: nat)
    requires Enabled(st, e) && t < |st.threads| && st.threads[t].cancelled
    ensures t < |Apply(n, st, e).threads| && Apply(n, st, e).threads[t].cancelled
    ensures Apply(n, st, e).threads[t].role == st.threads[t].role
  {
  }

  // Neither dequeuing nor about to without another loop test.
  predicate PastDequeue(th: Thread) {
    th.pc.Have? || th.pc.PutReady? || th.pc.PutAsleep? || th.pc.PutWoken? || th.pc.Loop? || th.pc.Done?
  }

  // A cancelled consumer ends at its next loop test, and never dequeues again after that.
  lemma CancelledEnds(n: nat, st: State, e: Event, t: nat)
    requires Enabled(st, e) && t < |st.threads| && st.threads[t].cancelled && st.threads[t].role == Consumer
    ensures st.threads[t].pc == Loop && e.Move? && e.thread == t ==> Apply(n, st, e).threads[t].pc == Done
    ensures st.threads[t].pc == Done ==> Apply(n, st, e).threads[t].pc == Done && !(e.Move? && e.thread == t)
    ensures PastDequeue(st.threads[t]) ==> PastDequeue(Apply(n, st, e).threads[t])
    ensures e.Move? && e.thread == t && Takes(st, t) ==> PastDequeue(Apply(n, st, e).threads[t])
  {
  }

  // Over every run: from the moment it is cancelled a consumer takes at most one more item.
  lemma OneMoreItem(input: seq<Item>, sts: seq<State>, es: seq<Event>, i: nat, j: nat, k: nat, t: nat)
    requires Run(input, sts, es) && i <= j < k < |es| && t < |sts[i].threads|
    requires sts[i].threads[t].cancelled && sts[i].threads[t].role == Consumer
    requires es[j].Move? && es[j].thread == t && t < |sts[j].threads| && Takes(sts[j], t)
    ensures t < |sts[k].threads| && !(es[k].Move? && es[k].thread == t && Takes(sts[k], t))
  {
    StaysCancelled(input, sts, es, i, j, t);
    assert RunStep(input, sts, es, j);
    CancelledEnds(|input|, sts[j], es[j], t);
    CancelStays(|input|, sts[j], es[j], t);
    StaysPast(input, sts, es, j + 1, k, t);
  }

  lemma {:induction false} StaysCancelled(input: seq<Item>, sts: seq<State>, es: seq<Event>, i: nat, j: nat, t: nat)
    requires Run(input, sts, es) && i <= j <= |es| && t < |sts[i].threads|
    requires sts[i].threads[t].cancelled && sts[i].threads[t].role == Consumer
    ensures t < |sts[j].threads| && sts[j].threads[t].cancelled && sts[j].threads[t].role == Consumer
    decreases j
  {
    hide Apply, Enabled;
    if i < j {
      StaysCancelled(input, sts, es, i, j - 1, t);
      assert RunStep(input, sts, es, j - 1);
      CancelStays(|input|, sts[j - 1], es[j - 1], t);
    }
  }

  lemma {:induction false} StaysPast(input: seq<Item>, sts: seq<State>, es: seq<Event>, i: nat, j: nat, t: nat)
    requires Run(input, sts, es) && i <= j <= |es| && t < |sts[i].threads|
    requires sts[i].threads[t].cancelled && sts[i].threads[t].role == Consumer && PastDequeue(sts[i].threads[t])
    ensures t < |sts[j].threads| && PastDequeue(sts[j].threads[t])
    decreases j
  {
    hide Apply, Enabled, PastDequeue;
    if i < j {
      StaysPast(input, sts, es, i, j - 1, t);
      StaysCancelled(input, sts, es, i, j - 1, t);
      assert RunStep(input, sts, es, j - 1);
      CancelStays(|input|, sts[j - 1], es[j - 1], t);
      CancelledEnds(|input|, sts[j - 1], es[j - 1], t);
    }
  }

  // ---- work that is left --------------------------------------------------------------

  // How many productive steps are left for the items in a thread's hand and for the thread
  // itself to get to its next dequeue.
  function Weight(th: Thread): nat {
    match th.role
    case Reader => if Holds(th) then 12 else 0
    case Producer => if th.pc.Have? then 10 else if Holds(th) then 9 else if th.pc.Loop? then 1 else 0
    case Consumer => if th.pc.Have? then 6 else if Holds(th) then 5 else if th.pc.Loop? then 1 else 0
    case Writer => if Holds(th) then 2 else if th.pc.Loop? then 1 else 0
  }

  function Weights(threads: seq<Thread>): nat {
    if threads == [] then 0 else Weights(threads[..|threads| - 1]) + Weight(threads[|threads| - 1])
  }

  // The same for all items and threads.
  function Work(n: nat, st: State): int
    requires |st.queues| == 3
  {
    13 * (n - st.read) + 11 * |st.queues[0]| + 7 * |st.queues[1]| + 3 * |st.queues[2]| + Weights(st.threads)
  }

  lemma {:induction false} WeightsUpdate(threads: seq<Thread>, t: nat, th: Thread)
    requires t < |threads|
    ensures Weights(threads[t := th]) == Weights(threads) - Weight(threads[t]) + Weight(th)
    decreases |threads|
  {
    var n := |threads| - 1;
    if t < n {
      WeightsUpdate(threads[..n], t, th);
      assert threads[t := th][..n] == threads[..n][t := th];
    } else {
      assert threads[t := th][..n] == threads[..n];
    }
  }

  lemma {:induction false} WeightsAwake(threads: seq<Thread>, wake: set<nat>)
    ensures Weights(WakeAll(threads, wake)) == Weights(threads)
    decreases |threads|
  {
    if threads != [] {
      var n := |threads| - 1;
      WeightsAwake(threads[..n], wake);
      assert WakeAll(threads, wake)[..n] == WakeAll(threads[..n], wake);
    }
  }

  // Every productive step of a thread does its share: the work that is left goes down by one.
  lemma StepWorks(n: nat, st: State, e: Event)
    requires RolesOk(st) && |st.store| == n && st.read <= n && Productive(n, st, e) && e.Move?
    ensures |Apply(n, st, e).queues| == 3 && Work(n, Apply(n, st, e)) == Work(n, st) - 1
    ensures |Apply(n, st, e).threads| == |st.threads|
  {
    var t, wake, th := e.thread, e.wake, st.threads[e.thread];
    assert RoleOk(st, t);
    if th.pc.Loop? {
      LoopWorks(n, st, t);
    } else if th.pc.Have? {
      HaveWorks(n, st, t);
    } else if Takes(st, t) {
      TakeWorks(n, st, t, wake);
    } else {
      GiveWorks(n, st, t, wake);
    }
  }

  lemma LoopWorks(n: nat, st: State, t: nat)
    requires |st.queues| == 3 && t < |st.threads| && st.threads[t].pc.Loop? && Productive(n, st, Move(t, {}))
    ensures |LoopTest(n, st, t).queues| == 3 && Work(n, LoopTest(n, st, t)) == Work(n, st) - 1
    ensures |LoopTest(n, st, t).threads| == |st.threads|
  {
    WeightsUpdate(st.threads, t, LoopTest(n, st, t).threads[t]);
    assert !Takes(st, t) && !Gives(st, t);
  }

  lemma HaveWorks(n: nat, st: State, t: nat)
    requires |st.queues| == 3 && t < |st.threads| && st.threads[t].pc.Have? && st.threads[t].role != Reader
    ensures |Process(st, t).queues| == 3 && Work(n, Process(st, t)) == Work(n, st) - 1
    ensures |Process(st, t).threads| == |st.threads|
  {
    WeightsUpdate(st.threads, t, Process(st, t).threads[t]);
  }

  lemma TakeWorks(n: nat, st: State, t: nat, wake: set<nat>)
    requires |st.queues| == 3 && t < |st.threads| && Takes(st, t)
    ensures |Dequeue(st, t, wake).queues| == 3 && Work(n, Dequeue(st, t, wake)) == Work(n, st) - 1
    ensures |Dequeue(st, t, wake).threads| == |st.threads|
  {
    var th := st.threads[t].(pc := Have(st.queues[From(st.threads[t].role)][0]));
    WeightsUpdate(st.threads, t, th);
    WeightsAwake(st.threads[t := th], wake);
  }

  lemma GiveWorks(n: nat, st: State, t: nat, wake: set<nat>)
    requires |st.queues| == 3 && t < |st.threads| && Gives(st, t)
    ensures |Enqueue(st, t, wake).queues| == 3 && Work(n, Enqueue(st, t, wake)) == Work(n, st) - 1
    ensures |Enqueue(st, t, wake).threads| == |st.threads|
  {
    var th := st.threads[t].(pc := Loop);
    WeightsUpdate(st.threads, t, th);
    WeightsAwake(st.threads[t := th], wake);
  }

  // ---- every run can be finished ------------------------------------------------------

  lemma Extend(input: seq<Item>, sts: seq<State>, es: seq<Event>, e: Event) returns (sts': seq<State>, es': seq<Event>)
    requires Run(input, sts, es) && Enabled(sts[|es|], e)
    ensures sts' == sts + [Apply(|input|, sts[|es|], e)] && es' == es + [e] && Run(input, sts', es')
  {
    sts', es' := sts + [Apply(|input|, sts[|es|], e)], es + [e];
    forall k | 0 <= k < |es'| ensures RunStep(input, sts', es', k) {
      if k < |es| {
        assert RunStep(input, sts, es, k);
      }
    }
  }

  // With more items than the high threshold, and a worker queue that can hold more than that,
  // every run can go on, without waiting for chance wakeups, until every item has been written
  // exactly once.
  lemma {:induction false} CanFinish(input: seq<Item>, sts: seq<State>, es: seq<Event>)
    returns (sts': seq<State>, es': seq<Event>)
    requires Run(input, sts, es) && |input| > HighThreshold && HighThreshold < WorkerQueueSize
    ensures Run(input, sts', es') && sts <= sts' && es <= es'
    ensures multiset(sts'[|es'|].written) == multiset(Upto(|input|))
    ensures forall k :: |es| <= k < |es'| ==> Productive(|input|, sts'[k], es'[k])
    decreases if |sts[|es|].threads| == FirstConsumer then 1 else 0,
              if |sts[|es|].queues| == 3 then Work(|input|, sts[|es|]) else 0
  {
    RunInv(input, sts, es, |es|);
    var n, st := |input|, sts[|es|];
    StoreSize(input, st);
    if |st.written| >= n {
      AllWritten(input, st);
      return sts, es;
    }
    hide Inv, RolesOk, Conserved, ValuesOk, Waits, ControlOk, Apply, Enabled, Run;
    var e := NextStep(input, st);
    StateFacts(input, st);
    ProductiveEnabled(n, st, e);
    var sts1, es1 := Extend(input, sts, es, e);
    if e.Move? {
      StepWorks(n, st, e);
    } else {
      CheckAdds(n, st, e);
    }
    WorkLeft(input, sts1, es1);
    sts', es' := CanFinish(input, sts1, es1);
  }

  lemma StateFacts(input: seq<Item>, st: State)
    requires Inv(input, st)
    ensures RolesOk(st) && |st.store| == |input| && st.read <= |input| && |st.queues| == 3 && |st.threads| >= FirstConsumer
    ensures Work(|input|, st) >= 0
  {
    StoreSize(input, st);
  }

  lemma WorkLeft(input: seq<Item>, sts: seq<State>, es: seq<Event>)
    requires Run(input, sts, es)
    ensures |sts[|es|].queues| == 3 && Work(|input|, sts[|es|]) >= 0 && |sts[|es|].threads| >= FirstConsumer
  {
    RunInv(input, sts, es, |es|);
    StateFacts(input, sts[|es|]);
  }

  lemma ProductiveEnabled(n: nat, st: State, e: Event)
    requires Productive(n, st, e)
    ensures Enabled(st, e) && !e.Spurious?
  {
  }

  lemma CheckAdds(n: nat, st: State, e: Event)
    requires Productive(n, st, e) && e == Check
    ensures |Apply(n, st, e).threads| == |st.threads| + 1
  {
  }

  lemma AllWritten(input: seq<Item>, st: State)
    requires Inv(input, st) && |st.written| >= |input|
    ensures multiset(st.written) == multiset(Upto(|input|))
  {
    WrittenOnce(input, st);
    hide Inv;
    var a, b := multiset(st.written), multiset(Upto(|input|));
    assert b == a + (b - a);
    assert |a| == |st.written| && |b| == |input| && |b - a| == 0;
  }
}
