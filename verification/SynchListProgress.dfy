/** That the monitor of SynchListProtocol gets its work done: every thread that is in it goes on
    until it is out, or asleep on an empty list; a call that is not interfered with does what a
    queue does; and waiting consumers are signalled in turn. */
module SynchListProgress {
  import KernelState
  import opened MapSums
  import opened Options
  import opened Sequences
  import opened SynchListProtocol

  type ThreadId = KernelState.ThreadId

  // ---- work that is left --------------------------------------------------------------

  // How many statements a thread has still to execute, until it is out or asleep.
  function Weight<T>(p: Pc<T>): nat {
    match p
    case Out => 0
    case AppendP(_) => 14
    case AppendHold(_) => 13
    case AppendPut(_) => 12
    case AppendSignal => 11
    case AppendWake(_) => 3
    case AppendClear => 2
    case AppendV => 1
    case RemoveP => 10
    case RemoveHold => 9
    case RemoveCheck => 8
    case RemoveTake => 3
    case RemoveClear => 2
    case RemoveV => 1
    case WaitEnqueue => 7
    case WaitClear => 6
    case WaitV => 5
    case WaitSleep => 4
    case WaitP => 10
    case WaitHold => 9
  }

  // Consumers that have been taken off the queue and have not passed their waiter.
  ghost function Off<T>(st: State<T>): set<ThreadId> {
    set t | t in st.pc && Parked(st.pc[t]) && t !in st.waitQueue
  }

  ghost function Work<T>(st: State<T>): nat {
    Sum(st.pc, Weight) + 7 * |Off(st)|
  }

  // A signal that finds a waiter.
  predicate Signalling<T>(st: State<T>, t: ThreadId) {
    t in st.pc && st.pc[t].AppendSignal? && st.waitQueue != []
  }

  // Every statement does its share.
  lemma StepWorks<T>(st: State<T>, t: ThreadId)
    requires Inv(st) && Enabled(st, Go(t)) && Passes(st, t)
    ensures Work(Step(st, t)) < Work(st)
  {
    ComingStep(st, t);
    SumMove(st.pc, Weight, t, Step(st, t).pc[t]);
    StepWeight(st, t);
    if Signalling(st, t) {
      OffSignal(st, t);
    } else if st.pc[t].WaitEnqueue? {
      OffEnqueue(st, t);
    } else if st.pc[t].WaitSleep? {
      OffWake(st, t);
    } else {
      hide Mutex, Queue, Covered, Sum, Passes, Step, Weight, Parked;
      OffSame(st, t);
    }
  }

  lemma StepWeight<T>(st: State<T>, t: ThreadId)
    requires Enabled(st, Go(t)) && Passes(st, t) && t in Step(st, t).pc
    ensures var p, q := Weight(st.pc[t]), Weight(Step(st, t).pc[t]);
            if Signalling(st, t) then q + 8 == p else if st.pc[t].WaitSleep? then q == p + 6 else q < p
    ensures !Signalling(st, t) && !st.pc[t].WaitSleep? && !st.pc[t].WaitEnqueue? ==>
      Step(st, t).waitQueue == st.waitQueue && Parked(Step(st, t).pc[t]) == Parked(st.pc[t])
  {
    hide Weight, Parked, Step;
    if Appending(st.pc[t]) {
      AppendWeight(st, t);
    } else {
      RemoveWeight(st, t);
    }
  }

  lemma AppendWeight<T>(st: State<T>, t: ThreadId)
    requires Enabled(st, Go(t)) && Appending(st.pc[t]) && t in Step(st, t).pc
    ensures var p, q := Weight(st.pc[t]), Weight(Step(st, t).pc[t]);
            if Signalling(st, t) then q + 8 == p else q < p
    ensures !Signalling(st, t) ==> Step(st, t).waitQueue == st.waitQueue
    ensures Parked(Step(st, t).pc[t]) == Parked(st.pc[t])
  {
    match st.pc[t] {
      case AppendP(_) =>
      case AppendHold(_) =>
      case AppendPut(_) =>
      case AppendSignal =>
      case AppendWake(_) =>
      case AppendClear =>
      case _ =>
    }
  }

  predicate Waiting<T>(p: Pc<T>) {
    p.WaitEnqueue? || p.WaitClear? || p.WaitV? || p.WaitSleep? || p.WaitP? || p.WaitHold?
  }

  lemma RemoveWeight<T>(st: State<T>, t: ThreadId)
    requires Enabled(st, Go(t)) && !Appending(st.pc[t]) && Passes(st, t) && t in Step(st, t).pc
    ensures var p, q := Weight(st.pc[t]), Weight(Step(st, t).pc[t]);
            if st.pc[t].WaitSleep? then q == p + 6 else q < p
    ensures !st.pc[t].WaitSleep? && !st.pc[t].WaitEnqueue? ==>
      Step(st, t).waitQueue == st.waitQueue && Parked(Step(st, t).pc[t]) == Parked(st.pc[t])
  {
    if Waiting(st.pc[t]) {
      hide Step, Weight, Parked;
      WaitWeight(st, t);
    } else {
      var p := st.pc[t];
      assert p.RemoveP? || p.RemoveHold? || p.RemoveCheck? || p.RemoveTake? || p.RemoveClear? || p.RemoveV?;
    }
  }

  lemma WaitWeight<T>(st: State<T>, t: ThreadId)
    requires Enabled(st, Go(t)) && Waiting(st.pc[t]) && t in Step(st, t).pc
    ensures var p, q := Weight(st.pc[t]), Weight(Step(st, t).pc[t]);
            if st.pc[t].WaitSleep? then q == p + 6 else q < p
    ensures !st.pc[t].WaitSleep? && !st.pc[t].WaitEnqueue? ==>
      Step(st, t).waitQueue == st.waitQueue && Parked(Step(st, t).pc[t]) == Parked(st.pc[t])
  {
  }

  lemma OffSame<T>(st: State<T>, t: ThreadId)
    requires Enabled(st, Go(t)) && Step(st, t).waitQueue == st.waitQueue && Moves(st, Step(st, t), t)
    requires Parked(Step(st, t).pc[t]) == Parked(st.pc[t])
    ensures Off(Step(st, t)) == Off(st)
  {
  }

  lemma OffSignal<T>(st: State<T>, t: ThreadId)
    requires Queue(st) && t in st.pc && st.pc[t].AppendSignal? && st.waitQueue != []
    ensures |Off(Step(st, t))| == |Off(st)| + 1
  {
    var w := st.waitQueue[0];
    assert w in st.waitQueue && w !in st.waitQueue[1..];
    assert w in st.pc && Parked(st.pc[w]) && w != t;
    hide Queue;
    assert forall u :: u in st.waitQueue <==> u == w || u in st.waitQueue[1..];
    OffGains(st, Step(st, t), t, w);
  }

  lemma OffGains<T>(st: State<T>, st': State<T>, t: ThreadId, w: ThreadId)
    requires Moves(st, st', t) && !Parked(st.pc[t]) && !Parked(st'.pc[t])
    requires w != t && w in st.pc && Parked(st.pc[w])
    requires w in st.waitQueue && w !in st'.waitQueue && forall u :: u != w ==> (u in st'.waitQueue <==> u in st.waitQueue)
    ensures |Off(st')| == |Off(st)| + 1
  {
    assert Off(st') == Off(st) + {w} && w !in Off(st);
  }

  lemma OffEnqueue<T>(st: State<T>, t: ThreadId)
    requires t in st.pc && st.pc[t].WaitEnqueue?
    ensures Off(Step(st, t)) == Off(st)
  {
    var q, q' := st.waitQueue, Step(st, t).waitQueue;
    assert q' == q + [t] && forall u :: u in q' <==> u in q || u == t;
  }

  lemma OffWake<T>(st: State<T>, t: ThreadId)
    requires Queue(st) && Enabled(st, Go(t)) && st.pc[t].WaitSleep?
    ensures |Off(Step(st, t))| == |Off(st)| - 1
  {
    RaisedNotQueued(st, t);
    assert t in Off(st);
    assert Off(Step(st, t)) == Off(st) - {t};
  }

  // ---- every run settles --------------------------------------------------------------

  // However the threads in the monitor are scheduled, their statements come to an end; this
  // lemma gives one schedule. Then, unless an item was appended too early, every thread is out
  // or asleep, and nobody sleeps while an item is listed.
  lemma {:induction false} Settles<T(!new)>(sts: seq<State<T>>, es: seq<Event<T>>) returns (sts': seq<State<T>>, es': seq<Event<T>>)
    requires Run(sts, es) && Init(sts[0])
    ensures Run(sts', es') && sts <= sts' && es <= es' && forall k :: |es| <= k < |es'| ==> es'[k].Go?
    ensures var st := sts'[|es'|];
            st.failed || ((forall t :: t in st.pc ==> st.pc[t] == Out || (st.pc[t] == WaitSleep && t in st.waitQueue))
                          && (st.waitQueue != [] ==> st.list == [] && st.appended == st.removed))
    decreases Work(sts[|es|])
  {
    RunInv(sts, es, |es|);
    var st := sts[|es|];
    sts', es' := sts, es;
    if st.failed {
      return;
    }
    if t :| t in st.pc && Enabled(st, Go(t)) {
      sts', es' := Extend(sts, es, Go(t));
      if Passes(st, t) {
        StepWorks(st, t);
        assert es'[|es|] == Go(t);
        sts', es' := Settles(sts', es');
      }
    } else {
      NoDeadlock(sts, es, |es|);
    }
  }

  // ---- calls without interference -----------------------------------------------------

  // Up to n statements of one thread.
  ghost function GoOn<T>(st: State<T>, t: ThreadId, n: nat): State<T>
    decreases n
  {
    if n == 0 || st.failed || !Enabled(st, Go(t)) then st else GoOn(Apply(st, Go(t)), t, n - 1)
  }

  // RemoveFront by a thread that runs alone, with an item listed: it takes the first.
  lemma RemoveAlone<T>(st: State<T>, t: ThreadId)
    requires Inv(st) && !st.failed && Enabled(st, StartRemove(t)) && st.lockValue == 1 && st.list != []
    ensures GoOn(Apply(st, StartRemove(t)), t, 6) == st.(list := st.list[1..], removed := st.removed + [st.list[0]])
  {
    FreeLock(st);
    hide Inv, Step, GoOn;
    EnterRemove(st, t);
    TakeAlone(st, t, st.(list := st.list[1..], removed := st.removed + [st.list[0]]));
  }

  lemma EnterRemove<T>(st: State<T>, t: ThreadId)
    requires t in st.pc && !st.failed && st.lockValue == 1 && st.list != []
    ensures GoOn(To(st, t, RemoveP), t, 6) == GoOn(Held(st, t, RemoveTake), t, 3)
  {
    hide Step, GoOn, To, Held;
    RemoveAtP(st, t);
    RemoveAtHold(st, t);
    RemoveAtCheck(st, t);
  }

  lemma RemoveAtP<T>(st: State<T>, t: ThreadId)
    requires t in st.pc && !st.failed && st.lockValue == 1
    ensures GoOn(To(st, t, RemoveP), t, 6) == GoOn(Locked(st, t, RemoveHold), t, 5)
  {
    assert st.pc[t := RemoveP][t := RemoveHold] == st.pc[t := RemoveHold];
    GoTo(To(st, t, RemoveP), t, 5, Locked(st, t, RemoveHold));
  }

  lemma RemoveAtHold<T>(st: State<T>, t: ThreadId)
    requires t in st.pc && !st.failed
    ensures GoOn(Locked(st, t, RemoveHold), t, 5) == GoOn(Held(st, t, RemoveCheck), t, 4)
  {
    assert st.pc[t := RemoveHold][t := RemoveCheck] == st.pc[t := RemoveCheck];
    GoTo(Locked(st, t, RemoveHold), t, 4, Held(st, t, RemoveCheck));
  }

  lemma RemoveAtCheck<T>(st: State<T>, t: ThreadId)
    requires t in st.pc && !st.failed && st.list != []
    ensures GoOn(Held(st, t, RemoveCheck), t, 4) == GoOn(Held(st, t, RemoveTake), t, 3)
  {
    assert st.pc[t := RemoveCheck][t := RemoveTake] == st.pc[t := RemoveTake];
    GoTo(Held(st, t, RemoveCheck), t, 3, Held(st, t, RemoveTake));
  }

  lemma GoNone<T>(st: State<T>, t: ThreadId)
    ensures GoOn(st, t, 0) == st
  {
  }

  lemma GoTo<T>(st: State<T>, t: ThreadId, n: nat, st': State<T>)
    requires !st.failed && Enabled(st, Go(t)) && Passes(st, t) && Step(st, t) == st'
    ensures GoOn(st, t, n + 1) == GoOn(st', t, n)
  {
  }

  // Inside, with the lock, and before its holder is recorded or after that is cleared.
  function Locked<T>(st: State<T>, t: ThreadId, p: Pc<T>): State<T> {
    To(st, t, p).(lockValue := 0)
  }

  // Inside, as its holder.
  function Held<T>(st: State<T>, t: ThreadId, p: Pc<T>): State<T> {
    To(st, t, p).(lockValue := 0, lockHolder := Some(t))
  }

  lemma TakeAlone<T>(st: State<T>, t: ThreadId, less: State<T>)
    requires t in st.pc && st.pc[t] == Out && !st.failed && st.lockValue == 1 && st.lockHolder == None && st.list != []
    requires less == st.(list := st.list[1..], removed := st.removed + [st.list[0]])
    ensures GoOn(Held(st, t, RemoveTake), t, 3) == less
  {
    hide GoOn, Step, Held, To, Locked;
    RemoveAtTake(st, t, less);
    RemoveAtClear(less, t);
    RemoveAtV(less, t);
    GoNone(less, t);
  }

  lemma RemoveAtTake<T>(st: State<T>, t: ThreadId, less: State<T>)
    requires t in st.pc && !st.failed && st.list != []
    requires less == st.(list := st.list[1..], removed := st.removed + [st.list[0]])
    ensures GoOn(Held(st, t, RemoveTake), t, 3) == GoOn(Held(less, t, RemoveClear), t, 2)
  {
    assert st.pc[t := RemoveTake][t := RemoveClear] == less.pc[t := RemoveClear];
    GoTo(Held(st, t, RemoveTake), t, 2, Held(less, t, RemoveClear));
  }

  lemma RemoveAtClear<T>(st: State<T>, t: ThreadId)
    requires t in st.pc && !st.failed && st.lockHolder == None
    ensures GoOn(Held(st, t, RemoveClear), t, 2) == GoOn(Locked(st, t, RemoveV), t, 1)
  {
    assert st.pc[t := RemoveClear][t := RemoveV] == st.pc[t := RemoveV];
    GoTo(Held(st, t, RemoveClear), t, 1, Locked(st, t, RemoveV));
  }

  lemma RemoveAtV<T>(st: State<T>, t: ThreadId)
    requires t in st.pc && st.pc[t] == Out && !st.failed && st.lockValue == 1
    ensures GoOn(Locked(st, t, RemoveV), t, 1) == GoOn(st, t, 0)
  {
    assert st.pc[t := RemoveV][t := Out] == st.pc;
    GoTo(Locked(st, t, RemoveV), t, 0, st);
  }

  // Append by a thread that runs alone, nobody waiting: the item is listed last.
  lemma AppendsLast<T>(st: State<T>, t: ThreadId, x: T)
    requires Inv(st) && !st.failed && Enabled(st, StartAppend(t, x)) && st.lockValue == 1 && x !in st.list && st.waitQueue == []
    ensures GoOn(Apply(st, StartAppend(t, x)), t, 6) == st.(list := st.list + [x], appended := st.appended + [x])
  {
    FreeLock(st);
    hide Inv, Step, GoOn;
    var more := st.(list := st.list + [x], appended := st.appended + [x]);
    EnterAppend(st, t, x, more);
    SignalAlone(st, t, more);
  }

  lemma EnterAppend<T>(st: State<T>, t: ThreadId, x: T, more: State<T>)
    requires t in st.pc && !st.failed && st.lockValue == 1 && x !in st.list
    requires more == st.(list := st.list + [x], appended := st.appended + [x])
    ensures GoOn(To(st, t, AppendP(x)), t, 6) == GoOn(Held(more, t, AppendSignal), t, 3)
  {
    hide Step, GoOn, To, Held;
    AppendAtP(st, t, x);
    AppendAtHold(st, t, x);
    AppendAtPut(st, t, x, more);
  }

  lemma AppendAtP<T>(st: State<T>, t: ThreadId, x: T)
    requires t in st.pc && !st.failed && st.lockValue == 1
    ensures GoOn(To(st, t, AppendP(x)), t, 6) == GoOn(Locked(st, t, AppendHold(x)), t, 5)
  {
    assert st.pc[t := AppendP(x)][t := AppendHold(x)] == st.pc[t := AppendHold(x)];
    GoTo(To(st, t, AppendP(x)), t, 5, Locked(st, t, AppendHold(x)));
  }

  lemma AppendAtHold<T>(st: State<T>, t: ThreadId, x: T)
    requires t in st.pc && !st.failed
    ensures GoOn(Locked(st, t, AppendHold(x)), t, 5) == GoOn(Held(st, t, AppendPut(x)), t, 4)
  {
    assert st.pc[t := AppendHold(x)][t := AppendPut(x)] == st.pc[t := AppendPut(x)];
    GoTo(Locked(st, t, AppendHold(x)), t, 4, Held(st, t, AppendPut(x)));
  }

  lemma AppendAtPut<T>(st: State<T>, t: ThreadId, x: T, more: State<T>)
    requires t in st.pc && !st.failed && x !in st.list
    requires more == st.(list := st.list + [x], appended := st.appended + [x])
    ensures GoOn(Held(st, t, AppendPut(x)), t, 4) == GoOn(Held(more, t, AppendSignal), t, 3)
  {
    assert st.pc[t := AppendPut(x)][t := AppendSignal] == st.pc[t := AppendSignal];
    GoTo(Held(st, t, AppendPut(x)), t, 3, Held(more, t, AppendSignal));
  }

  lemma SignalAlone<T>(st: State<T>, t: ThreadId, more: State<T>)
    requires t in st.pc && st.pc[t] == Out && !st.failed && st.lockValue == 1 && st.lockHolder == None && st.waitQueue == []
    requires more == st.(list := more.list, appended := more.appended)
    ensures GoOn(Held(more, t, AppendSignal), t, 3) == more
  {
    hide GoOn;
    var s6 := Locked(more, t, AppendV);
    assert more.pc[t := AppendSignal][t := AppendClear] == more.pc[t := AppendClear];
    GoTo(Held(more, t, AppendSignal), t, 2, Held(more, t, AppendClear));
    assert more.pc[t := AppendClear][t := AppendV] == more.pc[t := AppendV];
    GoTo(Held(more, t, AppendClear), t, 1, s6);
    assert s6.pc[t := Out] == st.pc;
    GoTo(s6, t, 0, more);
    GoNone(more, t);
  }

  lemma FreeLock<T>(st: State<T>)
    requires Inv(st) && st.lockValue == 1
    ensures st.lockHolder == None
  {
    HoldingInside(st);
  }

  // ---- waiters in turn ----------------------------------------------------------------

  predicate Signals<T>(st: State<T>, e: Event<T>) {
    e.Go? && Signalling(st, e.thread)
  }

  function SignalCount<T>(sts: seq<State<T>>, es: seq<Event<T>>, i: nat, j: nat): nat
    requires i <= j <= |es| <= |sts|
  {
    if i == j then 0 else SignalCount(sts, es, i, j - 1) + if Signals(sts[j - 1], es[j - 1]) then 1 else 0
  }

  lemma QueueMoves<T>(st: State<T>, e: Event<T>)
    requires Inv(st) && Enabled(st, e)
    ensures Signals(st, e) ==> Apply(st, e).waitQueue == st.waitQueue[1..] && Apply(st, e).pc[e.thread] == AppendWake(st.waitQueue[0])
    ensures !Signals(st, e) ==> st.waitQueue <= Apply(st, e).waitQueue
  {
    if Signals(st, e) {
      AssertsHold(st, e.thread);
    }
  }

  // The consumer at position k of the queue moves on by one with each signal, and the
  // (k + 1)-th signal is for it.
  lemma {:induction false} SignalledInTurn<T(!new)>(sts: seq<State<T>>, es: seq<Event<T>>, i: nat, j: nat, k: nat)
    requires Run(sts, es) && Init(sts[0]) && i <= j <= |es| && k < |sts[i].waitQueue| && SignalCount(sts, es, i, j) <= k
    ensures k - SignalCount(sts, es, i, j) < |sts[j].waitQueue|
    ensures sts[j].waitQueue[k - SignalCount(sts, es, i, j)] == sts[i].waitQueue[k]
    ensures j < |es| && SignalCount(sts, es, i, j) == k && Signals(sts[j], es[j]) ==>
      es[j].thread in sts[j + 1].pc && sts[j + 1].pc[es[j].thread] == AppendWake(sts[i].waitQueue[k])
    decreases j
  {
    hide Apply, Enabled, Inv;
    if i < j {
      SignalledInTurn(sts, es, i, j - 1, k);
      RunInv(sts, es, j - 1);
      assert RunStep(sts, es, j - 1);
      QueueMoves(sts[j - 1], es[j - 1]);
    }
    if j < |es| {
      RunInv(sts, es, j);
      assert RunStep(sts, es, j);
      QueueMoves(sts[j], es[j]);
      PcStays(sts[j], es[j]);
    }
  }

  lemma PcStays<T>(st: State<T>, e: Event<T>)
    requires Enabled(st, e)
    ensures e.thread in Apply(st, e).pc
  {
    if e.Go? {
      ComingStep(st, e.thread);
    }
  }
}
