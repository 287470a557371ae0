/** No wakeup of the pipeline's condition variables is lost
    (Pthread/NTHU-OS-Pthreads/ts_queue.hpp). */
module PipelineWaits {
  import opened Pipelines

  // ---- no wakeup is lost --------------------------------------------------------------

  // How many threads could go on at condition c: items to take, or room to put them.
  function Slack(st: State, c: Cond): int
    requires c.k < |st.queues|
  {
    match c
    case CondDequeue(k) => |st.queues[k]|
    case CondEnqueue(k) => Capacity(k) - |st.queues[k]|
  }

  // As long as a thread sleeps on c there is a woken thread for each that could go on.
  ghost predicate WaitOk(st: State, c: Cond)
    requires c.k < |st.queues|
  {
    Sleepers(st.threads, c) != {} ==> Slack(st, c) <= |Wokens(st.threads, c)|
  }

  ghost predicate Waits(st: State) {
    |st.queues| == 3 && forall c: Cond :: c.k < 3 ==> WaitOk(st, c)
  }

  lemma SetsUpdate(threads: seq<Thread>, t: nat, th: Thread, c: Cond)
    requires t < |threads|
    ensures Sleepers(threads[t := th], c) == (if Asleep(th) && WaitsOn(th) == c then Sleepers(threads, c) + {t} else Sleepers(threads, c) - {t})
    ensures Wokens(threads[t := th], c) == (if Woken(th) && WaitsOn(th) == c then Wokens(threads, c) + {t} else Wokens(threads, c) - {t})
    ensures t in Sleepers(threads, c) <==> Asleep(threads[t]) && WaitsOn(threads[t]) == c
    ensures t in Wokens(threads, c) <==> Woken(threads[t]) && WaitsOn(threads[t]) == c
  {
  }

  lemma SetsAwake(threads: seq<Thread>, wake: set<nat>, c: Cond, d: Cond)
    requires wake <= Sleepers(threads, d)
    ensures Sleepers(WakeAll(threads, wake), c) == Sleepers(threads, c) - wake
    ensures Wokens(WakeAll(threads, wake), c) == (if c == d then Wokens(threads, c) + wake else Wokens(threads, c))
    ensures Wokens(threads, c) !! wake
  {
  }

  // A step of t that takes or gives one, on the side of condition c, and wakes some of the
  // sleepers on the other side d.
  lemma SignalKeeps(st: State, st': State, t: nat, pc: Pc, wake: set<nat>, d: Cond, c: Cond)
    requires c.k < |st.queues| && d.k < |st.queues| == |st'.queues| && t < |st.threads|
    requires WaitOk(st, c) && !Asleep(st.threads[t])
    requires pc.Have? || pc.Loop?
    requires st'.threads == WakeAll(st.threads[t := st.threads[t].(pc := pc)], wake)
    requires wake <= Sleepers(st.threads, d) && (Sleepers(st.threads, d) != {} ==> wake != {})
    requires Slack(st', c) <= Slack(st, c) + if c == d then 1 else if Woken(st.threads[t]) && WaitsOn(st.threads[t]) == c then -1 else 0
    requires c == d ==> !(Woken(st.threads[t]) && WaitsOn(st.threads[t]) == c)
    ensures WaitOk(st', c)
  {
    var th := st.threads[t].(pc := pc);
    var mid := st.threads[t := th];
    MidSets(st.threads, t, th, c, d);
    AwakeSets(mid, wake, c, d);
  }

  // Thread t goes on, so it is neither asleep nor woken any more.
  lemma MidSets(threads: seq<Thread>, t: nat, th: Thread, c: Cond, d: Cond)
    requires t < |threads| && !Asleep(threads[t]) && !Asleep(th) && !Woken(th)
    ensures Sleepers(threads[t := th], c) == Sleepers(threads, c) && Sleepers(threads[t := th], d) == Sleepers(threads, d)
    ensures |Wokens(threads[t := th], c)| == |Wokens(threads, c)| - if Woken(threads[t]) && WaitsOn(threads[t]) == c then 1 else 0
  {
    hide Sleepers, Wokens, WaitsOn;
    SetsUpdate(threads, t, th, c);
    SetsUpdate(threads, t, th, d);
    if t !in Wokens(threads, c) {
      assert Wokens(threads, c) - {t} == Wokens(threads, c);
    }
  }

  lemma AwakeSets(threads: seq<Thread>, wake: set<nat>, c: Cond, d: Cond)
    requires wake <= Sleepers(threads, d)
    ensures Sleepers(WakeAll(threads, wake), c) <= Sleepers(threads, c)
    ensures |Wokens(WakeAll(threads, wake), c)| == |Wokens(threads, c)| + if c == d then |wake| else 0
  {
    hide Sleepers, Wokens, WaitsOn, WakeAll;
    SetsAwake(threads, wake, c, d);
    AtLeastOne(Wokens(threads, c), wake);
  }

  lemma AtLeastOne(a: set<nat>, b: set<nat>)
    requires a !! b
    ensures |a + b| == |a| + |b| && (b != {} ==> |a + b| >= |a| + 1)
  {
  }

  // A step of t that changes no queue and wakes nobody. It falls asleep only where it cannot
  // go on, and leaves the woken only then.
  lemma QuietKeeps(st: State, st': State, t: nat, th: Thread, c: Cond)
    requires c.k < |st.queues| && t < |st.threads| && st'.queues == st.queues && st'.threads == st.threads[t := th]
    requires WaitOk(st, c)
    requires Asleep(th) && WaitsOn(th) == c && !(Asleep(st.threads[t]) && WaitsOn(st.threads[t]) == c) ==> Slack(st, c) <= 0
    requires Woken(st.threads[t]) && WaitsOn(st.threads[t]) == c ==> Slack(st, c) <= 0
    ensures WaitOk(st', c)
  {
    hide Sleepers, Wokens, WaitsOn;
    SetsUpdate(st.threads, t, th, c);
    assert Slack(st', c) == Slack(st, c);
    var w := Wokens(st.threads, c);
    if t !in w {
      assert w - {t} == w && |w + {t}| == |w| + 1;
    }
  }

  lemma DequeueWaits(st: State, t: nat, wake: set<nat>)
    requires Waits(st) && Enabled(st, Move(t, wake)) && Takes(st, t) && From(st.threads[t].role) < 3
    ensures Waits(Dequeue(st, t, wake))
  {
    var st', k := Dequeue(st, t, wake), From(st.threads[t].role);
    forall c: Cond | c.k < 3 ensures WaitOk(st', c) {
      assert WaitOk(st, c);
      SignalKeeps(st, st', t, Have(st.queues[k][0]), wake, CondEnqueue(k), c);
    }
  }

  lemma EnqueueWaits(st: State, t: nat, wake: set<nat>)
    requires Waits(st) && Enabled(st, Move(t, wake)) && Gives(st, t) && !Takes(st, t) && Into(st.threads[t].role) < 3
    ensures Waits(Enqueue(st, t, wake))
  {
    var st', k := Enqueue(st, t, wake), Into(st.threads[t].role);
    forall c: Cond | c.k < 3 ensures WaitOk(st', c) {
      assert WaitOk(st, c);
      SignalKeeps(st, st', t, Loop, wake, CondDequeue(k), c);
    }
  }

  lemma QuietWaits(st: State, st': State, t: nat, th: Thread)
    requires Waits(st) && t < |st.threads| && st'.queues == st.queues && st'.threads == st.threads[t := th]
    requires !(Asleep(th) && Asleep(st.threads[t]))
    requires forall c: Cond :: c.k < 3 && Asleep(th) && WaitsOn(th) == c ==> Slack(st, c) <= 0
    requires forall c: Cond :: c.k < 3 && Woken(st.threads[t]) && WaitsOn(st.threads[t]) == c ==> Slack(st, c) <= 0
    ensures Waits(st')
  {
    forall c: Cond | c.k < 3 ensures WaitOk(st', c) {
      assert WaitOk(st, c);
      QuietKeeps(st, st', t, th, c);
    }
  }

  lemma ControlWaits(st: State)
    requires Waits(st)
    ensures Waits(Control(st))
  {
    var st' := Control(st);
    forall c: Cond | c.k < 3 ensures WaitOk(st', c) {
      assert WaitOk(st, c);
      assert Sleepers(st'.threads, c) == Sleepers(st.threads, c);
      assert Wokens(st'.threads, c) == Wokens(st.threads, c);
    }
  }

  lemma EventWaits(n: nat, st: State, e: Event)
    requires Waits(st) && Enabled(st, e) && RolesOk(st)
    ensures Waits(Apply(n, st, e))
  {
    match e
    case Move(t, wake) =>
      var th, st' := st.threads[t], Step(n, st, t, wake);
      assert RoleOk(st, t);
      if th.pc.Loop? || th.pc.Have? {
        QuietWaits(st, st', t, st'.threads[t]);
      } else if Takes(st, t) {
        DequeueWaits(st, t, wake);
      } else if Gives(st, t) {
        EnqueueWaits(st, t, wake);
      } else {
        QuietWaits(st, st', t, st'.threads[t]);
      }
    case Spurious(t) => QuietWaits(st, Apply(n, st, e), t, Wake(st.threads[t]));
    case Check => ControlWaits(st);
  }
}
