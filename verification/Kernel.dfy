/** The kernel's own code for one processor: NachOS/threads/scheduler.cc, thread.cc and the
    semaphore of synch.cc. Each method is one region with interrupts off, up to the switch or
    to the point where interrupts are on again; what a switch does to the calling stack is
    the pc of KernelState, and phase says which region comes next. The assertions of the
    source appear as assert statements. */
module Kernels {
  import opened KernelState
  import opened Options

  class Kernel {
    var currentThread: ThreadId
    var readyList: seq<ThreadId>
    var toBeDestroyed: Option<ThreadId>
    var status: map<ThreadId, Status>
    var sems: map<SemId, Sem>
    var pc: map<ThreadId, Where>
    var phase: Phase
    ghost var log: seq<ThreadId>

    ghost function View(): State
      reads this
    {
      State(currentThread, phase, readyList, toBeDestroyed, status, pc, sems, log)
    }

    ghost predicate Valid()
      reads this
    {
      Inv(View())
    }

    // The main thread is running; the semaphores have their initial values.
    constructor (main: ThreadId, initial: map<SemId, nat>)
      ensures Init(View()) && Valid()
      ensures sems.Keys == initial.Keys && forall s :: s in initial ==> sems[s].initial == initial[s]
    {
      currentThread, readyList, toBeDestroyed := main, [], None;
      status, pc := map[main := Running], map[main := Active];
      sems := map s | s in initial :: Sem(initial[s], [], initial[s], 0, 0);
      phase, log := User, [];
      new;
      InitInv(View());
    }

    // ---- Scheduler --------------------------------------------------------------------

    method ReadyToRun(thread: ThreadId)
      requires thread !in readyList
      modifies `status, `readyList
      ensures View() == MakeReady(old(View()), thread)
    {
      status := status[thread := Ready];
      readyList := readyList + [thread];
    }

    method FindNextToRun() returns (next: Option<ThreadId>)
      modifies `readyList, `log
      ensures next == None <==> old(readyList) == []
      ensures next.Some? ==> next.value == old(readyList)[0] && View() == Pop(old(View()))
      ensures next == None ==> View() == old(View())
    {
      if readyList == [] {
        return None;
      }
      next := Some(readyList[0]);
      readyList, log := readyList[1..], log + [readyList[0]];
    }

    method Run(nextThread: ThreadId, finishing: bool)
      requires finishing ==> toBeDestroyed == None
      modifies `toBeDestroyed, `currentThread, `status, `phase
      ensures View() == Switch(old(View()), nextThread, finishing)
    {
      var oldThread := currentThread;
      if finishing {
        assert toBeDestroyed == None;
        toBeDestroyed := Some(oldThread);
      }
      currentThread := nextThread;
      status := status[nextThread := Running];
      phase := Resumed;
    }

    method CheckToBeDestroyed()
      requires toBeDestroyed != Some(currentThread)
      modifies `toBeDestroyed, `status, `pc
      ensures View() == Reap(old(View()))
    {
      if toBeDestroyed != None {
        assert toBeDestroyed.value != currentThread;
        status, pc := status - {toBeDestroyed.value}, pc - {toBeDestroyed.value};
        toBeDestroyed := None;
      }
    }

    // ---- Thread -----------------------------------------------------------------------

    method Fork(thread: ThreadId)
      requires Valid() && Enabled(View(), Event.Fork(thread))
      modifies this
      ensures View() == Apply(old(View()), Event.Fork(thread)) && Valid()
      ensures readyList == old(readyList) + [thread] && currentThread == old(currentThread)
    {
      InvKept(View(), Event.Fork(thread));
      assert thread !in readyList;
      pc := pc[thread := Fresh];
      ReadyToRun(thread);
    }

    method Yield()
      requires Valid() && Enabled(View(), Event.Yield)
      modifies this
      ensures View() == Apply(old(View()), Event.Yield) && Valid()
      ensures old(readyList) != [] ==>
        currentThread == old(readyList)[0] && readyList == old(readyList)[1..] + [old(currentThread)] && phase == Resumed
      ensures old(readyList) == [] ==> View() == old(View())
    {
      hide Inv;
      InvKept(View(), Event.Yield);
      NotOnReadyList(View());
      var nextThread := FindNextToRun();
      if nextThread != None {
        assert currentThread !in readyList;
        pc := pc[currentThread := Yielded];
        ReadyToRun(currentThread);
        Run(nextThread.value, false);
      }
    }

    method Finish()
      requires Valid() && Enabled(View(), Event.Finish)
      modifies this
      ensures View() == Apply(old(View()), Event.Finish) && Valid()
    {
      InvKept(View(), Event.Finish);
      Sleep(true);
    }

    // Sleep, up to its while loop.
    method Sleep(finishing: bool)
      modifies `status, `phase
      ensures View() == old(View()).(status := old(status)[currentThread := Blocked], phase := Sleeping(finishing))
    {
      status := status[currentThread := Blocked];
      phase := Sleeping(finishing);
    }

    // One trip through the while loop of Sleep that finds a thread, and the switch.
    method Dispatch()
      requires Valid() && Enabled(View(), Event.Dispatch)
      modifies this
      ensures View() == Apply(old(View()), Event.Dispatch) && Valid()
      ensures currentThread == old(readyList)[0] && readyList == old(readyList)[1..]
    {
      InvKept(View(), Event.Dispatch);
      SleepingClean(View());
      hide Inv;
      var nextThread := FindNextToRun();
      Run(nextThread.value, phase.finishing);
    }

    // Behind the switch: clean up after the thread before, then go on where this one was.
    method Resume()
      requires Valid() && Enabled(View(), Event.Resume)
      modifies this
      ensures View() == Apply(old(View()), Event.Resume) && Valid()
    {
      InvKept(View(), Event.Resume);
      var at := pc[currentThread];
      CheckToBeDestroyed();
      if at.Waiting? {
        ReapKeeps(old(View()));
        Loop(at.sem);
      } else {
        pc := pc[currentThread := Active];
        phase := User;
      }
    }

    // ---- Semaphore --------------------------------------------------------------------

    // The while loop of P: one trip, and the sleep or the decrement that ends it.
    method Loop(s: SemId)
      requires Valid() && s in sems && AtLoop(View(), s)
      modifies this
      ensures View() == TryP(old(View()), s)
    {
      hide Inv;
      NotOnQueue(View(), s);
      if sems[s].value == 0 {
        assert currentThread !in sems[s].queue;
        sems := sems[s := sems[s].(queue := sems[s].queue + [currentThread])];
        pc := pc[currentThread := Waiting(s)];
        Sleep(false);
      } else {
        sems := sems[s := sems[s].(value := sems[s].value - 1, ps := sems[s].ps + 1)];
        pc := pc[currentThread := Active];
        phase := User;
      }
    }

    method P(s: SemId)
      requires Valid() && Enabled(View(), Event.P(s))
      modifies this
      ensures View() == Apply(old(View()), Event.P(s)) && Valid()
      ensures old(sems)[s].value > 0 ==> sems[s].value == old(sems)[s].value - 1 && phase == User
      ensures old(sems)[s].value == 0 ==>
        sems[s].queue == old(sems)[s].queue + [currentThread] && currentThread == old(currentThread) && phase == Sleeping(false)
    {
      InvKept(View(), Event.P(s));
      Loop(s);
    }

    // By the current thread, or by an interrupt handler.
    method V(s: SemId)
      requires Valid() && phase != Resumed && s in sems
      modifies this
      ensures View() == Signal(old(View()), s) && Valid()
      ensures sems[s].value == old(sems)[s].value + 1
      ensures old(sems)[s].queue != [] ==>
        readyList == old(readyList) + [old(sems)[s].queue[0]] && sems[s].queue == old(sems)[s].queue[1..]
    {
      hide Inv;
      SignalKeeps(View(), s);
      var q := sems[s];
      if q.queue != [] {
        QueuedNotReady(View(), s);
        sems := sems[s := q.(queue := q.queue[1..])];
        ReadyToRun(q.queue[0]);
      }
      sems := sems[s := sems[s].(value := sems[s].value + 1, vs := sems[s].vs + 1)];
    }
  }

  // Nothing waits to be deleted while the current thread sleeps.
  lemma SleepingClean(st: State)
    requires Inv(st) && st.phase != Resumed
    ensures st.toBeDestroyed == None
  {
  }
}
