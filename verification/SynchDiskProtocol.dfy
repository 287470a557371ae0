/** The disk driver of NachOS/filesys/synchdisk.cc over the device of NachOS/machine/disk.cc, for
    any number of threads: a lock, one request at a time to the device, and a semaphore that
    the interrupt raises when the request is done. The interrupt may come at any step after
    the request (every latency is positive). */
module SynchDiskProtocol {
  import opened KernelState
  import opened MapSums

  datatype Request<D> = Read(sector: nat) | Write(sector: nat, data: D)

  // The statement a thread is about to execute.
  datatype Pc<D> =
    | Out
    | Acquire(r: Request<D>)
    | Submit(r: Request<D>)          // disk->ReadRequest or disk->WriteRequest
    | Await(r: Request<D>, result: D)   // semaphore->P()
    | Release(r: Request<D>, result: D)

  // One access to the device: what was asked for and, for a read, what came back.
  datatype Access<D> = Access(thread: ThreadId, request: Request<D>, result: D)

  // acquired lists the threads in the order they got the lock, accesses what they did.
  datatype State<D> = State(
    pc: map<ThreadId, Pc<D>>, lockValue: nat, semaphore: nat, active: bool, pending: nat,
    sectors: seq<D>, acquired: seq<ThreadId>, accesses: seq<Access<D>>, failed: bool)

  datatype Event<D> = Start(thread: ThreadId, request: Request<D>) | Go(thread: ThreadId) | DiskInt

  predicate Enabled<D>(st: State<D>, e: Event<D>) {
    match e
    case Start(t, r) => t in st.pc && st.pc[t] == Out && r.sector < |st.sectors|
    case DiskInt => st.pending > 0
    case Go(t) =>
      && t in st.pc
      && match st.pc[t]
         case Out => false
         case Acquire(_) => st.lockValue > 0
         case Submit(_) => true
         case Await(_, _) => st.semaphore > 0
         case Release(_, _) => true
  }

  // The device carries out the request at once; failed records an assertion of the source
  // (not active, sector in range) that did not hold.
  function Submitted<D>(st: State<D>, t: ThreadId, r: Request<D>): State<D> {
    if st.active || r.sector >= |st.sectors| then st.(failed := true)
    else
      var was := st.sectors[r.sector];
      st.(active := true, pending := st.pending + 1,
          sectors := if r.Write? then st.sectors[r.sector := r.data] else st.sectors,
          accesses := st.accesses + [Access(t, r, was)],
          pc := st.pc[t := Await(r, was)])
  }

  function Apply<D>(st: State<D>, e: Event<D>): State<D>
    requires Enabled(st, e)
  {
    match e
    case Start(t, r) => st.(pc := st.pc[t := Acquire(r)])
    // Disk::CallBack, then SynchDisk::CallBack
    case DiskInt => st.(pending := st.pending - 1, active := false, semaphore := st.semaphore + 1)
    case Go(t) =>
      match st.pc[t]
      case Acquire(r) => st.(lockValue := st.lockValue - 1, acquired := st.acquired + [t], pc := st.pc[t := Submit(r)])
      case Submit(r) => Submitted(st, t, r)
      case Await(r, x) => st.(semaphore := st.semaphore - 1, pc := st.pc[t := Release(r, x)])
      case Release(r, x) => st.(lockValue := st.lockValue + 1, pc := st.pc[t := Out])
  }

  // ---- the invariant ------------------------------------------------------------------

  predicate Inside<D>(p: Pc<D>) {
    p.Submit? || p.Await? || p.Release?
  }

  ghost predicate NobodyInside<D>(st: State<D>) {
    forall t :: t in st.pc ==> !Inside(st.pc[t])
  }

  ghost predicate OnlyInside<D>(st: State<D>, t: ThreadId) {
    t in st.pc && Inside(st.pc[t]) && forall u :: u in st.pc && Inside(st.pc[u]) ==> u == t
  }

  ghost predicate InRange<D>(st: State<D>) {
    forall t :: t in st.pc && !st.pc[t].Out? ==> st.pc[t].r.sector < |st.sectors|
  }

  // The threads of a list of accesses.
  function Threads<D>(a: seq<Access<D>>): seq<ThreadId> {
    if a == [] then [] else Threads(a[..|a| - 1]) + [a[|a| - 1].thread]
  }

  // What the writes among the accesses make of the sectors.
  function Replay<D>(sectors: seq<D>, a: seq<Access<D>>): (r: seq<D>)
    ensures |r| == |sectors|
  {
    if a == [] then sectors
    else
      var before, last := Replay(sectors, a[..|a| - 1]), a[|a| - 1].request;
      if last.Write? && last.sector < |sectors| then before[last.sector := last.data] else before
  }

  // Nobody inside and the device at rest, or one thread inside and the device where that
  // thread has brought it.
  ghost predicate Driven<D>(st: State<D>) {
    || (st.lockValue == 1 && NobodyInside(st) && AtRest(st) && st.acquired == Threads(st.accesses))
    || (st.lockValue == 0 && exists t :: OnlyInside(st, t) && DrivenBy(st, t))
  }

  predicate AtRest<D>(st: State<D>) {
    !st.active && st.pending == 0 && st.semaphore == 0
  }

  ghost predicate DrivenBy<D>(st: State<D>, t: ThreadId)
    requires t in st.pc
  {
    && (st.pc[t].Submit? ==> AtRest(st) && st.acquired == Threads(st.accesses) + [t])
    && (st.pc[t].Await? ==> (st.active <==> st.pending == 1) && st.pending + st.semaphore == 1)
    && (st.pc[t].Release? ==> AtRest(st))
    && (!st.pc[t].Submit? ==> st.acquired == Threads(st.accesses))
    && (st.pc[t].Await? || st.pc[t].Release? ==>
          |st.accesses| > 0 && st.accesses[|st.accesses| - 1] == Access(t, st.pc[t].r, st.pc[t].result))
  }

  // Every access got what the writes before it had left in the sector.
  ghost predicate LastWrites<D>(initial: seq<D>, a: seq<Access<D>>) {
    forall k :: 0 <= k < |a| ==> SawLastWrite(initial, a, k)
  }

  ghost predicate SawLastWrite<D>(initial: seq<D>, a: seq<Access<D>>, k: nat)
    requires k < |a|
  {
    a[k].request.sector < |initial| && a[k].result == Replay(initial, a[..k])[a[k].request.sector]
  }

  ghost predicate Inv<D>(initial: seq<D>, st: State<D>) {
    && !st.failed && InRange(st) && Driven(st)
    && st.sectors == Replay(initial, st.accesses) && LastWrites(initial, st.accesses)
  }

  ghost predicate Init<D>(initial: seq<D>, st: State<D>) {
    && (forall t :: t in st.pc ==> st.pc[t] == Out) && st.lockValue == 1 && AtRest(st) && !st.failed
    && st.sectors == initial && st.acquired == [] && st.accesses == []
  }

  lemma InvKept<D>(initial: seq<D>, st: State<D>, e: Event<D>)
    requires Inv(initial, st) && Enabled(st, e)
    ensures Inv(initial, Apply(st, e))
  {
    var st' := Apply(st, e);
    match e
    case Start(t, r) => StartKeeps(initial, st, t, r);
    case DiskInt => InterruptKeeps(initial, st);
    case Go(t) =>
      match st.pc[t] {
        case Acquire(r) => AcquireKeeps(initial, st, t);
        case Submit(r) =>
          SubmitDrives(initial, st, t);
          LastWritesExtend(initial, st.accesses, Access(t, r, st.sectors[r.sector]));
          assert st'.accesses[..|st.accesses|] == st.accesses;
        case Await(r, x) => InsideKeeps(initial, st, t);
        case Release(r, x) => ReleaseKeeps(initial, st, t);
      }
  }

  lemma StartKeeps<D>(initial: seq<D>, st: State<D>, t: ThreadId, r: Request<D>)
    requires Inv(initial, st) && Enabled(st, Start(t, r))
    ensures Inv(initial, Apply(st, Start(t, r)))
  {
    var st' := Apply(st, Start(t, r));
    if st.lockValue == 0 {
      var u :| OnlyInside(st, u) && DrivenBy(st, u);
      assert OnlyInside(st', u) && DrivenBy(st', u);
    }
  }

  lemma InterruptKeeps<D>(initial: seq<D>, st: State<D>)
    requires Inv(initial, st) && Enabled(st, DiskInt)
    ensures Inv(initial, Apply(st, DiskInt))
  {
    var st' := Apply(st, DiskInt);
    var u :| OnlyInside(st, u) && DrivenBy(st, u);
    assert OnlyInside(st', u) && DrivenBy(st', u);
  }

  lemma AcquireKeeps<D>(initial: seq<D>, st: State<D>, t: ThreadId)
    requires Inv(initial, st) && Enabled(st, Go(t)) && st.pc[t].Acquire?
    ensures Inv(initial, Apply(st, Go(t)))
  {
    var st' := Apply(st, Go(t));
    assert OnlyInside(st', t) && DrivenBy(st', t);
  }

  lemma SubmitDrives<D>(initial: seq<D>, st: State<D>, t: ThreadId)
    requires Inv(initial, st) && Enabled(st, Go(t)) && st.pc[t].Submit?
    ensures var st' := Apply(st, Go(t)); !st'.failed && InRange(st') && Driven(st')
  {
    var st', a := Apply(st, Go(t)), Apply(st, Go(t)).accesses;
    var u :| OnlyInside(st, u) && DrivenBy(st, u);
    assert u == t;
    assert a[..|a| - 1] == st.accesses;
    assert OnlyInside(st', t) && DrivenBy(st', t);
  }

  lemma LastWritesExtend<D>(initial: seq<D>, was: seq<Access<D>>, x: Access<D>)
    requires LastWrites(initial, was) && x.request.sector < |initial|
    requires x.result == Replay(initial, was)[x.request.sector]
    ensures LastWrites(initial, was + [x])
  {
    var a := was + [x];
    forall k | 0 <= k < |a| ensures SawLastWrite(initial, a, k) {
      if k < |was| {
        assert SawLastWrite(initial, was, k);
        assert a[..k] == was[..k];
      } else {
        assert a[..k] == was;
      }
    }
  }

  lemma InsideKeeps<D>(initial: seq<D>, st: State<D>, t: ThreadId)
    requires Inv(initial, st) && Enabled(st, Go(t)) && st.pc[t].Await?
    ensures Inv(initial, Apply(st, Go(t)))
  {
    var st' := Apply(st, Go(t));
    var u :| OnlyInside(st, u) && DrivenBy(st, u);
    assert u == t;
    assert OnlyInside(st', t) && DrivenBy(st', t);
  }

  lemma ReleaseKeeps<D>(initial: seq<D>, st: State<D>, t: ThreadId)
    requires Inv(initial, st) && Enabled(st, Go(t)) && st.pc[t].Release?
    ensures Inv(initial, Apply(st, Go(t)))
  {
    var st' := Apply(st, Go(t));
    var u :| OnlyInside(st, u) && DrivenBy(st, u);
    assert u == t;
    assert NobodyInside(st');
  }

  // ---- runs ---------------------------------------------------------------------------

  ghost predicate Run<D(!new)>(sts: seq<State<D>>, es: seq<Event<D>>) {
    && |sts| == |es| + 1
    && forall k :: 0 <= k < |es| ==> RunStep(sts, es, k)
  }

  ghost predicate RunStep<D(!new)>(sts: seq<State<D>>, es: seq<Event<D>>, k: nat)
    requires |sts| == |es| + 1 && k < |es|
  {
    Enabled(sts[k], es[k]) && sts[k + 1] == Apply(sts[k], es[k])
  }

  lemma {:induction false} RunInv<D(!new)>(initial: seq<D>, sts: seq<State<D>>, es: seq<Event<D>>, k: nat)
    requires Run(sts, es) && Init(initial, sts[0]) && k <= |es|
    ensures Inv(initial, sts[k])
    decreases k
  {
    if k > 0 {
      RunInv(initial, sts, es, k - 1);
      assert RunStep(sts, es, k - 1);
      InvKept(initial, sts[k - 1], es[k - 1]);
    }
  }

  // In every reachable state no assertion of the device has failed, at most one interrupt is
  // outstanding, the completion semaphore is at most 1, the device was accessed in the order
  // of the lock, and a thread that is about to return from a read has what the last write
  // to that sector, in this order, put there.
  lemma DriverSafe<D(!new)>(initial: seq<D>, sts: seq<State<D>>, es: seq<Event<D>>, k: nat)
    requires Run(sts, es) && Init(initial, sts[0]) && k <= |es|
    ensures !sts[k].failed && sts[k].pending + sts[k].semaphore <= 1
    ensures Threads(sts[k].accesses) <= sts[k].acquired
    ensures forall t :: t in sts[k].pc && sts[k].pc[t].Submit? ==> !sts[k].active
    ensures forall t :: t in sts[k].pc && sts[k].pc[t].Release? ==>
      var a := sts[k].accesses;
      |a| > 0 && a[|a| - 1].thread == t && a[|a| - 1].request == sts[k].pc[t].r
      && SawLastWrite(initial, a, |a| - 1) && sts[k].pc[t].result == a[|a| - 1].result
  {
    RunInv(initial, sts, es, k);
    var st := sts[k];
    if st.lockValue == 0 {
      var u :| OnlyInside(st, u) && DrivenBy(st, u);
      assert forall t :: t in st.pc && Inside(st.pc[t]) ==> t == u;
    }
    assert forall i :: 0 <= i < |st.accesses| ==> SawLastWrite(initial, st.accesses, i);
  }

  // No thread is left asleep: while one waits for the device, the interrupt is outstanding
  // or the semaphore has been raised.
  lemma WaiterGoesOn<D(!new)>(initial: seq<D>, sts: seq<State<D>>, es: seq<Event<D>>, k: nat, t: ThreadId)
    requires Run(sts, es) && Init(initial, sts[0]) && k <= |es| && t in sts[k].pc && sts[k].pc[t].Await?
    ensures Enabled(sts[k], Go(t)) || Enabled(sts[k], DiskInt)
  {
    RunInv(initial, sts, es, k);
    var st := sts[k];
    var u :| OnlyInside(st, u) && DrivenBy(st, u);
    assert Inside(st.pc[t]);
  }

  // And no deadlock: as long as a thread is not out, a statement can be executed or the disk's
  // interrupt is outstanding.
  lemma NoDeadlock<D(!new)>(initial: seq<D>, sts: seq<State<D>>, es: seq<Event<D>>, k: nat, t: ThreadId) returns (e: Event<D>)
    requires Run(sts, es) && Init(initial, sts[0]) && k <= |es| && t in sts[k].pc && sts[k].pc[t] != Out
    ensures (e.Go? || e == DiskInt) && Enabled(sts[k], e)
  {
    RunInv(initial, sts, es, k);
    var st := sts[k];
    if st.lockValue == 0 {
      var u :| OnlyInside(st, u) && DrivenBy(st, u);
      e := if st.pc[u].Await? && st.semaphore == 0 then DiskInt else Go(u);
    } else {
      assert !Inside(st.pc[t]);
      e := Go(t);
    }
  }

  // ---- every request is served --------------------------------------------------------

  // How many statements, and interrupts, a thread still needs.
  function Weight<D>(p: Pc<D>): nat {
    match p
    case Out => 0
    case Acquire(_) => 5
    case Submit(_) => 4
    case Await(_, _) => 2
    case Release(_, _) => 1
  }

  ghost function Work<D>(st: State<D>): nat {
    Sum(st.pc, Weight) + st.pending
  }

  lemma StepWorks<D>(initial: seq<D>, st: State<D>, e: Event<D>)
    requires Inv(initial, st) && Enabled(st, e) && !e.Start?
    ensures Work(Apply(st, e)) < Work(st)
  {
    if e.Go? {
      InvKept(initial, st, e);
      var t := e.thread;
      var p := Apply(st, e).pc[t];
      SumMove(st.pc, Weight, t, p);
      assert Apply(st, e).pc == st.pc[t := p];
    }
  }

  // A thread keeps its request from Start until it is out, and at the device it is that
  // request which is carried out.
  lemma RequestStays<D>(initial: seq<D>, st: State<D>, e: Event<D>, t: ThreadId)
    requires Inv(initial, st) && Enabled(st, e) && t in st.pc
    ensures t in Apply(st, e).pc
    ensures e.Start? && e.thread == t ==> Apply(st, e).pc[t] == Acquire(e.request)
    ensures !st.pc[t].Out? ==> Apply(st, e).pc[t].Out? || Apply(st, e).pc[t].r == st.pc[t].r
    ensures Apply(st, e).pc[t].Out? && !st.pc[t].Out? ==> st.pc[t].Release? && e == Go(t)
    ensures st.pc[t].Submit? && e == Go(t) ==>
      |Apply(st, e).accesses| == |st.accesses| + 1 && Apply(st, e).accesses[|st.accesses|].thread == t
      && Apply(st, e).accesses[|st.accesses|].request == st.pc[t].r
    ensures !(st.pc[t].Submit? && e == Go(t)) && e != DiskInt && e.thread == t ==> Apply(st, e).accesses == st.accesses
  {
    InvKept(initial, st, e);
  }

  lemma Extend<D(!new)>(sts: seq<State<D>>, es: seq<Event<D>>, e: Event<D>) returns (sts': seq<State<D>>, es': seq<Event<D>>)
    requires Run(sts, es) && Enabled(sts[|es|], e)
    ensures sts' == sts + [Apply(sts[|es|], e)] && es' == es + [e] && Run(sts', es')
  {
    sts', es' := sts + [Apply(sts[|es|], e)], es + [e];
    forall k | 0 <= k < |es'| ensures RunStep(sts', es', k) {
      if k < |es| {
        assert RunStep(sts, es, k);
      }
    }
  }

  // Every run can go on, without new requests, until every thread is out; then the device has
  // been accessed once for each time the lock was taken, in that order.
  lemma {:induction false} AllServed<D(!new)>(initial: seq<D>, sts: seq<State<D>>, es: seq<Event<D>>)
    returns (sts': seq<State<D>>, es': seq<Event<D>>)
    requires Run(sts, es) && Init(initial, sts[0])
    ensures Run(sts', es') && sts <= sts' && es <= es' && forall k :: |es| <= k < |es'| ==> !es'[k].Start?
    ensures var st := sts'[|es'|];
            (forall t :: t in st.pc ==> st.pc[t] == Out) && st.acquired == Threads(st.accesses) && AtRest(st)
    decreases Work(sts[|es|])
  {
    RunInv(initial, sts, es, |es|);
    var st := sts[|es|];
    sts', es' := sts, es;
    if t :| t in st.pc && st.pc[t] != Out {
      var e := NoDeadlock(initial, sts, es, |es|, t);
      sts', es' := Extend(sts, es, e);
      StepWorks(initial, st, e);
      assert es'[|es|] == e;
      sts', es' := AllServed(initial, sts', es');
    } else {
      assert NobodyInside(st);
    }
  }
}
