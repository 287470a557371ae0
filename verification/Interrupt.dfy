/** Simulated time and the pending interrupts (NachOS/machine/interrupt.cc). */
module Interrupts {
  import Lists

  type Positive = n: int | n > 0 witness 1

  // An interrupt that is to occur at time when; id counts calls of Schedule.
  datatype Pending = Pending(when: int, id: nat, device: nat)

  // What an interrupt handler does: it schedules interrupts of devices, each strictly later,
  // and may ask for a context switch. It cannot advance the clock or enable interrupts.
  datatype Request = Request(fromNow: Positive, device: nat)
  datatype Reaction = Reaction(requests: seq<Request>, switches: bool)

  datatype IntStatus = IntOff | IntOn
  datatype MachineStatus = IdleMode | SystemMode | UserMode

  const UserTick: nat := 1
  const SystemTick: nat := 10

  // ---- the sorted list ----------------------------------------------------------------

  // SortedList::Insert: behind every item that is not later.
  function Insert(s: seq<Pending>, p: Pending): seq<Pending> {
    if s == [] then [p]
    else if p.when < s[0].when then [p] + s
    else [s[0]] + Insert(s[1..], p)
  }

  function PendingCompare(x: Pending, y: Pending): int {
    if x.when < y.when then -1 else if x.when > y.when then 1 else 0
  }

  // The linked list of module Lists does the same with the comparison of the source.
  lemma {:induction false} InsertIsSortedInsert(s: seq<Pending>, p: Pending)
    ensures Lists.SortedInsert(s, p, PendingCompare) == Insert(s, p)
    decreases |s|
  {
    if s != [] {
      InsertIsSortedInsert(s[1..], p);
    }
  }

  // Earlier, or at the same time and scheduled first.
  predicate Before(a: Pending, b: Pending) {
    a.when < b.when || (a.when == b.when && a.id < b.id)
  }

  ghost predicate Ordered(s: seq<Pending>) {
    forall i, j :: 0 <= i < j < |s| ==> Before(s[i], s[j])
  }

  // A new item is behind those at its time, and the list stays in order.
  lemma {:induction false} InsertOrdered(s: seq<Pending>, p: Pending)
    requires Ordered(s) && forall x :: x in s ==> x.id < p.id
    ensures Ordered(Insert(s, p)) && multiset(Insert(s, p)) == multiset(s) + multiset{p}
    decreases |s|
  {
    if s != [] && p.when >= s[0].when {
      var rest := Insert(s[1..], p);
      InsertOrdered(s[1..], p);
      assert s == [s[0]] + s[1..];
      forall x | x in rest ensures Before(s[0], x) {
        assert x in multiset(rest);
        if x != p {
          assert x in s[1..];
          var j :| 0 <= j < |s[1..]| && s[1..][j] == x;
          assert s[j + 1] == x;
        } else {
          assert s[0] in s;
        }
      }
      ConsOrdered(s[0], rest);
    } else if s != [] {
      forall x | x in s ensures Before(p, x) {
        var j :| 0 <= j < |s| && s[j] == x;
        if j > 0 {
          assert Before(s[0], s[j]);
        }
      }
      ConsOrdered(p, s);
    }
  }

  lemma ConsOrdered(x: Pending, s: seq<Pending>)
    requires Ordered(s) && forall y :: y in s ==> Before(x, y)
    ensures Ordered([x] + s)
  {
    var r := [x] + s;
    forall i, j | 0 <= i < j < |r| ensures Before(r[i], r[j]) {
      assert r[j] == s[j - 1] && s[j - 1] in s;
    }
  }

  // Interrupts are due in the order in which they occur, those due at one time in the order in
  // which they were scheduled; they occur one after the other, none early, none twice, and
  // none is lost.
  ghost predicate History(fired: seq<Pending>, firedAt: seq<int>, pending: seq<Pending>, scheduled: seq<Pending>, nextId: nat, now: int) {
    && Ordered(fired + pending)
    && multiset(fired + pending) == multiset(scheduled)
    && (forall p :: p in scheduled ==> p.id < nextId)
    && |firedAt| == |fired|
    && (forall i :: 0 <= i < |fired| ==> fired[i].when <= firedAt[i] <= now)
    && (forall i, j :: 0 <= i < j < |firedAt| ==> firedAt[i] <= firedAt[j])
  }

  lemma ScheduleStep(fired: seq<Pending>, firedAt: seq<int>, pending: seq<Pending>, scheduled: seq<Pending>, nextId: nat, now: int, p: Pending)
    requires History(fired, firedAt, pending, scheduled, nextId, now) && p.when > now && p.id == nextId
    ensures History(fired, firedAt, Insert(pending, p), scheduled + [p], nextId + 1, now)
  {
    OnlyPending(fired, pending, scheduled);
    PendingOrdered(fired, pending);
    InsertOrdered(pending, p);
    BehindFired(fired, firedAt, pending, p, now);
    assert multiset(fired + Insert(pending, p)) == multiset(fired) + multiset(Insert(pending, p));
    assert multiset(fired + pending) == multiset(fired) + multiset(pending);
  }

  lemma FireStep(fired: seq<Pending>, firedAt: seq<int>, pending: seq<Pending>, scheduled: seq<Pending>, nextId: nat, now: int)
    requires History(fired, firedAt, pending, scheduled, nextId, now) && pending != [] && pending[0].when <= now
    ensures History(fired + [pending[0]], firedAt + [now], pending[1..], scheduled, nextId, now)
  {
    assert fired + pending == (fired + [pending[0]]) + pending[1..];
  }

  lemma ClockStep(fired: seq<Pending>, firedAt: seq<int>, pending: seq<Pending>, scheduled: seq<Pending>, nextId: nat, now: int, later: int)
    requires History(fired, firedAt, pending, scheduled, nextId, now) && now <= later
    ensures History(fired, firedAt, pending, scheduled, nextId, later)
  {
  }

  lemma FiredAtLength(fired: seq<Pending>, firedAt: seq<int>, pending: seq<Pending>, scheduled: seq<Pending>, nextId: nat, now: int)
    requires History(fired, firedAt, pending, scheduled, nextId, now)
    ensures |fired| == |firedAt|
  {
  }

  // When the front of the list is not due, nothing is.
  lemma FrontDecides(fired: seq<Pending>, firedAt: seq<int>, pending: seq<Pending>, scheduled: seq<Pending>, nextId: nat, now: int)
    requires History(fired, firedAt, pending, scheduled, nextId, now) && (pending != [] ==> pending[0].when > now)
    ensures forall p :: p in pending ==> p.when > now
  {
    PendingOrdered(fired, pending);
    FrontLater(pending, now);
  }

  // ---- what handlers ask for -----------------------------------------------------------

  // The interrupts that requests made at some time amount to, numbered from id on.
  function Asked(requests: seq<Request>, now: int, id: nat): (s: seq<Pending>)
    ensures |s| == |requests|
  {
    seq(|requests|, i requires 0 <= i < |requests| => Pending(now + requests[i].fromNow, id + i, requests[i].device))
  }

  // The same for all handlers that were called for the interrupts fired, one after the other.
  ghost function AskedByAll(handler: (Pending, int) -> Reaction, fired: seq<Pending>, firedAt: seq<int>, id: nat): seq<Pending>
    requires |fired| == |firedAt|
  {
    if fired == [] then []
    else
      var n := |fired| - 1;
      var before := AskedByAll(handler, fired[..n], firedAt[..n], id);
      before + Asked(handler(fired[n], firedAt[n]).requests, firedAt[n], id + |before|)
  }

  // One of them asked for a context switch.
  ghost predicate SomeSwitch(handler: (Pending, int) -> Reaction, fired: seq<Pending>, firedAt: seq<int>)
    requires |fired| == |firedAt|
  {
    exists i :: 0 <= i < |fired| && handler(fired[i], firedAt[i]).switches
  }

  // What is on record: the interrupts that have occurred and when, those that were scheduled,
  // how many, and whether a handler has asked for a context switch.
  datatype Record = Record(fired: seq<Pending>, firedAt: seq<int>, scheduled: seq<Pending>, nextId: nat, yieldOnReturn: bool)

  // From was on, the handler of each interrupt that has occurred was called; what they asked
  // for, and nothing else, was scheduled, and a switch is due if one of them asked for it.
  ghost predicate HandlersRan(handler: (Pending, int) -> Reaction, was: Record, now: Record) {
    && |was.fired| == |was.firedAt| && |now.fired| == |now.firedAt|
    && was.fired <= now.fired && was.firedAt <= now.firedAt
    && var f, at := now.fired[|was.fired|..], now.firedAt[|was.fired|..];
       && now.scheduled == was.scheduled + AskedByAll(handler, f, at, was.nextId)
       && now.nextId == was.nextId + |AskedByAll(handler, f, at, was.nextId)|
       && (now.yieldOnReturn <==> was.yieldOnReturn || SomeSwitch(handler, f, at))
  }

  // One more interrupt, and its handler.
  function Handled(handler: (Pending, int) -> Reaction, r: Record, p: Pending, now: int): Record {
    var reaction := handler(p, now);
    Record(r.fired + [p], r.firedAt + [now], r.scheduled + Asked(reaction.requests, now, r.nextId),
           r.nextId + |reaction.requests|, r.yieldOnReturn || reaction.switches)
  }

  lemma NoneRan(handler: (Pending, int) -> Reaction, r: Record)
    requires |r.fired| == |r.firedAt|
    ensures HandlersRan(handler, r, r)
  {
  }

  lemma OneMoreRan(handler: (Pending, int) -> Reaction, was: Record, r: Record, p: Pending, now: int)
    requires HandlersRan(handler, was, r)
    ensures HandlersRan(handler, was, Handled(handler, r, p, now))
  {
    var n, r' := |was.fired|, Handled(handler, r, p, now);
    var f, at := r.fired[n..], r.firedAt[n..];
    var f', at' := r'.fired[n..], r'.firedAt[n..];
    assert f' == f + [p] && at' == at + [now];
    assert f'[..|f|] == f && at'[..|f|] == at;
    SwitchSplit(handler, f, at, p, now);
  }

  lemma SwitchSplit(handler: (Pending, int) -> Reaction, f: seq<Pending>, at: seq<int>, p: Pending, now: int)
    requires |f| == |at|
    ensures SomeSwitch(handler, f + [p], at + [now]) <==> SomeSwitch(handler, f, at) || handler(p, now).switches
  {
    if SomeSwitch(handler, f, at) {
      var i :| 0 <= i < |f| && handler(f[i], at[i]).switches;
      assert (f + [p])[i] == f[i] && (at + [now])[i] == at[i];
    }
    assert (f + [p])[|f|] == p && (at + [now])[|f|] == now;
  }

  lemma AskedNext(requests: seq<Request>, i: nat, now: int, id: nat)
    requires i < |requests|
    ensures Asked(requests[..i + 1], now, id)
         == Asked(requests[..i], now, id) + [Pending(now + requests[i].fromNow, id + i, requests[i].device)]
  {
  }

  // Every request of every handler stands among what is asked for by all, in its place.
  lemma {:induction false} EveryRequestCounts(handler: (Pending, int) -> Reaction, fired: seq<Pending>, firedAt: seq<int>, id: nat,
                                              i: nat, j: nat) returns (k: nat)
    requires |fired| == |firedAt| && i < |fired| && j < |handler(fired[i], firedAt[i]).requests|
    ensures k == |AskedByAll(handler, fired[..i], firedAt[..i], id)| + j < |AskedByAll(handler, fired, firedAt, id)|
    ensures var r := handler(fired[i], firedAt[i]).requests[j];
            AskedByAll(handler, fired, firedAt, id)[k] == Pending(firedAt[i] + r.fromNow, id + k, r.device)
    decreases |fired|
  {
    var n := |fired| - 1;
    if i < n {
      assert fired[..n][..i] == fired[..i] && firedAt[..n][..i] == firedAt[..i];
      k := EveryRequestCounts(handler, fired[..n], firedAt[..n], id, i, j);
    } else {
      k := |AskedByAll(handler, fired[..i], firedAt[..i], id)| + j;
    }
  }

  // ---- the class ----------------------------------------------------------------------

  class Interrupt {
    const handler: (Pending, int) -> Reaction
    var level: IntStatus
    var pending: seq<Pending>
    var inHandler: bool
    var yieldOnReturn: bool
    var status: MachineStatus
    // kernel->stats
    var totalTicks: int
    var idleTicks: int
    var systemTicks: int
    var userTicks: int
    // what has been scheduled, what has occurred and when, in order
    var nextId: nat
    ghost var scheduled: seq<Pending>
    ghost var fired: seq<Pending>
    ghost var firedAt: seq<int>

    ghost predicate Valid()
      reads this
    {
      && History(fired, firedAt, pending, scheduled, nextId, totalTicks)
      && totalTicks == idleTicks + systemTicks + userTicks
    }

    // No pending interrupt is due.
    ghost predicate NothingDue()
      reads this
    {
      forall p :: p in pending ==> p.when > totalTicks
    }

    ghost function Log(): Record
      reads this
    {
      Record(fired, firedAt, scheduled, nextId, yieldOnReturn)
    }

    constructor (handler: (Pending, int) -> Reaction)
      ensures Valid() && NothingDue() && level == IntOff && status == SystemMode && !inHandler && !yieldOnReturn
      ensures totalTicks == 0 && pending == []
    {
      this.handler := handler;
      level, pending, inHandler, yieldOnReturn, status := IntOff, [], false, false, SystemMode;
      totalTicks, idleTicks, systemTicks, userTicks := 0, 0, 0, 0;
      nextId, scheduled, fired, firedAt := 0, [], [], [];
    }

    method Schedule(device: nat, fromNow: Positive)
      requires Valid()
      modifies `pending, `nextId, `scheduled
      ensures Valid() && nextId == old(nextId) + 1
      ensures scheduled == old(scheduled) + [Pending(totalTicks + fromNow, old(nextId), device)]
      ensures pending == Insert(old(pending), Pending(totalTicks + fromNow, old(nextId), device))
    {
      hide History;
      var toOccur := Pending(totalTicks + fromNow, nextId, device);
      ScheduleStep(fired, firedAt, pending, scheduled, nextId, totalTicks, toOccur);
      pending := Insert(pending, toOccur);
      scheduled := scheduled + [toOccur];
      nextId := nextId + 1;
    }

    // Whether any handler was called. With advanceClock the clock moves on to the next
    // interrupt; on return nothing is due.
    method CheckIfDue(advanceClock: bool) returns (any: bool)
      requires Valid() && level == IntOff
      modifies this
      ensures Valid() && NothingDue() && level == old(level) && status == old(status)
      ensures any <==> old(pending) != [] && (advanceClock || old(pending)[0].when <= old(totalTicks))
      ensures !any ==> pending == old(pending) && totalTicks == old(totalTicks) && fired == old(fired)
      ensures any ==> totalTicks == if old(pending)[0].when > old(totalTicks) then old(pending)[0].when else old(totalTicks)
      ensures any ==> old(fired) + [old(pending)[0]] <= fired
      ensures HandlersRan(handler, old(Log()), Log())
      ensures idleTicks - old(idleTicks) == totalTicks - old(totalTicks)
      ensures systemTicks == old(systemTicks) && userTicks == old(userTicks)
      ensures inHandler == (old(inHandler) && !any)
    {
      hide History, Insert, DueCount, HandlersRan, Handled;
      FiredAtLength(fired, firedAt, pending, scheduled, nextId, totalTicks);
      NoneRan(handler, Log());
      if pending == [] {
        return false;
      }
      var next := pending[0];
      if next.when > totalTicks {
        if !advanceClock {
          FrontDecides(fired, firedAt, pending, scheduled, nextId, totalTicks);
          return false;
        }
        ClockStep(fired, firedAt, pending, scheduled, nextId, totalTicks, next.when);
        idleTicks := idleTicks + (next.when - totalTicks);
        totalTicks := next.when;
      }
      inHandler := true;
      FireDue();
      inHandler := false;
      return true;
    }

    // The do-while loop: interrupts occur until none is due.
    method FireDue()
      requires Valid() && pending != [] && pending[0].when <= totalTicks
      modifies `pending, `fired, `firedAt, `nextId, `scheduled, `yieldOnReturn
      ensures Valid() && NothingDue() && old(fired) + [old(pending)[0]] <= fired
      ensures HandlersRan(handler, old(Log()), Log())
    {
      hide History, Insert, DueCount, HandlersRan, Asked;
      FiredAtLength(fired, firedAt, pending, scheduled, nextId, totalTicks);
      NoneRan(handler, Log());
      OneMoreRan(handler, Log(), Log(), pending[0], totalTicks);
      Fire();
      while pending != [] && pending[0].when <= totalTicks
        invariant Valid() && old(fired) + [old(pending)[0]] <= fired
        invariant HandlersRan(handler, old(Log()), Log())
        decreases DueCount(pending, totalTicks)
      {
        OneMoreRan(handler, old(Log()), Log(), pending[0], totalTicks);
        Fire();
      }
      FrontDecides(fired, firedAt, pending, scheduled, nextId, totalTicks);
    }

    // The body of the loop: the front of the list is taken off and its handler runs.
    method Fire()
      requires Valid() && pending != [] && pending[0].when <= totalTicks
      modifies `pending, `fired, `firedAt, `nextId, `scheduled, `yieldOnReturn
      ensures Valid() && DueCount(pending, totalTicks) < old(DueCount(pending, totalTicks))
      ensures Log() == Handled(handler, old(Log()), old(pending)[0], totalTicks)
    {
      hide History, Insert, Asked;
      var next := pending[0];
      DueFront(pending, totalTicks);
      FireStep(fired, firedAt, pending, scheduled, nextId, totalTicks);
      pending := pending[1..];
      fired, firedAt := fired + [next], firedAt + [totalTicks];
      var reaction := handler(next, totalTicks);
      yieldOnReturn := yieldOnReturn || reaction.switches;
      ScheduleAll(reaction.requests);
    }

    // What a handler does besides: it schedules what it asks for.
    method ScheduleAll(requests: seq<Request>)
      requires Valid()
      modifies `pending, `nextId, `scheduled
      ensures Valid() && DueCount(pending, totalTicks) == old(DueCount(pending, totalTicks))
      ensures scheduled == old(scheduled) + Asked(requests, totalTicks, old(nextId)) && nextId == old(nextId) + |requests|
    {
      hide History, Insert;
      var i := 0;
      assert requests[..0] == [];
      while i < |requests|
        invariant 0 <= i <= |requests| && Valid() && nextId == old(nextId) + i
        invariant DueCount(pending, totalTicks) == old(DueCount(pending, totalTicks))
        invariant scheduled == old(scheduled) + Asked(requests[..i], totalTicks, old(nextId))
      {
        var r := requests[i];
        AskedNext(requests, i, totalTicks, old(nextId));
        InsertLater(pending, Pending(totalTicks + r.fromNow, nextId, r.device), totalTicks);
        Schedule(r.device, r.fromNow);
        i := i + 1;
      }
      assert requests[..i] == requests;
    }

    // Advance the clock by one tick, a system one in system mode and else a user one, and fire
    // what is due; switches says that a handler has asked for a context switch.
    method OneTick() returns (switches: bool)
      requires Valid()
      modifies this
      ensures Valid() && NothingDue() && level == IntOn && status == old(status) && !yieldOnReturn
      ensures totalTicks == old(totalTicks) + (if old(status) == SystemMode then SystemTick else UserTick)
      ensures systemTicks == old(systemTicks) + (if old(status) == SystemMode then SystemTick else 0)
      ensures userTicks == old(userTicks) + (if old(status) == SystemMode then 0 else UserTick)
      ensures idleTicks == old(idleTicks)
      ensures HandlersRan(handler, old(Log()), Log().(yieldOnReturn := switches))
    {
      hide History;
      ClockStep(fired, firedAt, pending, scheduled, nextId, totalTicks, totalTicks + (if status == SystemMode then SystemTick else UserTick));
      if status == SystemMode {
        totalTicks, systemTicks := totalTicks + SystemTick, systemTicks + SystemTick;
      } else {
        totalTicks, userTicks := totalTicks + UserTick, userTicks + UserTick;
      }
      level := IntOff;
      var any := CheckIfDue(false);
      level := IntOn;
      switches := yieldOnReturn;
      if yieldOnReturn {
        yieldOnReturn := false;
      }
    }

    // SetLevel; enabling interrupts takes a tick. A handler may not enable them.
    method SetLevel(now: IntStatus) returns (was: IntStatus, switches: bool)
      requires Valid() && (now == IntOff || !inHandler)
      modifies this
      ensures Valid() && level == now && was == old(level) && status == old(status)
      ensures old(level) == IntOff && now == IntOn ==>
        NothingDue() && totalTicks == old(totalTicks) + (if status == SystemMode then SystemTick else UserTick)
        && HandlersRan(handler, old(Log()), Log().(yieldOnReturn := switches)) && !yieldOnReturn
      ensures !(old(level) == IntOff && now == IntOn) ==>
        totalTicks == old(totalTicks) && pending == old(pending) && Log() == old(Log()) && !switches
    {
      was, switches := level, false;
      level := now;
      if now == IntOn && was == IntOff {
        switches := OneTick();
      }
    }

    // Nothing is ready to run: move on to the next interrupt, or, if there is none, halt.
    method Idle() returns (halt: bool)
      requires Valid() && level == IntOff
      modifies this
      ensures Valid() && NothingDue() && (halt <==> old(pending) == [])
      ensures !halt ==> status == SystemMode && |fired| > |old(fired)| && fired[|old(fired)|] == old(pending)[0]
      ensures HandlersRan(handler, old(Log()), Log())
      ensures systemTicks == old(systemTicks) && userTicks == old(userTicks)
    {
      status := IdleMode;
      var any := CheckIfDue(true);
      if any {
        status := SystemMode;
        return false;
      }
      return true;
    }
  }

  // How many pending interrupts are due.
  ghost function DueCount(s: seq<Pending>, now: int): nat {
    if s == [] then 0 else (if s[0].when <= now then 1 else 0) + DueCount(s[1..], now)
  }

  lemma DueFront(s: seq<Pending>, now: int)
    requires s != [] && s[0].when <= now
    ensures DueCount(s[1..], now) == DueCount(s, now) - 1
  {
  }

  lemma {:induction false} InsertLater(s: seq<Pending>, p: Pending, now: int)
    requires p.when > now
    ensures DueCount(Insert(s, p), now) == DueCount(s, now)
    decreases |s|
  {
    if s != [] && p.when >= s[0].when {
      InsertLater(s[1..], p, now);
      assert Insert(s, p)[1..] == Insert(s[1..], p);
    } else if s != [] {
      assert Insert(s, p)[1..] == s;
    }
  }

  lemma PendingOrdered(fired: seq<Pending>, pending: seq<Pending>)
    requires Ordered(fired + pending)
    ensures Ordered(pending) && Ordered(fired)
    ensures forall f, p :: f in fired && p in pending ==> Before(f, p)
  {
    var s := fired + pending;
    forall i, j | 0 <= i < j < |pending| ensures Before(pending[i], pending[j]) {
      assert Before(s[|fired| + i], s[|fired| + j]);
    }
    forall i, j | 0 <= i < j < |fired| ensures Before(fired[i], fired[j]) {
      assert Before(s[i], s[j]);
    }
    forall f, p | f in fired && p in pending ensures Before(f, p) {
      var i :| 0 <= i < |fired| && fired[i] == f;
      var j :| 0 <= j < |pending| && pending[j] == p;
      assert Before(s[i], s[|fired| + j]);
    }
  }

  lemma OnlyPending(fired: seq<Pending>, pending: seq<Pending>, scheduled: seq<Pending>)
    requires multiset(fired + pending) == multiset(scheduled)
    ensures forall p :: p in pending ==> p in scheduled
    ensures forall p :: p in fired ==> p in scheduled
  {
    forall p | p in pending || p in fired ensures p in scheduled {
      assert p in fired + pending;
      assert p in multiset(fired + pending);
    }
  }

  // A new interrupt is later than everything that has occurred.
  lemma BehindFired(fired: seq<Pending>, firedAt: seq<int>, pending: seq<Pending>, p: Pending, now: int)
    requires Ordered(fired + pending) && Ordered(Insert(pending, p)) && p.when > now
    requires multiset(Insert(pending, p)) == multiset(pending) + multiset{p}
    requires |firedAt| == |fired| && forall i :: 0 <= i < |fired| ==> fired[i].when <= firedAt[i] <= now
    ensures Ordered(fired + Insert(pending, p))
  {
    PendingOrdered(fired, pending);
    var r := Insert(pending, p);
    var s := fired + r;
    forall i, j | 0 <= i < j < |s| ensures Before(s[i], s[j]) {
      if i < |fired| <= j {
        assert r[j - |fired|] in multiset(r);
        assert fired[i] in fired;
        assert r[j - |fired|] != p ==> r[j - |fired|] in pending;
      }
    }
  }

  lemma FrontLater(pending: seq<Pending>, now: int)
    requires Ordered(pending) && (pending != [] ==> pending[0].when > now)
    ensures forall p :: p in pending ==> p.when > now
  {
    forall p | p in pending ensures p.when > now {
      var j :| 0 <= j < |pending| && pending[j] == p;
      if j > 0 {
        assert Before(pending[0], pending[j]);
      }
    }
  }
}
