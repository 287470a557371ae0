/** The bounded ring buffer of Pthread/NTHU-OS-Pthreads/ts_queue.hpp. Each method is what a
    thread does while it holds the mutex: one test of the while loop and, if it need not wait,
    the rest of the critical section. */
module TSQueues {

  class TSQueue<T(0)> {
    const buffer: array<T>
    var size: nat
    var head: nat
    var tail: nat

    ghost predicate Valid()
      reads this
    {
      && buffer.Length > 0 && size <= buffer.Length
      && head < buffer.Length && tail == Wrap(head + size, buffer.Length)
    }

    // The elements, first to last.
    ghost function Contents(): (s: seq<T>)
      requires Valid()
      reads this, buffer
      ensures |s| == size
    {
      Ring(buffer[..], head, size)
    }

    constructor (bufferSize: nat)
      requires bufferSize > 0
      ensures Valid() && fresh(buffer) && buffer.Length == bufferSize && Contents() == []
    {
      size, head, tail := 0, 0, 0;
      buffer := new T[bufferSize];
    }

    // False: the buffer is full and the thread has to wait on cond_enqueue.
    method Enqueue(item: T) returns (done: bool)
      requires Valid()
      modifies this, buffer
      ensures Valid() && (done <==> |old(Contents())| < buffer.Length)
      ensures Contents() == if done then old(Contents()) + [item] else old(Contents())
    {
      if size == buffer.Length {
        return false;
      }
      EnqueueRing(buffer[..], head, size, item);
      buffer[tail] := item;
      WrapsAround(tail + 1, buffer.Length);
      tail := (tail + 1) % buffer.Length;
      size := size + 1;
      return true;
    }

    // None: the buffer is empty and the thread has to wait on cond_dequeue.
    method Dequeue() returns (done: bool, item: T)
      requires Valid()
      modifies this
      ensures Valid() && (done <==> old(Contents()) != [])
      ensures done ==> item == old(Contents())[0] && Contents() == old(Contents())[1..]
      ensures !done ==> Contents() == old(Contents())
    {
      item := buffer[head];
      if size == 0 {
        return false, item;
      }
      DequeueRing(buffer[..], head, size);
      WrapsAround(head + 1, buffer.Length);
      head := (head + 1) % buffer.Length;
      size := size - 1;
      return true, item;
    }
  }

  function Wrap(i: nat, n: nat): nat {
    if i < n then i else i - n
  }

  lemma WrapsAround(i: nat, n: nat)
    requires 0 < n && i <= n
    ensures i % n == Wrap(i, n)
  {
  }

  // The elements of a ring, from position head on.
  function Ring<T>(buf: seq<T>, head: nat, size: nat): (s: seq<T>)
    requires size <= |buf| && (head < |buf| || size == 0)
    ensures |s| == size
  {
    seq(size, i requires 0 <= i < size && size <= |buf| && head < |buf| => buf[Wrap(head + i, |buf|)])
  }

  lemma EnqueueRing<T>(buf: seq<T>, head: nat, size: nat, x: T)
    requires size < |buf| && head < |buf|
    ensures Ring(buf[Wrap(head + size, |buf|) := x], head, size + 1) == Ring(buf, head, size) + [x]
  {
    var a, b := Ring(buf[Wrap(head + size, |buf|) := x], head, size + 1), Ring(buf, head, size) + [x];
    forall i | 0 <= i <= size ensures a[i] == b[i] {
      assert i < size ==> Wrap(head + i, |buf|) != Wrap(head + size, |buf|);
    }
  }

  lemma DequeueRing<T>(buf: seq<T>, head: nat, size: nat)
    requires 0 < size <= |buf| && head < |buf|
    ensures Ring(buf, head, size)[0] == buf[head]
    ensures Ring(buf, Wrap(head + 1, |buf|), size - 1) == Ring(buf, head, size)[1..]
  {
    var a, b := Ring(buf, Wrap(head + 1, |buf|), size - 1), Ring(buf, head, size)[1..];
    assert Ring(buf, head, size)[0] == buf[Wrap(head + 0, |buf|)];
    forall i | 0 <= i < size - 1 ensures a[i] == b[i] {
      assert b[i] == Ring(buf, head, size)[i + 1] == buf[Wrap(head + (i + 1), |buf|)];
      assert Wrap(Wrap(head + 1, |buf|) + i, |buf|) == Wrap(head + (i + 1), |buf|);
    }
  }
}
