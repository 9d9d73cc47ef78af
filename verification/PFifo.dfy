/** The ring buffer under the producer/consumer queue: one slot stays free, so that equal indices
    mean empty. The window of live slots is the abstract queue. */
module PFifo {

  function NextPtr(p: nat, size: nat): nat { if p + 1 >= size then 0 else p + 1 }

  /** Head and tail index a buffer with at least one usable slot. */
  predicate InRange(size: nat, tail: nat, head: nat) { size >= 2 && tail < size && head < size }

  /** The queued elements, oldest first. */
  function Window<T>(buf: seq<T>, tail: nat, head: nat): (q: seq<T>)
    requires InRange(|buf|, tail, head)
    ensures |q| < |buf|
  {
    if tail <= head then buf[tail..head] else buf[tail..] + buf[..head]
  }

  lemma FullExactlyWhen<T>(buf: seq<T>, tail: nat, head: nat)
    requires InRange(|buf|, tail, head)
    ensures NextPtr(head, |buf|) == tail <==> |Window(buf, tail, head)| == |buf| - 1
    ensures head == tail <==> Window(buf, tail, head) == []
  {
  }

  /** The free slot at the head is not part of the window. */
  lemma WriteIsInvisible<T>(buf: seq<T>, tail: nat, head: nat, x: T)
    requires InRange(|buf|, tail, head)
    ensures Window(buf[head := x], tail, head) == Window(buf, tail, head)
  {
  }

  lemma AdvanceHead<T>(buf: seq<T>, tail: nat, head: nat)
    requires InRange(|buf|, tail, head) && NextPtr(head, |buf|) != tail
    ensures Window(buf, tail, NextPtr(head, |buf|)) == Window(buf, tail, head) + [buf[head]]
  {
    var q := Window(buf, tail, head) + [buf[head]];
    var next := NextPtr(head, |buf|);
    if tail <= head && next == 0 {
      assert buf[tail..] + buf[..0] == q;
    } else if tail <= head {
      assert buf[tail..next] == q;
    } else {
      assert buf[tail..] + buf[..next] == q;
    }
  }

  lemma AdvanceTail<T>(buf: seq<T>, tail: nat, head: nat)
    requires InRange(|buf|, tail, head) && head != tail
    ensures Window(buf, tail, head) == [buf[tail]] + Window(buf, NextPtr(tail, |buf|), head)
  {
    var next := NextPtr(tail, |buf|);
    if tail < head {
      assert buf[tail..head] == [buf[tail]] + buf[next..head];
    } else if next == 0 {
      assert buf[tail..] == [buf[tail]];
      assert buf[..head] == buf[0..head];
    } else {
      assert buf[tail..] + buf[..head] == [buf[tail]] + (buf[next..] + buf[..head]);
    }
  }

  datatype Error = Success | PushFail | PopFail | PopFailFifoEmpty | PopFailFifoFull | CreateFail

  /** The queue used by one thread at a time: between calls the semaphores count the free and the
      filled slots. */
  class Fifo<T(0)> {
    const buf: array<T>
    var head: nat
    var tail: nat
    var mutex: nat
    var slots: nat
    var data: nat

    ghost predicate ValidRing()
      reads this
    {
      InRange(buf.Length, tail, head)
    }

    ghost function Contents(): seq<T>
      requires ValidRing()
      reads this, buf
    {
      Window(buf[..], tail, head)
    }

    ghost predicate Valid()
      reads this, buf
    {
      ValidRing() && mutex == 1 && data == |Contents()| && slots == buf.Length - 1 - |Contents()|
    }

    constructor (capacity: nat)
      requires capacity >= 1
      ensures Valid() && fresh(buf) && buf.Length == capacity + 1 && Contents() == []
    {
      buf := new T[capacity + 1];
      head, tail, mutex, slots, data := 0, 0, 1, capacity, 0;
    }

    method Enqueue(x: T) returns (ok: bool)
      requires ValidRing()
      modifies buf, `head
      ensures ValidRing() && ok == (|old(Contents())| < buf.Length - 1)
      ensures Contents() == if ok then old(Contents()) + [x] else old(Contents())
    {
      var next := if head + 1 >= buf.Length then 0 else head + 1;
      FullExactlyWhen(buf[..], tail, head);
      if next == tail { return false; }
      WriteIsInvisible(buf[..], tail, head, x);
      buf[head] := x;
      AdvanceHead(buf[..], tail, head);
      head := next;
      return true;
    }

    method Dequeue() returns (ok: bool, x: T)
      requires ValidRing()
      modifies `tail
      ensures ValidRing() && ok == (old(Contents()) != [])
      ensures ok ==> old(Contents()) == [x] + Contents()
      ensures !ok ==> Contents() == old(Contents())
    {
      if head == tail { x := *; return false, x; }
      AdvanceTail(buf[..], tail, head);
      x := buf[tail];
      tail := if tail + 1 >= buf.Length then 0 else tail + 1;
      return true, x;
    }

    /** Push that gives up instead of waiting when no slot is free. */
    method TryPush(x: T) returns (r: Error)
      requires Valid()
      modifies this, buf
      ensures Valid()
      ensures r == if |old(Contents())| < buf.Length - 1 then Success else PopFailFifoFull
      ensures Contents() == if r == Success then old(Contents()) + [x] else old(Contents())
    {
      if slots == 0 { return PopFailFifoFull; }
      slots := slots - 1;
      mutex := mutex - 1;
      var success := Enqueue(x);
      mutex := mutex + 1;
      if success { data := data + 1; }
      return if success then Success else PushFail;
    }

    method TryPop() returns (r: Error, x: T)
      requires Valid()
      modifies this
      ensures Valid()
      ensures r == if old(Contents()) != [] then Success else PopFailFifoEmpty
      ensures r == Success ==> old(Contents()) == [x] + Contents()
      ensures r != Success ==> Contents() == old(Contents())
    {
      if data == 0 { x := *; return PopFailFifoEmpty, x; }
      data := data - 1;
      mutex := mutex - 1;
      var success;
      success, x := Dequeue();
      mutex := mutex + 1;
      if success { slots := slots + 1; }
      return if success then Success else PopFail, x;
    }

    method ElemCount() returns (n: nat)
      requires ValidRing()
      ensures n == |Contents()|
    {
      if head >= tail { return head - tail; }
      return buf.Length - (tail - head);
    }

    method Flush()
      requires Valid()
      modifies this
      ensures Valid() && Contents() == []
    {
      var r, x := TryPop();
      while r != PopFailFifoEmpty
        invariant Valid()
        invariant r != PopFailFifoEmpty ==> r == Success
        invariant r == PopFailFifoEmpty ==> Contents() == []
        decreases |Contents()|, r != PopFailFifoEmpty
      {
        r, x := TryPop();
      }
    }
  }
}
