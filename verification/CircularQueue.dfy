/** The queue structs of queue_sem.c and queue_cond.c with their in-place operations. The two
    structs differ only in their synchronisation fields; the class holds the union, with
    the semaphores as counters. Every method is tied to the ring of module RingQueue. */
module CircularQueues {
  import opened MessageHash
  import R = RingQueue

  class CircularQueue {
    var buffer: array<Message>
    var capacity: nat
    var head: nat
    var tail: nat
    var count: nat
    var totalAdded: nat
    var totalExtracted: nat
    var resizeRequest: int
    var newCapacityRequest: int
    var resizeInProgress: bool
    var emptySlots: nat
    var filledSlots: nat

    function AsRing(): (r: R.Ring)
      reads this, buffer
    {
      R.Ring(buffer[..], capacity, head, tail, count)
    }

    ghost predicate Valid()
      reads this, buffer
    {
      R.Valid(AsRing())
    }

    ghost function Contents(): (s: seq<Message>)
      reads this, buffer
      requires Valid()
    {
      R.Contents(AsRing())
    }

    /** init_queue_sem and init_queue_cond, when no allocation fails. */
    constructor (size: nat)
      requires size > 0
      ensures Valid() && Contents() == [] && capacity == size && fresh(buffer)
      ensures totalAdded == 0 && totalExtracted == 0
      ensures resizeRequest == 0 && newCapacityRequest == 0 && !resizeInProgress
      ensures emptySlots == size && filledSlots == 0
    {
      buffer := new Message[size](_ => Message(0, 0, 0, []));
      capacity, head, tail, count := size, 0, 0, 0;
      totalAdded, totalExtracted := 0, 0;
      resizeRequest, newCapacityRequest, resizeInProgress := 0, 0, false;
      emptySlots, filledSlots := size, 0;
    }

    /** The producers' critical section, after its guard. The write is inside the buffer if and
        only if tail is not one past the end; `inside` reports it, and what a write outside does
        is not modelled. */
    method Enqueue(msg: Message) returns (inside: bool)
      requires Valid() && count < capacity
      modifies this`tail, this`count, this`totalAdded, buffer
      ensures inside <==> old(tail) < capacity
      ensures !inside ==> AsRing() == old(AsRing()) && totalAdded == old(totalAdded)
      ensures inside ==> AsRing() == R.Enqueue(old(AsRing()), msg)
      ensures inside ==> Valid() && Contents() == old(Contents()) + [msg] && totalAdded == old(totalAdded) + 1
    {
      ghost var was := AsRing();
      if tail == capacity {
        return false;
      }
      R.EnqueueAppends(was, msg);
      buffer[tail] := msg;
      tail := (tail + 1) % capacity;
      count := count + 1;
      totalAdded := totalAdded + 1;
      inside := true;
      assert AsRing().cells == was.cells[was.tail := msg];
    }

    /** Advance head past the first message. */
    method TakeFirst() returns (msg: Message)
      requires Valid() && count > 0
      modifies this`head, this`count
      ensures Valid() && AsRing() == R.Dequeue(old(AsRing()))
      ensures old(Contents()) == [msg] + Contents()
    {
      R.DequeueRemovesFirst(AsRing());
      msg := buffer[head];
      head := (head + 1) % capacity;
      count := count - 1;
    }

    /** The consumers' critical section, after its guard. */
    method Dequeue() returns (msg: Message)
      requires Valid() && count > 0
      modifies this`head, this`count, this`totalExtracted
      ensures Valid() && AsRing() == R.Dequeue(old(AsRing()))
      ensures old(Contents()) == [msg] + Contents() && totalExtracted == old(totalExtracted) + 1
    {
      hide R.Contents, R.Valid;
      msg := TakeFirst();
      totalExtracted := totalExtracted + 1;
    }

    /** The copy loop of both resizes: newBuffer starts with the contents. */
    method CopyTo(newBuffer: array<Message>)
      requires Valid() && newBuffer != buffer && count <= newBuffer.Length
      modifies newBuffer
      ensures newBuffer[..count] == Contents()
    {
      ghost var all := Contents();
      var currentIndex := head;
      var i := 0;
      while i < count
        invariant i <= count
        invariant currentIndex == R.Wrap(head + i, capacity)
        invariant newBuffer[..i] == all[..i]
        invariant Valid() && Contents() == all
      {
        newBuffer[i] := buffer[currentIndex];
        assert newBuffer[..i + 1] == newBuffer[..i] + [all[i]];
        assert all[..i + 1] == all[..i] + [all[i]];
        R.WrapIsMod(currentIndex + 1, capacity);
        currentIndex := (currentIndex + 1) % capacity;
        i := i + 1;
      }
    }

    /** The part both resizes share: a new buffer, filled from the old one. */
    method ReplaceBuffer(newCapacity: nat)
      requires Valid() && newCapacity > 0 && newCapacity >= count
      modifies this`buffer, this`capacity, this`head, this`tail
      ensures fresh(buffer) && buffer.Length == newCapacity
      ensures AsRing() == R.Resize(old(AsRing()), newCapacity, buffer[count..])
      ensures Valid() && Contents() == old(Contents())
    {
      var newBuffer := new Message[newCapacity](_ => Message(0, 0, 0, []));
      CopyTo(newBuffer);
      ghost var was := AsRing();
      R.ResizeKeepsContents(was, newCapacity, newBuffer[count..]);
      hide R.Contents, R.Valid;
      buffer, head, tail, capacity := newBuffer, 0, count, newCapacity;
      assert buffer[..] == R.Contents(was) + newBuffer[count..];
    }

    /** The post loop of a growing resize, the trywait loop of a shrinking one. */
    method AdjustEmptySlots(diff: int)
      modifies this`emptySlots
      ensures emptySlots == if old(emptySlots) + diff >= 0 then old(emptySlots) + diff else 0
    {
      ghost var before := emptySlots;
      if diff > 0 {
        for i := 0 to diff
          invariant emptySlots == before + i
        {
          emptySlots := emptySlots + 1;
        }
      } else if diff < 0 {
        for i := 0 to -diff
          invariant emptySlots == if before >= i then before - i else 0
        {
          if emptySlots > 0 {
            emptySlots := emptySlots - 1;
          }
        }
      }
    }

    /** resize_queue_internal_sem, with the semaphore posts and trywaits uninterrupted; `memory`
        says whether the allocation succeeds. */
    method ResizeSem(newCapacity: int, memory: bool) returns (ok: bool)
      requires Valid()
      modifies this
      ensures ok <==> newCapacity > 0 && newCapacity >= old(count) && memory
      ensures Valid() && Contents() == old(Contents())
      ensures totalAdded == old(totalAdded) && totalExtracted == old(totalExtracted) && filledSlots == old(filledSlots)
      ensures resizeRequest == old(resizeRequest) && newCapacityRequest == old(newCapacityRequest)
      ensures ok ==> capacity == newCapacity && head == 0 && tail == count && fresh(buffer)
      ensures !ok ==> capacity == old(capacity) && head == old(head) && tail == old(tail) && buffer == old(buffer)
      ensures var target := old(emptySlots) + capacity - old(capacity);
              emptySlots == if target >= 0 then target else 0
    {
      hide R.Contents, R.Valid;
      if newCapacity <= 0 {
        return false;
      }
      if newCapacity < count {
        return false;
      }
      if !memory {
        return false;
      }
      var oldCapacity := capacity;
      ReplaceBuffer(newCapacity);
      AdjustEmptySlots(newCapacity - oldCapacity);
      ok := true;
    }

    /** resize_queue_internal_cond: the in-progress flag is down again on every way out. */
    method ResizeCond(newCapacity: int, memory: bool) returns (ok: bool)
      requires Valid() && !resizeInProgress
      modifies this
      ensures ok <==> newCapacity > 0 && newCapacity >= old(count) && memory
      ensures Valid() && Contents() == old(Contents()) && !resizeInProgress
      ensures totalAdded == old(totalAdded) && totalExtracted == old(totalExtracted)
      ensures resizeRequest == old(resizeRequest) && newCapacityRequest == old(newCapacityRequest)
      ensures ok ==> capacity == newCapacity && head == 0 && tail == count && fresh(buffer)
      ensures !ok ==> capacity == old(capacity) && head == old(head) && tail == old(tail) && buffer == old(buffer)
    {
      hide R.Contents, R.Valid;
      if newCapacity <= 0 {
        return false;
      }
      if newCapacity < count {
        return false;
      }
      resizeInProgress := true;
      if !memory {
        resizeInProgress := false;
        return false;
      }
      ReplaceBuffer(newCapacity);
      resizeInProgress := false;
      ok := true;
    }

    /** request_resize_sem and request_resize_cond for the keys '+' and '-'. */
    method RequestResize(increase: bool)
      requires Valid()
      modifies this`resizeRequest, this`newCapacityRequest
      ensures var target := if increase then capacity + 5 else capacity - 5;
              if old(resizeRequest) == 0 && !resizeInProgress && target > 0
              then newCapacityRequest == target && resizeRequest == if increase then 1 else -1
              else resizeRequest == old(resizeRequest) && newCapacityRequest == old(newCapacityRequest)
    {
      if resizeRequest == 0 && !resizeInProgress {
        var targetSize := if increase then capacity + 5 else capacity - 5;
        if !(targetSize <= 0 && !increase) {
          newCapacityRequest := targetSize;
          resizeRequest := if increase then 1 else -1;
        }
      }
    }

    /** The drain loop of both destroys: every message still queued is freed, in order. */
    method Destroy() returns (freed: seq<Message>)
      requires Valid()
      modifies this
      ensures freed == old(Contents())
      ensures capacity == 0 && count == 0 && head == 0 && tail == 0
      ensures totalAdded == old(totalAdded) && totalExtracted == old(totalExtracted)
      ensures resizeRequest == old(resizeRequest) && resizeInProgress == old(resizeInProgress)
    {
      hide R.Contents, R.Valid;
      freed := [];
      ghost var all := Contents();
      while count > 0
        modifies this`head, this`count
        invariant Valid()
        invariant freed + Contents() == all
        decreases count
      {
        ghost var rest := Contents();
        var msg := TakeFirst();
        assert freed + rest == (freed + [msg]) + Contents();
        freed := freed + [msg];
      }
      R.NothingLeft(AsRing());
      capacity, count, head, tail := 0, 0, 0, 0;
    }

    /** destroy_queue_cond also drops a pending request and leaves resize_in_progress up, so that
        no producer goes on. */
    method DestroyCond() returns (freed: seq<Message>)
      requires Valid()
      modifies this
      ensures freed == old(Contents())
      ensures capacity == 0 && count == 0 && head == 0 && tail == 0
      ensures totalAdded == old(totalAdded) && totalExtracted == old(totalExtracted)
      ensures resizeRequest == 0 && resizeInProgress
    {
      freed := Destroy();
      resizeRequest := 0;
      resizeInProgress := true;
    }
  }
}
