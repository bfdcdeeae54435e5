/** The QueueBuffer struct of shared_buffer_types.c with its in-place operations. */
module SharedBuffer {
  import opened Checksum
  import R = SharedRing

  /** exit(EXIT_FAILURE), or the total that add_message_to_queue or get_message_from_queue returns. */
  datatype Outcome = Exit | Total(n: nat)

  class QueueBuffer {
    var totalAdded: nat
    var totalExtracted: nat
    var count: nat
    var head: nat
    var tail: nat
    const buffer: array<Image>

    function AsRing(): (r: R.Ring)
      reads this, buffer
    {
      R.Ring(buffer[..], totalAdded, totalExtracted, count, head, tail)
    }

    ghost predicate Valid()
      reads this, buffer
    {
      R.Valid(AsRing())
    }

    ghost function Contents(): (s: seq<Image>)
      reads this, buffer
      requires Valid()
    {
      R.Contents(AsRing())
    }

    /** The shared segment as shmat returns it: anything may be in it. */
    constructor (capacity: nat)
      requires capacity > 0
      ensures buffer.Length == capacity && fresh(buffer)
    {
      buffer := new Image[capacity](_ => seq(MESSAGE_SIZE, _ => 0));
    }

    /** initialize_queue */
    method Initialize()
      requires buffer.Length > 0
      modifies this, buffer
      ensures Valid() && Contents() == [] && totalAdded == 0 && totalExtracted == 0
      ensures forall i :: 0 <= i < buffer.Length ==> buffer[i] == seq(MESSAGE_SIZE, _ => 0)
    {
      totalAdded, totalExtracted, count, head, tail := 0, 0, 0, 0, 0;
      var i := 0;
      while i < buffer.Length
        invariant 0 <= i <= buffer.Length
        invariant totalAdded == totalExtracted == count == head == tail == 0
        invariant forall k :: 0 <= k < i ==> buffer[k] == seq(MESSAGE_SIZE, _ => 0)
      {
        buffer[i] := seq(MESSAGE_SIZE, _ => 0);
        i := i + 1;
      }
      R.FreshIsEmpty(buffer[..]);
    }

    /** add_message_to_queue: the process exits when one cell is left, and otherwise the
        message goes to the end. */
    method AddMessage(msg: Image) returns (r: Outcome)
      requires Valid()
      modifies this, buffer
      ensures Valid()
      ensures r == if old(count) == buffer.Length - 1 then Exit else Total(|old(Contents())| + old(totalExtracted) + 1)
      ensures r.Exit? ==> AsRing() == old(AsRing())
      ensures r.Total? ==> Contents() == old(Contents()) + [msg] && totalAdded == r.n && totalExtracted == old(totalExtracted)
    {
      ghost var was := AsRing();
      if count == buffer.Length - 1 {
        return Exit;
      }
      if head == buffer.Length {
        head := 0;
      }
      buffer[head] := msg;
      head := head + 1;
      count := count + 1;
      totalAdded := totalAdded + 1;
      r := Total(totalAdded);
      R.AddAppends(was, msg);
      assert AsRing() == R.Add(was, msg);
    }

    /** get_message_from_queue: the process exits on an empty queue, and otherwise gets the
        oldest message. */
    method GetMessage() returns (r: Outcome, msg: Image)
      requires Valid()
      modifies this
      ensures Valid() && buffer[..] == old(buffer[..])
      ensures r == if old(Contents()) == [] then Exit else Total(old(totalExtracted) + 1)
      ensures r.Exit? ==> AsRing() == old(AsRing())
      ensures r.Total? ==> old(Contents()) == [msg] + Contents() && totalExtracted == r.n && totalAdded == old(totalAdded)
    {
      ghost var was := AsRing();
      if count == 0 {
        return Exit, seq(MESSAGE_SIZE, _ => 0);
      }
      if tail == buffer.Length {
        tail := 0;
      }
      msg := buffer[tail];
      tail := tail + 1;
      count := count - 1;
      totalExtracted := totalExtracted + 1;
      r := Total(totalExtracted);
      R.GetTakesFirst(was);
      assert AsRing() == R.Get(was) && msg == R.Delivered(was);
    }
  }
}
