/** The ring in shared memory (shared_buffer_types.c) as a value. Its indices wrap lazily: an
    index that has reached the capacity goes back to 0 only when it is used next. */
module SharedRing {
  import opened Checksum

  datatype Ring = Ring(cells: seq<Image>, added: nat, extracted: nat, count: nat, head: nat, tail: nat)

  function Slot(index: nat, capacity: nat): (i: nat) {
    if index == capacity then 0 else index
  }

  /** The buffer is never completely full, and both indices follow the running totals. */
  ghost predicate Valid(r: Ring) {
    && |r.cells| > 0 && r.head <= |r.cells| && r.tail <= |r.cells|
    && r.added == r.extracted + r.count && r.count < |r.cells|
    && Slot(r.head, |r.cells|) == r.added % |r.cells|
    && Slot(r.tail, |r.cells|) == r.extracted % |r.cells|
  }

  /** The queued messages, oldest first. */
  function Contents(r: Ring): (s: seq<Image>)
    requires |r.cells| > 0
  {
    seq(r.count, i requires 0 <= i < r.count => r.cells[(r.extracted + i) % |r.cells|])
  }

  // ----- operations

  function Fresh(cells: seq<Image>): (r: Ring) {
    Ring(cells, 0, 0, 0, 0, 0)
  }

  predicate Full(r: Ring) {
    r.count == |r.cells| - 1
  }

  /** add_message_to_queue after its guard: the wrap, the copy and the three increments. */
  function Add(r: Ring, m: Image): (a: Ring)
    requires r.head <= |r.cells| && |r.cells| > 0
  {
    var h := Slot(r.head, |r.cells|);
    r.(cells := r.cells[h := m], head := h + 1, count := r.count + 1, added := r.added + 1)
  }

  /** get_message_from_queue after its guard. */
  function Get(r: Ring): (g: Ring)
    requires r.count > 0
  {
    r.(tail := Slot(r.tail, |r.cells|) + 1, count := r.count - 1, extracted := r.extracted + 1)
  }

  function Delivered(r: Ring): (m: Image)
    requires r.tail <= |r.cells| && |r.cells| > 0
  {
    r.cells[Slot(r.tail, |r.cells|)]
  }

  // ----- indices modulo the capacity

  lemma Multiples(n: nat, d: int)
    ensures d >= 1 ==> n * d >= n
    ensures d <= 0 ==> n * d <= 0
    ensures d <= -1 ==> n * d <= 0 - n
  {
  }

  lemma ModNext(x: nat, n: nat)
    requires n > 0
    ensures (x + 1) % n == if x % n + 1 == n then 0 else x % n + 1
  {
    var d := (x + 1) / n - x / n;
    assert n * d == x % n + 1 - (x + 1) % n;
    Multiples(n, d);
    Multiples(n, d - 1);
  }

  /** Fewer than n consecutive positions occupy distinct cells. */
  lemma ModDistinct(x: nat, y: nat, n: nat)
    requires n > 0 && x < y < x + n
    ensures x % n != y % n
  {
    var d := y / n - x / n;
    assert n * d == (y - x) + (x % n - y % n);
    Multiples(n, d);
  }

  // ----- the ring behaves as a FIFO queue

  lemma FreshIsEmpty(cells: seq<Image>)
    requires |cells| > 0
    ensures Valid(Fresh(cells)) && Contents(Fresh(cells)) == []
  {
  }

  lemma AddAppends(r: Ring, m: Image)
    requires Valid(r) && r.count + 1 < |r.cells|
    ensures Valid(Add(r, m)) && Contents(Add(r, m)) == Contents(r) + [m]
  {
    var n, a := |r.cells|, Add(r, m);
    ModNext(r.added, n);
    forall i | 0 <= i < a.count ensures a.cells[(a.extracted + i) % n] == (Contents(r) + [m])[i] {
      AddedCell(r, m, i);
    }
    hide Add, Valid;
    assert Contents(a) == Contents(r) + [m];
  }

  /** The new message is in a cell that no queued message occupies. */
  lemma AddedCell(r: Ring, m: Image, i: nat)
    requires Valid(r) && i <= r.count
    ensures var a := Add(r, m);
            a.cells[(r.extracted + i) % |r.cells|] == if i < r.count then r.cells[(r.extracted + i) % |r.cells|] else m
  {
    if i < r.count {
      ModDistinct(r.extracted + i, r.added, |r.cells|);
    }
  }

  lemma GetTakesFirst(r: Ring)
    requires Valid(r) && r.count > 0
    ensures Valid(Get(r)) && Contents(r) == [Delivered(r)] + Contents(Get(r))
  {
    var n, g := |r.cells|, Get(r);
    ModNext(r.extracted, n);
    var s := [Delivered(r)] + Contents(g);
    forall i | 0 <= i < r.count ensures Contents(r)[i] == s[i] {
      if i > 0 {
        assert s[i] == Contents(g)[i - 1];
        assert g.extracted + (i - 1) == r.extracted + i;
      }
    }
    assert Contents(r) == s;
  }

  // ----- runs of the two operations

  datatype Op = Put(msg: Image) | Take

  /** The process exits when an operation's guard fails. */
  predicate Allowed(r: Ring, op: Op) {
    match op
    case Put(_) => !Full(r)
    case Take => r.count > 0
  }

  /** The ring left, the messages taken, and whether an operation was refused, which ends the run. */
  datatype Trace = Trace(ring: Ring, out: seq<Image>, refused: bool)

  function Perform(r: Ring, ops: seq<Op>): (t: Trace)
    requires Valid(r)
    decreases |ops|
  {
    if ops == [] then Trace(r, [], false)
    else if !Allowed(r, ops[0]) then Trace(r, [], true)
    else
      match ops[0]
      case Put(m) => AddAppends(r, m); Perform(Add(r, m), ops[1..])
      case Take =>
        GetTakesFirst(r);
        var t := Perform(Get(r), ops[1..]);
        t.(out := [Delivered(r)] + t.out)
  }

  /** The same operations on a plain bounded queue. */
  function Simple(q: seq<Image>, bound: nat, ops: seq<Op>): (t: (seq<Image>, seq<Image>, bool))
    decreases |ops|
  {
    if ops == [] then (q, [], false)
    else
      match ops[0]
      case Put(m) => if |q| == bound then (q, [], true) else Simple(q + [m], bound, ops[1..])
      case Take =>
        if q == [] then (q, [], true)
        else var t := Simple(q[1..], bound, ops[1..]); (t.0, [q[0]] + t.1, t.2)
  }

  /** The lazily wrapping ring refines a FIFO queue bounded by capacity - 1: the same
      deliveries, the same refusals, the same messages left. */
  lemma {:induction false} RefinesFifo(r: Ring, ops: seq<Op>)
    requires Valid(r)
    ensures var t, q := Perform(r, ops), Simple(Contents(r), |r.cells| - 1, ops);
            && Valid(t.ring) && Contents(t.ring) == q.0 && t.out == q.1 && t.refused == q.2
    decreases |ops|
  {
    hide Contents, Valid;
    ContentsSize(r);
    if ops != [] && Allowed(r, ops[0]) {
      match ops[0] {
        case Put(m) =>
          AddAppends(r, m);
          RefinesFifo(Add(r, m), ops[1..]);
        case Take =>
          GetTakesFirst(r);
          assert Contents(r)[1..] == Contents(Get(r));
          RefinesFifo(Get(r), ops[1..]);
      }
    }
  }

  lemma ContentsSize(r: Ring)
    requires Valid(r)
    ensures |r.cells| > 0 && |Contents(r)| == r.count < |r.cells| && r.head <= |r.cells| && r.tail <= |r.cells|
  {
  }
}
