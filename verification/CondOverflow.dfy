/** The write past the end of the buffer is reachable in the condition-variable variant as well. */
module CondOverflow {
  import opened MessageHash
  import opened RingQueue
  import opened CondQueue
  import opened CondResults

  function Last(run: seq<State>): (s: State)
    requires run != []
  {
    run[|run| - 1]
  }

  lemma Extend(run: seq<State>, size: nat, s': State) returns (r: seq<State>)
    requires Run(run, size) && Next(Last(run), s')
    ensures Run(r, size) && Last(r) == s'
  {
    hide Next, Init;
    r := run + [s'];
    forall i | 0 <= i < |r| - 1 ensures Next(r[i], r[i + 1]) {
      if i < |run| - 1 {
        assert Next(run[i], run[i + 1]);
      }
    }
  }

  lemma ExtendThread(run: seq<State>, size: nat, t: nat, sh': Shared, pc': Pc) returns (r: seq<State>)
    requires Run(run, size) && !Last(run).sh.fault && t < |Last(run).threads|
    requires Section(t, Last(run).sh, Last(run).threads[t], sh', pc')
    ensures Run(r, size) && Last(r) == State(sh', Last(run).threads[t := pc'])
  {
    hide Init, Section;
    var s, s' := Last(run), State(sh', Last(run).threads[t := pc']);
    assert ThreadStep(s, t, s');
    r := Extend(run, size, s');
  }

  /** The producer and the consumer are between two critical sections, with nothing pending. */
  ghost predicate Idle(run: seq<State>, size: nat, capacity: nat, n: nat, exact: bool) {
    && Run(run, size)
    && var sh := Last(run).sh;
       && Last(run).threads == [PTop, CTop] && sh.request == 0 && !sh.inProgress && sh.owner == FREE && !sh.fault
       && sh.queue.ring.capacity == capacity && sh.queue.ring.count == n && sh.queue.exact == exact
  }

  lemma Bounds(run: seq<State>, size: nat)
    requires Run(run, size)
    ensures var q := Last(run).sh.queue;
            && Valid(q.ring) && q.ring.head < |q.ring.cells| == q.ring.capacity && q.ring.tail <= q.ring.capacity
            && (q.exact <==> q.ring.tail == q.ring.capacity)
  {
    hide Next, Init;
    InvRun(run, size, |run| - 1);
  }

  lemma Begin(size: nat) returns (r: seq<State>)
    requires size > 0 && size % 5 == 0
    ensures Idle(r, size, size, 0, false)
  {
    var m := SomeMessage();
    var sh := Shared(NewQueue(size, seq(size, _ => m)), 0, 0, false, FREE, 0, false);
    r := [State(sh, [])];
    r := Extend(r, size, State(sh, [PTop]));
    r := Extend(r, size, State(sh, [PTop, CTop]));
  }

  lemma {:induction false} FillTo(run: seq<State>, size: nat, capacity: nat, n: nat, upTo: nat) returns (r: seq<State>)
    requires Idle(run, size, capacity, n, false) && n <= upTo <= capacity
    ensures Idle(r, size, capacity, upTo, false)
    decreases upTo - n
  {
    if n == upTo {
      r := run;
    } else {
      var m := SomeMessage();
      hide WellMade, Next, Init, Contents;
      Bounds(run, size);
      var sh := Last(run).sh;
      var sh' := sh.(queue := Add(sh.queue, m));
      assert ProducerSection(sh, sh', PTop);
      r := ExtendThread(run, size, 0, sh', PTop);
      r := FillTo(r, size, capacity, n + 1, upTo);
    }
  }

  /** A key is pressed, and the consumer carries the resize out. */
  lemma Resize(run: seq<State>, size: nat, capacity: nat, n: nat, increase: bool) returns (r: seq<State>)
    requires Idle(run, size, capacity, n, false) && (increase || 0 < n <= capacity - 5)
    ensures var c := if increase then capacity + 5 else capacity - 5; Idle(r, size, c, n, n == c)
  {
    hide Init, Contents;
    Bounds(run, size);
    var sh := Last(run).sh;
    var c := if increase then capacity + 5 else capacity - 5;
    var asked := Requested(sh, increase);
    r := Extend(run, size, State(asked, Last(run).threads));
    hide Next;
    var begun := asked.(inProgress := true, owner := 1);
    r := ExtendThread(r, size, 1, begun, CResizing);
    var m := SomeMessage();
    hide WellMade;
    var cells := seq(c - sh.queue.ring.count, _ => m);
    var done := begun.(request := 0, inProgress := false, owner := FREE, queue := Resized(sh.queue, c, cells));
    assert |cells| == c - begun.queue.ring.count && done.queue == Resized(begun.queue, c, cells);
    assert FinishResize(begun, done, CTop);
    r := ExtendThread(r, size, 1, done, CTop);
  }

  lemma TakeOne(run: seq<State>, size: nat, n: nat) returns (r: seq<State>)
    requires n > 0 && Idle(run, size, n, n, true)
    ensures Idle(r, size, n, n - 1, true)
  {
    hide Init, Next, Contents, BeginResize;
    Bounds(run, size);
    var sh := Last(run).sh;
    r := ExtendThread(run, size, 1, sh.(queue := Extract(sh.queue)), CTop);
  }

  /** For every initial size: press '+', fill up to five cells, press '-', take one message, and
      the next one goes past the end. */
  lemma OverflowReachable(size: nat) returns (run: seq<State>)
    requires size > 0 && size % 5 == 0
    ensures Run(run, size) && Last(run).sh.fault
  {
    var m := SomeMessage();
    hide Init, Next, Contents, WellMade;
    run := Begin(size);
    run := Resize(run, size, size, 0, true);
    run := FillTo(run, size, size + 5, 0, size);
    run := Resize(run, size, size + 5, size, false);
    run := TakeOne(run, size, size);
    Bounds(run, size);
    var sh := Last(run).sh;
    assert ProducerSection(sh, sh.(fault := true), PTop);
    run := ExtendThread(run, size, 0, sh.(fault := true), PTop);
  }
}
