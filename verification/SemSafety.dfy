/** Conservation of semaphore tokens, FIFO order and request coherence over every run of the
    semaphore variant, through any mix of producers, consumers, resizes and cleanups. */
module SemSafety {
  import opened MessageHash
  import opened RingQueue
  import opened SemQueue

  // ----- tokens held by threads

  datatype Token = EmptyToken | FilledToken

  /** Empty tokens: held by a producer, owed by a consumer, or still to be posted by a growing
      resize; negative while a shrinking resize still has to take tokens away. Filled tokens:
      held by a consumer or owed by a producer. */
  function Holding(k: Token, pc: Pc): (w: int) {
    match k
    case EmptyToken =>
      (match pc
       case PToken => 1
       case PMessage(_) => 1
       case PInside(_) => 1
       case PReturning(_) => 1
       case CRelease => 1
       case CPosting(_, left) => left as int
       case CTrying(_, left) => 0 - (left as int)
       case _ => 0)
    case FilledToken =>
      (match pc
       case CToken => 1
       case CInside => 1
       case CReturning(_) => 1
       case CPosting(place, _) => if place == WithToken then 1 else 0
       case CTrying(place, _) => if place == WithToken then 1 else 0
       case PAnnounce => 1
       case _ => 0)
  }

  function Held(k: Token, ts: seq<Pc>): (n: int) {
    if ts == [] then 0 else Holding(k, ts[0]) + Held(k, ts[1..])
  }

  lemma {:induction false} HeldUpdate(k: Token, ts: seq<Pc>, t: nat, pc: Pc)
    requires t < |ts|
    ensures Held(k, ts[t := pc]) == Held(k, ts) - Holding(k, ts[t]) + Holding(k, pc)
  {
    hide Holding;
    if t == 0 {
      assert ts[t := pc][1..] == ts[1..];
    } else {
      HeldUpdate(k, ts[1..], t - 1, pc);
      assert ts[t := pc][1..] == ts[1..][t - 1 := pc];
    }
  }

  lemma {:induction false} HeldAppend(k: Token, ts: seq<Pc>, pc: Pc)
    ensures Held(k, ts + [pc]) == Held(k, ts) + Holding(k, pc)
  {
    hide Holding;
    if ts != [] {
      HeldAppend(k, ts[1..], pc);
      assert (ts + [pc])[1..] == ts[1..] + [pc];
    }
  }

  /** No thread holds a negative number of filled tokens, so the total covers each of them. */
  lemma {:induction false} HeldCovers(ts: seq<Pc>, t: nat)
    requires t < |ts|
    ensures Held(FilledToken, ts) >= Holding(FilledToken, ts[t])
    decreases |ts|
  {
    if |ts| > 1 {
      HeldCovers(ts[1..], if t == 0 then 0 else t - 1);
    }
  }

  // ----- the invariant

  predicate Holds(pc: Pc) {
    pc.PInside? || pc.CInspect? || pc.CInside? || pc.CPosting? || pc.CTrying?
  }

  /** The consumer has installed the new buffer but not yet cleared the request. */
  predicate Committed(pc: Pc) {
    pc.CPosting? || pc.CTrying?
  }

  ghost predicate MutexOk(s: State) {
    && FREE <= s.sh.owner < |s.threads|
    && forall t :: 0 <= t < |s.threads| ==> (Holds(s.threads[t]) <==> s.sh.owner == t)
  }

  /** empty_slots, the empty tokens in threads' hands and the queued messages add up to the
      capacity plus the surplus left by failed trywaits and cleanup posts. */
  ghost predicate EmptyConserved(s: State) {
    s.sh.empty + Held(EmptyToken, s.threads) + s.sh.queue.ring.count
      == s.sh.queue.ring.capacity + s.sh.failed + s.sh.cleanE
  }

  ghost predicate FilledConserved(s: State) {
    s.sh.filled + Held(FilledToken, s.threads) == s.sh.queue.ring.count + s.sh.cleanF
  }

  ghost predicate RequestOk(s: State) {
    var sh := s.sh;
    && sh.request in {-1, 0, 1}
    && sh.queue.ring.capacity > 0 && sh.queue.ring.capacity % 5 == 0
    && (sh.request != 0 && !(0 <= sh.owner < |s.threads| && Committed(s.threads[sh.owner])) ==>
          sh.newCapacity == sh.queue.ring.capacity + 5 * sh.request && sh.newCapacity > 0)
  }

  /** Every message on its way in, queued or taken out carries its own hash. */
  ghost predicate MessagesOk(s: State) {
    && (forall m :: m in s.sh.queue.added ==> WellMade(m))
    && (forall t :: 0 <= t < |s.threads| && s.threads[t].PMessage? ==> WellMade(s.threads[t].msg))
    && (forall t :: 0 <= t < |s.threads| && s.threads[t].PInside? ==> WellMade(s.threads[t].msg))
  }

  ghost predicate FaultOk(s: State) {
    s.sh.fault ==> s.sh.queue.exact
  }

  ghost predicate Inv(s: State) {
    && Fifo(s.sh.queue) && MutexOk(s) && EmptyConserved(s) && FilledConserved(s)
    && RequestOk(s) && MessagesOk(s) && FaultOk(s)
  }

  lemma InvInit(s: State, size: nat)
    requires Init(s, size)
    ensures Inv(s)
  {
    NewQueueFifo(size, s.sh.queue.ring.cells);
  }

  // ----- preservation by threads

  /** What one move does to the queue and to the balance of tokens. */
  ghost predicate Balanced(sh: Shared, pc: Pc, sh': Shared, pc': Pc) {
    var r, r' := sh.queue.ring, sh'.queue.ring;
    && sh'.empty + Holding(EmptyToken, pc') + r'.count - r'.capacity - sh'.failed - sh'.cleanE
       == sh.empty + Holding(EmptyToken, pc) + r.count - r.capacity - sh.failed - sh.cleanE
    && sh'.filled + Holding(FilledToken, pc') - r'.count - sh'.cleanF
       == sh.filled + Holding(FilledToken, pc) - r.count - sh.cleanF
  }

  lemma ProducerBalance(t: nat, sh: Shared, pc: Pc, sh': Shared, pc': Pc)
    requires ProducerMove(t, sh, pc, sh', pc') && Fifo(sh.queue)
    ensures Balanced(sh, pc, sh', pc') && Fifo(sh'.queue)
    ensures sh'.queue == sh.queue || (pc.PInside? && sh'.queue.added == sh.queue.added + [pc.msg])
    ensures sh'.queue.ring.capacity == sh.queue.ring.capacity
    ensures sh'.fault ==> sh.fault || sh'.queue.exact
  {
    hide Add, Contents;
    if pc.PInside? && sh'.owner == FREE && pc' == PAnnounce {
      AddShape(sh.queue, pc.msg);
      AddFifo(sh.queue, pc.msg);
    }
  }

  /** What installing the new buffer does. */
  lemma InstalledFacts(sh: Shared, place: Place, sh': Shared, pc': Pc)
    requires ResizeMove(sh, place, sh', pc') && Fifo(sh.queue) && Committed(pc')
    ensures Fifo(sh'.queue) && sh' == sh.(queue := sh'.queue) && sh'.queue.added == sh.queue.added
    ensures sh'.queue.ring.count == sh.queue.ring.count && sh'.queue.ring.capacity == sh.newCapacity
  {
    hide Resized, Contents;
    var n := sh.newCapacity;
    assert Valid(sh.queue.ring);
    var cells: seq<Message> :| |cells| == n - sh.queue.ring.count && sh'.queue == Resized(sh.queue, n, cells);
    ResizedShape(sh.queue, n, cells);
    ResizedFifo(sh.queue, n, cells);
  }

  lemma ResizeBalance(sh: Shared, place: Place, pc: Pc, sh': Shared, pc': Pc)
    requires ResizeMove(sh, place, sh', pc') && Fifo(sh.queue)
    requires sh.owner >= 0 && pc == if place == LoopTop then CInspect else CInside
    ensures Balanced(sh, pc, sh', pc') && Fifo(sh'.queue) && sh'.queue.added == sh.queue.added
    ensures sh'.fault == sh.fault && !pc'.PMessage? && !pc'.PInside?
    ensures sh'.owner == FREE ==> sh'.queue == sh.queue && sh'.request == 0
    ensures sh'.owner != FREE ==>
              Committed(pc') && sh'.queue.ring.capacity == sh.newCapacity && sh' == sh.(queue := sh'.queue)
  {
    if Committed(pc') {
      InstalledFacts(sh, place, sh', pc');
    }
    hide Fifo, Valid, Resized, Contents;
  }

  lemma ExtractBalance(t: nat, sh: Shared, pc: Pc, sh': Shared, pc': Pc)
    requires ConsumerMove(t, sh, pc, sh', pc') && Fifo(sh.queue) && pc.CInside? && sh.owner == t
    ensures Balanced(sh, pc, sh', pc') && Fifo(sh'.queue) && sh'.queue.added == sh.queue.added
    ensures sh'.fault == sh.fault && !pc'.PMessage? && !pc'.PInside?
  {
    hide Contents, Extract, ResizeMove, Fifo;
    var r := sh.queue.ring;
    if (sh.request == -1 && r.count <= sh.newCapacity) || sh.request == 1 {
      ResizeBalance(sh, WithToken, pc, sh', pc');
    } else if r.count > 0 {
      ExtractShape(sh.queue);
      ExtractFifo(sh.queue);
    }
  }

  /** Moves outside the two critical sections that may resize or extract. */
  lemma OtherConsumerBalance(t: nat, sh: Shared, pc: Pc, sh': Shared, pc': Pc)
    requires ConsumerMove(t, sh, pc, sh', pc') && !pc.CInside? && !(pc.CInspect? && sh.request != 0)
    ensures Balanced(sh, pc, sh', pc') && sh'.queue == sh.queue
    ensures sh'.fault == sh.fault && !pc'.PMessage? && !pc'.PInside?
  {
    hide Contents, Extract, ResizeMove, Fifo;
  }

  lemma ConsumerBalance(t: nat, sh: Shared, pc: Pc, sh': Shared, pc': Pc)
    requires ConsumerMove(t, sh, pc, sh', pc') && Fifo(sh.queue) && (Holds(pc) ==> sh.owner == t)
    ensures Balanced(sh, pc, sh', pc') && Fifo(sh'.queue) && sh'.queue.added == sh.queue.added
    ensures sh'.fault == sh.fault && !pc'.PMessage? && !pc'.PInside?
  {
    hide Contents, Extract, ResizeMove, Fifo, Balanced;
    if pc.CInspect? && sh.request != 0 {
      ResizeBalance(sh, LoopTop, pc, sh', pc');
    } else if pc.CInside? {
      ExtractBalance(t, sh, pc, sh', pc');
    } else {
      OtherConsumerBalance(t, sh, pc, sh', pc');
    }
  }

  lemma MutexMove(t: nat, sh: Shared, pc: Pc, sh': Shared, pc': Pc)
    requires ProducerMove(t, sh, pc, sh', pc') || ConsumerMove(t, sh, pc, sh', pc')
    requires Holds(pc) <==> sh.owner == t
    ensures Holds(pc') <==> sh'.owner == t
    ensures sh'.owner == sh.owner || (sh.owner == FREE && sh'.owner == t) || (sh.owner == t && sh'.owner == FREE)
    ensures sh'.queue != sh.queue || sh'.request != sh.request || sh'.newCapacity != sh.newCapacity ==> sh.owner == t
  {
    hide Add, Extract, Resized;
  }

  /** A move keeps the request consistent with the capacity, except between the moment the
      new buffer is installed and the moment the request is cleared. */
  ghost predicate RequestFits(sh: Shared, committed: bool) {
    && sh.request in {-1, 0, 1}
    && sh.queue.ring.capacity > 0 && sh.queue.ring.capacity % 5 == 0
    && (sh.request != 0 && !committed ==> sh.newCapacity == sh.queue.ring.capacity + 5 * sh.request && sh.newCapacity > 0)
  }

  lemma RequestMove(t: nat, sh: Shared, pc: Pc, sh': Shared, pc': Pc)
    requires ProducerMove(t, sh, pc, sh', pc') || ConsumerMove(t, sh, pc, sh', pc')
    requires Fifo(sh.queue) && (Holds(pc) <==> sh.owner == t) && RequestFits(sh, Committed(pc))
    ensures RequestFits(sh', Committed(pc'))
  {
    hide Contents, ResizeMove, Add, Extract, Fifo;
    var r := sh.queue.ring;
    if pc.CInspect? && sh.request != 0 {
      ResizeBalance(sh, LoopTop, pc, sh', pc');
    } else if pc.CInside? && ((sh.request == -1 && r.count <= sh.newCapacity) || sh.request == 1) {
      ResizeBalance(sh, WithToken, pc, sh', pc');
    } else if pc.CInside? && r.count > 0 {
      ExtractShape(sh.queue);
    } else if pc.PInside? && pc' == PAnnounce {
      AddShape(sh.queue, pc.msg);
    }
  }

  lemma ThreadStepMutex(s: State, t: nat, s': State)
    requires Inv(s) && ThreadStep(s, t, s')
    ensures MutexOk(s') && RequestOk(s')
  {
    hide Contents, ResizeMove, Add, Extract, EmptyConserved, FilledConserved, MessagesOk, ProducerMove, ConsumerMove;
    MutexMove(t, s.sh, s.threads[t], s'.sh, s'.threads[t]);
    if s.sh.owner == t || s.sh.owner == FREE {
      RequestMove(t, s.sh, s.threads[t], s'.sh, s'.threads[t]);
    }
  }

  lemma ThreadStepTokens(s: State, t: nat, s': State)
    requires Inv(s) && ThreadStep(s, t, s')
    ensures Fifo(s'.sh.queue) && EmptyConserved(s') && FilledConserved(s')
  {
    hide Contents, RequestOk, ProducerMove, ConsumerMove, Fifo, Holding, MessagesOk, FaultOk;
    if ProducerMove(t, s.sh, s.threads[t], s'.sh, s'.threads[t]) {
      ProducerBalance(t, s.sh, s.threads[t], s'.sh, s'.threads[t]);
    } else {
      ConsumerBalance(t, s.sh, s.threads[t], s'.sh, s'.threads[t]);
    }
    HeldUpdate(EmptyToken, s.threads, t, s'.threads[t]);
    HeldUpdate(FilledToken, s.threads, t, s'.threads[t]);
  }

  lemma ThreadStepMessages(s: State, t: nat, s': State)
    requires Inv(s) && !s.sh.fault && ThreadStep(s, t, s')
    ensures FaultOk(s') && MessagesOk(s')
  {
    hide Contents, RequestOk, Fifo, Holding, EmptyConserved, FilledConserved, WellMade, Add, ResizeMove, Extract;
    var pc, pc' := s.threads[t], s'.threads[t];
    if ProducerMove(t, s.sh, pc, s'.sh, pc') {
      ProducerBalance(t, s.sh, pc, s'.sh, pc');
    } else {
      ConsumerBalance(t, s.sh, pc, s'.sh, pc');
    }
    assert pc'.PMessage? ==> WellMade(pc'.msg);
    assert pc'.PInside? ==> WellMade(pc'.msg);
    hide ProducerMove, ConsumerMove, MutexOk;
    forall m | m in s'.sh.queue.added ensures WellMade(m) {
      if s'.sh.queue.added != s.sh.queue.added {
        assert m in s.sh.queue.added || m == pc.msg;
      }
    }
  }

  // ----- preservation by main

  lemma MainStepInv(s: State, s': State)
    requires Inv(s) && !s.sh.fault && MainStep(s, s')
    ensures Inv(s')
  {
    hide Fifo, WellMade, Contents;
    if |s'.threads| > |s.threads| {
      var pc := s'.threads[|s.threads|];
      HeldAppend(EmptyToken, s.threads, pc);
      HeldAppend(FilledToken, s.threads, pc);
    }
  }

  // ----- every run

  lemma InvStep(s: State, s': State)
    requires Inv(s) && Next(s, s')
    ensures Inv(s')
  {
    if MainStep(s, s') {
      MainStepInv(s, s');
    } else {
      hide Fifo, MutexOk, EmptyConserved, FilledConserved, RequestOk, MessagesOk, FaultOk, ThreadStep;
      var t: nat :| ThreadStep(s, t, s');
      ThreadStepMutex(s, t, s');
      ThreadStepTokens(s, t, s');
      ThreadStepMessages(s, t, s');
    }
  }

  lemma {:induction false} InvRun(run: seq<State>, size: nat, i: nat)
    requires Run(run, size) && i < |run|
    ensures Inv(run[i])
  {
    hide Inv, Next, Init;
    if i == 0 {
      InvInit(run[0], size);
    } else {
      InvRun(run, size, i - 1);
      assert Next(run[i - 1], run[i - 1 + 1]);
      InvStep(run[i - 1], run[i]);
    }
  }
}
