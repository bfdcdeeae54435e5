/** What the producer and consumer processes guarantee over whole runs, whoever is killed and
    when, and exactly where the guarantees end. */
module ProcessResults {
  import opened Checksum
  import opened SharedRing
  import opened Processes
  import opened ProcessSafety

  // ----- conservation

  /** Whenever the mutex is free, the queued messages account for all filled tokens and, with
      the empty tokens, for the whole capacity, the lost ones included. */
  lemma TokensConserved(run: seq<State>, capacity: nat, i: nat)
    requires Run(run, capacity) && i < |run| && run[i].sh.mutex > 0
    ensures var s, sh := run[i], run[i].sh;
            && sh.ring.count == sh.filled + Held(FilledToken, s.procs) + sh.lostF
            && capacity == sh.empty + Held(EmptyToken, s.procs) + sh.ring.count + sh.lostE
            && sh.ring.count <= capacity - 1
  {
    hide Run, Held, Contents;
    InvRun(run, capacity, i);
  }

  lemma LossStep(s: State, s': State)
    requires Next(s, s')
    ensures s.sh.lostE <= s'.sh.lostE && s.sh.lostF <= s'.sh.lostF
    ensures s.sh.kills <= s'.sh.kills && s.sh.exits <= s'.sh.exits
  {
    hide AddWrite, GetWrite, Genuine, Full, Held;
  }

  /** Lost tokens are never found again, and each death loses at most one. */
  lemma {:induction false} LossesAccumulate(run: seq<State>, capacity: nat, i: nat, j: nat)
    requires Run(run, capacity) && i <= j < |run|
    ensures run[i].sh.lostE <= run[j].sh.lostE && run[i].sh.lostF <= run[j].sh.lostF
    ensures run[j].sh.lostE + run[j].sh.lostF <= run[j].sh.kills + run[j].sh.exits
  {
    hide Next, Inv, Init;
    if i < j {
      LossesAccumulate(run, capacity, i, j - 1);
      assert Next(run[j - 1], run[j - 1 + 1]);
      hide Run;
      LossStep(run[j - 1], run[j]);
    }
    InvRun(run, capacity, j);
    TokensBound(run[j], capacity);
  }

  lemma TokensBound(s: State, capacity: nat)
    requires Inv(s, capacity)
    ensures s.sh.lostE + s.sh.lostF <= s.sh.kills + s.sh.exits
  {
  }

  // ----- the two exits

  /** A consumer with its token and the mutex always finds a message: the exit of
      get_message_from_queue is unreachable, kills or not. */
  lemma EmptyExitUnreachable(run: seq<State>, capacity: nat, i: nat, t: nat)
    requires Run(run, capacity) && i < |run| && t < |run[i].procs|
    requires run[i].procs[t].CGet? && run[i].procs[t].writes == 0
    ensures run[i].sh.ring.count > 0
  {
    hide Run, Held, Contents, Valid;
    InvRun(run, capacity, i);
    HeldCovers(FilledToken, run[i].procs, t);
  }

  /** The exit of add_message_to_queue is taken exactly by a producer that holds the only empty
      token there is, when none has been lost: the semaphore lets capacity messages in, the
      guard one less. */
  lemma AddExitsIff(run: seq<State>, capacity: nat, i: nat, t: nat)
    requires Run(run, capacity) && i < |run| && t < |run[i].procs|
    requires run[i].procs[t].PAdd? && run[i].procs[t].writes == 0
    ensures Full(run[i].sh.ring) <==>
            run[i].sh.empty == 0 && Held(EmptyToken, run[i].procs) == 1 && run[i].sh.lostE == 0
  {
    hide Run, Held, Contents;
    InvRun(run, capacity, i);
    HeldCovers(EmptyToken, run[i].procs, t);
  }

  // ----- order and integrity

  /** FIFO over whole runs, kills included: messages come out in the order they went in, the
      ring holds the rest, the indices stay in range and follow the totals. */
  lemma FifoOverRuns(run: seq<State>, capacity: nat, i: nat)
    requires Run(run, capacity) && i < |run|
    ensures var sh := run[i].sh;
            && sh.extracted <= sh.added
            && (sh.mutex > 0 ==>
                  && |sh.ring.cells| == capacity && Contents(sh.ring) == sh.added[|sh.extracted|..]
                  && sh.ring.added == |sh.added| && sh.ring.extracted == |sh.extracted|
                  && sh.ring.head <= capacity && sh.ring.head % capacity == |sh.added| % capacity
                  && sh.ring.tail <= capacity && sh.ring.tail % capacity == |sh.extracted| % capacity)
  {
    hide Run, Held, Contents, Next, Init;
    InvRun(run, capacity, i);
    var sh := run[i].sh;
    assert |sh.added| == |sh.extracted| + |Contents(sh.committed)|;
    ContentsSize(sh.committed);
    if sh.mutex > 0 {
      SlotMod(sh.ring.head, capacity);
      SlotMod(sh.ring.tail, capacity);
    }
  }

  lemma SlotMod(index: nat, n: nat)
    requires n > 0 && index <= n
    ensures index % n == Slot(index, n)
  {
  }

  /** Every message that a consumer checks passes the check, and every message ever delivered
      is one that was sealed by a producer. */
  lemma EveryDeliveryVerifies(run: seq<State>, capacity: nat, i: nat, t: nat)
    requires Run(run, capacity) && i < |run| && t < |run[i].procs|
    ensures run[i].procs[t].CVerify? ==> Genuine(run[i].procs[t].msg)
    ensures forall m :: m in run[i].sh.extracted ==> Genuine(m)
  {
    hide Run, Held, Contents, Genuine;
    InvRun(run, capacity, i);
    forall m | m in run[i].sh.extracted ensures Genuine(m) {
      assert m in run[i].sh.added;
    }
  }

  // ----- the mutex

  /** The process that took the mutex died before signalling it. */
  predicate LockLost(s: State) {
    0 <= s.sh.holder < |s.procs| && s.procs[s.sh.holder].Dead?
  }

  /** The mutex is down with nobody alive to signal it, exactly when its holder died. */
  lemma LockLostIff(run: seq<State>, capacity: nat, i: nat)
    requires Run(run, capacity) && i < |run|
    ensures LockLost(run[i]) <==>
            run[i].sh.mutex == 0 && forall t :: 0 <= t < |run[i].procs| ==> !Critical(run[i].procs[t])
  {
    hide Run, Held, Contents, Valid, Genuine;
    InvRun(run, capacity, i);
    var s := run[i];
    if s.sh.mutex == 0 && !LockLost(s) {
      assert Critical(s.procs[s.sh.holder]);
    }
  }

  lemma LockLostStep(s: State, s': State, capacity: nat)
    requires Inv(s, capacity) && Next(s, s') && LockLost(s)
    ensures LockLost(s') && s'.sh.mutex == 0 && s'.sh.ring == s.sh.ring
    ensures s'.sh.added == s.sh.added && s'.sh.extracted == s.sh.extracted
  {
    hide Held, Contents, Valid, Genuine, Full, AddMove, GetMove, RingOk, TokensOk, LogsOk, GenuineOk;
    if !Spawn(s, s') {
      var t: nat :| ProcessStep(s, t, s') || Kill(s, t, s');
      assert !Critical(s.procs[t]);
    }
  }

  /** Once a process has died holding the mutex, the buffer is frozen for good: no process
      ever enters again, and nothing more is added or extracted. */
  lemma {:induction false} LockLossIsForever(run: seq<State>, capacity: nat, i: nat, j: nat)
    requires Run(run, capacity) && i <= j < |run| && LockLost(run[i])
    ensures LockLost(run[j]) && run[j].sh.mutex == 0 && run[j].sh.ring == run[i].sh.ring
    ensures run[j].sh.added == run[i].sh.added && run[j].sh.extracted == run[i].sh.extracted
  {
    hide Next, Inv, Init, LockLost;
    if i < j {
      LockLossIsForever(run, capacity, i, j - 1);
      assert Next(run[j - 1], run[j - 1 + 1]);
      hide Run;
      InvRun(run, capacity, j - 1);
      LockLostStep(run[j - 1], run[j], capacity);
    } else {
      hide Run;
      InvRun(run, capacity, i);
      LockLostIff(run, capacity, i);
    }
  }

  lemma DeathStep(s: State, s': State)
    requires Next(s, s')
    requires s.sh.kills + s.sh.exits == 0 ==> forall t :: 0 <= t < |s.procs| ==> !s.procs[t].Dead?
    ensures s'.sh.kills + s'.sh.exits == 0 ==> forall t :: 0 <= t < |s'.procs| ==> !s'.procs[t].Dead?
  {
    hide AddWrite, GetWrite, Genuine, Full, Held;
  }

  /** Without kills and exits nothing is lost, neither a token nor the mutex. */
  lemma {:induction false} NothingLostWithoutDeath(run: seq<State>, capacity: nat, i: nat)
    requires Run(run, capacity) && i < |run| && run[i].sh.kills + run[i].sh.exits == 0
    ensures forall t :: 0 <= t < |run[i].procs| ==> !run[i].procs[t].Dead?
    ensures !LockLost(run[i]) && run[i].sh.lostE == run[i].sh.lostF == 0
  {
    if i > 0 {
      assert Next(run[i - 1], run[i - 1 + 1]);
      LossStep(run[i - 1], run[i]);
      NothingLostWithoutDeath(run, capacity, i - 1);
      hide Run, Next;
      DeathStep(run[i - 1], run[i]);
    }
    LossesAccumulate(run, capacity, i, i);
  }

  // ----- progress

  predicate Producer(pc: Pc) {
    pc.PMake? || pc.PWantSlot? || pc.PWantMutex? || pc.PAdd? || pc.PAnnounce?
  }

  predicate Consumer(pc: Pc) {
    !Producer(pc) && !pc.Dead?
  }

  predicate Blocked(sh: Shared, pc: Pc) {
    || (pc.PWantSlot? && sh.empty == 0) || (pc.CIdle? && sh.filled == 0)
    || ((pc.PWantMutex? || pc.CWantMutex?) && sh.mutex == 0) || pc.Dead?
  }

  lemma SomeGenuine() returns (m: Image)
    ensures Genuine(m)
  {
    m := WithHash(Blank(), ChecksumOf(Blank()));
    HashFieldIgnored(Blank(), m);
  }

  lemma UnblockedMoves(sh: Shared, pc: Pc, t: nat) returns (sh': Shared, pc': Pc)
    requires Valid(sh.committed) && !Blocked(sh, pc) && (Critical(pc) ==> Inside(sh, pc))
    ensures ProducerMove(t, sh, pc, sh', pc') || ConsumerMove(t, sh, pc, sh', pc')
    ensures pc' != pc
  {
    hide Contents, Genuine;
    sh', pc' := sh, pc;
    match pc {
      case PMake => var m := SomeGenuine(); pc' := PWantSlot(m);
      case PWantSlot(m) => sh', pc' := sh.(empty := sh.empty - 1), PWantMutex(m);
      case PWantMutex(m) => sh', pc' := sh.(mutex := sh.mutex - 1, holder := t), PAdd(m, 0);
      case PAdd(m, k) =>
        if k == 0 && Full(sh.ring) {
          sh', pc' := Lose(sh, pc).(exits := sh.exits + 1), Dead;
        } else if k == 5 {
          sh', pc' := sh.(mutex := sh.mutex + 1, holder := FREE, committed := sh.ring, added := sh.added + [m]), PAnnounce;
        } else {
          sh', pc' := sh.(ring := AddWrite(sh.ring, m, k)), PAdd(m, k + 1);
        }
      case PAnnounce => sh', pc' := sh.(filled := sh.filled + 1), PMake;
      case CIdle => sh', pc' := sh.(filled := sh.filled - 1), CWantMutex;
      case CWantMutex => sh', pc' := sh.(mutex := sh.mutex - 1, holder := t), CGet(Blank(), 0);
      case CGet(m, k) =>
        if k == 0 && sh.ring.count == 0 {
          sh', pc' := Lose(sh, pc).(exits := sh.exits + 1), Dead;
        } else if k == 5 {
          sh' := sh.(mutex := sh.mutex + 1, holder := FREE, committed := sh.ring, extracted := sh.extracted + [m]);
          pc' := CRelease(m);
        } else {
          sh' := sh.(ring := GetWrite(sh.ring, k));
          pc' := CGet(if k == 1 then sh.ring.cells[sh.ring.tail] else m, k + 1);
        }
      case CRelease(m) => sh', pc' := sh.(empty := sh.empty + 1), CVerify(m);
      case CVerify(m) => pc' := CIdle;
    }
  }

  lemma {:induction false} NothingHeld(sh: Shared, ps: seq<Pc>)
    requires sh.mutex > 0 && forall t :: 0 <= t < |ps| ==> Blocked(sh, ps[t])
    ensures Held(EmptyToken, ps) == Held(FilledToken, ps) == 0
  {
    if ps != [] {
      assert Blocked(sh, ps[0]);
      NothingHeld(sh, ps[1..]);
    }
  }

  lemma SomeUnblocked(s: State, capacity: nat)
    requires TokensOk(s, capacity) && s.sh.mutex > 0 && s.sh.empty == 0 && s.sh.filled == 0
    requires s.sh.lostE + s.sh.lostF < capacity
    ensures exists t: nat :: t < |s.procs| && !Blocked(s.sh, s.procs[t])
  {
    if forall t :: 0 <= t < |s.procs| ==> Blocked(s.sh, s.procs[t]) {
      NothingHeld(s.sh, s.procs);
    }
  }

  /** With a producer and a consumer alive, the mutex not lost and fewer tokens lost than the
      buffer has cells, some process can move. What happens otherwise, and when the buffer is
      still usable, is in module ProcessLiveness. */
  lemma NoDeadlock(run: seq<State>, capacity: nat, i: nat, p: nat, c: nat)
    requires Run(run, capacity) && i < |run| && p < |run[i].procs| && c < |run[i].procs|
    requires Producer(run[i].procs[p]) && Consumer(run[i].procs[c]) && !LockLost(run[i])
    requires run[i].sh.lostE + run[i].sh.lostF < capacity
    ensures exists t: nat, s' :: ProcessStep(run[i], t, s')
  {
    hide Run, Held, Contents, Valid, Genuine, Full, ProducerMove, ConsumerMove, LogsOk, GenuineOk;
    InvRun(run, capacity, i);
    var s := run[i];
    var t: nat := p;
    if s.sh.mutex == 0 {
      t := s.sh.holder;
    } else if Blocked(s.sh, s.procs[p]) {
      if Blocked(s.sh, s.procs[c]) {
        SomeUnblocked(s, capacity);
        t :| t < |s.procs| && !Blocked(s.sh, s.procs[t]);
      } else {
        t := c;
      }
    }
    var sh', pc' := UnblockedMoves(s.sh, s.procs[t], t);
    assert ProcessStep(s, t, State(sh', s.procs[t := pc']));
  }

  // ----- the exit on a full queue is reachable

  ghost predicate Filling(run: seq<State>, capacity: nat, n: nat) {
    && Run(run, capacity)
    && var s := run[|run| - 1];
       s.procs == [PMake] && s.sh.mutex == 1 && s.sh.committed.count == n
       && s.sh.kills == s.sh.exits == 0 && s.sh.extracted == []
  }

  lemma Extend(run: seq<State>, capacity: nat, s': State) returns (r: seq<State>)
    requires Run(run, capacity) && Next(run[|run| - 1], s')
    ensures r == run + [s'] && Run(r, capacity)
  {
    hide Next, Init;
    r := run + [s'];
    forall i | 0 <= i < |r| - 1 ensures Next(r[i], r[i + 1]) {
      if i < |run| - 1 {
        assert Next(run[i], run[i + 1]);
      }
    }
  }

  /** Process t moves on. */
  lemma ExtendProcess(run: seq<State>, capacity: nat, t: nat, sh': Shared, pc': Pc) returns (r: seq<State>)
    requires Run(run, capacity) && t < |run[|run| - 1].procs|
    requires var s := run[|run| - 1];
             ProducerMove(t, s.sh, s.procs[t], sh', pc') || ConsumerMove(t, s.sh, s.procs[t], sh', pc')
    ensures r == run + [State(sh', run[|run| - 1].procs[t := pc'])] && Run(r, capacity)
  {
    hide ProducerMove, ConsumerMove, Init;
    var s, s' := run[|run| - 1], State(sh', run[|run| - 1].procs[t := pc']);
    assert ProcessStep(s, t, s');
    r := Extend(run, capacity, s');
  }

  /** A lone producer gets from generating a message into the critical section. */
  lemma Enter(run: seq<State>, capacity: nat, n: nat) returns (r: seq<State>, m: Image)
    requires Filling(run, capacity, n) && n < capacity
    ensures Run(r, capacity)
    ensures var s := r[|r| - 1];
            && s.procs == [PAdd(m, 0)] && s.sh.ring == s.sh.committed && s.sh.committed.count == n
            && s.sh.mutex == 0 && s.sh.kills == s.sh.exits == 0 && s.sh.extracted == [] && Inv(s, capacity)
  {
    hide Next, Init, Contents, Genuine;
    var sh := run[|run| - 1].sh;
    InvRun(run, capacity, |run| - 1);
    LossesAccumulate(run, capacity, |run| - 1, |run| - 1);
    assert [PMake][1..] == [];
    m := SomeGenuine();
    r := ExtendProcess(run, capacity, 0, sh, PWantSlot(m));
    r := ExtendProcess(r, capacity, 0, sh.(empty := sh.empty - 1), PWantMutex(m));
    r := ExtendProcess(r, capacity, 0, sh.(empty := sh.empty - 1, mutex := 0, holder := 0), PAdd(m, 0));
    InvRun(r, capacity, |r| - 1);
  }

  /** One more message, by the lone producer. */
  lemma FillOne(run: seq<State>, capacity: nat, n: nat) returns (r: seq<State>)
    requires Filling(run, capacity, n) && n + 1 < capacity
    ensures Filling(r, capacity, n + 1)
  {
    hide Next, Init, Contents, Genuine, ProducerMove;
    var m: Image;
    r, m := Enter(run, capacity, n);
    var sh := r[|r| - 1].sh;
    var k: nat := 0;
    while k < 5
      invariant k <= 5 && Run(r, capacity) && r[|r| - 1].procs == [PAdd(m, k)]
      invariant k == 0 ==> r[|r| - 1].sh.ring.count == n
      invariant r[|r| - 1].sh == sh.(ring := r[|r| - 1].sh.ring) && sh.committed.count == n
    {
      InvRun(r, capacity, |r| - 1);
      r := WriteOne(r, capacity, m, k);
      k := k + 1;
    }
    InvRun(r, capacity, |r| - 1);
    r := CommitOne(r, capacity, m, n);
  }

  lemma WriteOne(run: seq<State>, capacity: nat, m: Image, k: nat) returns (r: seq<State>)
    requires Run(run, capacity) && run[|run| - 1].procs == [PAdd(m, k)] && k < 5
    requires k == 0 ==> run[|run| - 1].sh.ring.count + 1 < capacity
    ensures Run(r, capacity) && r[|r| - 1].procs == [PAdd(m, k + 1)]
    ensures r[|r| - 1].sh == run[|run| - 1].sh.(ring := r[|r| - 1].sh.ring)
  {
    hide Next, Init, Contents, Genuine;
    InvRun(run, capacity, |run| - 1);
    var sh := run[|run| - 1].sh;
    r := ExtendProcess(run, capacity, 0, sh.(ring := AddWrite(sh.ring, m, k)), PAdd(m, k + 1));
  }

  lemma CommitOne(run: seq<State>, capacity: nat, m: Image, n: nat) returns (r: seq<State>)
    requires Run(run, capacity) && run[|run| - 1].procs == [PAdd(m, 5)] && run[|run| - 1].sh.mutex == 0
    requires run[|run| - 1].sh.kills == run[|run| - 1].sh.exits == 0 && run[|run| - 1].sh.committed.count == n
    requires run[|run| - 1].sh.extracted == []
    ensures Filling(r, capacity, n + 1)
  {
    hide Next, Init, Contents, Genuine;
    InvRun(run, capacity, |run| - 1);
    var sh := run[|run| - 1].sh;
    var done := sh.(mutex := 1, holder := FREE, committed := sh.ring, added := sh.added + [m]);
    r := ExtendProcess(run, capacity, 0, done, PAnnounce);
    r := ExtendProcess(r, capacity, 0, done.(filled := done.filled + 1), PMake);
  }

  lemma {:induction false} FillUp(capacity: nat, n: nat) returns (r: seq<State>)
    requires n < capacity
    ensures Filling(r, capacity, n)
  {
    if n == 0 {
      var ring := Fresh(seq(capacity, _ => Blank()));
      var s := State(Shared(ring, 1, capacity, 0, FREE, ring, [], [], 0, 0, 0, 0), []);
      r := [s, State(s.sh, [PMake])];
      assert Spawn(r[0], r[1]);
    } else {
      r := FillUp(capacity, n - 1);
      hide Next, Init;
      r := FillOne(r, capacity, n - 1);
    }
  }

  /** For every capacity there is a run with a single producer, no consumer and no kill in which
      the producer exits on its capacity-th message, keeping the mutex for good. */
  lemma FullQueueLosesLock(capacity: nat) returns (run: seq<State>)
    requires capacity > 0
    ensures Run(run, capacity)
    ensures var s := run[|run| - 1]; LockLost(s) && s.sh.kills == 0 && s.sh.exits == 1 && |s.sh.added| == capacity - 1
  {
    hide Next, Init, Contents, Genuine;
    run := FillUp(capacity, capacity - 1);
    var m: Image;
    run, m := Enter(run, capacity, capacity - 1);
    var sh := run[|run| - 1].sh;
    ContentsSize(sh.committed);
    run := ExtendProcess(run, capacity, 0, Lose(sh, PAdd(m, 0)).(exits := 1), Dead);
  }
}
