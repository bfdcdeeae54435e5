/** Exactly when the shared buffer is still usable: whether any message can ever be added or
    extracted again, by the processes there are or by new ones. */
module ProcessLiveness {
  import opened Checksum
  import opened SharedRing
  import opened Processes
  import opened ProcessSafety
  import opened ProcessResults

  function Last(run: seq<State>): (s: State)
    requires run != []
  {
    run[|run| - 1]
  }

  /** A message has been added or extracted between the two states. */
  predicate Moved(s: State, s': State) {
    s'.sh.added != s.sh.added || s'.sh.extracted != s.sh.extracted
  }

  /** A producer is inside with a full queue: all it can do is exit or be killed. */
  predicate Doomed(s: State) {
    && 0 <= s.sh.holder < |s.procs| && s.procs[s.sh.holder].PAdd?
    && s.procs[s.sh.holder].writes == 0 && Full(s.sh.ring)
  }

  /** The mutex is neither lost nor about to be, some token is left, and the queue is not filled
      up with messages whose filled tokens are lost. */
  predicate Live(s: State, capacity: nat) {
    && !LockLost(s) && !Doomed(s)
    && s.sh.lostE + s.sh.lostF < capacity && s.sh.lostF + 1 < capacity
  }

  // ----- a buffer that is not live is frozen

  /** Only the holder of the mutex, done with all its writes, adds or extracts. */
  lemma MovesInside(s: State, s': State, capacity: nat)
    requires Inv(s, capacity) && Next(s, s') && Moved(s, s')
    ensures 0 <= s.sh.holder < |s.procs| && Critical(s.procs[s.sh.holder]) && s.procs[s.sh.holder].writes == 5
    ensures s.procs[s.sh.holder].PAdd? ==> !Full(s.sh.committed)
    ensures s.procs[s.sh.holder].CGet? ==> s.sh.filled + Held(FilledToken, s.procs) > 0
  {
    hide Held, Contents, Valid, Genuine, GenuineOk, LogsOk, AddWrite, GetWrite, Full;
    var t: nat :| ProcessStep(s, t, s') || Kill(s, t, s');
    HeldCovers(FilledToken, s.procs, t);
  }

  /** The ring changes only under the hands of the holder, and a lost mutex stays lost. */
  lemma FrozenStep(s: State, s': State, capacity: nat)
    requires Inv(s, capacity) && Next(s, s') && !Live(s, capacity)
    ensures !Live(s', capacity) && !Moved(s, s')
  {
    LossStep(s, s');
    if LockLost(s) {
      LockLostStep(s, s', capacity);
    } else {
      if 0 <= s.sh.holder < |s.procs| {
        HeldCovers(EmptyToken, s.procs, s.sh.holder);
        HeldCovers(FilledToken, s.procs, s.sh.holder);
      }
      assert !Moved(s, s') by {
        hide Next;
        if Moved(s, s') {
          MovesInside(s, s', capacity);
        }
      }
      if Doomed(s) {
        DoomedStep(s, s', capacity);
      }
    }
  }

  lemma DoomedStep(s: State, s': State, capacity: nat)
    requires Inv(s, capacity) && Next(s, s') && Doomed(s)
    ensures LockLost(s') || Doomed(s')
  {
    hide Held, Contents, Valid, Genuine, GenuineOk, LogsOk, TokensOk, AddWrite, GetWrite, GetMove;
    if !Spawn(s, s') {
      var t: nat :| ProcessStep(s, t, s') || Kill(s, t, s');
      assert t != s.sh.holder ==> !Critical(s.procs[t]);
    }
  }

  lemma {:induction false} StaysFrozen(run: seq<State>, capacity: nat, i: nat, j: nat)
    requires Run(run, capacity) && i <= j < |run| && !Live(run[i], capacity)
    ensures !Live(run[j], capacity) && !Moved(run[i], run[j])
  {
    hide Next, Inv, Init, Live;
    if i < j {
      StaysFrozen(run, capacity, i, j - 1);
      assert Next(run[j - 1], run[j - 1 + 1]);
      InvRun(run, capacity, j - 1);
      FrozenStep(run[j - 1], run[j], capacity);
    }
  }

  // ----- a live buffer can be used

  lemma ExtendSpawn(run: seq<State>, capacity: nat, pc: Pc) returns (r: seq<State>)
    requires Run(run, capacity) && (pc == PMake || pc == CIdle)
    ensures r == run + [State(Last(run).sh, Last(run).procs + [pc])] && Run(r, capacity)
  {
    hide Init;
    r := Extend(run, capacity, State(Last(run).sh, Last(run).procs + [pc]));
  }

  /** One write by a holder whose guard does not fail, or the signal after the last one. */
  lemma InsideAdvances(sh: Shared, pc: Pc, t: nat) returns (sh': Shared, pc': Pc)
    requires Valid(sh.committed) && Critical(pc) && Inside(sh, pc)
    requires pc.writes == 0 ==> if pc.PAdd? then !Full(sh.ring) else sh.ring.count > 0
    ensures ProducerMove(t, sh, pc, sh', pc') || ConsumerMove(t, sh, pc, sh', pc')
    ensures pc.writes <= 5
    ensures pc.writes < 5 ==> Critical(pc') && pc'.writes == pc.writes + 1 && sh' == sh.(ring := sh'.ring)
    ensures pc.writes == 5 ==> |sh'.added| + |sh'.extracted| == |sh.added| + |sh.extracted| + 1
  {
    hide Contents, Genuine;
    sh', pc' := UnblockedMoves(sh, pc, t);
    hide AddWrite, GetWrite, Slot;
  }

  lemma {:induction false} FinishInside(run: seq<State>, capacity: nat, t: nat) returns (r: seq<State>)
    requires Run(run, capacity) && t < |Last(run).procs| && Critical(Last(run).procs[t])
    requires var pc, sh := Last(run).procs[t], Last(run).sh;
             pc.writes == 0 ==> if pc.PAdd? then !Full(sh.ring) else sh.ring.count > 0
    ensures Run(r, capacity) && run < r
    ensures |Last(r).sh.added| + |Last(r).sh.extracted| == |Last(run).sh.added| + |Last(run).sh.extracted| + 1
    decreases 5 - Last(run).procs[t].writes
  {
    hide Next, Init, Contents, Genuine, Valid, Full, ProducerMove, ConsumerMove, Held;
    InvRun(run, capacity, |run| - 1);
    var sh, pc := Last(run).sh, Last(run).procs[t];
    assert Inside(sh, pc);
    hide Inv, Inside;
    var sh', pc' := InsideAdvances(sh, pc, t);
    r := ExtendProcess(run, capacity, t, sh', pc');
    if pc.writes < 5 {
      r := FinishInside(r, capacity, t);
    }
  }

  /** A process that has its token takes the free mutex and gets its message through. */
  lemma EnterAndFinish(run: seq<State>, capacity: nat, t: nat) returns (r: seq<State>)
    requires Run(run, capacity) && t < |Last(run).procs| && Last(run).sh.mutex > 0
    requires Last(run).procs[t].CWantMutex? || (Last(run).procs[t].PWantMutex? && !Full(Last(run).sh.ring))
    ensures Run(r, capacity) && run < r
    ensures |Last(r).sh.added| + |Last(r).sh.extracted| == |Last(run).sh.added| + |Last(run).sh.extracted| + 1
  {
    hide Next, Init, Contents, Genuine;
    InvRun(run, capacity, |run| - 1);
    HeldCovers(FilledToken, Last(run).procs, t);
    hide Held, Inv;
    var sh, pc := Last(run).sh, Last(run).procs[t];
    var inside := if pc.PWantMutex? then PAdd(pc.msg, 0) else CGet(Blank(), 0);
    var mid := ExtendProcess(run, capacity, t, sh.(mutex := sh.mutex - 1, holder := t), inside);
    r := FinishInside(mid, capacity, t);
  }

  lemma UseFilled(run: seq<State>, capacity: nat) returns (r: seq<State>)
    requires Run(run, capacity) && Last(run).sh.mutex > 0 && Last(run).sh.filled > 0
    ensures Run(r, capacity) && run < r
    ensures |Last(r).sh.added| + |Last(r).sh.extracted| == |Last(run).sh.added| + |Last(run).sh.extracted| + 1
  {
    hide Next, Init, Full;
    var t, sh := |Last(run).procs|, Last(run).sh;
    r := ExtendSpawn(run, capacity, CIdle);
    r := ExtendProcess(r, capacity, t, sh.(filled := sh.filled - 1), CWantMutex);
    r := EnterAndFinish(r, capacity, t);
  }

  lemma UseEmpty(run: seq<State>, capacity: nat) returns (r: seq<State>)
    requires Run(run, capacity) && Last(run).sh.mutex > 0 && Last(run).sh.empty > 0 && !Full(Last(run).sh.ring)
    ensures Run(r, capacity) && run < r
    ensures |Last(r).sh.added| + |Last(r).sh.extracted| == |Last(run).sh.added| + |Last(run).sh.extracted| + 1
  {
    hide Next, Init, Full, Genuine;
    var t, sh := |Last(run).procs|, Last(run).sh;
    var m := SomeGenuine();
    r := ExtendSpawn(run, capacity, PMake);
    r := ExtendProcess(r, capacity, t, sh, PWantSlot(m));
    r := ExtendProcess(r, capacity, t, sh.(empty := sh.empty - 1), PWantMutex(m));
    r := EnterAndFinish(r, capacity, t);
  }

  lemma {:induction false} SomeHolder(k: Token, ps: seq<Pc>) returns (t: nat)
    requires Held(k, ps) > 0
    ensures t < |ps| && Holding(k, ps[t]) == 1
  {
    if Holding(k, ps[0]) == 1 {
      t := 0;
    } else {
      t := SomeHolder(k, ps[1..]);
      t := t + 1;
    }
  }

  /** A filled token in somebody's hands gets a message out. */
  lemma UseHeldFilled(run: seq<State>, capacity: nat) returns (r: seq<State>)
    requires Run(run, capacity) && Last(run).sh.mutex > 0 && Held(FilledToken, Last(run).procs) > 0
    ensures Run(r, capacity) && run < r
    ensures |Last(r).sh.added| + |Last(r).sh.extracted| == |Last(run).sh.added| + |Last(run).sh.extracted| + 1
  {
    hide Next, Init, Full, Contents, Genuine;
    var t := SomeHolder(FilledToken, Last(run).procs);
    var sh := Last(run).sh;
    InvRun(run, capacity, |run| - 1);
    if Last(run).procs[t].CWantMutex? {
      r := EnterAndFinish(run, capacity, t);
    } else {
      r := ExtendProcess(run, capacity, t, sh.(filled := sh.filled + 1), PMake);
      r := UseFilled(r, capacity);
    }
  }

  /** An empty token in somebody's hands gets a message in, if the queue is not full. */
  lemma UseHeldEmpty(run: seq<State>, capacity: nat) returns (r: seq<State>)
    requires Run(run, capacity) && Last(run).sh.mutex > 0 && Held(EmptyToken, Last(run).procs) > 0
    requires !Full(Last(run).sh.ring)
    ensures Run(r, capacity) && run < r
    ensures |Last(r).sh.added| + |Last(r).sh.extracted| == |Last(run).sh.added| + |Last(run).sh.extracted| + 1
  {
    hide Next, Init, Full, Contents, Genuine;
    var t := SomeHolder(EmptyToken, Last(run).procs);
    var sh := Last(run).sh;
    InvRun(run, capacity, |run| - 1);
    var pc := Last(run).procs[t];
    if pc.PWantMutex? {
      r := EnterAndFinish(run, capacity, t);
    } else {
      r := ExtendProcess(run, capacity, t, sh.(empty := sh.empty + 1), CVerify(pc.msg));
      r := UseEmpty(r, capacity);
    }
  }

  lemma LiveMoves(run: seq<State>, capacity: nat) returns (r: seq<State>)
    requires Run(run, capacity) && Live(Last(run), capacity)
    ensures Run(r, capacity) && run < r && Moved(Last(run), Last(r))
  {
    hide Next, Init, Contents, Genuine, Held;
    InvRun(run, capacity, |run| - 1);
    var s := Last(run);
    if s.sh.mutex == 0 {
      HeldCovers(FilledToken, s.procs, s.sh.holder);
      r := FinishInside(run, capacity, s.sh.holder);
    } else if s.sh.filled > 0 {
      r := UseFilled(run, capacity);
    } else if Held(FilledToken, s.procs) > 0 {
      r := UseHeldFilled(run, capacity);
    } else if s.sh.empty > 0 {
      r := UseEmpty(run, capacity);
    } else {
      r := UseHeldEmpty(run, capacity);
    }
  }

  /** After any run, some continuation adds or extracts a message if and only if the buffer is
      live. So once the mutex is lost, or all tokens, or all filled tokens of a full queue, the
      buffer is frozen for good, and as long as none of this has happened it is usable. */
  lemma BufferLiveIff(run: seq<State>, capacity: nat)
    requires Run(run, capacity)
    ensures (exists r: seq<State> :: Run(r, capacity) && run <= r && Moved(Last(run), Last(r)))
            <==> Live(Last(run), capacity)
  {
    hide Next, Init, Live, Moved;
    if Live(Last(run), capacity) {
      var r := LiveMoves(run, capacity);
      assert Run(r, capacity) && run <= r && Moved(Last(run), Last(r));
    } else {
      forall r: seq<State> | Run(r, capacity) && run <= r ensures !Moved(Last(run), Last(r)) {
        assert r[|run| - 1] == Last(run);
        StaysFrozen(r, capacity, |run| - 1, |r| - 1);
      }
    }
  }

  // ----- kills alone can use up all tokens

  lemma Bury(run: seq<State>, capacity: nat, n: nat) returns (r: seq<State>)
    requires Run(run, capacity) && n < capacity
    requires var sh := Last(run).sh; sh.mutex == 1 && sh.empty == capacity - n && sh.lostE == n && sh.kills == n && sh.exits == 0
    ensures Run(r, capacity)
    ensures var sh := Last(r).sh;
            sh.mutex == 1 && sh.empty == capacity - n - 1 && sh.lostE == n + 1 && sh.kills == n + 1 && sh.exits == 0
  {
    hide Next, Init, Genuine;
    var t, sh := |Last(run).procs|, Last(run).sh;
    var m := SomeGenuine();
    r := ExtendSpawn(run, capacity, PMake);
    r := ExtendProcess(r, capacity, t, sh, PWantSlot(m));
    r := ExtendProcess(r, capacity, t, sh.(empty := sh.empty - 1), PWantMutex(m));
    var s := Last(r);
    var s' := State(Lose(s.sh, s.procs[t]).(kills := s.sh.kills + 1), s.procs[t := Dead]);
    assert Next(s, s') by { KillIsNext(s, t, s'); }
    r := Extend(r, capacity, s');
  }

  lemma KillIsNext(s: State, t: nat, s': State)
    requires Kill(s, t, s')
    ensures Next(s, s')
  {
  }

  lemma {:induction false} BuryMany(capacity: nat, n: nat) returns (r: seq<State>)
    requires 0 < capacity && n <= capacity
    ensures Run(r, capacity)
    ensures var sh := Last(r).sh;
            sh.mutex == 1 && sh.empty == capacity - n && sh.lostE == n && sh.kills == n && sh.exits == 0
  {
    if n == 0 {
      var ring := Fresh(seq(capacity, _ => Blank()));
      r := [State(Shared(ring, 1, capacity, 0, FREE, ring, [], [], 0, 0, 0, 0), [])];
    } else {
      r := BuryMany(capacity, n - 1);
      hide Next, Init;
      r := Bury(r, capacity, n - 1);
    }
  }

  /** For every capacity, killing that many producers, each holding an empty token, freezes the
      buffer although the mutex is free and a producer and a consumer are alive. */
  lemma DrainedByKills(capacity: nat) returns (run: seq<State>)
    requires capacity > 0
    ensures Run(run, capacity)
    ensures var s := Last(run);
            && s.sh.mutex == 1 && s.sh.lostE == capacity == s.sh.kills && s.sh.exits == 0 && !Live(s, capacity)
            && |s.procs| >= 2 && Producer(s.procs[|s.procs| - 2]) && Consumer(s.procs[|s.procs| - 1])
  {
    hide Next, Init;
    run := BuryMany(capacity, capacity);
    run := ExtendSpawn(run, capacity, PMake);
    run := ExtendSpawn(run, capacity, CIdle);
  }
}
