/** What a kill inside the critical section leaves behind, for every single write, and what the
    semaphores say when nobody holds anything. */
module ProcessKills {
  import opened Checksum
  import opened SharedRing
  import opened Processes
  import opened ProcessSafety
  import opened ProcessResults
  import opened ProcessLiveness

  /** A process that adds m has made `writes` of its five writes, in the order of the source: the
      head wraps, the message is copied, the head, the count and the total go up. c is the ring
      before them; while the message is copied its cell may hold anything. */
  predicate AddedSoFar(c: Ring, r: Ring, m: Image, writes: nat) {
    var n := |c.cells|;
    var h := if c.head == n then 0 else c.head;
    && |r.cells| == n && r.tail == c.tail && r.extracted == c.extracted && h < n
    && r.head == (if writes == 0 then c.head else if writes < 3 then h else h + 1)
    && r.count == c.count + (if writes < 4 then 0 else 1)
    && r.added == c.added + (if writes < 5 then 0 else 1)
    && (forall i :: 0 <= i < n && i != h ==> r.cells[i] == c.cells[i])
    && (writes == 0 ==> r.cells[h] == c.cells[h]) && (writes >= 2 ==> r.cells[h] == m)
  }

  /** The same for a process that gets a message: the tail wraps, the message is copied out, the
      tail goes up, the count down and the total up. */
  predicate GotSoFar(c: Ring, r: Ring, m: Image, writes: nat) {
    var n := |c.cells|;
    var h := if c.tail == n then 0 else c.tail;
    && r.cells == c.cells && r.head == c.head && r.added == c.added && h < n
    && r.tail == (if writes == 0 then c.tail else if writes < 3 then h else h + 1)
    && r.count == c.count - (if writes < 4 then 0 else 1)
    && r.extracted == c.extracted + (if writes < 5 then 0 else 1)
    && (writes >= 2 ==> m == c.cells[h])
  }

  lemma AddingSoFar(c: Ring, r: Ring, m: Image, k: nat)
    requires Valid(c) && Adding(c, r, m, k)
    ensures AddedSoFar(c, r, m, k)
  {
    IndexInside(c);
    hide Contents, Valid, Full;
    var h := Slot(c.head, |c.cells|);
    if k == 1 {
      var done := AddSoFar(c, m, 2);
      assert r.cells[r.head := m] == done.cells == c.cells[h := m] && r.head == h;
      forall i | 0 <= i < |c.cells| && i != h ensures r.cells[i] == c.cells[i] {
        assert r.cells[r.head := m][i] == c.cells[h := m][i];
      }
    }
  }

  lemma GettingSoFar(c: Ring, r: Ring, m: Image, k: nat)
    requires Valid(c) && Getting(c, r, m, k)
    ensures GotSoFar(c, r, m, k)
  {
    IndexInside(c);
    hide Contents, Valid;
  }

  lemma IndexInside(c: Ring)
    requires Valid(c)
    ensures c.head <= |c.cells| && Slot(c.head, |c.cells|) < |c.cells|
    ensures c.tail <= |c.cells| && Slot(c.tail, |c.cells|) < |c.cells|
  {
  }

  /** Every live process can be killed in every state. The kill changes neither the ring nor the
      semaphores, and loses the token the process holds or owes, if any. */
  lemma KillAnywhere(s: State, t: nat)
    requires t < |s.procs| && !s.procs[t].Dead?
    ensures var pc := s.procs[t];
            var e := if pc.PWantMutex? || pc.PAdd? || pc.CRelease? then 1 else 0;
            var f := if pc.CWantMutex? || pc.CGet? || pc.PAnnounce? then 1 else 0;
            Next(s, State(s.sh.(lostE := s.sh.lostE + e, lostF := s.sh.lostF + f, kills := s.sh.kills + 1), s.procs[t := Dead]))
  {
    KillIsNext(s, t, State(Lose(s.sh, s.procs[t]).(kills := s.sh.kills + 1), s.procs[t := Dead]));
    hide Next;
  }

  /** Every process inside the critical section has made exactly the writes it is credited with,
      so a kill there, which also loses the mutex, freezes the ring in that state. */
  lemma KillInside(run: seq<State>, capacity: nat, i: nat, t: nat)
    requires Run(run, capacity) && i < |run| && t < |run[i].procs|
    requires run[i].procs[t].PAdd? || run[i].procs[t].CGet?
    ensures var sh, pc := run[i].sh, run[i].procs[t];
            && pc.writes <= 5
            && (pc.PAdd? ==> AddedSoFar(sh.committed, sh.ring, pc.msg, pc.writes))
            && (pc.CGet? ==> GotSoFar(sh.committed, sh.ring, pc.msg, pc.writes))
    ensures exists s' ::
              && Next(run[i], s') && LockLost(s') && s'.procs == run[i].procs[t := Dead]
              && s'.sh.ring == run[i].sh.ring && s'.sh.kills == run[i].sh.kills + 1
  {
    hide Run, Contents, Valid, Genuine, Held, AddedSoFar, GotSoFar, Adding, Getting, Next;
    InvRun(run, capacity, i);
    var s := run[i];
    assert Inside(s.sh, s.procs[t]);
    if s.procs[t].PAdd? {
      AddingSoFar(s.sh.committed, s.sh.ring, s.procs[t].msg, s.procs[t].writes);
    } else {
      GettingSoFar(s.sh.committed, s.sh.ring, s.procs[t].msg, s.procs[t].writes);
    }
    AtMostFive(s.sh, s.procs[t]);
    KillAnywhere(s, t);
  }

  lemma AtMostFive(sh: Shared, pc: Pc)
    requires Valid(sh.committed) && Critical(pc) && Inside(sh, pc)
    ensures pc.writes <= 5
  {
    hide Contents, Valid;
  }

  // ----- every write can be the last one

  lemma {:induction false} AdvanceTo(run: seq<State>, capacity: nat, t: nat, k: nat) returns (r: seq<State>)
    requires Run(run, capacity) && t < |Last(run).procs| && Critical(Last(run).procs[t])
    requires Last(run).procs[t].writes <= k <= 5
    requires var pc, sh := Last(run).procs[t], Last(run).sh;
             pc.writes == 0 ==> if pc.PAdd? then !Full(sh.ring) else sh.ring.count > 0
    ensures Run(r, capacity) && t < |Last(r).procs| && Last(r).procs[t].PAdd? == Last(run).procs[t].PAdd?
    ensures Critical(Last(r).procs[t]) && Last(r).procs[t].writes == k && Last(r).sh.kills == Last(run).sh.kills
    decreases k - Last(run).procs[t].writes
  {
    hide Next, Init, Contents, Genuine, Valid, Full, Held;
    var sh, pc := Last(run).sh, Last(run).procs[t];
    if pc.writes == k {
      r := run;
    } else {
      InvRun(run, capacity, |run| - 1);
      assert Valid(sh.committed) && Inside(sh, pc);
      hide Inv, Inside;
      var sh', pc' := InsideAdvances(sh, pc, t);
      SameSide(t, sh, pc, sh', pc');
      r := ExtendProcess(run, capacity, t, sh', pc');
      hide ProducerMove, ConsumerMove;
      r := AdvanceTo(r, capacity, t, k);
    }
  }

  lemma SameSide(t: nat, sh: Shared, pc: Pc, sh': Shared, pc': Pc)
    requires ProducerMove(t, sh, pc, sh', pc') || ConsumerMove(t, sh, pc, sh', pc')
    requires Critical(pc) && Critical(pc')
    ensures pc'.PAdd? == pc.PAdd? && sh'.kills == sh.kills
  {
    hide AddWrite, GetWrite, Full;
  }

  lemma EnterAdd(capacity: nat) returns (run: seq<State>, t: nat)
    requires capacity > 1
    ensures Run(run, capacity) && t < |Last(run).procs| && Last(run).sh.kills == 0
    ensures Last(run).procs[t].PAdd? && Last(run).procs[t].writes == 0 && !Full(Last(run).sh.ring)
  {
    hide Next, Init, Contents, Genuine, Filling;
    run := FillUp(capacity, 0);
    var m: Image;
    run, m := Enter(run, capacity, 0);
    t := 0;
  }

  lemma EnterGet(capacity: nat) returns (run: seq<State>, t: nat)
    requires capacity > 1
    ensures Run(run, capacity) && t < |Last(run).procs| && Last(run).sh.kills == 0
    ensures Last(run).procs[t].CGet? && Last(run).procs[t].writes == 0 && Last(run).sh.ring.count > 0
  {
    hide Next, Init, Contents, Genuine;
    run := FillUp(capacity, 1);
    InvRun(run, capacity, |run| - 1);
    LossesAccumulate(run, capacity, |run| - 1, |run| - 1);
    var sh := Last(run).sh;
    assert [PMake][1..] == [];
    assert sh.filled == 1;
    t := 1;
    run := ExtendSpawn(run, capacity, CIdle);
    run := ExtendProcess(run, capacity, 1, sh.(filled := sh.filled - 1), CWantMutex);
    run := ExtendProcess(run, capacity, 1, sh.(filled := sh.filled - 1, mutex := 0, holder := 1), CGet(Blank(), 0));
  }

  /** For every capacity from two on, and after each number of writes of an add or a get, there is
      a run in which a kill at that point is the first one and loses the mutex for good. */
  lemma KillAtEveryWrite(capacity: nat, adding: bool, writes: nat) returns (run: seq<State>, t: nat)
    requires capacity > 1 && writes <= 5
    ensures Run(run, capacity) && |run| >= 2 && t < |run[|run| - 2].procs|
    ensures var pc := run[|run| - 2].procs[t]; (if adding then pc.PAdd? else pc.CGet?) && pc.writes == writes
    ensures LockLost(Last(run)) && Last(run).sh.kills == 1 && Last(run).sh.ring == run[|run| - 2].sh.ring
  {
    hide Next, Init, LockLost, Full, Inv;
    if adding {
      run, t := EnterAdd(capacity);
    } else {
      run, t := EnterGet(capacity);
    }
    run := AdvanceTo(run, capacity, t, writes);
    hide Run;
    KillInside(run, capacity, |run| - 1, t);
    var s' :| Next(Last(run), s') && LockLost(s') && s'.sh.ring == Last(run).sh.ring && s'.sh.kills == 1;
    run := Extend(run, capacity, s');
  }

  // ----- at rest

  /** The process holds no token and owes none. */
  predicate AtRest(pc: Pc) {
    pc.PMake? || pc.PWantSlot? || pc.CIdle? || pc.CVerify? || pc.Dead?
  }

  lemma {:induction false} NobodyHolds(ps: seq<Pc>)
    requires forall t :: 0 <= t < |ps| ==> AtRest(ps[t])
    ensures Held(EmptyToken, ps) == Held(FilledToken, ps) == 0
  {
    if ps != [] {
      assert AtRest(ps[0]);
      NobodyHolds(ps[1..]);
    }
  }

  /** When every process is making, checking or waiting, or dead, and the mutex is free, the
      semaphores say what they are meant to say, up to the tokens lost. */
  lemma SemaphoresAtRest(run: seq<State>, capacity: nat, i: nat)
    requires Run(run, capacity) && i < |run| && run[i].sh.mutex > 0
    requires forall t :: 0 <= t < |run[i].procs| ==> AtRest(run[i].procs[t])
    ensures run[i].sh.filled == run[i].sh.ring.count - run[i].sh.lostF
    ensures run[i].sh.empty == capacity - run[i].sh.ring.count - run[i].sh.lostE
  {
    hide Run, AtRest;
    TokensConserved(run, capacity, i);
    NobodyHolds(run[i].procs);
  }
}
