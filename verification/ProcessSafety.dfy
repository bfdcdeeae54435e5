/** What holds in every reachable state of the processes, kills included. */
module ProcessSafety {
  import opened Checksum
  import opened SharedRing
  import opened Processes

  // ----- sums over processes

  lemma {:induction false} HeldUpdate(k: Token, ps: seq<Pc>, t: nat, pc: Pc)
    requires t < |ps|
    ensures Held(k, ps[t := pc]) == Held(k, ps) - Holding(k, ps[t]) + Holding(k, pc)
  {
    hide Holding;
    if t == 0 {
      assert ps[t := pc][1..] == ps[1..];
    } else {
      HeldUpdate(k, ps[1..], t - 1, pc);
      assert ps[t := pc][1..] == ps[1..][t - 1 := pc];
    }
  }

  lemma {:induction false} HeldAppend(k: Token, ps: seq<Pc>, pc: Pc)
    ensures Held(k, ps + [pc]) == Held(k, ps) + Holding(k, pc)
  {
    hide Holding;
    if ps != [] {
      HeldAppend(k, ps[1..], pc);
      assert (ps + [pc])[1..] == ps[1..] + [pc];
    }
  }

  lemma {:induction false} HeldCovers(k: Token, ps: seq<Pc>, t: nat)
    requires t < |ps|
    ensures Held(k, ps) >= Holding(k, ps[t])
    decreases |ps|
  {
    if |ps| > 1 {
      HeldCovers(k, ps[1..], if t == 0 then 0 else t - 1);
    }
  }

  // ----- how far the process in the critical section has got

  function AddSoFar(c: Ring, m: Image, k: nat): (r: Ring)
    requires |c.cells| > 0 && c.head <= |c.cells|
  {
    var h := Slot(c.head, |c.cells|);
    Ring(if k < 2 then c.cells else c.cells[h := m], if k < 5 then c.added else c.added + 1, c.extracted,
         if k < 4 then c.count else c.count + 1, if k < 1 then c.head else if k < 3 then h else h + 1, c.tail)
  }

  function GetSoFar(c: Ring, k: nat): (r: Ring)
    requires c.count > 0
  {
    var h := Slot(c.tail, |c.cells|);
    Ring(c.cells, c.added, if k < 5 then c.extracted else c.extracted + 1,
         if k < 4 then c.count else c.count - 1, c.head, if k < 1 then c.tail else if k < 3 then h else h + 1)
  }

  /** r is the ring c after k of the writes that add m; during the copy the cell may hold anything. */
  ghost predicate Adding(c: Ring, r: Ring, m: Image, k: nat)
    requires Valid(c)
  {
    && k <= 5 && (k >= 1 ==> !Full(c))
    && if k == 1 then r.head < |r.cells| && r.(cells := r.cells[r.head := m]) == AddSoFar(c, m, 2)
       else r == AddSoFar(c, m, k)
  }

  ghost predicate Getting(c: Ring, r: Ring, m: Image, k: nat)
    requires Valid(c)
  {
    && k <= 5 && (k == 0 ==> r == c) && (k >= 1 ==> c.count > 0 && r == GetSoFar(c, k))
    && (k >= 2 ==> m == Delivered(c))
  }

  ghost predicate Inside(sh: Shared, pc: Pc)
    requires Valid(sh.committed)
  {
    match pc
    case PAdd(m, k) => Adding(sh.committed, sh.ring, m, k)
    case CGet(m, k) => Getting(sh.committed, sh.ring, m, k)
    case _ => pc.Dead?
  }

  // ----- the invariant

  predicate Critical(pc: Pc) {
    pc.PAdd? || pc.CGet?
  }

  /** The mutex is down exactly while someone has not signalled it; a process that dies inside
      stays the holder. */
  ghost predicate MutexOk(s: State) {
    && FREE <= s.sh.holder < |s.procs|
    && s.sh.mutex == (if s.sh.holder == FREE then 1 else 0)
    && (s.sh.holder != FREE ==> Critical(s.procs[s.sh.holder]) || s.procs[s.sh.holder].Dead?)
    && forall t :: 0 <= t < |s.procs| && Critical(s.procs[t]) ==> s.sh.holder == t
  }

  ghost predicate RingOk(s: State, capacity: nat) {
    && Valid(s.sh.committed) && |s.sh.committed.cells| == capacity
    && (s.sh.holder == FREE ==> s.sh.ring == s.sh.committed)
    && (0 <= s.sh.holder < |s.procs| ==> Inside(s.sh, s.procs[s.sh.holder]))
  }

  ghost predicate TokensOk(s: State, capacity: nat) {
    && s.sh.empty + Held(EmptyToken, s.procs) + s.sh.committed.count + s.sh.lostE == capacity
    && s.sh.filled + Held(FilledToken, s.procs) + s.sh.lostF == s.sh.committed.count
    && s.sh.lostE + s.sh.lostF <= s.sh.kills + s.sh.exits
  }

  ghost predicate LogsOk(s: State)
    requires Valid(s.sh.committed)
  {
    && s.sh.added == s.sh.extracted + Contents(s.sh.committed)
    && |s.sh.extracted| == s.sh.committed.extracted
  }

  predicate Carries(pc: Pc) {
    pc.PWantSlot? || pc.PWantMutex? || pc.PAdd? || pc.CRelease? || pc.CVerify?
  }

  /** Every message on its way, in the ring or delivered is genuine. */
  ghost predicate GenuineOk(s: State) {
    && (forall m :: m in s.sh.added ==> Genuine(m))
    && (forall t :: 0 <= t < |s.procs| && Carries(s.procs[t]) ==> Genuine(s.procs[t].msg))
  }

  ghost predicate Inv(s: State, capacity: nat) {
    && MutexOk(s) && RingOk(s, capacity) && TokensOk(s, capacity) && LogsOk(s) && GenuineOk(s)
  }

  lemma InvInit(s: State, capacity: nat)
    requires Init(s, capacity)
    ensures Inv(s, capacity)
  {
    FreshIsEmpty(s.sh.ring.cells);
  }

  // ----- the critical sections

  lemma AddMoveInside(sh: Shared, m: Image, k: nat, sh': Shared, pc': Pc)
    requires Valid(sh.committed) && Adding(sh.committed, sh.ring, m, k) && AddMove(sh, m, k, sh', pc')
    ensures pc' == PAnnounce ==> k == 5 && !Full(sh.committed) && sh'.ring == Add(sh.committed, m)
    ensures pc' != PAnnounce ==> sh'.committed == sh.committed && Inside(sh', pc')
    ensures pc' != PAnnounce ==> sh'.holder == sh.holder && sh'.mutex == sh.mutex && sh'.added == sh.added
    ensures pc' == PAnnounce || pc' == Dead || (pc'.PAdd? && pc'.msg == m)
  {
    hide Contents;
  }

  lemma GetMoveInside(sh: Shared, m: Image, k: nat, sh': Shared, pc': Pc)
    requires Valid(sh.committed) && Getting(sh.committed, sh.ring, m, k) && GetMove(sh, m, k, sh', pc')
    ensures pc'.CRelease? ==> sh.committed.count > 0 && sh'.ring == Get(sh.committed) && m == Delivered(sh.committed)
    ensures !pc'.CRelease? ==> sh'.committed == sh.committed && Inside(sh', pc')
    ensures !pc'.CRelease? ==> sh'.holder == sh.holder && sh'.mutex == sh.mutex
    ensures pc' == CRelease(m) || pc' == Dead || pc'.CGet?
  {
    hide Contents;
  }

  // ----- preservation: processes

  /** A step outside the critical section touches neither ring nor logs, and at most takes the
      free mutex. */
  lemma OutsideStep(s: State, t: nat, s': State, capacity: nat)
    requires Inv(s, capacity) && ProcessStep(s, t, s') && !Critical(s.procs[t])
    ensures MutexOk(s') && RingOk(s', capacity)
    ensures s'.sh.committed == s.sh.committed && s'.sh.added == s.sh.added && s'.sh.extracted == s.sh.extracted
    ensures Carries(s'.procs[t]) ==> Genuine(s'.procs[t].msg)
  {
    hide Contents, Genuine, Valid, TokensOk, LogsOk, AddMove, GetMove, Held, Full;
    var pc, pc' := s.procs[t], s'.procs[t];
    assert s.sh.holder != t;
    assert pc.PWantMutex? || pc.CWantMutex? || !Critical(pc');
  }

  lemma AddStep(s: State, t: nat, s': State, capacity: nat)
    requires Inv(s, capacity) && ProcessStep(s, t, s') && s.procs[t].PAdd?
    ensures MutexOk(s') && RingOk(s', capacity)
    ensures s'.procs[t] == PAnnounce ==>
              && Valid(s'.sh.committed) && s'.sh.committed.count == s.sh.committed.count + 1 && LogsOk(s')
              && s'.sh.added == s.sh.added + [s.procs[t].msg]
    ensures s'.procs[t] != PAnnounce ==>
              s'.sh.committed == s.sh.committed && s'.sh.added == s.sh.added && s'.sh.extracted == s.sh.extracted
    ensures Carries(s'.procs[t]) ==> Genuine(s'.procs[t].msg)
  {
    hide Contents, Genuine, Valid, TokensOk, Held, Full, Adding, Getting;
    var pc, pc', c := s.procs[t], s'.procs[t], s.sh.committed;
    assert s.sh.holder == t && AddMove(s.sh, pc.msg, pc.writes, s'.sh, pc');
    AddMoveInside(s.sh, pc.msg, pc.writes, s'.sh, pc');
    if pc' == PAnnounce {
      CommitAdd(c, pc.msg);
    }
    hide AddMove;
  }

  lemma CommitAdd(c: Ring, m: Image)
    requires Valid(c) && !Full(c)
    ensures Valid(Add(c, m)) && Contents(Add(c, m)) == Contents(c) + [m]
    ensures Add(c, m).count == c.count + 1 && Add(c, m).extracted == c.extracted && |Add(c, m).cells| == |c.cells|
  {
    AddAppends(c, m);
  }

  lemma GetStep(s: State, t: nat, s': State, capacity: nat)
    requires Inv(s, capacity) && ProcessStep(s, t, s') && s.procs[t].CGet?
    ensures MutexOk(s') && RingOk(s', capacity)
    ensures s'.procs[t].CRelease? ==>
              && Valid(s'.sh.committed) && s'.sh.committed.count == s.sh.committed.count - 1 && LogsOk(s')
              && s'.sh.added == s.sh.added && s'.procs[t].msg in s.sh.added
    ensures !s'.procs[t].CRelease? ==>
              && s'.sh.committed == s.sh.committed && s'.sh.added == s.sh.added && s'.sh.extracted == s.sh.extracted
              && !Carries(s'.procs[t])
  {
    hide Contents, Genuine, Valid, TokensOk, Held, Full, Adding, Getting;
    var pc, pc', c := s.procs[t], s'.procs[t], s.sh.committed;
    assert s.sh.holder == t && GetMove(s.sh, pc.msg, pc.writes, s'.sh, pc');
    GetMoveInside(s.sh, pc.msg, pc.writes, s'.sh, pc');
    if pc'.CRelease? {
      CommitGet(c);
      assert Contents(c)[0] in s.sh.added;
    }
    hide GetMove;
  }

  lemma CommitGet(c: Ring)
    requires Valid(c) && c.count > 0
    ensures Valid(Get(c)) && Contents(c) == [Delivered(c)] + Contents(Get(c))
    ensures Get(c).count == c.count - 1 && Get(c).extracted == c.extracted + 1 && |Get(c).cells| == |c.cells|
  {
    GetTakesFirst(c);
  }

  /** One move conserves the tokens, once the change of the message count is known. */
  lemma MoveBalance(t: nat, sh: Shared, pc: Pc, sh': Shared, pc': Pc)
    requires ProducerMove(t, sh, pc, sh', pc') || ConsumerMove(t, sh, pc, sh', pc')
    requires var d := if pc.PAdd? && pc' == PAnnounce then 1 else if pc.CGet? && pc'.CRelease? then -1 else 0;
             sh'.committed.count == sh.committed.count + d
    ensures sh'.empty + Holding(EmptyToken, pc') + sh'.committed.count + sh'.lostE
            == sh.empty + Holding(EmptyToken, pc) + sh.committed.count + sh.lostE
    ensures sh'.filled + Holding(FilledToken, pc') + sh'.lostF - sh'.committed.count
            == sh.filled + Holding(FilledToken, pc) + sh.lostF - sh.committed.count
    ensures sh'.lostE + sh'.lostF - sh'.kills - sh'.exits <= sh.lostE + sh.lostF - sh.kills - sh.exits
  {
    hide AddWrite, GetWrite, Genuine, Full;
  }

  lemma ProcessStepTokens(s: State, t: nat, s': State, capacity: nat)
    requires Inv(s, capacity) && ProcessStep(s, t, s')
    ensures TokensOk(s', capacity)
  {
    hide Contents, Genuine, Valid, Held, Holding, Full, RingOk, MutexOk, LogsOk, GenuineOk, ProducerMove, ConsumerMove;
    var pc, pc' := s.procs[t], s'.procs[t];
    if pc.PAdd? {
      AddStep(s, t, s', capacity);
    } else if pc.CGet? {
      GetStep(s, t, s', capacity);
    } else {
      OutsideStep(s, t, s', capacity);
    }
    MoveBalance(t, s.sh, pc, s'.sh, pc');
    HeldUpdate(EmptyToken, s.procs, t, pc');
    HeldUpdate(FilledToken, s.procs, t, pc');
  }

  lemma ProcessStepLogs(s: State, t: nat, s': State, capacity: nat)
    requires Inv(s, capacity) && ProcessStep(s, t, s')
    ensures MutexOk(s') && RingOk(s', capacity) && LogsOk(s') && GenuineOk(s')
  {
    hide Contents, Genuine, Valid, MutexOk, TokensOk, Held, Full, Inside, AddMove, GetMove, ProducerMove, ConsumerMove;
    var pc, pc' := s.procs[t], s'.procs[t];
    if pc.PAdd? {
      AddStep(s, t, s', capacity);
      assert forall m :: m in s'.sh.added ==> m in s.sh.added || m == pc.msg;
    } else if pc.CGet? {
      GetStep(s, t, s', capacity);
    } else {
      OutsideStep(s, t, s', capacity);
    }
  }

  // ----- preservation: main

  lemma KillInv(s: State, t: nat, s': State, capacity: nat)
    requires Inv(s, capacity) && Kill(s, t, s')
    ensures Inv(s', capacity)
  {
    hide Contents, Genuine, Valid, Held, Full, Adding, Getting;
    HeldUpdate(EmptyToken, s.procs, t, Dead);
    HeldUpdate(FilledToken, s.procs, t, Dead);
  }

  lemma SpawnInv(s: State, s': State, capacity: nat)
    requires Inv(s, capacity) && Spawn(s, s')
    ensures Inv(s', capacity)
  {
    hide Contents, Genuine, Valid, Held, Full, Adding, Getting;
    var pc := s'.procs[|s.procs|];
    HeldAppend(EmptyToken, s.procs, pc);
    HeldAppend(FilledToken, s.procs, pc);
  }

  // ----- every run

  lemma InvStep(s: State, s': State, capacity: nat)
    requires Inv(s, capacity) && Next(s, s')
    ensures Inv(s', capacity)
  {
    hide MutexOk, RingOk, TokensOk, LogsOk, GenuineOk, ProcessStep, Kill, Spawn;
    if Spawn(s, s') {
      SpawnInv(s, s', capacity);
    } else {
      var t: nat :| ProcessStep(s, t, s') || Kill(s, t, s');
      if Kill(s, t, s') {
        KillInv(s, t, s', capacity);
      } else {
        ProcessStepLogs(s, t, s', capacity);
        ProcessStepTokens(s, t, s', capacity);
      }
    }
  }

  lemma {:induction false} InvRun(run: seq<State>, capacity: nat, i: nat)
    requires Run(run, capacity) && i < |run|
    ensures Inv(run[i], capacity)
  {
    hide Inv, Next, Init;
    if i == 0 {
      InvInit(run[0], capacity);
    } else {
      InvRun(run, capacity, i - 1);
      assert Next(run[i - 1], run[i - 1 + 1]);
      InvStep(run[i - 1], run[i], capacity);
    }
  }
}
