/** Producer and consumer processes around the shared ring as a small-step system
    (producer_functions.c, consumer_functions.c, shared_buffer_types.c, system_management.c).

    One step is one semaphore operation or one write to shared memory, and between any two
    steps a process can be killed. The three semaphores live in the kernel: a killed process
    gives nothing back. */
module Processes {
  import opened Checksum
  import opened SharedRing

  datatype Pc =
    | PMake                            // producer: about to generate a message
    | PWantSlot(msg: Image)            // waiting on the empty-slots semaphore
    | PWantMutex(msg: Image)           // holds an empty token, waiting on the mutex
    | PAdd(msg: Image, writes: nat)    // inside add_message_to_queue, after this many writes
    | PAnnounce                        // about to signal the filled-slots semaphore
    | CIdle                            // consumer: waiting on the filled-slots semaphore
    | CWantMutex                       // holds a filled token, waiting on the mutex
    | CGet(msg: Image, writes: nat)    // inside get_message_from_queue
    | CRelease(msg: Image)             // about to signal the empty-slots semaphore
    | CVerify(msg: Image)              // about to check the message
    | Dead

  const FREE := -1
  function Blank(): (m: Image) {
    seq(MESSAGE_SIZE, _ => 0)
  }

  datatype Shared = Shared(
    ring: Ring, mutex: nat, empty: nat, filled: nat,
    holder: int,               // the process that took the mutex last and has not signalled it
    committed: Ring,           // the ring when the mutex was last signalled
    added: seq<Image>,         // messages added and extracted under a mutex that was signalled
    extracted: seq<Image>,
    lostE: nat, lostF: nat,    // tokens that died with their process
    kills: nat, exits: nat)

  datatype State = State(sh: Shared, procs: seq<Pc>)

  /** system_init, with BUFFER_CAPACITY as a parameter. */
  ghost predicate Init(s: State, capacity: nat) {
    && capacity > 0 && s.procs == []
    && |s.sh.ring.cells| == capacity
    && s.sh == Shared(Fresh(s.sh.ring.cells), 1, capacity, 0, FREE, s.sh.ring, [], [], 0, 0, 0, 0)
  }

  // ----- tokens

  datatype Token = EmptyToken | FilledToken

  /** A producer holds an empty token until its message is in, and then owes a filled one; a
      consumer holds a filled token until its message is out, and then owes an empty one. */
  function Holding(k: Token, pc: Pc): (w: nat)
    ensures w <= 1
  {
    match k
    case EmptyToken => if pc.PWantMutex? || pc.PAdd? || pc.CRelease? then 1 else 0
    case FilledToken => if pc.CWantMutex? || pc.CGet? || pc.PAnnounce? then 1 else 0
  }

  function Held(k: Token, ps: seq<Pc>): (n: nat) {
    if ps == [] then 0 else Holding(k, ps[0]) + Held(k, ps[1..])
  }

  function Lose(sh: Shared, pc: Pc): (r: Shared) {
    sh.(lostE := sh.lostE + Holding(EmptyToken, pc), lostF := sh.lostF + Holding(FilledToken, pc))
  }

  // ----- one write at a time

  /** head wraps; the message is copied; head, count and total are incremented. */
  function AddWrite(r: Ring, m: Image, writes: nat): (a: Ring)
    requires |r.cells| > 0 && (writes == 1 ==> r.head < |r.cells|)
  {
    match writes
    case 0 => r.(head := Slot(r.head, |r.cells|))
    case 1 => r.(cells := r.cells[r.head := m])
    case 2 => r.(head := r.head + 1)
    case 3 => r.(count := r.count + 1)
    case _ => r.(added := r.added + 1)
  }

  /** tail wraps; the message is copied out; tail is incremented, count decremented, total incremented. */
  function GetWrite(r: Ring, writes: nat): (g: Ring)
    requires writes == 3 ==> r.count > 0
  {
    match writes
    case 0 => r.(tail := Slot(r.tail, |r.cells|))
    case 1 => r
    case 2 => r.(tail := r.tail + 1)
    case 3 => r.(count := r.count - 1)
    case _ => r.(extracted := r.extracted + 1)
  }

  // ----- producers and consumers

  ghost predicate ProducerMove(t: nat, sh: Shared, pc: Pc, sh': Shared, pc': Pc) {
    match pc
    case PMake =>
      sh' == sh && pc'.PWantSlot? && Genuine(pc'.msg)
    case PWantSlot(m) =>
      sh.empty > 0 && sh' == sh.(empty := sh.empty - 1) && pc' == PWantMutex(m)
    case PWantMutex(m) =>
      sh.mutex > 0 && sh' == sh.(mutex := sh.mutex - 1, holder := t) && pc' == PAdd(m, 0)
    case PAdd(m, k) => AddMove(sh, m, k, sh', pc')
    case PAnnounce =>
      sh' == sh.(filled := sh.filled + 1) && pc' == PMake
    case _ => false
  }

  ghost predicate AddMove(sh: Shared, m: Image, k: nat, sh': Shared, pc': Pc) {
    if k == 0 && Full(sh.ring) then
      sh' == Lose(sh, PAdd(m, k)).(exits := sh.exits + 1) && pc' == Dead
    else if k == 5 then
      && sh' == sh.(mutex := sh.mutex + 1, holder := FREE, committed := sh.ring, added := sh.added + [m])
      && pc' == PAnnounce
    else
      && |sh.ring.cells| > 0 && (k == 1 ==> sh.ring.head < |sh.ring.cells|)
      && (|| (sh' == sh.(ring := AddWrite(sh.ring, m, k)) && pc' == PAdd(m, k + 1))
          || (k == 1 && PartCopied(sh, sh') && pc' == PAdd(m, k)))
  }

  /** The copy into the cell is not atomic: part of it may have happened. */
  ghost predicate PartCopied(sh: Shared, sh': Shared) {
    var r, r' := sh.ring, sh'.ring;
    && sh' == sh.(ring := r') && r' == r.(cells := r'.cells)
    && |r'.cells| == |r.cells| && forall i :: 0 <= i < |r.cells| && i != r.head ==> r'.cells[i] == r.cells[i]
  }

  ghost predicate ConsumerMove(t: nat, sh: Shared, pc: Pc, sh': Shared, pc': Pc) {
    match pc
    case CIdle =>
      sh.filled > 0 && sh' == sh.(filled := sh.filled - 1) && pc' == CWantMutex
    case CWantMutex =>
      sh.mutex > 0 && sh' == sh.(mutex := sh.mutex - 1, holder := t) && pc' == CGet(Blank(), 0)
    case CGet(m, k) => GetMove(sh, m, k, sh', pc')
    case CRelease(m) =>
      sh' == sh.(empty := sh.empty + 1) && pc' == CVerify(m)
    case CVerify(_) =>
      sh' == sh && pc' == CIdle
    case _ => false
  }

  ghost predicate GetMove(sh: Shared, m: Image, k: nat, sh': Shared, pc': Pc) {
    if k == 0 && sh.ring.count == 0 then
      sh' == Lose(sh, CGet(m, k)).(exits := sh.exits + 1) && pc' == Dead
    else if k == 5 then
      && sh' == sh.(mutex := sh.mutex + 1, holder := FREE, committed := sh.ring, extracted := sh.extracted + [m])
      && pc' == CRelease(m)
    else
      && (k == 1 ==> sh.ring.tail < |sh.ring.cells|) && (k == 3 ==> sh.ring.count > 0)
      && sh' == sh.(ring := GetWrite(sh.ring, k))
      && pc' == CGet(if k == 1 then sh.ring.cells[sh.ring.tail] else m, k + 1)
  }

  ghost predicate ProcessStep(s: State, t: nat, s': State) {
    && t < |s.procs| && |s'.procs| == |s.procs| && s'.procs == s.procs[t := s'.procs[t]]
    && (|| ProducerMove(t, s.sh, s.procs[t], s'.sh, s'.procs[t])
        || ConsumerMove(t, s.sh, s.procs[t], s'.sh, s'.procs[t]))
  }

  // ----- main

  ghost predicate Kill(s: State, t: nat, s': State) {
    && t < |s.procs| && !s.procs[t].Dead?
    && s' == State(Lose(s.sh, s.procs[t]).(kills := s.sh.kills + 1), s.procs[t := Dead])
  }

  ghost predicate Spawn(s: State, s': State) {
    s'.sh == s.sh && (s'.procs == s.procs + [PMake] || s'.procs == s.procs + [CIdle])
  }

  ghost predicate Next(s: State, s': State) {
    Spawn(s, s') || exists t: nat :: ProcessStep(s, t, s') || Kill(s, t, s')
  }

  ghost predicate Run(run: seq<State>, capacity: nat) {
    && run != [] && Init(run[0], capacity)
    && forall i :: 0 <= i < |run| - 1 ==> Next(run[i], run[i + 1])
  }
}
