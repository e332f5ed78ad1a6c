/** The keyboard's event ring: pushers and poppers on a ring of 128 slots behind a spinlock,
    with a semaphore that counts the events; every access to shared memory is a step. */
module InputRing {
  import opened Sums

  const NEVENTS: nat := 128

  // A push goes from PLock to SUnlock, a pop from WLock to CUnlock.
  datatype Pc =
    | Idle
    | PLock(ev: nat) | PStore(ev: nat) | PAdvance(ev: nat) | PCheck | PUnlock
    | SLock | SLoad | SStore(u: int) | SUnlock
    | WLock | WTest | WLoad | WStore(v: int) | WUnlock(got: bool)
    | CLock | CCheck | CAdvance | CFetch(idx: nat) | CUnlock(ret: nat)

  datatype Action = Push(ev: nat) | Pop | Go

  datatype Panic = NoPanic | QueueFull | QueueEmpty

  // Besides the ring, its lock and the semaphore: the events in the order in which they
  // entered the ring, and those taken out, in the order in which they were.
  datatype State = State(events: seq<nat>, front: nat, rear: nat, lock: nat,
                         value: int, semLock: nat, threads: seq<Pc>,
                         entered: seq<nat>, left: seq<nat>, panic: Panic)

  predicate WellFormed(s: State) {
    |s.events| == NEVENTS && s.front < NEVENTS && s.rear < NEVENTS
  }

  function Goto(s: State, t: nat, pc: Pc): State
    requires t < |s.threads|
  {
    s.(threads := s.threads[t := pc])
  }

  function Call(s: State, t: nat, a: Action): State
    requires t < |s.threads|
  {
    match a
    case Push(ev) => Goto(s, t, PLock(ev))
    case Pop => Goto(s, t, WLock)
    case Go => s
  }

  function PushStep(s: State, t: nat): State
    requires WellFormed(s) && t < |s.threads|
  {
    match s.threads[t]
    case PLock(ev) => if s.lock != 0 then s else Goto(s, t, PStore(ev)).(lock := 1)
    case PStore(ev) => Goto(s, t, PAdvance(ev)).(events := s.events[s.rear := ev])
    case PAdvance(ev) => Goto(s, t, PCheck).(rear := (s.rear + 1) % NEVENTS, entered := s.entered + [ev])
    case PCheck => if s.rear == s.front then s.(panic := QueueFull) else Goto(s, t, PUnlock)
    case PUnlock => Goto(s, t, SLock).(lock := 0)
    case _ => s
  }

  function SignalStep(s: State, t: nat): State
    requires t < |s.threads|
  {
    match s.threads[t]
    case SLock => if s.semLock != 0 then s else Goto(s, t, SLoad).(semLock := 1)
    case SLoad => Goto(s, t, SStore(s.value))
    case SStore(u) => Goto(s, t, SUnlock).(value := u + 1)
    case SUnlock => Goto(s, t, Idle).(semLock := 0)
    case _ => s
  }

  function WaitStep(s: State, t: nat): State
    requires t < |s.threads|
  {
    match s.threads[t]
    case WLock => if s.semLock != 0 then s else Goto(s, t, WTest).(semLock := 1)
    case WTest => Goto(s, t, if s.value > 0 then WLoad else WUnlock(false))
    case WLoad => Goto(s, t, WStore(s.value))
    case WStore(v) => Goto(s, t, WUnlock(true)).(value := v - 1)
    case WUnlock(got) => Goto(s, t, if got then CLock else WLock).(semLock := 0)
    case _ => s
  }

  function PopStep(s: State, t: nat): State
    requires WellFormed(s) && t < |s.threads|
  {
    match s.threads[t]
    case CLock => if s.lock != 0 then s else Goto(s, t, CCheck).(lock := 1)
    case CCheck => if s.rear == s.front then s.(panic := QueueEmpty) else Goto(s, t, CAdvance)
    case CAdvance => Goto(s, t, CFetch(s.front)).(front := (s.front + 1) % NEVENTS)
    case CFetch(idx) =>
      if idx >= NEVENTS then s else Goto(s, t, CUnlock(s.events[idx])).(left := s.left + [s.events[idx]])
    case CUnlock(ret) => Goto(s, t, Idle).(lock := 0)
    case _ => s
  }

  predicate Pushing(pc: Pc) { pc.PLock? || pc.PStore? || pc.PAdvance? || pc.PCheck? || pc.PUnlock? }

  predicate Signalling(pc: Pc) { pc.SLock? || pc.SLoad? || pc.SStore? || pc.SUnlock? }

  predicate Waiting(pc: Pc) { pc.WLock? || pc.WTest? || pc.WLoad? || pc.WStore? || pc.WUnlock? }

  // A panic stops everything.
  function Step(s: State, t: nat, a: Action): State
    requires WellFormed(s)
  {
    if s.panic != NoPanic || t >= |s.threads| then s
    else if s.threads[t].Idle? then Call(s, t, a)
    else if Pushing(s.threads[t]) then PushStep(s, t)
    else if Signalling(s.threads[t]) then SignalStep(s, t)
    else if Waiting(s.threads[t]) then WaitStep(s, t)
    else PopStep(s, t)
  }

  function Run(s: State, schedule: seq<(nat, Action)>): (r: State)
    requires WellFormed(s)
    ensures WellFormed(r) && |r.threads| == |s.threads|
  {
    if |schedule| == 0 then s
    else
      var k := |schedule| - 1;
      Step(Run(s, schedule[..k]), schedule[k].0, schedule[k].1)
  }

  // ---- the invariant ---------------------------------------------------------------------------

  predicate InRing(pc: Pc) {
    pc.PStore? || pc.PAdvance? || pc.PCheck? || pc.PUnlock? || pc.CCheck? || pc.CAdvance? || pc.CFetch? || pc.CUnlock?
  }

  predicate InSem(pc: Pc) {
    pc.SLoad? || pc.SStore? || pc.SUnlock? || pc.WTest? || pc.WLoad? || pc.WStore? || pc.WUnlock?
  }

  // Past the wait, with the event still in the ring.
  function Owed(pc: Pc): int {
    if (pc.WUnlock? && pc.got) || pc.CLock? || pc.CCheck? || pc.CAdvance? || pc.CFetch? then 1 else 0
  }

  // Past the store into the ring, and before the signal.
  function Due(pc: Pc): int {
    if pc.PCheck? || pc.PUnlock? || pc.SLock? || pc.SLoad? || pc.SStore? then 1 else 0
  }

  function Held(s: State): int { |s.entered| - |s.left| }

  // The holders of the ring's lock and of the semaphore's.
  datatype Owners = Owners(ring: int, sem: int)

  // A lock is set exactly while some thread is inside, and then only one is.
  ghost predicate LockOk(flag: nat, owner: int, ts: seq<Pc>, inside: Pc -> bool) {
    && (if flag == 0 then owner == -1 else 0 <= owner < |ts| && inside(ts[owner]))
    && (forall t: nat :: t < |ts| && inside(ts[t]) ==> owner == t)
  }

  ghost predicate Mutex(s: State, o: Owners) {
    LockOk(s.lock, o.ring, s.threads, InRing) && LockOk(s.semLock, o.sem, s.threads, InSem)
  }

  // The front index runs ahead of the history while an event is being fetched.
  predicate Fetching(s: State, o: Owners) {
    0 <= o.ring < |s.threads| && s.threads[o.ring].CFetch?
  }

  predicate Checking(s: State, o: Owners) {
    0 <= o.ring < |s.threads| && s.threads[o.ring].PCheck?
  }

  // The ring holds what has entered and not left, in order.
  ghost predicate Ring(s: State, o: Owners) {
    && WellFormed(s)
    && 0 <= Held(s) <= NEVENTS
    && (Held(s) == NEVENTS ==> Checking(s, o))
    && s.rear == |s.entered| % NEVENTS
    && s.front == (if Fetching(s, o) then |s.left| + 1 else |s.left|) % NEVENTS
    && (forall i :: |s.left| <= i < |s.entered| ==> s.events[i % NEVENTS] == s.entered[i])
    && s.left == s.entered[..|s.left|]
  }

  predicate LocalOk(s: State, pc: Pc)
    requires WellFormed(s)
  {
    match pc
    case PAdvance(ev) => s.events[s.rear] == ev
    case PUnlock => Held(s) < NEVENTS
    case SStore(u) => u == s.value
    case WLoad => s.value > 0
    case WStore(v) => v == s.value > 0
    case CAdvance => Held(s) > 0
    case CFetch(idx) => Held(s) > 0 && idx == |s.left| % NEVENTS
    case _ => true
  }

  ghost predicate Locals(s: State)
    requires WellFormed(s)
  {
    forall t: nat :: t < |s.threads| ==> LocalOk(s, s.threads[t])
  }

  // The semaphore counts the events that no popper has been promised and no pusher still owes.
  ghost predicate Counted(s: State) {
    s.value >= 0 && s.value + Total(s.threads, Owed) + Total(s.threads, Due) == Held(s)
  }

  ghost predicate Inv(s: State, o: Owners) {
    Mutex(s, o) && Ring(s, o) && Locals(s) && Counted(s) && s.panic != QueueEmpty
  }

  // Before the first event.
  ghost predicate Fresh(s: State) {
    && |s.events| == NEVENTS && s.front == s.rear == 0 && s.lock == 0 && s.semLock == 0 && s.value == 0
    && s.entered == [] && s.left == [] && s.panic == NoPanic
    && forall t: nat :: t < |s.threads| ==> s.threads[t].Idle?
  }

  lemma FreshInv(s: State)
    requires Fresh(s)
    ensures Inv(s, Owners(-1, -1))
  {
    TotalZero(s.threads, Owed);
    TotalZero(s.threads, Due);
  }

  // ---- every step keeps it ---------------------------------------------------------------------

  lemma LockEnter(flag: nat, owner: int, ts: seq<Pc>, inside: Pc -> bool, t: nat, pc: Pc)
    requires LockOk(flag, owner, ts, inside) && flag == 0 && t < |ts| && inside(pc)
    ensures LockOk(1, t, ts[t := pc], inside)
  {
  }

  lemma LockLeave(flag: nat, owner: int, ts: seq<Pc>, inside: Pc -> bool, t: nat, pc: Pc)
    requires LockOk(flag, owner, ts, inside) && t < |ts| && inside(ts[t]) && !inside(pc)
    ensures LockOk(0, -1, ts[t := pc], inside)
  {
  }

  lemma LockSame(flag: nat, owner: int, ts: seq<Pc>, inside: Pc -> bool, t: nat, pc: Pc)
    requires LockOk(flag, owner, ts, inside) && t < |ts| && inside(ts[t]) == inside(pc)
    ensures LockOk(flag, owner, ts[t := pc], inside)
  {
  }

  // Fewer than 128 apart, two positions have different slots.
  lemma SlotsDiffer(i: nat, j: nat)
    requires i < j < i + NEVENTS
    ensures i % NEVENTS != j % NEVENTS
  {
  }

  lemma NextSlot(i: nat)
    ensures (i % NEVENTS + 1) % NEVENTS == (i + 1) % NEVENTS
  {
  }

  lemma StorePut(s: State, o: Owners, s': State)
    requires Ring(s, o) && Held(s) < NEVENTS && s'.entered == s.entered && s'.left == s.left
    requires WellFormed(s') && s'.events == s.events[s.rear := s'.events[s.rear]]
    ensures forall i :: |s.left| <= i < |s.entered| ==> s'.events[i % NEVENTS] == s.entered[i]
  {
    forall i | |s.left| <= i < |s.entered|
      ensures s'.events[i % NEVENTS] == s.entered[i]
    {
      SlotsDiffer(i, |s.entered|);
    }
  }

  // Only thread t has moved.
  ghost predicate Moved(s: State, s': State, t: nat) {
    t < |s.threads| == |s'.threads| && s'.threads == s.threads[t := s'.threads[t]]
  }

  ghost predicate SameRing(s: State, s': State) {
    && s'.events == s.events && s'.front == s.front && s'.rear == s.rear
    && s'.entered == s.entered && s'.left == s.left
  }

  lemma RingFrame(s: State, s': State, o: Owners, o': Owners)
    requires Ring(s, o) && SameRing(s, s')
    requires Fetching(s', o') == Fetching(s, o) && (Checking(s, o) && Held(s) == NEVENTS ==> Checking(s', o'))
    ensures Ring(s', o')
  {
  }

  // What a thread has seen under its lock does not change while it holds it.
  lemma OtherLocal(s: State, s': State, pc: Pc)
    requires WellFormed(s) && WellFormed(s') && LocalOk(s, pc)
    requires InRing(pc) ==> s'.events == s.events && s'.rear == s.rear && s'.entered == s.entered && s'.left == s.left
    requires InSem(pc) ==> s'.value == s.value
    ensures LocalOk(s', pc)
  {
  }

  lemma OthersLocal(s: State, s': State, t: nat, o: Owners)
    requires Mutex(s, o) && WellFormed(s) && WellFormed(s') && Locals(s)
    requires Moved(s, s', t) && LocalOk(s', s'.threads[t])
    requires SameRing(s, s') || InRing(s.threads[t])
    requires s'.value == s.value || InSem(s.threads[t])
    ensures Locals(s')
  {
    forall u: nat | u < |s.threads| && u != t
      ensures LocalOk(s', s'.threads[u])
    {
      assert LocalOk(s, s.threads[u]);
      OtherLocal(s, s', s.threads[u]);
    }
  }

  lemma CountedMove(s: State, s': State, t: nat)
    requires Counted(s) && Moved(s, s', t) && s'.value >= 0
    requires s'.value - s.value + Owed(s'.threads[t]) - Owed(s.threads[t]) + Due(s'.threads[t]) - Due(s.threads[t])
          == Held(s') - Held(s)
    ensures Counted(s')
  {
    TotalUpdate(s.threads, t, s'.threads[t], Owed);
    TotalUpdate(s.threads, t, s'.threads[t], Due);
  }

  // Steps outside the ring's lock, on the semaphore.
  lemma OutsideKeeps(s: State, s': State, t: nat, o: Owners, sem: int)
    requires Inv(s, o) && Moved(s, s', t) && SameRing(s, s') && s'.lock == s.lock && s'.panic == s.panic
    requires !InRing(s.threads[t]) && !InRing(s'.threads[t]) && LocalOk(s', s'.threads[t])
    requires LockOk(s'.semLock, sem, s'.threads, InSem)
    requires s'.value == s.value || InSem(s.threads[t])
    requires s'.value >= 0
    requires s'.value - s.value + Owed(s'.threads[t]) - Owed(s.threads[t]) + Due(s'.threads[t]) - Due(s.threads[t]) == 0
    ensures Inv(s', o.(sem := sem))
  {
    LockSame(s.lock, o.ring, s.threads, InRing, t, s'.threads[t]);
    RingFrame(s, s', o, o.(sem := sem));
    OthersLocal(s, s', t, o);
    CountedMove(s, s', t);
  }

  // The owner of the semaphore's lock after thread t's step.
  function SemOwner(owner: int, t: nat, pc: Pc, pc': Pc): int {
    if InSem(pc) == InSem(pc') then owner else if InSem(pc') then t else -1
  }

  lemma SemLock(flag: nat, owner: int, ts: seq<Pc>, t: nat, pc: Pc, flag': nat)
    requires LockOk(flag, owner, ts, InSem) && t < |ts|
    requires flag' == if InSem(ts[t]) == InSem(pc) then flag else if InSem(pc) then 1 else 0
    requires InSem(pc) && !InSem(ts[t]) ==> flag == 0
    ensures LockOk(flag', SemOwner(owner, t, ts[t], pc), ts[t := pc], InSem)
  {
    if InSem(ts[t]) == InSem(pc) {
      LockSame(flag, owner, ts, InSem, t, pc);
    } else if InSem(pc) {
      LockEnter(flag, owner, ts, InSem, t, pc);
    } else {
      LockLeave(flag, owner, ts, InSem, t, pc);
    }
  }

  lemma SignalKeeps(s: State, t: nat, o: Owners) returns (o': Owners)
    requires Inv(s, o) && s.panic == NoPanic && t < |s.threads| && Signalling(s.threads[t])
    ensures Inv(Step(s, t, Go), o')
  {
    var s' := SignalStep(s, t);
    o' := o;
    if s' != s {
      o' := o.(sem := SemOwner(o.sem, t, s.threads[t], s'.threads[t]));
      assert LocalOk(s, s.threads[t]);
      SemLock(s.semLock, o.sem, s.threads, t, s'.threads[t], s'.semLock);
      OutsideKeeps(s, s', t, o, o'.sem);
    }
  }

  lemma WaitKeeps(s: State, t: nat, o: Owners) returns (o': Owners)
    requires Inv(s, o) && s.panic == NoPanic && t < |s.threads| && Waiting(s.threads[t])
    ensures Inv(Step(s, t, Go), o')
  {
    var s' := WaitStep(s, t);
    o' := o;
    if s' != s {
      o' := o.(sem := SemOwner(o.sem, t, s.threads[t], s'.threads[t]));
      assert LocalOk(s, s.threads[t]);
      SemLock(s.semLock, o.sem, s.threads, t, s'.threads[t], s'.semLock);
      OutsideKeeps(s, s', t, o, o'.sem);
    }
  }

  // Calls touch nothing shared.
  lemma CallKeeps(s: State, t: nat, a: Action, o: Owners)
    requires Inv(s, o) && s.panic == NoPanic && t < |s.threads| && s.threads[t].Idle? && a != Go
    ensures Inv(Step(s, t, a), o)
  {
    var s' := Call(s, t, a);
    LockSame(s.lock, o.ring, s.threads, InRing, t, s'.threads[t]);
    LockSame(s.semLock, o.sem, s.threads, InSem, t, s'.threads[t]);
    RingFrame(s, s', o, o);
    OthersLocal(s, s', t, o);
    CountedMove(s, s', t);
  }

  // Taking and giving back the ring's lock.
  lemma RingLockKeeps(s: State, t: nat, o: Owners) returns (o': Owners)
    requires Inv(s, o) && s.panic == NoPanic && t < |s.threads|
    requires s.threads[t].PLock? || s.threads[t].CLock? || s.threads[t].PUnlock? || s.threads[t].CUnlock?
    ensures Inv(Step(s, t, Go), o')
  {
    var s' := if Pushing(s.threads[t]) then PushStep(s, t) else PopStep(s, t);
    var pc, pc' := s.threads[t], s'.threads[t];
    assert LocalOk(s, pc);
    o' := o;
    if s' != s {
      LockSame(s.semLock, o.sem, s.threads, InSem, t, pc');
      if InRing(pc) {
        o' := o.(ring := -1);
        LockLeave(s.lock, o.ring, s.threads, InRing, t, pc');
      } else {
        o' := o.(ring := t);
        LockEnter(s.lock, o.ring, s.threads, InRing, t, pc');
      }
      RingFrame(s, s', o, o');
      OthersLocal(s, s', t, o);
      CountedMove(s, s', t);
    }
  }

  // Steps under the ring's lock, whatever they do to the ring.
  lemma InsideKeeps(s: State, s': State, t: nat, o: Owners)
    requires Inv(s, o) && Moved(s, s', t) && InRing(s.threads[t]) && InRing(s'.threads[t])
    requires !InSem(s.threads[t]) && !InSem(s'.threads[t])
    requires s'.lock == s.lock && s'.semLock == s.semLock && s'.value == s.value && s'.panic != QueueEmpty
    requires Ring(s', o) && LocalOk(s', s'.threads[t])
    requires Owed(s'.threads[t]) - Owed(s.threads[t]) + Due(s'.threads[t]) - Due(s.threads[t]) == Held(s') - Held(s)
    ensures Inv(s', o)
  {
    LockSame(s.lock, o.ring, s.threads, InRing, t, s'.threads[t]);
    LockSame(s.semLock, o.sem, s.threads, InSem, t, s'.threads[t]);
    OthersLocal(s, s', t, o);
    CountedMove(s, s', t);
  }

  lemma PStoreKeeps(s: State, t: nat, o: Owners)
    requires Inv(s, o) && s.panic == NoPanic && t < |s.threads| && s.threads[t].PStore?
    ensures Inv(Step(s, t, Go), o)
  {
    var s' := PushStep(s, t);
    assert InRing(s.threads[t]);
    StorePut(s, o, s');
    InsideKeeps(s, s', t, o);
  }

  lemma AdvanceRing(s: State, s': State, o: Owners)
    requires Ring(s, o) && Held(s) < NEVENTS && !Fetching(s, o) && !Fetching(s', o) && Checking(s', o)
    requires s'.events == s.events && s'.front == s.front && s'.left == s.left
    requires s'.rear == (s.rear + 1) % NEVENTS && s'.entered == s.entered + [s.events[s.rear]]
    ensures Ring(s', o)
  {
    NextSlot(|s.entered|);
  }

  lemma PAdvanceKeeps(s: State, t: nat, o: Owners)
    requires Inv(s, o) && s.panic == NoPanic && t < |s.threads| && s.threads[t].PAdvance?
    ensures Inv(Step(s, t, Go), o)
  {
    var s' := PushStep(s, t);
    assert InRing(s.threads[t]) && LocalOk(s, s.threads[t]);
    AdvanceRing(s, s', o);
    InsideKeeps(s, s', t, o);
  }

  // The full panic happens exactly when the 128th event has been put in.
  lemma PCheckKeeps(s: State, t: nat, o: Owners)
    requires Inv(s, o) && s.panic == NoPanic && t < |s.threads| && s.threads[t].PCheck?
    ensures Inv(Step(s, t, Go), o)
    ensures Step(s, t, Go).panic == QueueFull <==> Held(s) == NEVENTS
  {
    var s' := PushStep(s, t);
    assert InRing(s.threads[t]);
    TotalHas(s.threads, t, Owed);
    TotalHas(s.threads, t, Due);
    if Held(s) < NEVENTS {
      SlotsDiffer(|s.left|, |s.entered|);
      RingFrame(s, s', o, o);
      InsideKeeps(s, s', t, o);
    } else {
      PanicKeeps(s, s', o);
    }
  }

  lemma PanicKeeps(s: State, s': State, o: Owners)
    requires Inv(s, o) && s' == s.(panic := QueueFull)
    ensures Inv(s', o)
  {
    forall u: nat | u < |s.threads|
      ensures LocalOk(s', s.threads[u])
    {
      assert LocalOk(s, s.threads[u]);
    }
  }

  // A popper past the wait finds an event: the empty panic cannot happen.
  lemma CCheckKeeps(s: State, t: nat, o: Owners)
    requires Inv(s, o) && s.panic == NoPanic && t < |s.threads| && s.threads[t].CCheck?
    ensures Inv(Step(s, t, Go), o)
    ensures Step(s, t, Go).panic == NoPanic
  {
    var s' := PopStep(s, t);
    assert InRing(s.threads[t]);
    TotalHas(s.threads, t, Owed);
    TotalHas(s.threads, t, Due);
    SlotsDiffer(|s.left|, |s.entered|);
    RingFrame(s, s', o, o);
    InsideKeeps(s, s', t, o);
  }

  lemma CAdvanceKeeps(s: State, t: nat, o: Owners)
    requires Inv(s, o) && s.panic == NoPanic && t < |s.threads| && s.threads[t].CAdvance?
    ensures Inv(Step(s, t, Go), o)
  {
    var s' := PopStep(s, t);
    assert InRing(s.threads[t]) && LocalOk(s, s.threads[t]);
    NextSlot(|s.left|);
    InsideKeeps(s, s', t, o);
  }

  lemma CFetchKeeps(s: State, t: nat, o: Owners)
    requires Inv(s, o) && s.panic == NoPanic && t < |s.threads| && s.threads[t].CFetch?
    ensures Inv(Step(s, t, Go), o)
  {
    var s' := PopStep(s, t);
    assert InRing(s.threads[t]) && LocalOk(s, s.threads[t]);
    assert s.events[|s.left| % NEVENTS] == s.entered[|s.left|];
    assert s.entered[..|s.left|] + [s.entered[|s.left|]] == s.entered[..|s.left| + 1];
    InsideKeeps(s, s', t, o);
  }

  lemma StepKeepsInv(s: State, t: nat, a: Action, o: Owners) returns (o': Owners)
    requires Inv(s, o)
    ensures Inv(Step(s, t, a), o')
  {
    o' := o;
    if s.panic == NoPanic && t < |s.threads| {
      match s.threads[t]
      case Idle => if a != Go { CallKeeps(s, t, a, o); }
      case PStore(_) => PStoreKeeps(s, t, o);
      case PAdvance(_) => PAdvanceKeeps(s, t, o);
      case PCheck => PCheckKeeps(s, t, o);
      case CCheck => CCheckKeeps(s, t, o);
      case CAdvance => CAdvanceKeeps(s, t, o);
      case CFetch(_) => CFetchKeeps(s, t, o);
      case PLock(_) => o' := RingLockKeeps(s, t, o);
      case CLock => o' := RingLockKeeps(s, t, o);
      case PUnlock => o' := RingLockKeeps(s, t, o);
      case CUnlock(_) => o' := RingLockKeeps(s, t, o);
      case _ =>
        if Signalling(s.threads[t]) {
          o' := SignalKeeps(s, t, o);
        } else {
          o' := WaitKeeps(s, t, o);
        }
    }
  }

  lemma {:induction false} RunKeepsInv(s: State, schedule: seq<(nat, Action)>, o: Owners) returns (o': Owners)
    requires Inv(s, o)
    ensures Inv(Run(s, schedule), o')
  {
    if |schedule| == 0 {
      o' := o;
    } else {
      var k := |schedule| - 1;
      var before := RunKeepsInv(s, schedule[..k], o);
      o' := StepKeepsInv(Run(s, schedule[..k]), schedule[k].0, schedule[k].1, before);
    }
  }

  // ---- what it means ---------------------------------------------------------------------------

  // Events leave in the order in which they entered; none is lost, made up or given twice.
  lemma Fifo(s: State, schedule: seq<(nat, Action)>)
    requires Fresh(s)
    ensures var r := Run(s, schedule);
            |r.left| <= |r.entered| && r.left == r.entered[..|r.left|] && Held(r) <= NEVENTS
  {
    FreshInv(s);
    var o := RunKeepsInv(s, schedule, Owners(-1, -1));
  }

  // value + poppers past the wait + pushers before the signal == events in the ring.
  lemma CountLaw(s: State, schedule: seq<(nat, Action)>)
    requires Fresh(s)
    ensures var r := Run(s, schedule);
            r.value >= 0 && r.value + Total(r.threads, Owed) + Total(r.threads, Due) == Held(r)
  {
    FreshInv(s);
    var o := RunKeepsInv(s, schedule, Owners(-1, -1));
  }

  lemma NeverEmptyPanic(s: State, schedule: seq<(nat, Action)>)
    requires Fresh(s)
    ensures Run(s, schedule).panic != QueueEmpty
  {
    FreshInv(s);
    var o := RunKeepsInv(s, schedule, Owners(-1, -1));
  }

  // ---- a thread on its own -----------------------------------------------------------------------

  function Alone(t: nat, a: Action, n: nat): seq<(nat, Action)> {
    if n == 0 then [] else Alone(t, a, n - 1) + [(t, a)]
  }

  lemma {:induction false} RunAlone(s: State, t: nat, a: Action, n: nat)
    requires WellFormed(s)
    ensures Run(s, Alone(t, a, n)) == if n == 0 then s else Step(Run(s, Alone(t, a, n - 1)), t, a)
  {
    if n > 0 {
      assert Alone(t, a, n)[..|Alone(t, a, n)| - 1] == Alone(t, a, n - 1);
    }
  }

  // Some number of turns of t alone lead from s to s'.
  ghost predicate Leads(s: State, t: nat, a: Action, s': State)
    requires WellFormed(s)
  {
    exists n: nat :: Run(s, Alone(t, a, n)) == s'
  }

  // Where a step takes a thread, and what it makes of the rest of the state.
  function After(u: State, pc: Pc, a: Action): (r: (State, Pc))
    ensures r.0.threads == u.threads && (WellFormed(u) ==> WellFormed(r.0))
  {
    if !WellFormed(u) then (u, pc) else
    match pc
    case Idle => (u, if a.Push? then PLock(a.ev) else if a.Pop? then WLock else Idle)
    case PLock(ev) => if u.lock != 0 then (u, pc) else (u.(lock := 1), PStore(ev))
    case PStore(ev) => (u.(events := u.events[u.rear := ev]), PAdvance(ev))
    case PAdvance(ev) => (u.(rear := (u.rear + 1) % NEVENTS, entered := u.entered + [ev]), PCheck)
    case PCheck => if u.rear == u.front then (u.(panic := QueueFull), pc) else (u, PUnlock)
    case PUnlock => (u.(lock := 0), SLock)
    case SLock => if u.semLock != 0 then (u, pc) else (u.(semLock := 1), SLoad)
    case SLoad => (u, SStore(u.value))
    case SStore(v) => (u.(value := v + 1), SUnlock)
    case SUnlock => (u.(semLock := 0), Idle)
    case WLock => if u.semLock != 0 then (u, pc) else (u.(semLock := 1), WTest)
    case WTest => (u, if u.value > 0 then WLoad else WUnlock(false))
    case WLoad => (u, WStore(u.value))
    case WStore(v) => (u.(value := v - 1), WUnlock(true))
    case WUnlock(got) => (u.(semLock := 0), if got then CLock else WLock)
    case CLock => if u.lock != 0 then (u, pc) else (u.(lock := 1), CCheck)
    case CCheck => if u.rear == u.front then (u.(panic := QueueEmpty), pc) else (u, CAdvance)
    case CAdvance => (u.(front := (u.front + 1) % NEVENTS), CFetch(u.front))
    case CFetch(i) =>
      if i >= NEVENTS then (u, pc) else (u.(left := u.left + [u.events[i]]), CUnlock(u.events[i]))
    case CUnlock(_) => (u.(lock := 0), Idle)
  }

  lemma StepAfter(u: State, t: nat, pc: Pc, a: Action)
    requires WellFormed(u) && t < |u.threads| && u.panic == NoPanic
    ensures Step(Goto(u, t, pc), t, a) == Goto(After(u, pc, a).0, t, After(u, pc, a).1)
  {
    Twice(u, t, pc, After(u, pc, a).1);
    Twice(u, t, pc, pc);
  }

  // Places and states, each reached from the one before by one step.
  predicate Path(path: seq<(State, Pc)>, a: Action) {
    && (forall i :: 0 <= i < |path| ==> path[i].0.panic == NoPanic)
    && (forall i :: 0 <= i < |path| - 1 ==> After(path[i].0, path[i].1, a) == path[i + 1])
  }

  // A thread that begins a in the state s comes to this place, with the rest of the state like u.
  ghost predicate Comes(s: State, a: Action, u: State, pc: Pc) {
    exists path: seq<(State, Pc)> :: Path(path, a) && |path| > 0
      && path[0] == (s, Idle) && path[|path| - 1] == (u, pc)
  }

  lemma Walk(s: State, a: Action, u: State, pc: Pc, u': State, next: Pc)
    requires Comes(s, a, u, pc) && After(u, pc, a) == (u', next) && u'.panic == NoPanic
    ensures Comes(s, a, u', next)
  {
    var path :| Path(path, a) && |path| > 0 && path[0] == (s, Idle) && path[|path| - 1] == (u, pc);
    var longer := path + [(u', next)];
    assert Path(longer, a) && longer[0] == (s, Idle) && longer[|longer| - 1] == (u', next);
  }

  lemma {:induction false} PathRuns(s: State, t: nat, a: Action, path: seq<(State, Pc)>)
    requires Quiet(s, t) && Path(path, a) && |path| > 0 && path[0] == (s, Idle)
    ensures WellFormed(path[|path| - 1].0) && path[|path| - 1].0.threads == s.threads
    ensures Run(s, Alone(t, a, |path| - 1)) == Goto(path[|path| - 1].0, t, path[|path| - 1].1)
    decreases |path|
  {
    var n := |path| - 1;
    RunAlone(s, t, a, n);
    if n == 0 {
      assert Goto(s, t, Idle).threads == s.threads;
    } else {
      PathLess(path, a);
      PathRuns(s, t, a, path[..n]);
      StepsTo(s, t, a, n, path[n - 1].0, path[n - 1].1, path[n].0, path[n].1);
    }
  }

  lemma PathLess(path: seq<(State, Pc)>, a: Action)
    requires Path(path, a) && |path| > 1
    ensures var less := path[..|path| - 1];
            && Path(less, a) && less[0] == path[0] && less[|less| - 1] == path[|path| - 2]
            && less[|less| - 1].0.panic == NoPanic
            && After(less[|less| - 1].0, less[|less| - 1].1, a) == path[|path| - 1]
  {
  }

  lemma StepsTo(s: State, t: nat, a: Action, n: nat, u: State, pc: Pc, u': State, next: Pc)
    requires WellFormed(s) && WellFormed(u) && n > 0 && t < |u.threads| && u.panic == NoPanic
    requires Run(s, Alone(t, a, n - 1)) == Goto(u, t, pc) && After(u, pc, a) == (u', next)
    ensures Run(s, Alone(t, a, n)) == Goto(u', t, next) && WellFormed(u')
  {
    RunAlone(s, t, a, n);
    StepAfter(u, t, pc, a);
  }

  lemma Twice(s: State, t: nat, pc: Pc, next: Pc)
    requires t < |s.threads|
    ensures Goto(Goto(s, t, pc), t, next) == Goto(s, t, next)
    ensures s.threads[t := pc][t := next] == s.threads[t := next]
  {
  }

  // Nobody holds a lock, and the thread is outside.
  predicate Quiet(s: State, t: nat) {
    WellFormed(s) && s.panic == NoPanic && t < |s.threads| && s.threads[t].Idle? && s.lock == 0 && s.semLock == 0
  }

  lemma Start(s: State, a: Action)
    requires s.panic == NoPanic
    ensures Comes(s, a, s, Idle)
  {
    var path := [(s, Idle)];
    assert Path(path, a) && path[|path| - 1] == (s, Idle);
  }

  lemma Arrived(s: State, t: nat, a: Action, u: State, pc: Pc)
    requires Quiet(s, t) && Comes(s, a, u, pc)
    ensures u.threads == s.threads && Leads(s, t, a, Goto(u, t, pc))
  {
    var path :| Path(path, a) && |path| > 0 && path[0] == (s, Idle) && path[|path| - 1] == (u, pc);
    PathRuns(s, t, a, path);
  }

  // An event put in, and one taken out.
  function Pushed(s: State, ev: nat): State
    requires WellFormed(s)
  {
    s.(events := s.events[s.rear := ev], rear := (s.rear + 1) % NEVENTS,
       entered := s.entered + [ev], value := s.value + 1)
  }

  function Popped(s: State): State
    requires WellFormed(s)
  {
    s.(front := (s.front + 1) % NEVENTS, left := s.left + [s.events[s.front]], value := s.value - 1)
  }

  // Up to the test under the semaphore's lock.
  lemma LookAlone(s: State)
    requires WellFormed(s) && s.panic == NoPanic && s.semLock == 0
    ensures Comes(s, Pop, s.(semLock := 1), WTest)
  {
    Start(s, Pop);
    Walk(s, Pop, s, Idle, s, WLock);
    Walk(s, Pop, s, WLock, s.(semLock := 1), WTest);
  }

  // Up to the ring's lock, having taken one of the semaphore, or back where it tries again.
  lemma WaitAlone(s: State)
    requires WellFormed(s) && s.panic == NoPanic && s.semLock == 0
    ensures s.value > 0 ==> Comes(s, Pop, s.(value := s.value - 1), CLock)
    ensures s.value <= 0 ==> Comes(s, Pop, s, WLock)
  {
    LookAlone(s);
    if s.value > 0 {
      AcquireAlone(s, s.(semLock := 1), s.value);
    } else {
      Walk(s, Pop, s.(semLock := 1), WTest, s.(semLock := 1), WUnlock(false));
      Walk(s, Pop, s.(semLock := 1), WUnlock(false), s, WLock);
    }
  }

  lemma AcquireAlone(s: State, u: State, v: int)
    requires WellFormed(u) && u.panic == NoPanic && u.value == v > 0 && Comes(s, Pop, u, WTest)
    ensures Comes(s, Pop, u.(value := v - 1, semLock := 0), CLock)
  {
    Walk(s, Pop, u, WTest, u, WLoad);
    Walk(s, Pop, u, WLoad, u, WStore(v));
    Walk(s, Pop, u, WStore(v), u.(value := v - 1), WUnlock(true));
    Walk(s, Pop, u.(value := v - 1), WUnlock(true), u.(value := v - 1, semLock := 0), CLock);
  }

  lemma TakeAlone(s0: State, s: State)
    requires WellFormed(s) && s.panic == NoPanic && s.lock == 0 && s.rear != s.front && Comes(s0, Pop, s, CLock)
    ensures Comes(s0, Pop, s.(front := (s.front + 1) % NEVENTS, left := s.left + [s.events[s.front]]), Idle)
  {
    var u := s.(lock := 1);
    Walk(s0, Pop, s, CLock, u, CCheck);
    Walk(s0, Pop, u, CCheck, u, CAdvance);
    var v := u.(front := (s.front + 1) % NEVENTS);
    Walk(s0, Pop, u, CAdvance, v, CFetch(s.front));
    FetchAlone(s0, v, s.front);
  }

  lemma FetchAlone(s0: State, s: State, idx: nat)
    requires WellFormed(s) && s.panic == NoPanic && idx < NEVENTS && Comes(s0, Pop, s, CFetch(idx))
    ensures Comes(s0, Pop, s.(left := s.left + [s.events[idx]], lock := 0), Idle)
  {
    var w := s.(left := s.left + [s.events[idx]]);
    Walk(s0, Pop, s, CFetch(idx), w, CUnlock(s.events[idx]));
    Walk(s0, Pop, w, CUnlock(s.events[idx]), w.(lock := 0), Idle);
  }

  /** Alone, a pop takes the event at the front; with nothing to wait for it is left trying. */
  lemma PopAlone(s: State, t: nat)
    requires Quiet(s, t) && (s.value > 0 ==> s.rear != s.front)
    ensures Leads(s, t, Pop, if s.value > 0 then Popped(s) else Goto(s, t, WLock))
  {
    WaitAlone(s);
    if s.value > 0 {
      TakeAlone(s, s.(value := s.value - 1));
      Arrived(s, t, Pop, Popped(s), Idle);
      assert Goto(Popped(s), t, Idle).threads == s.threads;
    } else {
      Arrived(s, t, Pop, s, WLock);
    }
  }

  /** Alone, a push enters the event and counts it. */
  lemma PushAlone(s: State, t: nat, ev: nat)
    requires Quiet(s, t) && (s.rear + 1) % NEVENTS != s.front
    ensures Leads(s, t, Push(ev), Pushed(s, ev))
  {
    var a, u := Push(ev), s.(lock := 1);
    var v := u.(events := s.events[s.rear := ev]);
    var w := v.(rear := (s.rear + 1) % NEVENTS, entered := s.entered + [ev]);
    Start(s, a);
    Walk(s, a, s, Idle, s, PLock(ev));
    Walk(s, a, s, PLock(ev), u, PStore(ev));
    Walk(s, a, u, PStore(ev), v, PAdvance(ev));
    Walk(s, a, v, PAdvance(ev), w, PCheck);
    Walk(s, a, w, PCheck, w, PUnlock);
    Walk(s, a, w, PUnlock, w.(lock := 0), SLock);
    CountAlone(s, w.(lock := 0), a);
    Arrived(s, t, a, Pushed(s, ev), Idle);
    assert Goto(Pushed(s, ev), t, Idle).threads == s.threads;
  }

  lemma CountAlone(s0: State, s: State, a: Action)
    requires WellFormed(s) && s.panic == NoPanic && s.semLock == 0 && Comes(s0, a, s, SLock)
    ensures Comes(s0, a, s.(value := s.value + 1), Idle)
  {
    var u, v := s.(semLock := 1), s.(value := s.value + 1);
    Walk(s0, a, s, SLock, u, SLoad);
    Walk(s0, a, u, SLoad, u, SStore(s.value));
    Walk(s0, a, u, SStore(s.value), v.(semLock := 1), SUnlock);
    Walk(s0, a, v.(semLock := 1), SUnlock, v, Idle);
  }

  /** In any state that a run reaches, with both locks free: a pop that finds the count above
      zero gives the oldest event not yet taken. */
  lemma PopGivesOldest(s: State, schedule: seq<(nat, Action)>, t: nat)
    requires Fresh(s) && Quiet(Run(s, schedule), t) && Run(s, schedule).value > 0
    ensures var r := Run(s, schedule);
            && |r.left| < |r.entered| && Leads(r, t, Pop, Popped(r))
            && Popped(r).left == r.left + [r.entered[|r.left|]]
  {
    var r := Run(s, schedule);
    FreshInv(s);
    var o := RunKeepsInv(s, schedule, Owners(-1, -1));
    CountsAreHeld(r);
    FrontIsOldest(r, o);
    PopAlone(r, t);
  }

  lemma CountsAreHeld(s: State)
    requires Counted(s)
    ensures s.value <= Held(s)
  {
    TotalAtMost(s.threads, Nothing, Owed);
    TotalAtMost(s.threads, Nothing, Due);
    TotalZero(s.threads, Nothing);
  }

  function Nothing(pc: Pc): int { 0 }

  lemma FrontIsOldest(s: State, o: Owners)
    requires Ring(s, o) && Mutex(s, o) && s.lock == 0 && Held(s) > 0
    ensures s.events[s.front] == s.entered[|s.left|] && s.rear != s.front
  {
    SlotsDiffer(|s.left|, |s.entered|);
  }
}
