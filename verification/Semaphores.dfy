/** Counting semaphores built on a test-and-set lock, used by any number of threads, each of
    which waits, signals and prints as it likes: every load and store is a step of its own. */
module Semaphores {
  import opened Sums

  // ---- the machine -----------------------------------------------------------------------------

  datatype Action = Wait(k: nat) | Signal(k: nat) | Print(ch: char)

  // Where a thread is in a wait or a signal. From WTest to WUnlock and from SLoad to SUnlock
  // it holds the lock of the semaphore.
  datatype Pc =
    | Idle
    | WLock(k: nat) | WTest(k: nat) | WLoad(k: nat) | WStore(k: nat, v: int) | WUnlock(k: nat, got: bool)
    | SLock(k: nat) | SLoad(k: nat) | SStore(k: nat, v: int) | SUnlock(k: nat)

  // A thread, and what it has completed so far.
  datatype Thread = Thread(pc: Pc, log: seq<Action>)

  datatype State = State(value: seq<int>, flag: seq<nat>, threads: seq<Thread>, out: string)

  // The thread that takes a step, and what it begins if it is idle.
  datatype Turn = Turn(t: nat, next: Action)

  predicate WellFormed(s: State) {
    && |s.value| == |s.flag|
    && forall t :: 0 <= t < |s.threads| && !s.threads[t].pc.Idle? ==> s.threads[t].pc.k < |s.value|
  }

  function Goto(s: State, t: nat, pc: Pc): State
    requires t < |s.threads|
  {
    s.(threads := s.threads[t := s.threads[t].(pc := pc)])
  }

  // ... having completed an action.
  function Finish(s: State, t: nat, a: Action, pc: Pc): State
    requires t < |s.threads|
  {
    s.(threads := s.threads[t := Thread(pc, s.threads[t].log + [a])])
  }

  function Begin(s: State, t: nat, a: Action): State
    requires t < |s.threads|
  {
    match a
    case Wait(k) => if k < |s.value| then Goto(s, t, WLock(k)) else s
    case Signal(k) => if k < |s.value| then Goto(s, t, SLock(k)) else s
    case Print(ch) => Finish(s, t, a, Idle).(out := s.out + [ch])
  }

  function Step(s: State, turn: Turn): State
    requires WellFormed(s)
  {
    var t := turn.t;
    if t >= |s.threads| then s else
    match s.threads[t].pc
    case Idle => Begin(s, t, turn.next)
    case WLock(k) => if s.flag[k] != 0 then s else Goto(s, t, WTest(k)).(flag := s.flag[k := 1])
    case WTest(k) => Goto(s, t, if s.value[k] > 0 then WLoad(k) else WUnlock(k, false))
    case WLoad(k) => Goto(s, t, WStore(k, s.value[k]))
    case WStore(k, v) => Finish(s, t, Wait(k), WUnlock(k, true)).(value := s.value[k := v - 1])
    case WUnlock(k, got) => Goto(s, t, if got then Idle else WLock(k)).(flag := s.flag[k := 0])
    case SLock(k) => if s.flag[k] != 0 then s else Goto(s, t, SLoad(k)).(flag := s.flag[k := 1])
    case SLoad(k) => Goto(s, t, SStore(k, s.value[k]))
    case SStore(k, v) => Finish(s, t, Signal(k), SUnlock(k)).(value := s.value[k := v + 1])
    case SUnlock(k) => Goto(s, t, Idle).(flag := s.flag[k := 0])
  }

  function Run(s: State, schedule: seq<Turn>): (r: State)
    requires WellFormed(s)
    ensures WellFormed(r) && |r.threads| == |s.threads| && |r.value| == |s.value|
  {
    if |schedule| == 0 then s
    else Step(Run(s, schedule[..|schedule| - 1]), schedule[|schedule| - 1])
  }

  // ---- sums over the threads -----------------------------------------------------------------

  function Times(log: seq<Action>, a: Action): nat {
    if |log| == 0 then 0 else Times(log[..|log| - 1], a) + (if log[|log| - 1] == a then 1 else 0)
  }

  lemma TimesMore(log: seq<Action>, b: Action, a: Action)
    ensures Times(log + [b], a) == Times(log, a) + if a == b then 1 else 0
  {
    assert (log + [b])[..|log|] == log;
  }

  // How often a thread has completed an action.
  function Done(a: Action): Thread -> int { (th: Thread) => Times(th.log, a) }

  function Count(out: string, ch: char): nat {
    if |out| == 0 then 0 else Count(out[..|out| - 1], ch) + (if out[|out| - 1] == ch then 1 else 0)
  }

  // ---- the invariant ---------------------------------------------------------------------------

  // The thread is between lock and unlock of semaphore k.
  predicate Inside(th: Thread, k: nat) {
    !th.pc.Idle? && !th.pc.WLock? && !th.pc.SLock? && th.pc.k == k
  }

  // Some thread holds the lock exactly while its flag is set, and then only one.
  ghost predicate Mutex(s: State, owner: seq<int>) {
    && WellFormed(s) && |owner| == |s.flag|
    && (forall k: nat :: k < |s.flag| ==>
          if s.flag[k] == 0 then owner[k] == -1
          else 0 <= owner[k] < |s.threads| && Inside(s.threads[owner[k]], k))
    && (forall t: nat, k: nat :: t < |s.threads| && k < |s.flag| && Inside(s.threads[t], k) ==> owner[k] == t)
  }

  // What a thread has loaded is still there.
  predicate LocalOk(s: State, th: Thread)
    requires !th.pc.Idle? ==> th.pc.k < |s.value|
  {
    match th.pc
    case WLoad(k) => s.value[k] > 0
    case WStore(k, v) => v == s.value[k] > 0
    case SStore(k, v) => v == s.value[k]
    case _ => true
  }

  ghost predicate Locals(s: State)
    requires WellFormed(s)
  {
    forall t: nat :: t < |s.threads| ==> LocalOk(s, s.threads[t])
  }

  // The semaphore's law: what was there, and what was given, less what was taken.
  ghost predicate Balanced(s: State, initial: seq<int>) {
    && |initial| == |s.value|
    && forall k: nat :: k < |s.value| ==>
         0 <= s.value[k] == initial[k] + Total(s.threads, Done(Signal(k))) - Total(s.threads, Done(Wait(k)))
  }

  ghost predicate Printed(s: State) {
    forall ch: char :: Count(s.out, ch) == Total(s.threads, Done(Print(ch)))
  }

  ghost predicate Inv(s: State, owner: seq<int>, initial: seq<int>) {
    Mutex(s, owner) && Locals(s) && Balanced(s, initial) && Printed(s)
  }

  // The threads before their first step.
  ghost predicate Fresh(s: State) {
    && WellFormed(s) && s.out == ""
    && (forall k: nat :: k < |s.value| ==> s.flag[k] == 0 && s.value[k] >= 0)
    && (forall t: nat :: t < |s.threads| ==> s.threads[t] == Thread(Idle, []))
  }

  lemma FreshInv(s: State)
    requires Fresh(s)
    ensures Inv(s, seq(|s.flag|, i => -1), s.value)
  {
    forall a: Action
      ensures Total(s.threads, Done(a)) == 0
    {
      TotalZero(s.threads, Done(a));
    }
  }

  // ---- every step keeps it ---------------------------------------------------------------------

  // Who holds which lock after a step.
  function Owners(s: State, t: nat, owner: seq<int>): seq<int>
    requires WellFormed(s) && |owner| == |s.flag|
  {
    if t >= |s.threads| then owner else
    match s.threads[t].pc
    case WLock(k) => if s.flag[k] != 0 then owner else owner[k := t]
    case WUnlock(k, _) => owner[k := -1]
    case SLock(k) => if s.flag[k] != 0 then owner else owner[k := t]
    case SUnlock(k) => owner[k := -1]
    case _ => owner
  }

  // Only thread t has moved.
  ghost predicate Moved(s: State, s': State, t: nat) {
    && WellFormed(s) && WellFormed(s') && |s'.value| == |s.value| && t < |s.threads| == |s'.threads|
    && s'.threads == s.threads[t := s'.threads[t]]
  }

  lemma EnterMutex(s: State, s': State, t: nat, owner: seq<int>, k: nat)
    requires Mutex(s, owner) && Moved(s, s', t) && k < |s.flag| && s.flag[k] == 0 && s'.flag == s.flag[k := 1]
    requires forall j: nat :: j < |s.flag| ==> !Inside(s.threads[t], j) && (Inside(s'.threads[t], j) <==> j == k)
    ensures Mutex(s', owner[k := t])
  {
  }

  lemma LeaveMutex(s: State, s': State, t: nat, owner: seq<int>, k: nat)
    requires Mutex(s, owner) && Moved(s, s', t) && k < |s.flag| && s'.flag == s.flag[k := 0]
    requires forall j: nat :: j < |s.flag| ==> !Inside(s'.threads[t], j) && (Inside(s.threads[t], j) <==> j == k)
    ensures Mutex(s', owner[k := -1])
  {
    assert Inside(s.threads[t], k) && owner[k] == t;
    forall j: nat | j < |s.flag| && j != k && s.flag[j] != 0
      ensures owner[j] != t && Inside(s'.threads[owner[j]], j)
    {
      assert Inside(s.threads[owner[j]], j);
    }
  }

  lemma SameMutex(s: State, s': State, t: nat, owner: seq<int>)
    requires Mutex(s, owner) && Moved(s, s', t) && s'.flag == s.flag
    requires forall j: nat :: j < |s.flag| ==> (Inside(s'.threads[t], j) <==> Inside(s.threads[t], j))
    ensures Mutex(s', owner)
  {
  }

  lemma StepMutex(s: State, turn: Turn, owner: seq<int>)
    requires Mutex(s, owner)
    ensures Mutex(Step(s, turn), Owners(s, turn.t, owner))
  {
    var t := turn.t;
    if t < |s.threads| {
      var s' := Step(s, turn);
      match s.threads[t].pc
      case WLock(k) => if s.flag[k] == 0 { EnterMutex(s, s', t, owner, k); }
      case SLock(k) => if s.flag[k] == 0 { EnterMutex(s, s', t, owner, k); }
      case WUnlock(k, _) => LeaveMutex(s, s', t, owner, k);
      case SUnlock(k) => LeaveMutex(s, s', t, owner, k);
      case _ => SameMutex(s, s', t, owner);
    }
  }

  // A value is changed only by the thread inside, so what another has loaded stays true.
  lemma OtherLocal(s: State, s': State, t: nat, u: nat, owner: seq<int>)
    requires Mutex(s, owner) && Moved(s, s', t) && u < |s.threads| && u != t && LocalOk(s, s.threads[u])
    requires forall k: nat :: k < |s.value| ==> s'.value[k] == s.value[k] || owner[k] == t
    ensures LocalOk(s', s.threads[u])
  {
    var th := s.threads[u];
    assert !th.pc.Idle? && Inside(th, th.pc.k) ==> s'.value[th.pc.k] == s.value[th.pc.k];
  }

  lemma StepLocals(s: State, turn: Turn, owner: seq<int>)
    requires Mutex(s, owner) && Locals(s)
    ensures WellFormed(Step(s, turn)) && Locals(Step(s, turn))
  {
    var t := turn.t;
    if t < |s.threads| {
      var s', pc := Step(s, turn), s.threads[t].pc;
      assert LocalOk(s, s.threads[t]);
      assert pc.WStore? || pc.SStore? ==> Inside(s.threads[t], pc.k);
      forall u: nat | u < |s.threads| && u != t
        ensures LocalOk(s', s'.threads[u])
      {
        assert LocalOk(s, s.threads[u]);
        OtherLocal(s, s', t, u, owner);
      }
    }
  }

  lemma StepBalanced(s: State, turn: Turn, initial: seq<int>)
    requires WellFormed(s) && Locals(s) && Balanced(s, initial)
    ensures Balanced(Step(s, turn), initial)
  {
    var t := turn.t;
    if t < |s.threads| {
      var s' := Step(s, turn);
      assert LocalOk(s, s.threads[t]);
      forall k: nat | k < |s.value|
        ensures 0 <= s'.value[k] == initial[k] + Total(s'.threads, Done(Signal(k))) - Total(s'.threads, Done(Wait(k)))
      {
        ValueMoves(s, turn, k);
        TotalUpdate(s.threads, t, s'.threads[t], Done(Signal(k)));
        TotalUpdate(s.threads, t, s'.threads[t], Done(Wait(k)));
      }
    }
  }

  // What a step adds to the log of its thread.
  lemma LogMoves(s: State, turn: Turn, a: Action)
    requires WellFormed(s) && turn.t < |s.threads|
    ensures var s' := Step(s, turn); var pc := s.threads[turn.t].pc;
            && |s'.threads| == |s.threads|
            && Done(a)(s'.threads[turn.t]) == Done(a)(s.threads[turn.t])
               + (if (pc.WStore? && a == Wait(pc.k)) || (pc.SStore? && a == Signal(pc.k))
                     || (pc.Idle? && turn.next.Print? && a == turn.next) then 1 else 0)
  {
    var log, pc := s.threads[turn.t].log, s.threads[turn.t].pc;
    match pc
    case WStore(k, _) => TimesMore(log, Wait(k), a);
    case SStore(k, _) => TimesMore(log, Signal(k), a);
    case Idle => TimesMore(log, turn.next, a);
    case _ =>
  }

  // A value moves with the counts of the thread that stores it.
  lemma ValueMoves(s: State, turn: Turn, k: nat)
    requires WellFormed(s) && turn.t < |s.threads| && LocalOk(s, s.threads[turn.t])
    requires k < |s.value| && s.value[k] >= 0
    ensures var s', t := Step(s, turn), turn.t;
            && |s'.value| == |s.value| && |s'.threads| == |s.threads|
            && s'.threads == s.threads[t := s'.threads[t]]
            && s'.value[k] >= 0
            && s'.value[k] - s.value[k] ==
               (Done(Signal(k))(s'.threads[t]) - Done(Signal(k))(s.threads[t]))
               - (Done(Wait(k))(s'.threads[t]) - Done(Wait(k))(s.threads[t]))
  {
    LogMoves(s, turn, Signal(k));
    LogMoves(s, turn, Wait(k));
  }

  lemma StepPrinted(s: State, turn: Turn)
    requires WellFormed(s) && Printed(s)
    ensures Printed(Step(s, turn))
  {
    var t := turn.t;
    if t < |s.threads| {
      var s', pc := Step(s, turn), s.threads[t].pc;
      forall ch: char
        ensures Count(s'.out, ch) == Total(s'.threads, Done(Print(ch)))
      {
        LogMoves(s, turn, Print(ch));
        assert s'.threads == s.threads[t := s'.threads[t]];
        TotalUpdate(s.threads, t, s'.threads[t], Done(Print(ch)));
        assert pc.Idle? && turn.next.Print? ==> s'.out[..|s'.out| - 1] == s.out;
      }
    }
  }

  lemma {:induction false} RunKeepsInv(s: State, schedule: seq<Turn>, owner: seq<int>, initial: seq<int>)
    returns (owner': seq<int>)
    requires Inv(s, owner, initial)
    ensures Inv(Run(s, schedule), owner', initial)
  {
    if |schedule| == 0 {
      owner' := owner;
    } else {
      var k := |schedule| - 1;
      var before := RunKeepsInv(s, schedule[..k], owner, initial);
      var r, turn := Run(s, schedule[..k]), schedule[k];
      StepMutex(r, turn, before);
      StepLocals(r, turn, before);
      StepBalanced(r, turn, initial);
      StepPrinted(r, turn);
      owner' := Owners(r, turn.t, before);
    }
  }

  // ---- what it means ------------------------------------------------------------------------------

  // At most one thread is inside a semaphore, whatever the threads do.
  lemma OneInside(s: State, schedule: seq<Turn>, k: nat, t: nat, u: nat)
    requires Fresh(s) && k < |s.value| && t < |s.threads| && u < |s.threads|
    requires Inside(Run(s, schedule).threads[t], k) && Inside(Run(s, schedule).threads[u], k)
    ensures t == u
  {
    var r := Run(s, schedule);
    FreshInv(s);
    var owner := RunKeepsInv(s, schedule, seq(|s.flag|, i => -1), s.value);
    assert Mutex(r, owner);
    assert owner[k] == t && owner[k] == u;
  }

  // value == initial + signals - completed waits, and never negative.
  lemma ValueLaw(s: State, schedule: seq<Turn>, k: nat)
    requires Fresh(s) && k < |s.value|
    ensures var r := Run(s, schedule);
            0 <= r.value[k] == s.value[k] + Total(r.threads, Done(Signal(k))) - Total(r.threads, Done(Wait(k)))
  {
    FreshInv(s);
    var owner := RunKeepsInv(s, schedule, seq(|s.flag|, i => -1), s.value);
  }

  // The thread has waited for k more often than it has signalled it.
  function Holds(k: nat): Thread -> int {
    (th: Thread) => if Times(th.log, Wait(k)) > Times(th.log, Signal(k)) then 1 else 0
  }

  function Balance(k: nat): Thread -> int {
    (th: Thread) => Times(th.log, Wait(k)) - Times(th.log, Signal(k))
  }

  // Where no thread signals k more often than it has waited for it, at most as many hold it as
  // there were to begin with; with 1 it is a mutual exclusion lock.
  lemma AtMostN(s: State, schedule: seq<Turn>, k: nat)
    requires Fresh(s) && k < |s.value|
    requires forall t: nat :: t < |s.threads| ==> Balance(k)(Run(s, schedule).threads[t]) >= 0
    ensures Total(Run(s, schedule).threads, Holds(k)) <= s.value[k]
  {
    var r := Run(s, schedule);
    ValueLaw(s, schedule, k);
    TotalAtMost(r.threads, Holds(k), Balance(k));
    TotalMinus(r.threads, Done(Wait(k)), Done(Signal(k)), Balance(k));
  }

  // ---- a thread on its own -----------------------------------------------------------------------

  // So many turns of one thread, which begins an action whenever it is idle.
  function Alone(t: nat, a: Action, n: nat): seq<Turn> {
    if n == 0 then [] else Alone(t, a, n - 1) + [Turn(t, a)]
  }

  lemma {:induction false} RunAlone(s: State, t: nat, a: Action, n: nat)
    requires WellFormed(s)
    ensures Run(s, Alone(t, a, n)) == if n == 0 then s else Step(Run(s, Alone(t, a, n - 1)), Turn(t, a))
  {
    if n > 0 {
      assert Alone(t, a, n)[..|Alone(t, a, n)| - 1] == Alone(t, a, n - 1);
    }
  }

  // Some number of turns of t alone lead from s to s'.
  ghost predicate Leads(s: State, t: nat, a: Action, s': State)
    requires WellFormed(s)
  {
    exists n: nat :: Run(s, Alone(t, a, n)) == s'
  }

  lemma LeadsOn(s: State, t: nat, a: Action, m: State, s': State)
    requires WellFormed(s) && WellFormed(m) && Leads(s, t, a, m) && s' == Step(m, Turn(t, a))
    ensures Leads(s, t, a, s')
  {
    var n: nat :| Run(s, Alone(t, a, n)) == m;
    RunAlone(s, t, a, n + 1);
  }

  lemma LeadsSelf(s: State, t: nat, a: Action, none: nat)
    requires WellFormed(s) && none == 0
    ensures Leads(s, t, a, s)
  {
    RunAlone(s, t, a, none);
  }

  ghost predicate Outside(s: State, t: nat, k: nat, pc: Pc) {
    && WellFormed(s) && t < |s.threads| && s.threads[t].pc == pc
    && k < |s.value| && s.flag[k] == 0
  }

  // One waited for and taken, one given, and nothing else changed.
  function Taken(s: State, t: nat, k: nat): State
    requires t < |s.threads| && k < |s.value|
  {
    s.(threads := s.threads[t := Thread(Idle, s.threads[t].log + [Wait(k)])], value := s.value[k := s.value[k] - 1])
  }

  function Given(s: State, t: nat, k: nat): State
    requires t < |s.threads| && k < |s.value|
  {
    s.(threads := s.threads[t := Thread(Idle, s.threads[t].log + [Signal(k)])], value := s.value[k := s.value[k] + 1])
  }

  // The steps of a wait and of a signal, from the same state apart from the thread's place.
  lemma WaitSteps(s: State, t: nat, a: Action, k: nat)
    requires WellFormed(s) && t < |s.threads| && k < |s.value|
    ensures Step(Goto(s, t, WTest(k)), Turn(t, a)) == Goto(s, t, if s.value[k] > 0 then WLoad(k) else WUnlock(k, false))
    ensures Step(Goto(s, t, WLoad(k)), Turn(t, a)) == Goto(s, t, WStore(k, s.value[k]))
  {
    Twice(s, t, WTest(k), if s.value[k] > 0 then WLoad(k) else WUnlock(k, false));
    Twice(s, t, WLoad(k), WStore(k, s.value[k]));
  }

  lemma SignalSteps(s: State, t: nat, a: Action, k: nat)
    requires WellFormed(s) && t < |s.threads| && k < |s.value|
    ensures Step(Goto(s, t, SLoad(k)), Turn(t, a)) == Goto(s, t, SStore(k, s.value[k]))
  {
    Twice(s, t, SLoad(k), SStore(k, s.value[k]));
  }

  lemma Twice(s: State, t: nat, pc: Pc, next: Pc)
    requires t < |s.threads|
    ensures Goto(Goto(s, t, pc), t, next) == Goto(s, t, next)
  {
    var log := s.threads[t].log;
    assert s.threads[t := Thread(pc, log)][t := Thread(next, log)] == s.threads[t := Thread(next, log)];
  }

  function Locked(s: State, k: nat): State
    requires k < |s.flag|
  {
    s.(flag := s.flag[k := 1])
  }

  lemma LockStep(s: State, t: nat, a: Action, k: nat)
    requires Outside(s, t, k, WLock(k)) || Outside(s, t, k, SLock(k))
    ensures Step(s, Turn(t, a)) == Goto(Locked(s, k), t, if s.threads[t].pc.WLock? then WTest(k) else SLoad(k))
  {
  }

  // The store and the unlock that follow.
  lemma LastSteps(s: State, t: nat, a: Action, k: nat)
    requires WellFormed(s) && t < |s.threads| && k < |s.value| && s.flag[k] == 0
    ensures var m := Step(Goto(Locked(s, k), t, WStore(k, s.value[k])), Turn(t, a));
            WellFormed(m) && Step(m, Turn(t, a)) == Taken(s, t, k)
    ensures var m := Step(Goto(Locked(s, k), t, SStore(k, s.value[k])), Turn(t, a));
            WellFormed(m) && Step(m, Turn(t, a)) == Given(s, t, k)
  {
    assert s.flag[k := 1][k := 0] == s.flag;
    var log, th := s.threads[t].log, Goto(Locked(s, k), t, WStore(k, s.value[k])).threads[t];
    var took, gave := log + [Wait(k)], log + [Signal(k)];
    Overwrite(s.threads, t, th, Thread(WUnlock(k, true), took), Thread(Idle, took));
    Overwrite(s.threads, t, th.(pc := SStore(k, s.value[k])), Thread(SUnlock(k), gave), Thread(Idle, gave));
  }

  lemma Overwrite<T>(s: seq<T>, i: nat, x: T, y: T, z: T)
    requires i < |s|
    ensures s[i := x][i := y][i := z] == s[i := z]
  {
  }

  lemma GiveUpStep(s: State, t: nat, a: Action, k: nat)
    requires Outside(s, t, k, WLock(k))
    ensures Step(Goto(Locked(s, k), t, WUnlock(k, false)), Turn(t, a)) == s
  {
    Twice(s, t, WUnlock(k, false), WLock(k));
    assert s.flag[k := 1][k := 0] == s.flag && s.threads[t := s.threads[t]] == s.threads;
  }

  // A thread that comes to a free semaphore with something to take takes it; with nothing to
  // take it is back where it tries again, and all is as before.
  lemma TryAlone(s0: State, s: State, t: nat, a: Action, k: nat)
    requires WellFormed(s0) && Leads(s0, t, a, s) && Outside(s, t, k, WLock(k))
    ensures Leads(s0, t, a, if s.value[k] > 0 then Taken(s, t, k) else s)
  {
    var u := Locked(s, k);
    WaitSteps(u, t, a, k);
    LockStep(s, t, a, k);
    LeadsOn(s0, t, a, s, Goto(u, t, WTest(k)));
    if s.value[k] > 0 {
      LastSteps(s, t, a, k);
      LeadsOn(s0, t, a, Goto(u, t, WTest(k)), Goto(u, t, WLoad(k)));
      LeadsOn(s0, t, a, Goto(u, t, WLoad(k)), Goto(u, t, WStore(k, s.value[k])));
      LeadsTwice(s0, t, a, Goto(u, t, WStore(k, s.value[k])), Taken(s, t, k));
    } else {
      GiveUpStep(s, t, a, k);
      LeadsOn(s0, t, a, Goto(u, t, WTest(k)), Goto(u, t, WUnlock(k, false)));
      LeadsOn(s0, t, a, Goto(u, t, WUnlock(k, false)), s);
    }
  }

  lemma LeadsTwice(s: State, t: nat, a: Action, m: State, s': State)
    requires WellFormed(s) && WellFormed(m) && Leads(s, t, a, m)
    requires WellFormed(Step(m, Turn(t, a))) && s' == Step(Step(m, Turn(t, a)), Turn(t, a))
    ensures Leads(s, t, a, s')
  {
    LeadsOn(s, t, a, m, Step(m, Turn(t, a)));
    LeadsOn(s, t, a, Step(m, Turn(t, a)), s');
  }

  /** Alone, a wait on a semaphore that has something to take completes and takes one; else
      the thread is left trying, with everything else as before. */
  lemma WaitAlone(s: State, t: nat, k: nat, none: nat)
    requires Outside(s, t, k, Idle) && none == 0
    ensures Leads(s, t, Wait(k), if s.value[k] > 0 then Taken(s, t, k) else Goto(s, t, WLock(k)))
  {
    var m := Goto(s, t, WLock(k));
    LeadsSelf(s, t, Wait(k), none);
    LeadsOn(s, t, Wait(k), s, m);
    TryAlone(s, m, t, Wait(k), k);
    PlaceForgotten(s, t, k, WLock(k));
  }

  // Where the thread was does not matter to what it has done.
  lemma PlaceForgotten(s: State, t: nat, k: nat, pc: Pc)
    requires t < |s.threads| && k < |s.value|
    ensures Taken(Goto(s, t, pc), t, k) == Taken(s, t, k) && Given(Goto(s, t, pc), t, k) == Given(s, t, k)
  {
    var log := s.threads[t].log;
    var took, gave := Thread(Idle, log + [Wait(k)]), Thread(Idle, log + [Signal(k)]);
    assert s.threads[t := Thread(pc, log)][t := took] == s.threads[t := took];
    assert s.threads[t := Thread(pc, log)][t := gave] == s.threads[t := gave];
  }

  lemma GiveAlone(s0: State, s: State, t: nat, a: Action, k: nat)
    requires WellFormed(s0) && Leads(s0, t, a, s) && Outside(s, t, k, SLock(k))
    ensures Leads(s0, t, a, Given(s, t, k))
  {
    var u := Locked(s, k);
    LockStep(s, t, a, k);
    LeadsOn(s0, t, a, s, Goto(u, t, SLoad(k)));
    SignalSteps(u, t, a, k);
    LeadsOn(s0, t, a, Goto(u, t, SLoad(k)), Goto(u, t, SStore(k, s.value[k])));
    LastSteps(s, t, a, k);
    LeadsTwice(s0, t, a, Goto(u, t, SStore(k, s.value[k])), Given(s, t, k));
  }

  /** Alone, a signal completes and gives one. */
  lemma SignalAlone(s: State, t: nat, k: nat, none: nat)
    requires Outside(s, t, k, Idle) && none == 0
    ensures Leads(s, t, Signal(k), Given(s, t, k))
  {
    var m := Goto(s, t, SLock(k));
    LeadsSelf(s, t, Signal(k), none);
    LeadsOn(s, t, Signal(k), s, m);
    GiveAlone(s, m, t, Signal(k), k);
    PlaceForgotten(s, t, k, SLock(k));
  }

  // ---- what the test under the lock decides ---------------------------------------------------------

  // The thread has looked at the value v0, with this log, and has not left since.
  ghost predicate Decided(s: State, t: nat, k: nat, v0: int, log: seq<Action>) {
    && t < |s.threads| && k < |s.value|
    && match s.threads[t].pc
       case WTest(j) => j == k && s.value[k] == v0 && s.threads[t].log == log
       case WLoad(j) => j == k && s.value[k] == v0 > 0 && s.threads[t].log == log
       case WStore(j, v) => j == k && s.value[k] == v == v0 > 0 && s.threads[t].log == log
       case WUnlock(j, got) =>
         && j == k && (got <==> v0 > 0) && s.value[k] == (if got then v0 - 1 else v0)
         && s.threads[t].log == if got then log + [Wait(k)] else log
       case _ => false
  }

  // A thread that is not inside leaves the value alone.
  lemma OthersKeepValue(s: State, turn: Turn, owner: seq<int>, t: nat, k: nat)
    requires Mutex(s, owner) && t < |s.threads| && turn.t != t && k < |s.value| && Inside(s.threads[t], k)
    ensures var s' := Step(s, turn);
            |s'.value| == |s.value| && |s'.threads| == |s.threads|
            && s'.value[k] == s.value[k] && s'.threads[t] == s.threads[t]
  {
    assert owner[k] == t;
  }

  // The thread has been inside ever since.
  ghost predicate HeldSince(s: State, before: seq<Turn>, since: seq<Turn>, t: nat, k: nat)
    requires WellFormed(s) && t < |s.threads|
  {
    forall i :: 0 <= i <= |since| ==> Inside(Run(s, before + since[..i]).threads[t], k)
  }

  lemma {:induction false} HeldBefore(s: State, before: seq<Turn>, since: seq<Turn>, t: nat, k: nat)
    requires WellFormed(s) && t < |s.threads| && |since| > 0 && HeldSince(s, before, since, t, k)
    ensures HeldSince(s, before, since[..|since| - 1], t, k)
    ensures Inside(Run(s, before + since).threads[t], k)
  {
    var less := since[..|since| - 1];
    forall i | 0 <= i <= |less|
      ensures Inside(Run(s, before + less[..i]).threads[t], k)
    {
      assert less[..i] == since[..i];
    }
    assert since[..|since|] == since;
  }

  lemma {:induction false} RunNext(s: State, before: seq<Turn>, since: seq<Turn>)
    requires WellFormed(s) && |since| > 0
    ensures Run(s, before + since) == Step(Run(s, before + since[..|since| - 1]), since[|since| - 1])
  {
    assert (before + since)[..|before + since| - 1] == before + since[..|since| - 1];
  }

  /** Whatever the others do meanwhile: a thread that holds the lock and is about to look at
      the value will take one if and only if there is one. */
  lemma {:induction false} TestDecides(s: State, before: seq<Turn>, since: seq<Turn>, t: nat, k: nat)
    requires Fresh(s) && t < |s.threads| && k < |s.value|
    requires Run(s, before).threads[t].pc == WTest(k) && HeldSince(s, before, since, t, k)
    ensures Decided(Run(s, before + since), t, k, Run(s, before).value[k], Run(s, before).threads[t].log)
    decreases |since|
  {
    if |since| == 0 {
      assert before + since == before;
    } else {
      var n := |since| - 1;
      HeldBefore(s, before, since, t, k);
      TestDecides(s, before, since[..n], t, k);
      RunNext(s, before, since);
      FreshInv(s);
      var owner := RunKeepsInv(s, before + since[..n], seq(|s.flag|, i => -1), s.value);
      var start := Run(s, before);
      StaysDecided(Run(s, before + since[..n]), since[n], owner, t, k, start.value[k], start.threads[t].log);
    }
  }

  lemma StaysDecided(r: State, turn: Turn, owner: seq<int>, t: nat, k: nat, v0: int, log: seq<Action>)
    requires Mutex(r, owner) && Decided(r, t, k, v0, log)
    requires t < |Step(r, turn).threads| && Inside(Step(r, turn).threads[t], k)
    ensures Decided(Step(r, turn), t, k, v0, log)
  {
    if turn.t != t {
      OthersKeepValue(r, turn, owner, t, k);
    }
  }

  // ---- threads that repeat a list of actions -----------------------------------------------------------

  // Every thread begins what its list says next, over and over again.
  ghost predicate Obeys(s: State, schedule: seq<Turn>, loops: seq<seq<Action>>)
    requires WellFormed(s) && |loops| == |s.threads| && forall t :: 0 <= t < |loops| ==> |loops[t]| > 0
  {
    if |schedule| == 0 then true
    else
      var k := |schedule| - 1;
      var r, turn := Run(s, schedule[..k]), schedule[k];
      && Obeys(s, schedule[..k], loops)
      && (turn.t < |r.threads| && r.threads[turn.t].pc.Idle? ==>
            turn.next == NextOf(loops[turn.t], |r.threads[turn.t].log|))
  }

  function NextOf(loop: seq<Action>, n: nat): Action
    requires |loop| > 0
  {
    loop[n % |loop|]
  }

  // The log is the list, as far as the thread has come, and it is about to do what comes next.
  predicate Along(th: Thread, loop: seq<Action>)
    requires |loop| > 0
  {
    && (forall i :: 0 <= i < |th.log| ==> th.log[i] == NextOf(loop, i))
    && match th.pc
       case Idle => true
       case WUnlock(k, got) => got || NextOf(loop, |th.log|) == Wait(k)
       case SUnlock(_) => true
       case SLock(k) => NextOf(loop, |th.log|) == Signal(k)
       case SLoad(k) => NextOf(loop, |th.log|) == Signal(k)
       case SStore(k, _) => NextOf(loop, |th.log|) == Signal(k)
       case _ => NextOf(loop, |th.log|) == Wait(th.pc.k)
  }

  lemma {:induction false} RunAlong(s: State, schedule: seq<Turn>, loops: seq<seq<Action>>, t: nat)
    requires Fresh(s) && |loops| == |s.threads| && forall u :: 0 <= u < |loops| ==> |loops[u]| > 0
    requires Obeys(s, schedule, loops) && t < |s.threads|
    ensures Along(Run(s, schedule).threads[t], loops[t])
  {
    if |schedule| > 0 {
      RunAlong(s, schedule[..|schedule| - 1], loops, t);
    }
  }

  // How often each action of a list of three was done.
  lemma {:induction false} ThreeTimes(th: Thread, loop: seq<Action>)
    requires |loop| == 3 && Along(th, loop) && loop[0] != loop[1] && loop[1] != loop[2] && loop[0] != loop[2]
    ensures Times(th.log, loop[2]) <= Times(th.log, loop[1]) <= Times(th.log, loop[0])
  {
    LoopTimes(th.log, loop);
  }

  lemma {:induction false} LoopTimes(log: seq<Action>, loop: seq<Action>)
    requires |loop| == 3 && forall i :: 0 <= i < |log| ==> log[i] == NextOf(loop, i)
    requires loop[0] != loop[1] && loop[1] != loop[2] && loop[0] != loop[2]
    ensures Times(log, loop[0]) == (|log| + 2) / 3
    ensures Times(log, loop[1]) == (|log| + 1) / 3
    ensures Times(log, loop[2]) == |log| / 3
  {
    if |log| > 0 {
      var n := |log| - 1;
      LoopTimes(log[..n], loop);
      Thirds(n);
      assert log[n] == NextOf(loop, n);
    }
  }

  lemma Thirds(n: nat)
    ensures (n + 3) / 3 == (n + 2) / 3 + if n % 3 == 0 then 1 else 0
    ensures (n + 2) / 3 == (n + 1) / 3 + if n % 3 == 1 then 1 else 0
    ensures (n + 1) / 3 == n / 3 + if n % 3 == 2 then 1 else 0
  {
  }

  // No action that the list leaves out was done.
  lemma {:induction false} NeverDone(log: seq<Action>, loop: seq<Action>, a: Action)
    requires |loop| > 0 && forall i :: 0 <= i < |log| ==> log[i] == NextOf(loop, i)
    requires a !in loop
    ensures Times(log, a) == 0
  {
    if |log| > 0 {
      NeverDone(log[..|log| - 1], loop, a);
    }
  }

  // A user of k waits for it, prints and signals it; the others leave it alone.
  predicate UserOf(loop: seq<Action>, k: nat) {
    || (|loop| == 3 && loop[0] == Wait(k) && loop[1].Print? && loop[2] == Signal(k))
    || (|loop| > 0 && Wait(k) !in loop && Signal(k) !in loop)
  }

  // Any number of users, of which at most n are in between at any time.
  lemma UsersAtMostN(s: State, schedule: seq<Turn>, loops: seq<seq<Action>>, k: nat)
    requires Fresh(s) && k < |s.value| && |loops| == |s.threads|
    requires forall t :: 0 <= t < |loops| ==> |loops[t]| > 0 && UserOf(loops[t], k)
    requires Obeys(s, schedule, loops)
    ensures Total(Run(s, schedule).threads, Holds(k)) <= s.value[k]
  {
    var r := Run(s, schedule);
    forall t: nat | t < |s.threads|
      ensures Balance(k)(r.threads[t]) >= 0
    {
      RunAlong(s, schedule, loops, t);
      if Signal(k) in loops[t] {
        ThreeTimes(r.threads[t], loops[t]);
      } else {
        NeverDone(r.threads[t].log, loops[t], Signal(k));
      }
    }
    AtMostN(s, schedule, k);
  }

  // Producers wait for `empty`, print "(" and signal `fill`; consumers the other way round.
  function Producer(empty: nat, fill: nat): seq<Action> { [Wait(empty), Print('('), Signal(fill)] }

  function Consumer(empty: nat, fill: nat): seq<Action> { [Wait(fill), Print(')'), Signal(empty)] }

  // Between opening and closing brackets there are never fewer than 0 nor more than n.
  lemma BracketsInRange(s: State, schedule: seq<Turn>, loops: seq<seq<Action>>, empty: nat, fill: nat)
    requires Fresh(s) && empty != fill && empty < |s.value| && fill < |s.value| && s.value[fill] == 0
    requires |loops| == |s.threads|
    requires forall t :: 0 <= t < |loops| ==>
      |loops[t]| == 3 && (loops[t] == Producer(empty, fill) || loops[t] == Consumer(empty, fill))
    requires Obeys(s, schedule, loops)
    ensures 0 <= Count(Run(s, schedule).out, '(') - Count(Run(s, schedule).out, ')') <= s.value[empty]
  {
    var r := Run(s, schedule);
    FreshInv(s);
    var owner := RunKeepsInv(s, schedule, seq(|s.flag|, i => -1), s.value);
    forall t: nat | t < |r.threads|
      ensures Done(Signal(fill))(r.threads[t]) <= Done(Print('('))(r.threads[t]) <= Done(Wait(empty))(r.threads[t])
      ensures Done(Signal(empty))(r.threads[t]) <= Done(Print(')'))(r.threads[t]) <= Done(Wait(fill))(r.threads[t])
    {
      RunAlong(s, schedule, loops, t);
      BracketTimes(r.threads[t], loops[t], empty, fill);
    }
    TotalAtMost(r.threads, Done(Signal(fill)), Done(Print('(')));
    TotalAtMost(r.threads, Done(Print('(')), Done(Wait(empty)));
    TotalAtMost(r.threads, Done(Signal(empty)), Done(Print(')')));
    TotalAtMost(r.threads, Done(Print(')')), Done(Wait(fill)));
  }

  lemma BracketTimes(th: Thread, loop: seq<Action>, empty: nat, fill: nat)
    requires loop == Producer(empty, fill) || loop == Consumer(empty, fill)
    requires empty != fill && Along(th, loop)
    ensures Done(Signal(fill))(th) <= Done(Print('('))(th) <= Done(Wait(empty))(th)
    ensures Done(Signal(empty))(th) <= Done(Print(')'))(th) <= Done(Wait(fill))(th)
  {
    ThreeTimes(th, loop);
    var other := if loop == Producer(empty, fill) then Consumer(empty, fill) else Producer(empty, fill);
    NeverDone(th.log, loop, other[0]);
    NeverDone(th.log, loop, other[1]);
    NeverDone(th.log, loop, other[2]);
  }
}
