/** Any number of threads inside the allocator at once: each atomic access to a lock, a
    list head or a link is one step, and every interleaving keeps the books. */
module PmmThreads {
  import opened PmmLayout
  import opened Bits

  // ---- the machine ---------------------------------------------------------------------------

  // Where a thread stands: outside, in an allocation, or in a free.
  datatype Pc =
    | Idle
    | Want(c: nat, size: nat)                   // at the lock
    | Test(c: nat, size: nat)                   // is the list empty?
    | Take(c: nat, size: nat)                   // read the head
    | Link(c: nat, size: nat, r: nat)           // read the head's link
    | Pop(c: nat, size: nat, r: nat, x: nat)    // write the head
    | Leave(c: nat, size: nat, r: nat)          // unlock and return
    | FWant(c: nat, p: nat)                     // at the lock
    | FRead(c: nat, p: nat)                     // read the head
    | FLink(c: nat, p: nat, x: nat)             // write the block's link
    | FPush(c: nat, p: nat)                     // write the head
    | FLeave(c: nat)                            // unlock

  // What a thread outside the allocator does next; inside, it can only go on.
  datatype Action = Alloc(size: nat) | Free(p: nat) | Write(p: nat, offset: nat, v: nat) | Go

  // A block handed out: its class and the size asked for.
  datatype Grant = Grant(c: nat, size: nat)

  datatype State = State(heap: Heap, mem: map<nat, nat>, heads: seq<nat>, flags: seq<nat>,
                         threads: seq<Pc>, live: map<nat, Grant>, halted: bool)

  function At(mem: map<nat, nat>, a: nat): nat { if a in mem then mem[a] else 0 }

  predicate WellFormed(s: State) { |s.heads| == |s.flags| == CLASSES }

  function Goto(s: State, t: nat, pc: Pc): State
    requires t < |s.threads|
  {
    s.(threads := s.threads[t := pc])
  }

  function Call(s: State, t: nat, a: Action): State
    requires t < |s.threads|
  {
    match a
    case Alloc(size) =>
      (match ClassFor(size)
       case Class(c) => Goto(s, t, Want(c, size))
       case _ => s)
    case Free(p) =>
      if p !in s.live then s else
      (match FreeRoute(s.heap, p)
       case Class(c) => Goto(s, t, FWant(c, p)).(live := s.live - {p})
       case Huge => s
       case Stuck => s.(halted := true))
    case Write(p, offset, v) =>
      if p in s.live && offset % 8 == 0 && offset < s.live[p].size
      then s.(mem := s.mem[p + offset := v]) else s
    case Go => s
  }

  function Step(s: State, t: nat, a: Action): State
    requires WellFormed(s)
  {
    if s.halted || t >= |s.threads| then s else
    var pc := s.threads[t];
    if !pc.Idle? && pc.c >= CLASSES then s else
    match pc
    case Idle => Call(s, t, a)
    case Want(c, size) => if s.flags[c] != 0 then s else Goto(s, t, Test(c, size)).(flags := s.flags[c := 1])
    case Test(c, size) => Goto(s, t, if s.heads[c] != 0 then Take(c, size) else Leave(c, size, 0))
    case Take(c, size) => Goto(s, t, Link(c, size, s.heads[c]))
    case Link(c, size, r) => Goto(s, t, Pop(c, size, r, At(s.mem, r)))
    case Pop(c, size, r, x) => Goto(s, t, Leave(c, size, r)).(heads := s.heads[c := x])
    case Leave(c, size, r) =>
      Goto(s, t, Idle).(flags := s.flags[c := 0], live := if r == 0 then s.live else s.live[r := Grant(c, size)])
    case FWant(c, p) => if s.flags[c] != 0 then s else Goto(s, t, FRead(c, p)).(flags := s.flags[c := 1])
    case FRead(c, p) => Goto(s, t, FLink(c, p, s.heads[c]))
    case FLink(c, p, x) => Goto(s, t, FPush(c, p)).(mem := s.mem[p := x])
    case FPush(c, p) => Goto(s, t, FLeave(c)).(heads := s.heads[c := p])
    case FLeave(c) => Goto(s, t, Idle).(flags := s.flags[c := 0])
  }

  function Run(s: State, schedule: seq<(nat, Action)>): (r: State)
    requires WellFormed(s)
    ensures WellFormed(r) && r.heap == s.heap && |r.threads| == |s.threads|
  {
    if |schedule| == 0 then s
    else
      var k := |schedule| - 1;
      Step(Run(s, schedule[..k]), schedule[k].0, schedule[k].1)
  }

  // ---- the books -------------------------------------------------------------------------------

  datatype Place = OnList(c: nat) | With(t: nat) | Live

  // The ten lists, the place of every block, and the holder of every lock.
  datatype Books = Books(free: seq<seq<nat>>, place: map<nat, Place>, owner: seq<int>)

  function Held(pc: Pc): nat {
    match pc
    case Leave(c, size, r) => r
    case FWant(c, p) => p
    case FRead(c, p) => p
    case FLink(c, p, x) => p
    case FPush(c, p) => p
    case _ => 0
  }

  predicate Inside(pc: Pc) {
    !pc.Idle? && !pc.Want? && !pc.FWant?
  }

  predicate Distinct(list: seq<nat>) {
    forall i, j :: 0 <= i < j < |list| ==> list[i] != list[j]
  }

  function LinkOf(list: seq<nat>, i: nat): nat {
    if i + 1 < |list| then list[i + 1] else 0
  }

  // From the head the links lead through the list to the end, without a cycle.
  predicate Chain(mem: map<nat, nat>, head: nat, list: seq<nat>) {
    && head == (if |list| == 0 then 0 else list[0])
    && Distinct(list)
    && forall i {:trigger LinkOf(list, i)} :: 0 <= i < |list| ==> At(mem, list[i]) == LinkOf(list, i)
  }

  ghost predicate Lists(s: State, b: Books) {
    && |b.free| == CLASSES && WellFormed(s)
    && forall c: nat :: c < CLASSES ==> Chain(s.mem, s.heads[c], b.free[c])
  }

  // A block's place in the books is where it really is ...
  ghost predicate PlaceOk(s: State, b: Books, p: nat)
    requires p in b.place && |b.free| == CLASSES
  {
    match b.place[p]
    case OnList(c) => IsBlock(s.heap, c, p) && p in b.free[c]
    case With(t) =>
      t < |s.threads| && !s.threads[t].Idle? && Held(s.threads[t]) == p && IsBlock(s.heap, s.threads[t].c, p)
    case Live => p in s.live && IsBlock(s.heap, s.live[p].c, p) && s.live[p].size <= SizeOf(s.live[p].c)
  }

  // ... and every list, thread and user has only blocks that the books give them.
  ghost predicate Listed(b: Books)
  {
    |b.free| == CLASSES && forall c: nat, p :: c < CLASSES && p in b.free[c] ==> p in b.place && b.place[p] == OnList(c)
  }

  ghost predicate Carried(s: State, b: Books) {
    forall t: nat :: t < |s.threads| && Held(s.threads[t]) != 0 ==>
      Held(s.threads[t]) in b.place && b.place[Held(s.threads[t])] == With(t)
  }

  ghost predicate Granted(s: State, b: Books) {
    forall p :: p in s.live ==> p in b.place && b.place[p] == Live
  }

  ghost predicate Backed(s: State, b: Books) {
    |b.free| == CLASSES && forall p :: p in b.place ==> PlaceOk(s, b, p)
  }

  ghost predicate Placed(s: State, b: Books) {
    0 !in b.place && Backed(s, b) && Listed(b) && Carried(s, b) && Granted(s, b)
  }

  ghost predicate Mutex(s: State, b: Books) {
    && WellFormed(s) && |b.owner| == CLASSES
    && (forall c: nat :: c < CLASSES ==>
          if s.flags[c] == 0 then b.owner[c] == -1
          else 0 <= b.owner[c] < |s.threads| && Inside(s.threads[b.owner[c]]) && s.threads[b.owner[c]].c == c)
    && (forall t: nat :: t < |s.threads| && Inside(s.threads[t]) ==>
          s.threads[t].c < CLASSES && b.owner[s.threads[t].c] == t)
  }

  predicate LocalOk(s: State, pc: Pc)
    requires WellFormed(s)
  {
    pc.Idle? || (pc.c < CLASSES &&
    match pc
    case Want(c, size) => size <= SizeOf(c)
    case Test(c, size) => size <= SizeOf(c)
    case Take(c, size) => size <= SizeOf(c) && s.heads[c] != 0
    case Link(c, size, r) => size <= SizeOf(c) && r == s.heads[c] != 0
    case Pop(c, size, r, x) => size <= SizeOf(c) && r == s.heads[c] != 0 && At(s.mem, r) == x
    case Leave(c, size, r) => size <= SizeOf(c)
    case FWant(c, p) => p != 0
    case FRead(c, p) => p != 0
    case FLink(c, p, x) => p != 0 && x == s.heads[c]
    case FPush(c, p) => p != 0 && At(s.mem, p) == s.heads[c]
    case FLeave(c) => true)
  }

  ghost predicate Locals(s: State)
    requires WellFormed(s)
  {
    forall t: nat :: t < |s.threads| ==> LocalOk(s, s.threads[t])
  }

  ghost predicate Inv(s: State, b: Books) {
    Lists(s, b) && Placed(s, b) && Mutex(s, b) && Locals(s)
  }

  // ---- how the books follow a step -----------------------------------------------------------------

  function CallBooks(s: State, t: nat, a: Action, b: Books): Books {
    if a.Free? && a.p in s.live && a.p in b.place && FreeRoute(s.heap, a.p).Class?
    then b.(place := b.place[a.p := With(t)]) else b
  }

  function Keep(s: State, t: nat, a: Action, b: Books): Books
    requires WellFormed(s) && |b.free| == |b.owner| == CLASSES
  {
    if s.halted || t >= |s.threads| then b else
    var pc := s.threads[t];
    if !pc.Idle? && pc.c >= CLASSES then b else
    match pc
    case Idle => CallBooks(s, t, a, b)
    case Want(c, size) => if s.flags[c] != 0 then b else b.(owner := b.owner[c := t])
    case FWant(c, p) => if s.flags[c] != 0 then b else b.(owner := b.owner[c := t])
    case Pop(c, size, r, x) =>
      if |b.free[c]| == 0 then b
      else b.(free := b.free[c := b.free[c][1..]], place := b.place[r := With(t)])
    case Leave(c, size, r) =>
      b.(owner := b.owner[c := -1], place := if r == 0 then b.place else b.place[r := Live])
    case FPush(c, p) => b.(free := b.free[c := [p] + b.free[c]], place := b.place[p := OnList(c)])
    case FLeave(c) => b.(owner := b.owner[c := -1])
    case _ => b
  }

  // ---- chains -----------------------------------------------------------------------------------

  lemma ChainPop(mem: map<nat, nat>, head: nat, list: seq<nat>)
    requires Chain(mem, head, list) && |list| > 0
    ensures Chain(mem, At(mem, head), list[1..]) && list[0] !in list[1..]
  {
    assert LinkOf(list, 0) == At(mem, head);
    assert forall i {:trigger LinkOf(list[1..], i)} :: 0 <= i < |list| - 1 ==>
      LinkOf(list[1..], i) == LinkOf(list, i + 1);
  }

  lemma ChainPush(mem: map<nat, nat>, head: nat, list: seq<nat>, p: nat)
    requires Chain(mem, head, list) && p !in list && At(mem, p) == head
    ensures Chain(mem, p, [p] + list)
  {
    assert forall i {:trigger LinkOf([p] + list, i)} :: 0 < i < |list| + 1 ==>
      LinkOf([p] + list, i) == LinkOf(list, i - 1);
  }

  lemma ChainWrite(mem: map<nat, nat>, head: nat, list: seq<nat>, a: nat, v: nat)
    requires Chain(mem, head, list) && a !in list
    ensures Chain(mem[a := v], head, list)
  {
  }

  // ---- what one thread's move leaves alone ---------------------------------------------------

  // Only thread t has moved, and it holds the same block as before.
  ghost predicate Moved(s: State, s': State, t: nat) {
    && s'.heap == s.heap && WellFormed(s) && WellFormed(s') && t < |s.threads| == |s'.threads|
    && s'.threads == s.threads[t := s'.threads[t]]
  }

  lemma SamePlaces(s: State, s': State, t: nat, b: Books, b': Books)
    requires Placed(s, b) && Moved(s, s', t) && s'.live == s.live && b'.free == b.free && b'.place == b.place
    requires Held(s'.threads[t]) == Held(s.threads[t])
    requires Held(s.threads[t]) != 0 ==> s'.threads[t].c == s.threads[t].c
    ensures Placed(s', b')
  {
    assert forall u: nat :: u < |s.threads| ==> Held(s'.threads[u]) == Held(s.threads[u]);
    forall p | p in b'.place
      ensures PlaceOk(s', b', p)
    {
      assert PlaceOk(s, b, p);
    }
  }

  // One block changes place, by a move of thread t.
  ghost predicate Carry(s: State, s': State, t: nat, b: Books, b': Books, p: nat, to: Place) {
    && Moved(s, s', t) && p in b.place && b'.place == b.place[p := to]
    && |b'.free| == |b.free| == CLASSES
    && (forall c: nat, x :: c < CLASSES && x != p ==> (x in b'.free[c] <==> x in b.free[c]))
    && (forall c: nat :: c < CLASSES && p in b'.free[c] ==> to == OnList(c))
    && (forall x :: x != p ==> (x in s'.live <==> x in s.live) && (x in s.live ==> s'.live[x] == s.live[x]))
    && (p in s'.live ==> to == Live)
    && (Held(s.threads[t]) == 0 || Held(s.threads[t]) == p)
    && (b.place[p].With? ==> b.place[p].t == t)
    && (Held(s'.threads[t]) == 0 || (Held(s'.threads[t]) == p && to == With(t)))
  }

  lemma MovePlace(s: State, s': State, t: nat, b: Books, b': Books, p: nat, to: Place)
    requires Placed(s, b) && Carry(s, s', t, b, b', p, to) && PlaceOk(s', b', p)
    ensures Placed(s', b')
  {
    MoveBacked(s, s', t, b, b', p, to);
    MoveCarried(s, s', t, b, b', p, to);
  }

  lemma MoveCarried(s: State, s': State, t: nat, b: Books, b': Books, p: nat, to: Place)
    requires Placed(s, b) && Carry(s, s', t, b, b', p, to)
    ensures Carried(s', b')
  {
  }

  lemma MoveBacked(s: State, s': State, t: nat, b: Books, b': Books, p: nat, to: Place)
    requires Placed(s, b) && Carry(s, s', t, b, b', p, to) && PlaceOk(s', b', p)
    ensures Backed(s', b')
  {
    forall x | x in b'.place
      ensures PlaceOk(s', b', x)
    {
      if x != p {
        assert PlaceOk(s, b, x);
      }
    }
  }

  lemma SameMutex(s: State, s': State, t: nat, b: Books, b': Books)
    requires Mutex(s, b) && Moved(s, s', t) && s'.flags == s.flags && b'.owner == b.owner
    requires Inside(s'.threads[t]) == Inside(s.threads[t])
    requires Inside(s.threads[t]) ==> s'.threads[t].c == s.threads[t].c
    ensures Mutex(s', b')
  {
  }

  // A lock taken.
  lemma EnterMutex(s: State, s': State, t: nat, b: Books, b': Books, c: nat)
    requires Mutex(s, b) && Moved(s, s', t) && c < CLASSES && s.flags[c] == 0
    requires s'.flags == s.flags[c := 1] && b'.owner == b.owner[c := t]
    requires !Inside(s.threads[t]) && Inside(s'.threads[t]) && s'.threads[t].c == c
    ensures Mutex(s', b')
  {
  }

  // A lock given back by its holder.
  lemma LeaveMutex(s: State, s': State, t: nat, b: Books, b': Books, c: nat)
    requires Mutex(s, b) && Moved(s, s', t) && c < CLASSES
    requires s'.flags == s.flags[c := 0] && b'.owner == b.owner[c := -1]
    requires Inside(s.threads[t]) && s.threads[t].c == c && !Inside(s'.threads[t])
    ensures Mutex(s', b')
  {
  }

  // Another thread's view survives, unless this thread holds the lock of the same class.
  lemma OthersLocal(s: State, s': State, t: nat, b: Books)
    requires Mutex(s, b) && Locals(s) && Moved(s, s', t) && LocalOk(s', s'.threads[t]) && s'.mem == s.mem
    requires forall c: nat :: c < CLASSES ==> s'.heads[c] == s.heads[c] || b.owner[c] == t
    ensures Locals(s')
  {
    forall u: nat | u < |s.threads| && u != t
      ensures LocalOk(s', s'.threads[u])
    {
      assert LocalOk(s, s.threads[u]);
    }
  }

  // So it does when a word is written that is no link the other looks at.
  lemma OthersLocalWrite(s: State, s': State, t: nat, b: Books, a: nat, v: nat)
    requires Lists(s, b) && Placed(s, b) && Locals(s) && Moved(s, s', t) && LocalOk(s', s'.threads[t])
    requires s'.heads == s.heads && s'.mem == s.mem[a := v]
    requires a in b.place ==> b.place[a] == Live || b.place[a] == With(t)
    ensures Locals(s')
  {
    forall u: nat | u < |s.threads| && u != t
      ensures LocalOk(s', s'.threads[u])
    {
      assert LocalOk(s, s.threads[u]);
      HeadsAreListed(s, b, u);
    }
  }

  // A thread about to take a list's head has a block that is on a list.
  lemma HeadsAreListed(s: State, b: Books, u: nat)
    requires Lists(s, b) && Placed(s, b) && u < |s.threads| && LocalOk(s, s.threads[u])
    ensures s.threads[u].Pop? ==> s.threads[u].r in b.place && b.place[s.threads[u].r].OnList?
    ensures s.threads[u].FPush? ==> s.threads[u].p in b.place && b.place[s.threads[u].p] == With(u)
  {
    if s.threads[u].Pop? {
      var c := s.threads[u].c;
      assert Chain(s.mem, s.heads[c], b.free[c]);
      assert s.threads[u].r in b.free[c];
    }
  }

  // A write to a block that is on no list leaves the lists alone.
  lemma WritePrivate(s: State, s': State, b: Books, a: nat, v: nat)
    requires Lists(s, b) && Listed(b) && s'.heads == s.heads && WellFormed(s') && s'.mem == s.mem[a := v]
    requires a in b.place ==> !b.place[a].OnList?
    ensures Lists(s', b)
  {
    forall c: nat | c < CLASSES
      ensures Chain(s'.mem, s'.heads[c], b.free[c])
    {
      assert a !in b.free[c];
      ChainWrite(s.mem, s.heads[c], b.free[c], a, v);
    }
  }

  // ---- every step keeps the books -------------------------------------------------------------

  lemma KeepEnter(s: State, t: nat, b: Books)
    requires Inv(s, b) && !s.halted && t < |s.threads| && (s.threads[t].Want? || s.threads[t].FWant?)
    requires s.flags[s.threads[t].c] == 0
    ensures Inv(Step(s, t, Go), Keep(s, t, Go, b))
  {
    var s', b' := Step(s, t, Go), Keep(s, t, Go, b);
    SamePlaces(s, s', t, b, b');
    EnterMutex(s, s', t, b, b', s.threads[t].c);
    OthersLocal(s, s', t, b);
  }

  // Steps on the thread's own registers only.
  lemma KeepLook(s: State, t: nat, b: Books)
    requires Inv(s, b) && !s.halted && t < |s.threads|
    requires s.threads[t].Test? || s.threads[t].Take? || s.threads[t].Link? || s.threads[t].FRead?
    ensures Inv(Step(s, t, Go), Keep(s, t, Go, b))
  {
    var s', b' := Step(s, t, Go), Keep(s, t, Go, b);
    SamePlaces(s, s', t, b, b');
    SameMutex(s, s', t, b, b');
    OthersLocal(s, s', t, b);
  }

  lemma KeepPop(s: State, t: nat, b: Books)
    requires Inv(s, b) && !s.halted && t < |s.threads| && s.threads[t].Pop?
    ensures Inv(Step(s, t, Go), Keep(s, t, Go, b))
  {
    var s', b' := Step(s, t, Go), Keep(s, t, Go, b);
    var c, r := s.threads[t].c, s.threads[t].r;
    assert LocalOk(s, s.threads[t]) && Chain(s.mem, s.heads[c], b.free[c]);
    ChainPop(s.mem, r, b.free[c]);
    PopPlace(s, s', t, b, b', c, r);
    SameMutex(s, s', t, b, b');
    OthersLocal(s, s', t, b);
  }

  lemma PopPlace(s: State, s': State, t: nat, b: Books, b': Books, c: nat, r: nat)
    requires Placed(s, b) && Moved(s, s', t) && c < CLASSES && |b.free[c]| > 0
    requires r == b.free[c][0] && r !in b.free[c][1..] && s'.live == s.live
    requires Held(s.threads[t]) == 0 && Held(s'.threads[t]) == r && s'.threads[t].c == c
    requires b'.free == b.free[c := b.free[c][1..]] && b'.place == b.place[r := With(t)]
    ensures Placed(s', b')
  {
    assert r in b.free[c];
    assert PlaceOk(s, b, r);
    assert b.free[c] == [r] + b.free[c][1..];
    forall d: nat, x | d < CLASSES && x != r
      ensures x in b'.free[d] <==> x in b.free[d]
    {
    }
    MovePlace(s, s', t, b, b', r, With(t));
  }

  lemma KeepLeave(s: State, t: nat, b: Books)
    requires Inv(s, b) && !s.halted && t < |s.threads| && s.threads[t].Leave?
    ensures Inv(Step(s, t, Go), Keep(s, t, Go, b))
  {
    var s', b' := Step(s, t, Go), Keep(s, t, Go, b);
    var r := s.threads[t].r;
    assert LocalOk(s, s.threads[t]);
    if r == 0 {
      SamePlaces(s, s', t, b, b');
    } else {
      assert PlaceOk(s, b, r);
      MovePlace(s, s', t, b, b', r, Live);
    }
    LeaveMutex(s, s', t, b, b', s.threads[t].c);
    OthersLocal(s, s', t, b);
  }

  lemma KeepFLink(s: State, t: nat, b: Books)
    requires Inv(s, b) && !s.halted && t < |s.threads| && s.threads[t].FLink?
    ensures Inv(Step(s, t, Go), Keep(s, t, Go, b))
  {
    var s', b' := Step(s, t, Go), Keep(s, t, Go, b);
    var p := s.threads[t].p;
    assert LocalOk(s, s.threads[t]);
    WritePrivate(s, s', b, p, s.threads[t].x);
    SamePlaces(s, s', t, b, b');
    SameMutex(s, s', t, b, b');
    OthersLocalWrite(s, s', t, b, p, s.threads[t].x);
  }

  lemma KeepFPush(s: State, t: nat, b: Books)
    requires Inv(s, b) && !s.halted && t < |s.threads| && s.threads[t].FPush?
    ensures Inv(Step(s, t, Go), Keep(s, t, Go, b))
  {
    var s', b' := Step(s, t, Go), Keep(s, t, Go, b);
    var c, p := s.threads[t].c, s.threads[t].p;
    assert LocalOk(s, s.threads[t]);
    assert Chain(s.mem, s.heads[c], b.free[c]);
    ChainPush(s.mem, s.heads[c], b.free[c], p);
    PushPlace(s, s', t, b, b', c, p);
    SameMutex(s, s', t, b, b');
    OthersLocal(s, s', t, b);
  }

  lemma PushPlace(s: State, s': State, t: nat, b: Books, b': Books, c: nat, p: nat)
    requires Placed(s, b) && Moved(s, s', t) && c < CLASSES && s'.live == s.live
    requires p != 0 && Held(s.threads[t]) == p && s.threads[t].c == c && Held(s'.threads[t]) == 0
    requires b'.free == b.free[c := [p] + b.free[c]] && b'.place == b.place[p := OnList(c)]
    ensures Placed(s', b')
  {
    assert PlaceOk(s, b, p);
    assert p in b'.free[c];
    forall d: nat, x | d < CLASSES && x != p
      ensures x in b'.free[d] <==> x in b.free[d]
    {
    }
    MovePlace(s, s', t, b, b', p, OnList(c));
  }

  lemma KeepFLeave(s: State, t: nat, b: Books)
    requires Inv(s, b) && !s.halted && t < |s.threads| && s.threads[t].FLeave?
    ensures Inv(Step(s, t, Go), Keep(s, t, Go, b))
  {
    var s', b' := Step(s, t, Go), Keep(s, t, Go, b);
    SamePlaces(s, s', t, b, b');
    LeaveMutex(s, s', t, b, b', s.threads[t].c);
    OthersLocal(s, s', t, b);
  }

  lemma KeepAlloc(s: State, t: nat, b: Books, size: nat)
    requires Inv(s, b) && !s.halted && t < |s.threads| && s.threads[t].Idle? && ClassFor(size).Class?
    ensures Inv(Step(s, t, Alloc(size)), Keep(s, t, Alloc(size), b))
  {
    var s', b' := Goto(s, t, Want(ClassFor(size).c, size)), b;
    ClassFits(size);
    SamePlaces(s, s', t, b, b');
    SameMutex(s, s', t, b, b');
    OthersLocal(s, s', t, b);
  }

  lemma LiveRoute(s: State, b: Books, p: nat)
    requires Placed(s, b) && p in s.live
    ensures p in b.place && b.place[p] == Live && IsBlock(s.heap, s.live[p].c, p)
    ensures FreeRoute(s.heap, p) == if p == PageStart(s.heap) then Stuck else Class(s.live[p].c)
  {
    assert PlaceOk(s, b, p);
    FreeRouteExact(s.heap, s.live[p].c, p);
  }

  lemma KeepFree(s: State, t: nat, b: Books, p: nat)
    requires Inv(s, b) && !s.halted && t < |s.threads| && s.threads[t].Idle? && p in s.live
    requires FreeRoute(s.heap, p).Class?
    ensures Inv(Step(s, t, Free(p)), Keep(s, t, Free(p), b))
  {
    var c := FreeRoute(s.heap, p).c;
    var s', b' := Goto(s, t, FWant(c, p)).(live := s.live - {p}), b.(place := b.place[p := With(t)]);
    LiveRoute(s, b, p);
    MovePlace(s, s', t, b, b', p, With(t));
    SameMutex(s, s', t, b, b');
    OthersLocal(s, s', t, b);
    assert Step(s, t, Free(p)) == s' && Keep(s, t, Free(p), b) == b';
  }

  // A failed assertion stops the machine where it is.
  lemma KeepHalt(s: State, b: Books)
    requires Inv(s, b)
    ensures Inv(s.(halted := true), b)
  {
    var s' := s.(halted := true);
    forall p | p in b.place
      ensures PlaceOk(s', b, p)
    {
      assert PlaceOk(s, b, p);
    }
    forall u: nat | u < |s.threads|
      ensures LocalOk(s', s.threads[u])
    {
      assert LocalOk(s, s.threads[u]);
    }
  }

  // A user may write any word that its block's bytes touch; no link of a free block is one.
  lemma KeepWrite(s: State, t: nat, b: Books, a: Action)
    requires Inv(s, b) && !s.halted && t < |s.threads| && s.threads[t].Idle? && a.Write?
    requires a.p in s.live && a.offset % 8 == 0 && a.offset < s.live[a.p].size
    ensures Inv(Step(s, t, a), Keep(s, t, a, b))
  {
    var word := a.p + a.offset;
    var s' := s.(mem := s.mem[word := a.v]);
    UserWord(s, b, a.p, a.offset);
    WritePrivate(s, s', b, word, a.v);
    SamePlaces(s, s', t, b, b);
    SameMutex(s, s', t, b, b);
    OthersLocalWrite(s, s', t, b, word, a.v);
    assert Step(s, t, a) == s' && Keep(s, t, a, b) == b;
  }

  lemma UserWord(s: State, b: Books, p: nat, offset: nat)
    requires Placed(s, b) && p in s.live && offset % 8 == 0 && offset < s.live[p].size
    ensures p + offset in b.place ==> b.place[p + offset] == Live
  {
    assert PlaceOk(s, b, p);
    var c, word := s.live[p].c, p + offset;
    WordFits(c, offset);
    if word in b.place {
      assert PlaceOk(s, b, word);
      match b.place[word]
      case OnList(d) => WordsApart(s.heap, c, p, d, word, offset);
      case With(u) => WordsApart(s.heap, c, p, s.threads[u].c, word, offset);
      case Live =>
    }
  }

  lemma WordFits(c: nat, offset: nat)
    requires offset % 8 == 0 && offset < SizeOf(c)
    ensures offset + 8 <= SizeOf(c)
  {
    Pow2Add(3, 1 + c);
    assert SizeOf(c) == 8 * Pow2(1 + c);
    assert offset == 8 * (offset / 8);
  }

  // Whatever thread moves, and whatever it does, the books stay right.
  lemma StepKeepsInv(s: State, t: nat, a: Action, b: Books)
    requires Inv(s, b)
    ensures Inv(Step(s, t, a), Keep(s, t, a, b))
  {
    if !s.halted && t < |s.threads| {
      assert LocalOk(s, s.threads[t]);
      match s.threads[t]
      case Idle => CallKeepsInv(s, t, a, b);
      case Pop(_, _, _, _) => KeepPop(s, t, b);
      case Leave(_, _, _) => KeepLeave(s, t, b);
      case FLink(_, _, _) => KeepFLink(s, t, b);
      case FPush(_, _) => KeepFPush(s, t, b);
      case FLeave(_) => KeepFLeave(s, t, b);
      case Want(c, _) => if s.flags[c] == 0 { KeepEnter(s, t, b); }
      case FWant(c, _) => if s.flags[c] == 0 { KeepEnter(s, t, b); }
      case _ => KeepLook(s, t, b);
    }
  }

  lemma CallKeepsInv(s: State, t: nat, a: Action, b: Books)
    requires Inv(s, b) && !s.halted && t < |s.threads| && s.threads[t].Idle?
    ensures Inv(Step(s, t, a), Keep(s, t, a, b))
  {
    match a
    case Alloc(size) => if ClassFor(size).Class? { KeepAlloc(s, t, b, size); }
    case Free(p) =>
      if p in s.live {
        if FreeRoute(s.heap, p).Class? { KeepFree(s, t, b, p); } else { KeepHalt(s, b); }
      }
    case Write(p, offset, v) => if p in s.live && offset % 8 == 0 && offset < s.live[p].size { KeepWrite(s, t, b, a); }
    case Go =>
  }

  // ---- every run ------------------------------------------------------------------------------

  function KeepAll(s: State, schedule: seq<(nat, Action)>, b: Books): Books
    requires WellFormed(s)
  {
    if |schedule| == 0 then b
    else
      var k := |schedule| - 1;
      var before := KeepAll(s, schedule[..k], b);
      if |before.free| == |before.owner| == CLASSES
      then Keep(Run(s, schedule[..k]), schedule[k].0, schedule[k].1, before) else before
  }

  lemma {:induction false} RunKeepsInv(s: State, schedule: seq<(nat, Action)>, b: Books)
    requires Inv(s, b)
    ensures Inv(Run(s, schedule), KeepAll(s, schedule, b))
    ensures KeepAll(s, schedule, b).place.Keys == b.place.Keys
  {
    if |schedule| > 0 {
      var k := |schedule| - 1;
      RunKeepsInv(s, schedule[..k], b);
      StepKeepsInv(Run(s, schedule[..k]), schedule[k].0, schedule[k].1, KeepAll(s, schedule[..k], b));
      SameBlocks(Run(s, schedule[..k]), schedule[k].0, schedule[k].1, KeepAll(s, schedule[..k], b));
    }
  }

  // No step adds a block to the books or loses one.
  lemma SameBlocks(s: State, t: nat, a: Action, b: Books)
    requires Inv(s, b)
    ensures Keep(s, t, a, b).place.Keys == b.place.Keys
  {
    if t < |s.threads| {
      var pc := s.threads[t];
      assert LocalOk(s, pc);
      if pc.Pop? {
        assert Chain(s.mem, s.heads[pc.c], b.free[pc.c]);
        assert pc.r in b.free[pc.c];
      }
      SameKeys(s, t, a, b);
    }
  }

  lemma SameKeys(s: State, t: nat, a: Action, b: Books)
    requires WellFormed(s) && |b.free| == |b.owner| == CLASSES && t < |s.threads|
    requires s.threads[t].Pop? ==> s.threads[t].r in b.place
    requires Held(s.threads[t]) != 0 ==> Held(s.threads[t]) in b.place
    requires s.threads[t].FPush? ==> s.threads[t].p != 0
    ensures Keep(s, t, a, b).place.Keys == b.place.Keys
  {
  }

  // The books cover the heap: they list exactly the blocks that fit.
  ghost predicate Covers(h: Heap, b: Books) {
    forall p :: p in b.place <==> exists c: nat :: IsBlock(h, c, p)
  }

  // Where a block can be.
  predicate OnAList(b: Books, p: nat) {
    exists c: nat :: c < |b.free| && p in b.free[c]
  }

  predicate InFlight(s: State, p: nat) {
    exists t: nat :: t < |s.threads| && Held(s.threads[t]) == p
  }

  predicate OneHolder(s: State, p: nat) {
    forall t: nat, u: nat ::
      t < |s.threads| && u < |s.threads| && Held(s.threads[t]) == Held(s.threads[u]) == p ==> t == u
  }

  // A block is where the books say ...
  lemma FoundWherePlaced(s: State, b: Books, p: nat)
    requires Inv(s, b) && p in b.place
    ensures match b.place[p]
            case OnList(_) => OnAList(b, p)
            case With(_) => InFlight(s, p)
            case Live => p in s.live
  {
    assert PlaceOk(s, b, p);
  }

  // ... and nowhere else.
  lemma PlacedWhereFound(s: State, b: Books, p: nat)
    requires Inv(s, b) && p in b.place && p != 0
    ensures OnAList(b, p) ==> b.place[p].OnList?
    ensures InFlight(s, p) ==> b.place[p].With?
    ensures p in s.live ==> b.place[p].Live?
  {
  }

  lemma HeldOnce(s: State, b: Books, p: nat)
    requires Inv(s, b) && p != 0
    ensures OneHolder(s, p)
  {
  }

  lemma InItsClass(s: State, b: Books, c: nat, p: nat)
    requires Inv(s, b) && p in b.place && IsBlock(s.heap, c, p)
    ensures b.place[p].OnList? ==> p in b.free[c]
    ensures b.place[p].Live? ==> p in s.live && s.live[p].c == c
  {
    assert PlaceOk(s, b, p);
    match b.place[p]
    case OnList(d) => OneClass(s.heap, c, d, p);
    case With(t) =>
    case Live => OneClass(s.heap, c, s.live[p].c, p);
  }

  // Exactly one of three.
  predicate ExactlyOne(x: bool, y: bool, z: bool) {
    (x || y || z) && !(x && y) && !(x && z) && !(y && z)
  }

  // At every moment of every run each block is in exactly one of three places: on the list
  // of its own class, in the hands of one thread, or with a user.
  lemma Partition(s: State, schedule: seq<(nat, Action)>, b: Books, c: nat, p: nat)
    requires Inv(s, b) && Covers(s.heap, b) && IsBlock(s.heap, c, p) && p != 0
    ensures var s', b' := Run(s, schedule), KeepAll(s, schedule, b);
            && |b'.free| == CLASSES && Chain(s'.mem, s'.heads[c], b'.free[c])
            && ExactlyOne(OnAList(b', p), InFlight(s', p), p in s'.live)
            && (OnAList(b', p) ==> p in b'.free[c])
            && (p in s'.live ==> s'.live[p].c == c)
            && OneHolder(s', p)
  {
    var s', b' := Run(s, schedule), KeepAll(s, schedule, b);
    RunKeepsInv(s, schedule, b);
    StillPlaced(b, b', p);
    PartitionNow(s', b', c, p);
  }

  lemma StillPlaced(b: Books, b': Books, p: nat)
    requires p in b.place && b'.place.Keys == b.place.Keys
    ensures p in b'.place
  {
    assert p in b'.place.Keys;
  }

  lemma PartitionNow(s: State, b: Books, c: nat, p: nat)
    requires Inv(s, b) && IsBlock(s.heap, c, p) && p in b.place && p != 0
    ensures |b.free| == CLASSES && Chain(s.mem, s.heads[c], b.free[c])
    ensures ExactlyOne(OnAList(b, p), InFlight(s, p), p in s.live)
    ensures (OnAList(b, p) ==> p in b.free[c]) && (p in s.live ==> s.live[p].c == c)
    ensures OneHolder(s, p)
  {
    FoundWherePlaced(s, b, p);
    PlacedWhereFound(s, b, p);
    InItsClass(s, b, c, p);
    HeldOnce(s, b, p);
  }

  // What a user holds lies in the heap, is aligned to its size, and is as large as asked.
  lemma LiveFits(s: State, schedule: seq<(nat, Action)>, b: Books, p: nat)
    requires Inv(s, b) && p in Run(s, schedule).live
    ensures var g := Run(s, schedule).live[p];
            && p != 0 && p % SizeOf(g.c) == 0 && g.size <= SizeOf(g.c)
            && s.heap.start <= p && p + SizeOf(g.c) <= HugeStart(s.heap)
  {
    var s', b' := Run(s, schedule), KeepAll(s, schedule, b);
    RunKeepsInv(s, schedule, b);
    assert PlaceOk(s', b', p);
    BlockBounds(s.heap, s'.live[p].c, p);
  }

  // No two blocks that users hold overlap.
  lemma LiveApart(s: State, schedule: seq<(nat, Action)>, b: Books, p: nat, q: nat)
    requires Inv(s, b) && p in Run(s, schedule).live && q in Run(s, schedule).live && p != q
    ensures var live := Run(s, schedule).live;
            p + SizeOf(live[p].c) <= q || q + SizeOf(live[q].c) <= p
  {
    var s', b' := Run(s, schedule), KeepAll(s, schedule, b);
    RunKeepsInv(s, schedule, b);
    assert PlaceOk(s', b', p) && PlaceOk(s', b', q);
    BlocksDisjoint(s.heap, s'.live[p].c, p, s'.live[q].c, q);
  }

  // A lock is free exactly when no thread is between its lock and its unlock, and then
  // at most one is.
  lemma LocksExclude(s: State, schedule: seq<(nat, Action)>, b: Books, t: nat, u: nat)
    requires Inv(s, b) && t < |s.threads| && u < |s.threads|
    ensures var s' := Run(s, schedule);
            && (Inside(s'.threads[t]) ==> s'.threads[t].c < CLASSES && s'.flags[s'.threads[t].c] != 0)
            && (Inside(s'.threads[t]) && Inside(s'.threads[u]) && s'.threads[t].c == s'.threads[u].c ==> t == u)
            && (forall c: nat :: c < CLASSES && s'.flags[c] != 0 ==>
                  exists w: nat :: w < |s'.threads| && Inside(s'.threads[w]) && s'.threads[w].c == c)
  {
    var s', b' := Run(s, schedule), KeepAll(s, schedule, b);
    RunKeepsInv(s, schedule, b);
    forall c: nat | c < CLASSES && s'.flags[c] != 0
      ensures exists w: nat :: w < |s'.threads| && Inside(s'.threads[w]) && s'.threads[w].c == c
    {
      var w: nat := b'.owner[c];
      assert Inside(s'.threads[w]);
    }
  }

  // The machine stops only where a thread frees the page at PAGESTART.
  lemma HaltsOnlyThere(s: State, t: nat, a: Action, b: Books)
    requires Inv(s, b) && !s.halted
    ensures Step(s, t, a).halted <==>
              t < |s.threads| && s.threads[t].Idle? && a == Free(PageStart(s.heap)) && PageStart(s.heap) in s.live
  {
    if a.Free? && a.p in s.live {
      LiveRoute(s, b, a.p);
    }
  }

  // An empty list is reported as no memory, and only an empty list: a returned NULL means
  // that the class had no free block when the thread looked.
  lemma NullMeansEmpty(s: State, t: nat, b: Books)
    requires Inv(s, b) && !s.halted && t < |s.threads| && s.threads[t].Test?
    ensures Step(s, t, Go).threads[t].Leave? <==> |b.free[s.threads[t].c]| == 0
  {
    var c := s.threads[t].c;
    assert LocalOk(s, s.threads[t]) && Chain(s.mem, s.heads[c], b.free[c]);
    if |b.free[c]| > 0 {
      assert b.free[c][0] in b.free[c];
    }
  }
}
