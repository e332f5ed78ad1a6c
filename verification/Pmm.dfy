/** The allocator as one processor runs it: carving the heap at start-up, and allocating and
    freeing without interruption, each a run of the interleaved machine. */
module Pmm {
  import opened Bits
  import opened PmmLayout
  import opened PmmThreads
  import opened PmmHuge

  // ---- one thread on its own ---------------------------------------------------------------

  // A call and then n further steps of thread t.
  function Solo(t: nat, a: Action, n: nat): seq<(nat, Action)> {
    if n == 0 then [(t, a)] else Solo(t, a, n - 1) + [(t, Go)]
  }

  lemma RunSolo(s: State, t: nat, a: Action, n: nat)
    requires WellFormed(s)
    ensures Run(s, Solo(t, a, n)) ==
            if n == 0 then Step(s, t, a) else Step(Run(s, Solo(t, a, n - 1)), t, Go)
  {
    if n == 0 {
      assert Run(s, Solo(t, a, n)[..0]) == s;
    } else {
      var k := |Solo(t, a, n)| - 1;
      assert Solo(t, a, n)[..k] == Solo(t, a, n - 1);
    }
  }

  lemma Twice(s: State, t: nat, pc: Pc, next: Pc)
    requires t < |s.threads|
    ensures Goto(Goto(s, t, pc), t, next) == Goto(s, t, next)
  {
    assert s.threads[t := pc][t := next] == s.threads[t := next];
  }

  lemma Unlocked(s: State, t: nat, c: nat)
    requires WellFormed(s) && t < |s.threads| && c < CLASSES && s.flags[c] == 0 && s.threads[t].Idle?
    ensures Goto(s, t, Idle) == s
    ensures s.(flags := s.flags[c := 1][c := 0]) == s
  {
    assert s.threads[t := Idle] == s.threads;
    assert s.flags[c := 1][c := 0] == s.flags;
  }

  // Alone for n + 1 steps, from where n steps lead.
  lemma SoloNext(s: State, t: nat, a: Action, n: nat, m: State)
    requires WellFormed(s) && Run(s, Solo(t, a, n)) == m
    ensures WellFormed(m) && Run(s, Solo(t, a, n + 1)) == Step(m, t, Go)
  {
    RunSolo(s, t, a, n + 1);
  }

  ghost predicate Ready(s: State, t: nat, c: nat) {
    WellFormed(s) && !s.halted && t < |s.threads| && s.threads[t].Idle? && c < CLASSES && s.flags[c] == 0
  }

  // Alone, an allocation gets to look at its list.
  lemma SoloLooks(s: State, t: nat, size: nat, c: nat, n: nat)
    requires Ready(s, t, c) && ClassFor(size) == Class(c) && n == 0
    ensures Run(s, Solo(t, Alloc(size), n + 1)) == Goto(s.(flags := s.flags[c := 1]), t, Test(c, size))
  {
    RunSolo(s, t, Alloc(size), n);
    SoloNext(s, t, Alloc(size), n, Goto(s, t, Want(c, size)));
    Twice(s.(flags := s.flags[c := 1]), t, Want(c, size), Test(c, size));
  }

  // It finds nothing, and leaves everything as it was ...
  lemma SoloEmpty(s: State, t: nat, size: nat, c: nat, n: nat)
    requires Ready(s, t, c) && ClassFor(size) == Class(c) && s.heads[c] == 0 && n == 0
    ensures Run(s, Solo(t, Alloc(size), n + 3)) == s
  {
    var locked := s.(flags := s.flags[c := 1]);
    SoloLooks(s, t, size, c, n);
    SoloNext(s, t, Alloc(size), n + 1, Goto(locked, t, Test(c, size)));
    Twice(locked, t, Test(c, size), Leave(c, size, 0));
    SoloNext(s, t, Alloc(size), n + 2, Goto(locked, t, Leave(c, size, 0)));
    Twice(locked, t, Leave(c, size, 0), Idle);
    Unlocked(s, t, c);
  }

  lemma SoloPops(s: State, t: nat, size: nat, c: nat, n: nat)
    requires Ready(s, t, c) && ClassFor(size) == Class(c) && s.heads[c] != 0 && n == 0
    ensures var r := s.heads[c];
            Run(s, Solo(t, Alloc(size), n + 4)) == Goto(s.(flags := s.flags[c := 1]), t, Pop(c, size, r, At(s.mem, r)))
  {
    var locked, r := s.(flags := s.flags[c := 1]), s.heads[c];
    SoloLooks(s, t, size, c, n);
    SoloNext(s, t, Alloc(size), n + 1, Goto(locked, t, Test(c, size)));
    Twice(locked, t, Test(c, size), Take(c, size));
    SoloNext(s, t, Alloc(size), n + 2, Goto(locked, t, Take(c, size)));
    Twice(locked, t, Take(c, size), Link(c, size, r));
    SoloNext(s, t, Alloc(size), n + 3, Goto(locked, t, Link(c, size, r)));
    Twice(locked, t, Link(c, size, r), Pop(c, size, r, At(s.mem, r)));
  }

  // ... or takes the first free block.
  lemma SoloTakes(s: State, t: nat, size: nat, c: nat, n: nat)
    requires Ready(s, t, c) && ClassFor(size) == Class(c) && s.heads[c] != 0 && n == 0
    ensures var r := s.heads[c];
            Run(s, Solo(t, Alloc(size), n + 6)) ==
            s.(heads := s.heads[c := At(s.mem, r)], live := s.live[r := Grant(c, size)])
  {
    var locked, r := s.(flags := s.flags[c := 1]), s.heads[c];
    var popped := locked.(heads := s.heads[c := At(s.mem, r)]);
    SoloPops(s, t, size, c, n);
    SoloNext(s, t, Alloc(size), n + 4, Goto(locked, t, Pop(c, size, r, At(s.mem, r))));
    Twice(popped, t, Pop(c, size, r, At(s.mem, r)), Leave(c, size, r));
    SoloNext(s, t, Alloc(size), n + 5, Goto(popped, t, Leave(c, size, r)));
    Twice(popped, t, Leave(c, size, r), Idle);
    Unlocked(s, t, c);
  }

  lemma SoloLinks(s: State, t: nat, p: nat, c: nat, n: nat)
    requires Ready(s, t, c) && p in s.live && FreeRoute(s.heap, p) == Class(c) && n == 0
    ensures Run(s, Solo(t, Free(p), n + 2)) ==
            Goto(s.(live := s.live - {p}, flags := s.flags[c := 1]), t, FLink(c, p, s.heads[c]))
  {
    var s' := s.(live := s.live - {p});
    var locked := s'.(flags := s.flags[c := 1]);
    RunSolo(s, t, Free(p), n);
    SoloNext(s, t, Free(p), n, Goto(s', t, FWant(c, p)));
    Twice(locked, t, FWant(c, p), FRead(c, p));
    SoloNext(s, t, Free(p), n + 1, Goto(locked, t, FRead(c, p)));
    Twice(locked, t, FRead(c, p), FLink(c, p, s.heads[c]));
  }

  lemma SoloWrites(s: State, t: nat, p: nat, c: nat, n: nat)
    requires Ready(s, t, c) && p in s.live && FreeRoute(s.heap, p) == Class(c) && n == 0
    ensures Run(s, Solo(t, Free(p), n + 3)) ==
            Goto(s.(live := s.live - {p}, flags := s.flags[c := 1], mem := s.mem[p := s.heads[c]]), t, FPush(c, p))
  {
    var locked := s.(live := s.live - {p}, flags := s.flags[c := 1]);
    SoloLinks(s, t, p, c, n);
    SoloNext(s, t, Free(p), n + 2, Goto(locked, t, FLink(c, p, s.heads[c])));
    Twice(locked.(mem := s.mem[p := s.heads[c]]), t, FLink(c, p, s.heads[c]), FPush(c, p));
  }

  lemma SoloPushes(s: State, t: nat, p: nat, c: nat, n: nat)
    requires Ready(s, t, c) && p in s.live && FreeRoute(s.heap, p) == Class(c) && n == 0
    ensures Run(s, Solo(t, Free(p), n + 4)) ==
            Goto(s.(live := s.live - {p}, flags := s.flags[c := 1], mem := s.mem[p := s.heads[c]],
                    heads := s.heads[c := p]), t, FLeave(c))
  {
    var linked := s.(live := s.live - {p}, flags := s.flags[c := 1], mem := s.mem[p := s.heads[c]]);
    SoloWrites(s, t, p, c, n);
    SoloNext(s, t, Free(p), n + 3, Goto(linked, t, FPush(c, p)));
    PushesAs(linked, t, p, c);
  }

  lemma PushesAs(s: State, t: nat, p: nat, c: nat)
    requires WellFormed(s) && !s.halted && t < |s.threads| && c < CLASSES
    ensures Step(Goto(s, t, FPush(c, p)), t, Go) == Goto(s.(heads := s.heads[c := p]), t, FLeave(c))
  {
    Twice(s.(heads := s.heads[c := p]), t, FPush(c, p), FLeave(c));
  }

  // Alone, a free puts the block in front of its list.
  lemma SoloFrees(s: State, t: nat, p: nat, c: nat, n: nat)
    requires Ready(s, t, c) && p in s.live && FreeRoute(s.heap, p) == Class(c) && n == 0
    ensures Run(s, Solo(t, Free(p), n + 5)) ==
            s.(mem := s.mem[p := s.heads[c]], heads := s.heads[c := p], live := s.live - {p})
  {
    var freed := s.(mem := s.mem[p := s.heads[c]], heads := s.heads[c := p], live := s.live - {p});
    SoloPushes(s, t, p, c, n);
    SoloNext(s, t, Free(p), n + 4, Goto(freed.(flags := s.flags[c := 1]), t, FLeave(c)));
    LeavesAs(freed, t, c);
  }

  lemma LeavesAs(s: State, t: nat, c: nat)
    requires Ready(s, t, c)
    ensures Step(Goto(s.(flags := s.flags[c := 1]), t, FLeave(c)), t, Go) == s
  {
    Twice(s.(flags := s.flags[c := 1]), t, FLeave(c), Idle);
    Unlocked(s, t, c);
  }

  // The books are right, and every block of the heap is in them.
  ghost predicate Sound(s: State, b: Books) {
    exists now :: now == b && Inv(s, now) && Covers(s.heap, now)
  }

  // With one thread, outside the allocator, every lock is free.
  lemma AllReady(s: State, b: Books, c: nat)
    requires Sound(s, b) && s.threads == [Idle] && !s.halted && c < CLASSES
    ensures Ready(s, 0, c)
  {
  }

  // The links determine the list.
  lemma {:induction false} ChainUnique(mem: map<nat, nat>, head: nat, a: seq<nat>, b: seq<nat>)
    requires Chain(mem, head, a) && Chain(mem, head, b) && 0 !in a && 0 !in b
    ensures a == b
    decreases |a|
  {
    assert (|a| > 0 ==> a[0] in a) && (|b| > 0 ==> b[0] in b);
    if |a| > 0 {
      ChainPop(mem, head, a);
      ChainPop(mem, head, b);
      ChainUnique(mem, At(mem, head), a[1..], b[1..]);
      assert a == [head] + a[1..] && b == [head] + b[1..];
    }
  }

  lemma NoNullListed(b: Books, c: nat)
    requires 0 !in b.place && Listed(b) && c < CLASSES
    ensures 0 !in b.free[c]
  {
  }

  // Two books that fit the same links and heads have the same lists.
  lemma SameLists(s: State, b: Books, s': State, b': Books, c: nat)
    requires Inv(s, b) && Inv(s', b') && s'.mem == s.mem && c < CLASSES && s'.heads[c] == s.heads[c]
    ensures b'.free[c] == b.free[c]
  {
    NoNullListed(b, c);
    NoNullListed(b', c);
    assert Chain(s.mem, s.heads[c], b.free[c]) && Chain(s'.mem, s'.heads[c], b'.free[c]);
    ChainUnique(s.mem, s.heads[c], b.free[c], b'.free[c]);
  }

  // Alone, a call of thread t takes the machine from s to s'.
  ghost predicate Completes(s: State, t: nat, a: Action, s': State)
    requires WellFormed(s)
  {
    exists n: nat :: Run(s, Solo(t, a, n)) == s'
  }

  // The books move with the machine.
  lemma Follow(s: State, b: Books, a: Action, s': State) returns (b': Books)
    requires WellFormed(s) && Sound(s, b) && Completes(s, 0, a, s')
    ensures Sound(s', b')
  {
    var n: nat :| Run(s, Solo(0, a, n)) == s';
    RunKeepsInv(s, Solo(0, a, n), b);
    b' := KeepAll(s, Solo(0, a, n), b);
    CoversToo(s.heap, b, b');
    assert Inv(s', b');
  }

  lemma CoversToo(h: Heap, b: Books, b': Books)
    requires Covers(h, b) && b'.place.Keys == b.place.Keys
    ensures Covers(h, b')
  {
    assert forall p :: p in b'.place <==> p in b.place.Keys;
  }

  // The first block of the list is taken, if there is one.
  function AfterAlloc(s: State, size: nat, c: nat): State
    requires WellFormed(s) && c < CLASSES
  {
    var r := s.heads[c];
    if r == 0 then s else s.(heads := s.heads[c := At(s.mem, r)], live := s.live[r := Grant(c, size)])
  }

  // A block is put in front of the list.
  function AfterFree(s: State, p: nat, c: nat): State
    requires WellFormed(s) && c < CLASSES
  {
    s.(mem := s.mem[p := s.heads[c]], heads := s.heads[c := p], live := s.live - {p})
  }

  lemma AllocCompletes(s: State, t: nat, size: nat, c: nat)
    requires Ready(s, t, c) && ClassFor(size) == Class(c)
    ensures Completes(s, t, Alloc(size), AfterAlloc(s, size, c))
  {
    var n := 0;
    if s.heads[c] == 0 {
      SoloEmpty(s, t, size, c, n);
    } else {
      SoloTakes(s, t, size, c, n);
    }
  }

  lemma FreeCompletes(s: State, t: nat, p: nat, c: nat)
    requires Ready(s, t, c) && p in s.live && FreeRoute(s.heap, p) == Class(c)
    ensures Completes(s, t, Free(p), AfterFree(s, p, c))
  {
    var n := 0;
    SoloFrees(s, t, p, c, n);
  }

  lemma AllocBooks(s: State, b: Books, size: nat, c: nat, s': State) returns (b': Books)
    requires Sound(s, b) && Ready(s, 0, c) && ClassFor(size) == Class(c) && s' == AfterAlloc(s, size, c)
    ensures Completes(s, 0, Alloc(size), s') && Sound(s', b')
  {
    AllocCompletes(s, 0, size, c);
    b' := Follow(s, b, Alloc(size), s');
  }

  lemma FreeBooks(s: State, b: Books, p: nat, c: nat, s': State) returns (b': Books)
    requires Sound(s, b) && Ready(s, 0, c) && p in s.live && FreeRoute(s.heap, p) == Class(c)
    requires s' == AfterFree(s, p, c)
    ensures Completes(s, 0, Free(p), s') && Sound(s', b')
  {
    FreeCompletes(s, 0, p, c);
    b' := Follow(s, b, Free(p), s');
  }

  // A free undoes an allocation: lists, links and grants are as they were.
  lemma FreeUndoesAlloc(s: State, b: Books, t: nat, size: nat, c: nat)
    requires Inv(s, b) && Ready(s, t, c) && ClassFor(size) == Class(c)
    requires s.heads[c] != 0 && s.heads[c] != PageStart(s.heap)
    ensures exists taken, back ::
              && WellFormed(taken) && Completes(s, t, Alloc(size), taken) && Completes(taken, t, Free(s.heads[c]), back)
              && back.heads == s.heads && back.live == s.live && back.flags == s.flags && back.threads == s.threads
              && forall a: nat :: At(back.mem, a) == At(s.mem, a)
  {
    var r := s.heads[c];
    var x := At(s.mem, r);
    assert Chain(s.mem, r, b.free[c]);
    assert r in b.free[c] && b.place[r] == OnList(c);
    assert IsBlock(s.heap, c, r) by { assert PlaceOk(s, b, r); }
    FreeRouteExact(s.heap, c, r);
    var taken, back := Undoes(s, t, size, c, r);
  }

  lemma Undoes(s: State, t: nat, size: nat, c: nat, r: nat) returns (taken: State, back: State)
    requires Ready(s, t, c) && ClassFor(size) == Class(c) && r == s.heads[c] != 0 && r !in s.live
    requires FreeRoute(s.heap, r) == Class(c)
    ensures WellFormed(taken) && Completes(s, t, Alloc(size), taken) && Completes(taken, t, Free(r), back)
    ensures back.heads == s.heads && back.live == s.live && back.flags == s.flags && back.threads == s.threads
    ensures forall a: nat :: At(back.mem, a) == At(s.mem, a)
  {
    taken := AfterAlloc(s, size, c);
    AllocCompletes(s, t, size, c);
    TakenReady(s, t, size, c);
    back := AfterFree(taken, r, c);
    FreeCompletes(taken, t, r, c);
    assert back.live == s.live && back.heads == s.heads;
  }

  lemma TakenReady(s: State, t: nat, size: nat, c: nat)
    requires Ready(s, t, c) && s.heads[c] != 0
    ensures Ready(AfterAlloc(s, size, c), t, c)
  {
  }

  // ---- start-up --------------------------------------------------------------------------------

  ghost function ClassAt(h: Heap, p: nat): (c: nat)
    requires exists d: nat :: IsBlock(h, d, p)
    ensures IsBlock(h, c, p)
  {
    var d: nat :| IsBlock(h, d, p);
    d
  }

  // Every block on the list of its class.
  ghost function AllFree(h: Heap): map<nat, Place> {
    map p: nat | p < HugeStart(h) && (exists d: nat :: IsBlock(h, d, p)) :: OnList(ClassAt(h, p))
  }

  // The list holds exactly the blocks of a class, and they fill its part of the heap up to
  // less than two blocks.
  ghost predicate Carved(h: Heap, c: nat, list: seq<nat>) {
    && (forall p: nat :: p in list <==> IsBlock(h, c, p))
    && Fills(h, c, |list|)
  }

  ghost function StartBooks(h: Heap, free: seq<seq<nat>>): Books {
    Books(free, AllFree(h), seq(CLASSES, i => -1))
  }

  // With every block carved and every thread outside, the books are right.
  lemma StartInv(s: State, free: seq<seq<nat>>)
    requires WellFormed(s) && |free| == CLASSES && s.live == map[] && s.heap.start > 0
    requires forall c: nat :: c < CLASSES ==>
      s.flags[c] == 0 && Chain(s.mem, s.heads[c], free[c]) && Carved(s.heap, c, free[c])
    requires forall t: nat :: t < |s.threads| ==> s.threads[t].Idle?
    ensures Sound(s, StartBooks(s.heap, free))
  {
    var b := StartBooks(s.heap, free);
    forall p: nat
      ensures p in b.place <==> exists c: nat :: IsBlock(s.heap, c, p)
      ensures p in b.place ==> p != 0 && PlaceOk(s, b, p)
    {
      if c: nat :| IsBlock(s.heap, c, p) {
        BlockBounds(s.heap, c, p);
      }
    }
    forall c: nat, p | c < CLASSES && p in free[c]
      ensures p in b.place && b.place[p] == OnList(c)
    {
      assert IsBlock(s.heap, c, p);
      BlockBounds(s.heap, c, p);
      OneClass(s.heap, c, ClassAt(s.heap, p), p);
    }
    assert Inv(s, b);
  }

  class Pools {
    const heap: Heap
    var mem: map<nat, nat>
    var heads: seq<nat>
    var flags: seq<nat>
    var hbound: nat       // how far the huge blocks go
    var gflag: nat        // the lock of hbound
    ghost var live: map<nat, Grant>
    ghost var books: Books

    // The machine with this processor as its only thread, outside the allocator.
    ghost function Now(): State
      reads this`mem, this`heads, this`flags, this`live
    {
      State(heap, mem, heads, flags, [Idle], live, false)
    }

    // Any number of threads, all outside the allocator.
    ghost function WithThreads(n: nat): State
      reads this`mem, this`heads, this`flags, this`live
    {
      State(heap, mem, heads, flags, seq(n, i => Idle), live, false)
    }

    ghost predicate Valid()
      reads this
    {
      Sound(Now(), books) && 0 < HugeStart(heap) <= hbound && gflag == 0
    }

    // Memory with anything in it, and nothing started.
    constructor (heap: Heap, mem: map<nat, nat>)
      ensures this.heap == heap && this.mem == mem && |heads| == |flags| == CLASSES && live == map[]
    {
      this.heap, this.mem, live := heap, mem, map[];
      heads, flags, hbound, gflag := seq(CLASSES, i => 0), seq(CLASSES, i => 0), 0, 0;
      books := StartBooks(heap, seq(CLASSES, i => []));
    }

    method Lock(c: nat)
      requires c < CLASSES == |flags| && flags[c] == 0
      modifies this`flags
      ensures flags == old(flags)[c := 1]
    {
      flags := flags[c := 1];
    }

    method Unlock(c: nat)
      requires c < CLASSES == |flags|
      modifies this`flags
      ensures flags == old(flags)[c := 0]
    {
      flags := flags[c := 0];
    }

    // A block pushed onto its list.
    method CarveOne(c: nat, p: nat, ghost list: seq<nat>, ghost free: seq<seq<nat>>) returns (ghost longer: seq<nat>)
      requires c < CLASSES == |heads| == |flags| == |free| && flags[c] == 0
      requires IsBlock(heap, c, p) && Chain(mem, heads[c], list) && p !in list
      requires CarvedBelow(free, c)
      modifies this`mem, this`heads, this`flags
      ensures CarvedBelow(free, c) && heads == old(heads)[c := p] && flags == old(flags)
      ensures longer == [p] + list && Chain(mem, heads[c], longer)
    {
      Lock(c);
      ghost var mem0 := mem;
      mem := mem[p := heads[c]];
      ChainWrite(mem0, heads[c], list, p, heads[c]);
      ChainPush(mem, heads[c], list, p);
      KeepsBelow(mem0, free, c, p, heads[c]);
      heads := heads[c := p];
      Unlock(c);
      longer := [p] + list;
    }

    // The classes below c are done.
    ghost predicate CarvedBelow(free: seq<seq<nat>>, c: nat)
      reads this
    {
      && |heads| == |free| == CLASSES
      && forall d: nat :: d < c && d < CLASSES ==> Chain(mem, heads[d], free[d]) && Carved(heap, d, free[d])
    }

    lemma KeepsBelow(mem0: map<nat, nat>, free: seq<seq<nat>>, c: nat, p: nat, v: nat)
      requires |heads| == |free| == CLASSES && IsBlock(heap, c, p) && mem == mem0[p := v]
      requires forall d: nat :: d < c && d < CLASSES ==> Chain(mem0, heads[d], free[d]) && Carved(heap, d, free[d])
      ensures CarvedBelow(free, c)
    {
      forall d: nat | d < c && d < CLASSES
        ensures Chain(mem, heads[d], free[d])
      {
        if p in free[d] {
          OneClass(heap, c, d, p);
        }
        ChainWrite(mem0, heads[d], free[d], p, v);
      }
    }

    // One class's part of the heap cut into blocks, each pushed onto the list.
    method Carve(c: nat, lo: nat, hi: nat, ghost free: seq<seq<nat>>) returns (ghost list: seq<nat>)
      requires c < CLASSES == |flags| && CarvedBelow(free, c) && heap.start > 0
      requires lo == Lo(heap, c) && hi == Hi(heap, c)
      modifies this`mem, this`heads, this`flags
      ensures CarvedBelow(free, c) && Chain(mem, heads[c], list) && Carved(heap, c, list)
      ensures flags == old(flags)[c := 0]
    {
      flags := flags[c := 0];
      heads := heads[c := 0];
      list := [];
      var sz := SizeOf(c);
      var p := RoundUp(lo, 4 + c);
      RoundUpExact(lo, 4 + c);
      NoneBelow(c, p);
      while p + sz <= hi
        invariant p % sz == 0 && lo <= p
        invariant flags == old(flags)[c := 0] && CarvedBelow(free, c)
        invariant Chain(mem, heads[c], list)
        invariant CarvedUpTo(c, p, list)
        decreases hi - p
      {
        CarvesNext(c, p, list);
        list := CarveOne(c, p, list, free);
        p := p + sz;
      }
      CarvesLast(c, p, list);
    }

    ghost predicate CarvedUpTo(c: nat, p: nat, list: seq<nat>) {
      && (forall q: nat :: q in list <==> IsBlock(heap, c, q) && q < p)
      && Lo(heap, c) + |list| * SizeOf(c) <= p < Lo(heap, c) + (|list| + 1) * SizeOf(c)
      && (|list| > 0 ==> p <= Hi(heap, c))
    }

    lemma NoneBelow(c: nat, p: nat)
      requires p % SizeOf(c) == 0 && Lo(heap, c) <= p < Lo(heap, c) + SizeOf(c)
      ensures CarvedUpTo(c, p, [])
    {
      forall q: nat | q < p && IsBlock(heap, c, q)
        ensures false
      {
        NextMultiple(q, p, SizeOf(c));
      }
    }

    lemma CarvesNext(c: nat, p: nat, list: seq<nat>)
      requires p % SizeOf(c) == 0 && IsBlock(heap, c, p) && CarvedUpTo(c, p, list)
      ensures (p + SizeOf(c)) % SizeOf(c) == 0 && CarvedUpTo(c, p + SizeOf(c), [p] + list)
    {
      StepMultiple(p, SizeOf(c));
      TimesMore(|list|, SizeOf(c));
      forall q: nat
        ensures q in [p] + list <==> IsBlock(heap, c, q) && q < p + SizeOf(c)
      {
        if IsBlock(heap, c, q) && p < q < p + SizeOf(c) {
          NextMultiple(p, q, SizeOf(c));
        }
      }
    }

    lemma CarvesLast(c: nat, p: nat, list: seq<nat>)
      requires c < CLASSES && CarvedUpTo(c, p, list) && p + SizeOf(c) > Hi(heap, c)
      ensures Carved(heap, c, list)
    {
      TimesMore(|list|, SizeOf(c));
      PartsTile(heap);
    }

    lemma TimesMore(n: nat, m: nat)
      ensures (n + 1) * m == n * m + m && (n + 2) * m == n * m + 2 * m && (n == 0 ==> n * m == 0)
    {
    }

    // After start-up every block of every class is free, and nothing else is on a list.
    method KInit()
      requires |heads| == |flags| == CLASSES && heap.start > 0 && live == map[]
      modifies this
      ensures Valid() && live == map[] && hbound == HugeStart(heap)
      ensures forall n: nat :: Sound(WithThreads(n), books)
      ensures forall c: nat :: c < CLASSES ==> |books.free| == CLASSES && Carved(heap, c, books.free[c])
      ensures forall c: nat :: c < CLASSES ==> Fills(heap, c, |books.free[c]|)
    {
      hbound, gflag := HugeStart(heap), 0;
      ghost var free := CarveAll();
      OpenBooks(free);
    }

    method CarveAll() returns (ghost free: seq<seq<nat>>)
      requires |heads| == |flags| == CLASSES && heap.start > 0
      modifies this`mem, this`heads, this`flags
      ensures CarvedBelow(free, CLASSES) && flags == seq(CLASSES, i => 0)
    {
      free := seq(CLASSES, i => []);
      var i := 0;
      ghost var list: seq<nat>;
      while i < 8
        invariant 0 <= i <= 8 && |flags| == CLASSES && CarvedBelow(free, i)
        invariant forall d: nat :: d < i ==> flags[d] == 0
      {
        list := Carve(i, StartAddr(heap, i), StartAddr(heap, i + 1), free);
        free := free[i := list];
        i := i + 1;
      }
      list := Carve(8, PageStart(heap), MPageStart(heap), free);
      free := free[8 := list];
      list := Carve(9, MPageStart(heap), HugeStart(heap), free);
      free := free[9 := list];
    }

    ghost method OpenBooks(free: seq<seq<nat>>)
      requires CarvedBelow(free, CLASSES) && flags == seq(CLASSES, i => 0) && heap.start > 0 && live == map[]
      modifies this`books
      ensures books == StartBooks(heap, free) && Sound(Now(), books)
      ensures forall n: nat :: Sound(WithThreads(n), books)
    {
      books := StartBooks(heap, free);
      StartInv(Now(), free);
      forall n: nat
        ensures Sound(WithThreads(n), books)
      {
        StartInv(WithThreads(n), free);
      }
    }

    // ---- allocation and free, uninterrupted --------------------------------------------------

    // An allocation from a class is the machine's allocation, with nobody else running.
    method ListAlloc(c: nat, size: nat) returns (r: nat)
      requires Valid() && ClassFor(size) == Class(c) && c < CLASSES
      modifies this`heads, this`flags, this`live, this`books
      ensures Valid() && r == old(heads)[c]
      ensures Completes(old(Now()), 0, Alloc(size), Now())
      ensures r == 0 ==> Now() == old(Now())
      ensures r != 0 ==> mem == old(mem) && heads == old(heads)[c := At(mem, r)]
      ensures r != 0 ==> live == old(live)[r := Grant(c, size)]
    {
      ghost var s := Now();
      AllReady(s, books, c);
      r := TakeGrant(c, size);
      BookAlloc(s, size, c);
    }

    method TakeGrant(c: nat, ghost size: nat) returns (r: nat)
      requires Ready(Now(), 0, c)
      modifies this`heads, this`flags, this`live
      ensures r == old(heads)[c] && Now() == AfterAlloc(old(Now()), size, c)
    {
      r := TakeHead(c);
      if r != 0 {
        live := live[r := Grant(c, size)];
      }
    }

    ghost method BookAlloc(s: State, size: nat, c: nat)
      requires Sound(s, books) && Ready(s, 0, c) && ClassFor(size) == Class(c) && Now() == AfterAlloc(s, size, c)
      modifies this`books
      ensures Sound(Now(), books) && Completes(s, 0, Alloc(size), Now())
    {
      books := AllocBooks(s, books, size, c, Now());
    }

    method TakeHead(c: nat) returns (r: nat)
      requires c < CLASSES == |heads| == |flags| && flags[c] == 0
      modifies this`heads, this`flags
      ensures r == old(heads)[c] && flags == old(flags)
      ensures heads == if r == 0 then old(heads) else old(heads)[c := At(mem, r)]
    {
      r := 0;
      Lock(c);
      if heads[c] != 0 {
        r := heads[c];
        heads := heads[c := At(mem, r)];
      }
      Unlock(c);
      assert flags == old(flags);
    }

    // A request that fits into two pages gets the first free block of its class; if there
    // is none it gets NULL, and nothing changes. A larger one moves the bound of the huge
    // blocks on. The sizes are those for which the source's int `1 << sz` is defined.
    method KAlloc(size: nat) returns (r: nat)
      requires Valid() && CeilLog(size) <= 30
      modifies this`heads, this`flags, this`live, this`books, this`hbound, this`gflag
      ensures Valid() && mem == old(mem)
      ensures ClassFor(size).Class? ==>
                && Allocated(old(Now()), old(books), Now(), books, ClassFor(size).c, size, r) && hbound == old(hbound)
      ensures ClassFor(size).Huge? ==>
                && Now() == old(Now()) && books == old(books)
                && HugeCall(heap, old(hbound), CeilLog(size), hbound, r) && size <= Pow2(CeilLog(size))
    {
      var sz := Rounded(size);
      if sz <= 13 {
        r := ClassAlloc(size, sz);
      } else {
        r := HugeAlloc(sz);
      }
    }

    method Rounded(size: nat) returns (sz: nat)
      requires CeilLog(size) <= 30
      ensures sz == CeilLog(size) && size <= Pow2(sz)
    {
      CeilLogExact(size);
      Pow2Mono(CeilLog(size), 63);
      Pow2Long();
      sz := RoundSelf(size);
    }

    method ClassAlloc(size: nat, sz: nat) returns (r: nat)
      requires Valid() && sz == CeilLog(size) <= 13
      modifies this`heads, this`flags, this`live, this`books
      ensures Valid() && ClassFor(size).Class?
      ensures Allocated(old(Now()), old(books), Now(), books, ClassFor(size).c, size, r)
    {
      ghost var s, b := Now(), books;
      var c := if sz <= 4 then 0 else sz - 4;
      r := ListAlloc(c, size);
      AllocatedFrom(s, b, Now(), books, c, size, r);
    }

    // A block of 2^sz bytes at the least multiple of its size from the bound on, or NULL if
    // the bound has passed the end of the heap. The bound moves by the size alone: the source
    // does not count the gap that rounding leaves.
    method HugeAlloc(sz: nat) returns (r: nat)
      requires gflag == 0 && hbound > 0
      modifies this`hbound, this`gflag
      ensures gflag == 0 && hbound == old(hbound) + Pow2(sz)
      ensures r == 0 <==> End(heap) < old(hbound) + Pow2(sz)
      ensures r != 0 ==> r % Pow2(sz) == 0 && old(hbound) <= r < old(hbound) + Pow2(sz)
    {
      var tsz := Pow2(sz);
      gflag := 1;
      var p := RoundUp(hbound, sz);
      RoundUpExact(hbound, sz);
      hbound := hbound + tsz;
      gflag := 0;
      if hbound > heap.start + heap.size {
        r := 0;
      } else {
        r := p;
      }
    }

    // NULL if the list was empty, else its first block.
    ghost predicate Allocated(s: State, b: Books, s': State, b': Books, c: nat, size: nat, r: nat) {
      && c < CLASSES == |b.free| == |b'.free|
      && if b.free[c] == [] then r == 0 && s' == s && b'.free == b.free
         else && r == b.free[c][0] && r !in s.live && s'.live == s.live[r := Grant(c, size)]
              && b'.free == b.free[c := b.free[c][1..]]
    }

    lemma AllocatedFrom(s: State, b: Books, s': State, b': Books, c: nat, size: nat, r: nat)
      requires Inv(s, b) && Inv(s', b') && c < CLASSES && r == s.heads[c]
      requires r == 0 ==> s' == s
      requires r != 0 ==> s'.mem == s.mem && s'.heads == s.heads[c := At(s.mem, r)]
      requires r != 0 ==> s'.live == s.live[r := Grant(c, size)]
      ensures Allocated(s, b, s', b', c, size, r)
    {
      assert Chain(s.mem, s.heads[c], b.free[c]);
      NoNullListed(b, c);
      assert |b.free[c]| > 0 ==> b.free[c][0] in b.free[c];
      if r != 0 {
        TookFirst(s, b, s', b', c);
      } else {
        SameAll(s, b, s', b');
      }
    }

    lemma SameAll(s: State, b: Books, s': State, b': Books)
      requires Inv(s, b) && Inv(s', b') && s'.mem == s.mem && s'.heads == s.heads
      ensures b'.free == b.free
    {
      forall c: nat | c < CLASSES
        ensures b'.free[c] == b.free[c]
      {
        SameLists(s, b, s', b', c);
      }
    }

    lemma TookFirst(s: State, b: Books, s': State, b': Books, c: nat)
      requires Inv(s, b) && Inv(s', b') && c < CLASSES && |b.free[c]| > 0
      requires s'.mem == s.mem && s'.heads == s.heads[c := At(s.mem, s.heads[c])]
      ensures b'.free == b.free[c := b.free[c][1..]]
      ensures b.free[c][0] !in s.live
    {
      ListedNotLive(s, b, c, b.free[c][0]);
      ShorterChain(s, b, c);
      ListIs(s', b', c, b.free[c][1..]);
      OtherLists(s, b, s', b', c);
    }

    lemma ListedNotLive(s: State, b: Books, c: nat, p: nat)
      requires Inv(s, b) && c < CLASSES && p in b.free[c]
      ensures p !in s.live
    {
    }

    lemma ShorterChain(s: State, b: Books, c: nat)
      requires Inv(s, b) && c < CLASSES && |b.free[c]| > 0
      ensures Chain(s.mem, At(s.mem, s.heads[c]), b.free[c][1..]) && 0 !in b.free[c][1..]
    {
      assert Chain(s.mem, s.heads[c], b.free[c]);
      ChainPop(s.mem, s.heads[c], b.free[c]);
      NoNullListed(b, c);
    }

    lemma OtherLists(s: State, b: Books, s': State, b': Books, c: nat)
      requires Inv(s, b) && Inv(s', b') && s'.mem == s.mem && c < CLASSES
      requires forall d: nat :: d < CLASSES && d != c ==> s'.heads[d] == s.heads[d]
      ensures b'.free == b.free[c := b'.free[c]]
    {
      forall d: nat | d < CLASSES && d != c
        ensures b'.free[d] == b.free[d]
      {
        SameLists(s, b, s', b', d);
      }
    }

    // A class's list is whatever its head leads to.
    lemma ListIs(s: State, b: Books, c: nat, list: seq<nat>)
      requires Inv(s, b) && c < CLASSES && Chain(s.mem, s.heads[c], list) && 0 !in list
      ensures b.free[c] == list
    {
      NoNullListed(b, c);
      assert Chain(s.mem, s.heads[c], b.free[c]);
      ChainUnique(s.mem, s.heads[c], b.free[c], list);
    }

    // A block goes back to the front of its class's list; the page at PAGESTART cannot.
    method KFree(ptr: nat) returns (ok: bool)
      requires Valid() && (ptr in live || HugeStart(heap) <= ptr)
      modifies this`mem, this`heads, this`flags, this`live, this`books
      ensures Valid() && |books.free| == |old(books).free| == CLASSES
      ensures ok <==> HugeStart(heap) <= ptr || ptr != PageStart(heap)
      ensures !ok || HugeStart(heap) <= ptr ==> Now() == old(Now()) && books == old(books)
      ensures ok && ptr < HugeStart(heap) ==> ptr in old(live) && Completes(old(Now()), 0, Free(ptr), Now())
      ensures ok && ptr < HugeStart(heap) ==>
                var c := old(live)[ptr].c;
                && c < CLASSES && live == old(live) - {ptr}
                && books.free == old(books).free[c := [ptr] + old(books).free[c]]
    {
      if ptr >= HugeStart(heap) {
        return true;
      }
      ghost var s, b := Now(), books;
      LiveRoute(s, b, ptr);
      var c;
      if ptr <= PageStart(heap) {
        var id := SmallId(heap, ptr);
        if id == -1 {
          ok := false;
          return;
        }
        c := id;
      } else {
        c := if ptr >= MPageStart(heap) then 9 else 8;
      }
      ok := true;
      ListFree(c, ptr);
      PutFirst(s, b, Now(), books, c, ptr);
    }

    method ListFree(c: nat, ptr: nat)
      requires Valid() && ptr in live && FreeRoute(heap, ptr) == Class(c) && c < CLASSES
      modifies this`mem, this`heads, this`flags, this`live, this`books
      ensures Valid() && Completes(old(Now()), 0, Free(ptr), Now())
      ensures mem == old(mem)[ptr := old(heads)[c]] && heads == old(heads)[c := ptr] && live == old(live) - {ptr}
    {
      ghost var s := Now();
      AllReady(s, books, c);
      GiveBack(c, ptr);
      BookFree(s, ptr, c);
    }

    method GiveBack(c: nat, ptr: nat)
      requires Ready(Now(), 0, c)
      modifies this`mem, this`heads, this`flags, this`live
      ensures Now() == AfterFree(old(Now()), ptr, c)
    {
      PutHead(c, ptr);
      live := live - {ptr};
    }

    ghost method BookFree(s: State, ptr: nat, c: nat)
      requires Sound(s, books) && Ready(s, 0, c) && ptr in s.live && FreeRoute(s.heap, ptr) == Class(c)
      requires Now() == AfterFree(s, ptr, c)
      modifies this`books
      ensures Sound(Now(), books) && Completes(s, 0, Free(ptr), Now())
    {
      books := FreeBooks(s, books, ptr, c, Now());
    }

    method PutHead(c: nat, ptr: nat)
      requires c < CLASSES == |heads| == |flags| && flags[c] == 0
      modifies this`mem, this`heads, this`flags
      ensures mem == old(mem)[ptr := old(heads)[c]] && heads == old(heads)[c := ptr] && flags == old(flags)
    {
      Lock(c);
      mem := mem[ptr := heads[c]];
      heads := heads[c := ptr];
      Unlock(c);
      assert flags == old(flags);
    }

    lemma PutFirst(s: State, b: Books, s': State, b': Books, c: nat, p: nat)
      requires Inv(s, b) && Inv(s', b') && c < CLASSES && p in s.live
      requires s'.mem == s.mem[p := s.heads[c]] && s'.heads == s.heads[c := p]
      ensures b'.free == b.free[c := [p] + b.free[c]]
    {
      StillChained(s, b, p, s.heads[c], c);
      ChainPush(s'.mem, s.heads[c], b.free[c], p);
      ListIs(s', b', c, [p] + b.free[c]);
      forall d: nat | d < CLASSES && d != c
        ensures b'.free[d] == b.free[d]
      {
        StillChained(s, b, p, s.heads[c], d);
        ListIs(s', b', d, b.free[d]);
      }
    }

    lemma StillChained(s: State, b: Books, p: nat, v: nat, d: nat)
      requires Inv(s, b) && p in s.live && d < CLASSES
      ensures Chain(s.mem[p := v], s.heads[d], b.free[d]) && p != 0 && p !in b.free[d] && 0 !in b.free[d]
    {
      assert b.place[p] == Live;
      NoNullListed(b, d);
      assert Chain(s.mem, s.heads[d], b.free[d]);
      ChainWrite(s.mem, s.heads[d], b.free[d], p, v);
    }
  }
}
