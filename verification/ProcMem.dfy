/** The memory of all processes: what each has recorded, the events that change it, and why
    no process ever sees a store of another. */
module ProcMem {
  import opened Bits
  import opened Paging
  import opened VmSpec
  import opened VmRuns

  // What a task records: its pages, and the frames behind them.
  datatype Record = Record(va: seq<nat>, pa: seq<nat>)

  // The processes, by the root page of their address space.
  type Procs = map<nat, Record>

  // ---- one process -------------------------------------------------------------------------

  // The leaf entry that the recorded pages give to a page; every page is mapped writable.
  function Listed(va: seq<nat>, pa: seq<nat>, vpn: nat): nat
    requires |va| == |pa|
  {
    if |va| == 0 then 0 else
    var k := |va| - 1;
    if va[k] / PG_SIZE == vpn then pa[k] + 7 else Listed(va[..k], pa[..k], vpn)
  }

  // Recorded addresses are different pages of the user area.
  predicate Paged(va: seq<nat>) {
    && (forall i :: 0 <= i < |va| ==> InUserArea(va[i]) && va[i] % PG_SIZE == 0)
    && (forall i, j :: 0 <= i < j < |va| ==> va[i] != va[j])
  }

  // The space maps exactly the recorded pages, each to a data page in use.
  ghost predicate Owns(st: State, s: nat, va: seq<nat>, pa: seq<nat>) {
    && |va| == |pa|
    && TreeOk(st.mem, st.avail, st.at) && Root(s) in st.at
    && (forall vpn {:trigger Entry(st.mem, st.at, s, vpn)} :: Entry(st.mem, st.at, s, vpn) == Listed(va, pa, vpn))
    && (forall i :: 0 <= i < |pa| ==> DataPage(st, pa[i]) && pa[i] % PG_SIZE == 0)
  }

  // A page is mapped exactly if it is recorded.
  lemma {:induction false} ListedMeaning(va: seq<nat>, pa: seq<nat>, v: nat)
    requires |va| == |pa| && Paged(va) && v % PG_SIZE == 0
    ensures Listed(va, pa, v / PG_SIZE) != 0 <==> v in va
  {
    if |va| > 0 {
      var k := |va| - 1;
      ListedMeaning(va[..k], pa[..k], v);
      assert va == va[..k] + [va[k]];
      assert v == v / PG_SIZE * PG_SIZE && va[k] == va[k] / PG_SIZE * PG_SIZE;
    }
  }

  // A step on other spaces or other frames keeps the pages of a process and their bytes.
  lemma OwnsKept(a: State, b: State, op: Op, s: nat, va: seq<nat>, pa: seq<nat>)
    requires Owns(a, s, va, pa) && Step(a, b, op)
    requires (op.Set? || op.Destroyed?) ==> op.space != s
    ensures Owns(b, s, va, pa)
    ensures forall i :: 0 <= i < |pa| && !(op.Wrote? && op.frame == pa[i]) ==> b.mem[pa[i]] == a.mem[pa[i]]
  {
    forall vpn
      ensures Entry(b.mem, b.at, s, vpn) == Entry(a.mem, a.at, s, vpn)
    {
      if op.Wrote? {
        DataWriteEntry(a, b.mem, op.frame, s, vpn);
      } else if op.Destroyed? {
        DropSpaceEntry(a.mem, b.mem, a.avail, a.at, op.space, s, vpn);
      }
    }
    forall i | 0 <= i < |pa|
      ensures DataPage(b, pa[i])
      ensures !(op.Wrote? && op.frame == pa[i]) ==> b.mem[pa[i]] == a.mem[pa[i]]
    {
      assert DataPage(a, pa[i]);
      DataPageKept(a, b, op, pa[i]);
    }
  }

  // Data pages stay data pages, with their bytes, unless they are written.
  lemma DataPageKept(a: State, b: State, op: Op, p: nat)
    requires TreeOk(a.mem, a.avail, a.at) && Step(a, b, op) && DataPage(a, p)
    ensures DataPage(b, p)
    ensures !(op.Wrote? && op.frame == p) ==> b.mem[p] == a.mem[p]
  {
    match op
    case Destroyed(s) => PagesSplit(a.mem, a.avail, a.at, s);
    case _ =>
  }

  // A new space owns nothing yet.
  lemma OwnsNothing(a: State, b: State, s: nat)
    requires TreeOk(a.mem, a.avail, a.at) && Step(a, b, Created(s))
    ensures Owns(b, s, [], [])
  {
  }

  // Mapping one more recorded page.
  lemma OwnsMore(a: State, b: State, s: nat, va: seq<nat>, pa: seq<nat>, v: nat, p: nat)
    requires Owns(a, s, va, pa) && DataPage(a, p) && p % PG_SIZE == 0
    requires Step(a, b, Set(s, v / PG_SIZE, p + 7))
    ensures Owns(b, s, va + [v], pa + [p])
  {
    assert (va + [v])[..|va|] == va && (pa + [p])[..|pa|] == pa;
    forall i | 0 <= i < |pa|
      ensures DataPage(b, pa[i])
    {
      assert DataPage(a, pa[i]);
    }
  }

  // A frame from the allocator is a data page that no table and no process uses.
  lemma TookIsFresh(a: State, b: State, p: nat)
    requires TreeOk(a.mem, a.avail, a.at) && Step(a, b, Took(p))
    ensures DataPage(b, p) && p % PG_SIZE == 0
    ensures forall q :: DataPage(a, q) ==> q != p
  {
    TablesInUse(a);
  }

  // ---- loads and stores ------------------------------------------------------------------------

  // Of two frame lists for the same pages the same position answers for both.
  lemma {:induction false} SameList(va: seq<nat>, pa: seq<nat>, pb: seq<nat>, vpn: nat) returns (i: nat)
    requires |va| == |pa| == |pb|
    ensures if i < |va| then Listed(va, pa, vpn) == pa[i] + 7 && Listed(va, pb, vpn) == pb[i] + 7
            else Listed(va, pa, vpn) == Listed(va, pb, vpn) == 0
  {
    if |va| == 0 {
      i := 0;
    } else {
      var k := |va| - 1;
      if va[k] / PG_SIZE == vpn {
        i := k;
      } else {
        i := SameList(va[..k], pa[..k], pb[..k], vpn);
        i := if i < k then i else |va|;
      }
    }
  }

  // What a process reads at an address, by the hardware's translation.
  function Load(mem: Memory, s: nat, va: nat): (r: (Translation, seq<nat>)) {
    var t := Translate(mem, s + 5, va);
    (t, if t.To? && FrameOf(t.pa) in mem then mem[FrameOf(t.pa)] else [])
  }

  lemma FrameIn(p: nat, addr: nat)
    requires p % PG_SIZE == 0
    ensures FrameOf(p + 7) == p && Writable(p + 7) && FrameOf(p + addr % PG_SIZE) == p
  {
    TableEntryFields(p, p + 7);
    DivModUnique(p + addr % PG_SIZE, p / PG_SIZE, PG_SIZE, addr % PG_SIZE);
  }

  // What a load gives when list position i answers for the address.
  lemma LoadFrom(st: State, s: nat, va: seq<nat>, pa: seq<nat>, addr: nat, i: nat)
    requires Owns(st, s, va, pa) && KERNEL_END <= addr < VA_END
    requires Listed(va, pa, addr / PG_SIZE) == if i < |pa| then pa[i] + 7 else 0
    ensures Load(st.mem, s, addr)
         == if i < |pa| then (To(pa[i] + addr % PG_SIZE, true, true), st.mem[pa[i]]) else (Fault, [])
    ensures i < |pa| ==> FrameOf(pa[i] + addr % PG_SIZE) == pa[i]
  {
    TranslateIsEntry(st.mem, st.avail, st.at, s, addr);
    if i < |pa| {
      assert DataPage(st, pa[i]);
      FrameIn(pa[i], addr);
    }
  }

  // The address faulted, is now translated into the frame, and every other page is as before.
  ghost predicate Serves(mem0: Memory, mem: Memory, s: nat, ref: nat, frame: nat) {
    && Translate(mem0, s + 5, ref) == Fault
    && Translate(mem, s + 5, ref) == To(frame + ref % PG_SIZE, true, true)
    && forall x :: KERNEL_END <= x < VA_END && x / PG_SIZE != ref / PG_SIZE ==>
         Translate(mem, s + 5, x) == Translate(mem0, s + 5, x)
  }

  // One page more serves the fault of an address in it.
  lemma FaultServed(a: State, b: State, s: nat, va: seq<nat>, pa: seq<nat>, ref: nat, frame: nat)
    requires Owns(a, s, va, pa) && Owns(b, s, va + [FrameOf(ref)], pa + [frame])
    requires Paged(va) && FrameOf(ref) !in va && KERNEL_END <= ref < VA_END
    ensures Serves(a.mem, b.mem, s, ref, frame)
  {
    var page, k := FrameOf(ref), |va|;
    DivModUnique(page, ref / PG_SIZE, PG_SIZE, 0);
    ListedMeaning(va, pa, page);
    assert (va + [page])[..k] == va && (pa + [frame])[..k] == pa;
    TranslateIsEntry(a.mem, a.avail, a.at, s, ref);
    TranslateIsEntry(b.mem, b.avail, b.at, s, ref);
    assert DataPage(b, (pa + [frame])[k]);
    FrameIn(frame, ref);
    forall x | KERNEL_END <= x < VA_END && x / PG_SIZE != ref / PG_SIZE
      ensures Translate(b.mem, s + 5, x) == Translate(a.mem, s + 5, x)
    {
      TranslateIsEntry(a.mem, a.avail, a.at, s, x);
      TranslateIsEntry(b.mem, b.avail, b.at, s, x);
    }
  }

  // Equal lists and equal bytes behind them give equal loads.
  lemma SameLoad(a: State, b: State, s: nat, va: seq<nat>, pa: seq<nat>, addr: nat)
    requires Owns(a, s, va, pa) && Owns(b, s, va, pa) && KERNEL_END <= addr < VA_END
    requires forall i :: 0 <= i < |pa| ==> b.mem[pa[i]] == a.mem[pa[i]]
    ensures Load(b.mem, s, addr) == Load(a.mem, s, addr)
  {
    var i := SameList(va, pa, pa, addr / PG_SIZE);
    LoadFrom(a, s, va, pa, addr, i);
    LoadFrom(b, s, va, pa, addr, i);
  }

  // p is the frame behind some user address of the process.
  ghost predicate Reached(a: State, s: nat, p: nat) {
    exists addr {:trigger Translate(a.mem, s + 5, addr)} ::
      KERNEL_END <= addr < VA_END && Translate(a.mem, s + 5, addr).To?
      && p == FrameOf(Translate(a.mem, s + 5, addr).pa)
  }

  // What a process reaches is a frame it has recorded.
  lemma ReachedFrame(a: State, s: nat, va: seq<nat>, pa: seq<nat>, p: nat)
    requires Owns(a, s, va, pa) && Reached(a, s, p)
    ensures p in pa
  {
    var addr :| KERNEL_END <= addr < VA_END && Translate(a.mem, s + 5, addr).To?
                && p == FrameOf(Translate(a.mem, s + 5, addr).pa);
    ReachedAt(a, s, va, pa, addr);
  }

  lemma ReachedAt(a: State, s: nat, va: seq<nat>, pa: seq<nat>, addr: nat)
    requires Owns(a, s, va, pa) && KERNEL_END <= addr < VA_END && Translate(a.mem, s + 5, addr).To?
    ensures FrameOf(Translate(a.mem, s + 5, addr).pa) in pa
  {
    var k := SameList(va, pa, pa, addr / PG_SIZE);
    LoadFrom(a, s, va, pa, addr, k);
    assert Load(a.mem, s, addr).0 == Translate(a.mem, s + 5, addr);
  }

  // ---- all processes ---------------------------------------------------------------------------

  ghost predicate Behind(procs: Procs, s: nat, i: nat, p: nat) {
    s in procs && i < |procs[s].pa| && procs[s].pa[i] == p
  }

  // No frame is behind two pages, of one process or of two.
  ghost predicate FramesApart(procs: Procs) {
    forall s, i, t, j, p :: Behind(procs, s, i, p) && Behind(procs, t, j, p) ==> s == t && i == j
  }

  // Every process owns what it has recorded, and no two share a frame.
  ghost predicate ProcsOk(st: State, procs: Procs) {
    && TreeOk(st.mem, st.avail, st.at)
    && (forall s {:trigger s in procs} :: s in procs ==> Owns(st, s, procs[s].va, procs[s].pa) && Paged(procs[s].va))
    && FramesApart(procs)
  }

  datatype Event =
    | Create(space: nat)
    | Grow(space: nat, va: nat, frame: nat)                     // a page fault
    | Copy(space: nat, va: nat, frame: nat, words: seq<nat>)    // one page of a fork
    | Store(space: nat, frame: nat, words: seq<nat>)            // the process writes
    | Destroy(space: nat)
    | Take(frame: nat)                                          // a page for the kernel itself
    | Fill(frame: nat, words: seq<nat>)                         // the kernel writes one of its own

  // The process takes part in the event.
  predicate By(e: Event, s: nat) {
    !e.Take? && !e.Fill? && e.space == s
  }

  // One, two or three steps of the virtual memory manager, one after the other.
  ghost predicate One(a: State, b: State, op: Op) {
    exists o :: o == op && Step(a, b, o)
  }

  ghost predicate Two(a: State, b: State, op: Op, op': Op) {
    exists m :: Step(a, m, op) && Step(m, b, op')
  }

  ghost predicate Three(a: State, b: State, op: Op, op': Op, op'': Op) {
    exists m :: Two(a, m, op, op') && Step(m, b, op'')
  }

  lemma ThenSet(a: State, m: State, b: State, op: Op, s: nat, vpn: nat, e: nat, e': nat)
    requires One(a, m, op) && One(m, b, Set(s, vpn, e)) && e == e'
    ensures Two(a, b, op, Set(s, vpn, e'))
  {
  }

  lemma ThenSetToo(a: State, m: State, b: State, op: Op, op': Op, s: nat, vpn: nat, e: nat, e': nat)
    requires Two(a, m, op, op') && One(m, b, Set(s, vpn, e)) && e == e'
    ensures Three(a, b, op, op', Set(s, vpn, e'))
  {
  }

  // A page that the process can still record.
  predicate Recordable(pages: Record, va: nat) {
    InUserArea(va) && va % PG_SIZE == 0 && va !in pages.va
  }

  // What an event is, in steps of the virtual memory manager.
  ghost predicate Happens(a: State, b: State, procs: Procs, e: Event) {
    match e
    case Create(s) => Step(a, b, Created(s))
    case Grow(s, va, p) =>
      s in procs && Recordable(procs[s], va) && Two(a, b, Took(p), Set(s, va / PG_SIZE, p + 7))
    case Copy(s, va, p, words) =>
      s in procs && Recordable(procs[s], va) && Three(a, b, Took(p), Wrote(p, words), Set(s, va / PG_SIZE, p + 7))
    case Store(s, p, words) => s in procs && Reached(a, s, p) && Step(a, b, Wrote(p, words))
    case Destroy(s) => s in procs && Step(a, b, Destroyed(s))
    case Take(p) => Step(a, b, Took(p))
    case Fill(p, words) => Step(a, b, Wrote(p, words)) && forall t, i :: !Behind(procs, t, i, p)
  }

  function With(pages: Record, va: nat, p: nat): Record { Record(pages.va + [va], pages.pa + [p]) }

  function AfterEvent(procs: Procs, e: Event): Procs {
    match e
    case Create(s) => procs[s := Record([], [])]
    case Grow(s, va, p) => if s in procs then procs[s := With(procs[s], va, p)] else procs
    case Copy(s, va, p, words) => if s in procs then procs[s := With(procs[s], va, p)] else procs
    case Store(s, p, words) => procs
    case Destroy(s) => procs - {s}
    case Take(p) => procs
    case Fill(p, words) => procs
  }

  // ---- every event keeps the processes apart ------------------------------------------------------

  // One step of the manager, with the space it changes set aside.
  lemma OthersKept(a: State, b: State, op: Op, procs: Procs, s: nat)
    requires ProcsOk(a, procs) && Step(a, b, op) && ((op.Set? || op.Destroyed?) ==> op.space == s)
    ensures forall t {:trigger t in procs} :: t in procs && (t != s || !(op.Set? || op.Destroyed?)) ==>
              Owns(b, t, procs[t].va, procs[t].pa)
  {
    forall t | t in procs && (t != s || !(op.Set? || op.Destroyed?))
      ensures Owns(b, t, procs[t].va, procs[t].pa)
    {
      OwnsKept(a, b, op, t, procs[t].va, procs[t].pa);
    }
  }

  lemma StepKeepsProcs(a: State, b: State, op: Op, procs: Procs)
    requires ProcsOk(a, procs) && Step(a, b, op) && (op.Took? || op.Wrote?)
    ensures ProcsOk(b, procs)
  {
    OthersKept(a, b, op, procs, 0);
  }

  lemma CreateKeeps(a: State, b: State, procs: Procs, s: nat)
    requires ProcsOk(a, procs) && Step(a, b, Created(s))
    ensures s !in procs && ProcsOk(b, procs[s := Record([], [])])
  {
    OthersKept(a, b, Created(s), procs, s);
    OwnsNothing(a, b, s);
    var procs' := procs[s := Record([], [])];
    assert forall t, i, p :: Behind(procs', t, i, p) ==> Behind(procs, t, i, p);
  }

  // One more page for one process, with a frame that is a data page of nobody.
  lemma GrowKeeps(a: State, b: State, procs: Procs, s: nat, va: nat, p: nat)
    requires ProcsOk(a, procs) && s in procs && Recordable(procs[s], va)
    requires DataPage(a, p) && p % PG_SIZE == 0 && forall t, i :: !Behind(procs, t, i, p)
    requires Step(a, b, Set(s, va / PG_SIZE, p + 7))
    ensures ProcsOk(b, procs[s := With(procs[s], va, p)])
  {
    OthersKept(a, b, Set(s, va / PG_SIZE, p + 7), procs, s);
    OwnsMore(a, b, s, procs[s].va, procs[s].pa, va, p);
    GrowApart(procs, s, va, p);
  }

  lemma GrowApart(procs: Procs, s: nat, va: nat, p: nat)
    requires FramesApart(procs) && s in procs && |procs[s].va| == |procs[s].pa|
    requires forall t, i :: !Behind(procs, t, i, p)
    ensures FramesApart(procs[s := With(procs[s], va, p)])
  {
    var procs' := procs[s := With(procs[s], va, p)];
    var k := |procs[s].pa|;
    forall t, i, q | Behind(procs', t, i, q)
      ensures if t == s && i == k then q == p else Behind(procs, t, i, q)
    {
    }
  }

  lemma NotBehind(a: State, b: State, procs: Procs, p: nat)
    requires ProcsOk(a, procs) && Step(a, b, Took(p))
    ensures DataPage(b, p) && p % PG_SIZE == 0 && forall t, i :: !Behind(procs, t, i, p)
  {
    TookIsFresh(a, b, p);
    forall t, i: nat | t in procs && i < |procs[t].pa|
      ensures procs[t].pa[i] != p
    {
      assert Owns(a, t, procs[t].va, procs[t].pa);
      assert DataPage(a, procs[t].pa[i]);
    }
  }

  lemma CopyKeeps(a: State, b: State, procs: Procs, s: nat, va: nat, p: nat, words: seq<nat>)
    requires ProcsOk(a, procs) && Happens(a, b, procs, Copy(s, va, p, words))
    ensures ProcsOk(b, procs[s := With(procs[s], va, p)])
  {
    var m2 :| Two(a, m2, Took(p), Wrote(p, words)) && Step(m2, b, Set(s, va / PG_SIZE, p + 7));
    var m1 :| Step(a, m1, Took(p)) && Step(m1, m2, Wrote(p, words));
    StepKeepsProcs(a, m1, Took(p), procs);
    NotBehind(a, m1, procs, p);
    StepKeepsProcs(m1, m2, Wrote(p, words), procs);
    DataPageKept(m1, m2, Wrote(p, words), p);
    GrowKeeps(m2, b, procs, s, va, p);
  }

  lemma DestroyKeeps(a: State, b: State, procs: Procs, s: nat)
    requires ProcsOk(a, procs) && Step(a, b, Destroyed(s))
    ensures ProcsOk(b, procs - {s})
  {
    OthersKept(a, b, Destroyed(s), procs, s);
    var procs' := procs - {s};
    assert forall t, i, p :: Behind(procs', t, i, p) ==> Behind(procs, t, i, p);
  }

  /** Whatever happens, every process owns what it has recorded, and no two share a frame. */
  lemma EventKeepsProcs(a: State, b: State, procs: Procs, e: Event)
    requires ProcsOk(a, procs) && Happens(a, b, procs, e)
    ensures ProcsOk(b, AfterEvent(procs, e))
  {
    match e
    case Create(s) => CreateKeeps(a, b, procs, s);
    case Grow(s, va, p) =>
      var m :| Step(a, m, Took(p)) && Step(m, b, Set(s, va / PG_SIZE, p + 7));
      StepKeepsProcs(a, m, Took(p), procs);
      NotBehind(a, m, procs, p);
      GrowKeeps(m, b, procs, s, va, p);
    case Copy(s, va, p, words) => CopyKeeps(a, b, procs, s, va, p, words);
    case Store(s, p, words) => StepKeepsProcs(a, b, Wrote(p, words), procs);
    case Destroy(s) => DestroyKeeps(a, b, procs, s);
    case Take(p) => StepKeepsProcs(a, b, Took(p), procs);
    case Fill(p, words) => StepKeepsProcs(a, b, Wrote(p, words), procs);
  }

  // ---- whole runs ------------------------------------------------------------------------------

  function AfterEvents(procs: Procs, events: seq<Event>): Procs {
    if |events| == 0 then procs
    else AfterEvent(AfterEvents(procs, events[..|events| - 1]), events[|events| - 1])
  }

  // The events lead from a to b.
  ghost predicate Leads(a: State, b: State, procs: Procs, events: seq<Event>)
    decreases |events|
  {
    if |events| == 0 then b == a
    else
      var k := |events| - 1;
      exists m :: Leads(a, m, procs, events[..k]) && Happens(m, b, AfterEvents(procs, events[..k]), events[k])
  }

  lemma LeadsMore(a: State, m: State, b: State, procs: Procs, events: seq<Event>, e: Event)
    requires Leads(a, m, procs, events) && Happens(m, b, AfterEvents(procs, events), e)
    ensures Leads(a, b, procs, events + [e])
    ensures AfterEvents(procs, events + [e]) == AfterEvent(AfterEvents(procs, events), e)
  {
    assert (events + [e])[..|events|] == events;
  }

  /** Over any run of creates, faults, forks, stores, destroys and pages for the kernel the
      processes stay apart. */
  lemma {:induction false} RunKeepsProcs(a: State, b: State, procs: Procs, events: seq<Event>)
    requires ProcsOk(a, procs) && Leads(a, b, procs, events)
    ensures ProcsOk(b, AfterEvents(procs, events))
    decreases |events|
  {
    if |events| > 0 {
      var k := |events| - 1;
      var m :| Leads(a, m, procs, events[..k]) && Happens(m, b, AfterEvents(procs, events[..k]), events[k]);
      RunKeepsProcs(a, m, procs, events[..k]);
      EventKeepsProcs(m, b, AfterEvents(procs, events[..k]), events[k]);
    }
  }

  // An event of another process leaves a process's pages, frames and bytes alone.
  lemma EventElsewhere(a: State, b: State, procs: Procs, e: Event, c: nat)
    requires ProcsOk(a, procs) && Happens(a, b, procs, e) && c in procs && !By(e, c)
    ensures c in AfterEvent(procs, e) && AfterEvent(procs, e)[c] == procs[c]
    ensures forall i :: 0 <= i < |procs[c].pa| ==>
              procs[c].pa[i] in b.mem && b.mem[procs[c].pa[i]] == a.mem[procs[c].pa[i]]
  {
    var va, pa := procs[c].va, procs[c].pa;
    assert Owns(a, c, va, pa);
    forall i | 0 <= i < |pa|
      ensures pa[i] in b.mem && b.mem[pa[i]] == a.mem[pa[i]]
    {
      assert DataPage(a, pa[i]);
      KeptElsewhere(a, b, procs, e, c, i);
    }
  }

  lemma KeptElsewhere(a: State, b: State, procs: Procs, e: Event, c: nat, i: nat)
    requires ProcsOk(a, procs) && Happens(a, b, procs, e) && c in procs && !By(e, c)
    requires i < |procs[c].pa| && DataPage(a, procs[c].pa[i])
    ensures procs[c].pa[i] in b.mem && b.mem[procs[c].pa[i]] == a.mem[procs[c].pa[i]]
  {
    var q := procs[c].pa[i];
    match e
    case Create(s) => DataPageKept(a, b, Created(s), q);
    case Grow(s, va, p) =>
      var m :| Step(a, m, Took(p)) && Step(m, b, Set(s, va / PG_SIZE, p + 7));
      DataPageKept(a, m, Took(p), q);
      DataPageKept(m, b, Set(s, va / PG_SIZE, p + 7), q);
    case Copy(s, va, p, words) => CopyKeepsData(a, b, procs, s, va, p, words, q);
    case Store(s, p, words) =>
      ReachedFrame(a, s, procs[s].va, procs[s].pa, p);
      var j :| 0 <= j < |procs[s].pa| && procs[s].pa[j] == p;
      assert Behind(procs, s, j, p) && Behind(procs, c, i, q);
      DataPageKept(a, b, Wrote(p, words), q);
    case Destroy(s) => DataPageKept(a, b, Destroyed(s), q);
    case Take(p) => DataPageKept(a, b, Took(p), q);
    case Fill(p, words) =>
      assert Behind(procs, c, i, q);
      DataPageKept(a, b, Wrote(p, words), q);
  }

  // Copying a page for a child writes no page in use.
  lemma CopyKeepsData(a: State, b: State, procs: Procs, s: nat, va: nat, p: nat, words: seq<nat>, q: nat)
    requires TreeOk(a.mem, a.avail, a.at) && DataPage(a, q) && Happens(a, b, procs, Copy(s, va, p, words))
    ensures DataPage(b, q) && b.mem[q] == a.mem[q]
  {
    var m2 :| Two(a, m2, Took(p), Wrote(p, words)) && Step(m2, b, Set(s, va / PG_SIZE, p + 7));
    var m1 :| Step(a, m1, Took(p)) && Step(m1, m2, Wrote(p, words));
    TookIsFresh(a, m1, p);
    DataPageKept(a, m1, Took(p), q);
    DataPageKept(m1, m2, Wrote(p, words), q);
    DataPageKept(m2, b, Set(s, va / PG_SIZE, p + 7), q);
  }

  /** No process sees anything of the others: over any run in which it takes no step itself,
      whatever the others create, fault in, fork, write or destroy, and whatever the kernel does
      with pages of its own, its loads give the same. */
  lemma {:induction false} RunIsolated(a: State, b: State, procs: Procs, events: seq<Event>, c: nat, addr: nat)
    requires ProcsOk(a, procs) && Leads(a, b, procs, events) && c in procs
    requires KERNEL_END <= addr < VA_END
    requires forall i :: 0 <= i < |events| ==> !By(events[i], c)
    ensures c in AfterEvents(procs, events) && AfterEvents(procs, events)[c] == procs[c]
    ensures Load(b.mem, c, addr) == Load(a.mem, c, addr)
    decreases |events|
  {
    if |events| > 0 {
      var k := |events| - 1;
      var m :| Leads(a, m, procs, events[..k]) && Happens(m, b, AfterEvents(procs, events[..k]), events[k]);
      var mid := AfterEvents(procs, events[..k]);
      RunKeepsProcs(a, m, procs, events[..k]);
      RunIsolated(a, m, procs, events[..k], c, addr);
      EventElsewhere(m, b, mid, events[k], c);
      EventKeepsProcs(m, b, mid, events[k]);
      assert Owns(m, c, mid[c].va, mid[c].pa) && Owns(b, c, mid[c].va, mid[c].pa);
      SameLoad(m, b, c, mid[c].va, mid[c].pa, addr);
    }
  }

  // ---- fork --------------------------------------------------------------------------------------

  // Parent and child after fork: same pages, equal bytes, and frames of their own.
  ghost predicate Forked(st: State, procs: Procs, s: nat, c: nat) {
    && ProcsOk(st, procs) && s in procs && c in procs && s != c
    && procs[c].va == procs[s].va && |procs[c].pa| == |procs[s].pa|
    && (forall i :: 0 <= i < |procs[s].pa| ==> st.mem[procs[c].pa[i]] == st.mem[procs[s].pa[i]])
  }

  /** Wherever the parent can read, the child reads the same page of bytes through a frame
      of its own, with the same rights; where the parent faults, so does the child. */
  lemma ForkSees(st: State, procs: Procs, s: nat, c: nat, addr: nat)
    requires Forked(st, procs, s, c) && KERNEL_END <= addr < VA_END
    ensures var (t, bytes) := Load(st.mem, s, addr); var (t', bytes') := Load(st.mem, c, addr);
            && (t.Fault? <==> t'.Fault?) && bytes == bytes'
            && (t.To? ==> t.writable == t'.writable && t.user == t'.user && FrameOf(t.pa) != FrameOf(t'.pa))
  {
    var va, pa, cpa := procs[s].va, procs[s].pa, procs[c].pa;
    assert Owns(st, s, va, pa) && Owns(st, c, va, cpa);
    var i := SameList(va, pa, cpa, addr / PG_SIZE);
    LoadFrom(st, s, va, pa, addr, i);
    LoadFrom(st, c, va, cpa, addr, i);
    if i < |pa| {
      assert Behind(procs, s, i, pa[i]) && Behind(procs, c, i, cpa[i]);
    }
  }

  // The bytes behind a list of frames.
  ghost function Bytes(st: State, pa: seq<nat>): seq<seq<nat>>
  {
    seq(|pa|, i requires 0 <= i < |pa| => if pa[i] in st.mem then st.mem[pa[i]] else [])
  }

  // What fork does for a child: creates it and copies the pages, one after the other.
  function ForkEvents(c: nat, va: seq<nat>, cpa: seq<nat>, bytes: seq<seq<nat>>): seq<Event>
    requires |cpa| <= |va| && |cpa| <= |bytes|
    decreases |cpa|
  {
    if |cpa| == 0 then [Create(c)]
    else
      var k := |cpa| - 1;
      ForkEvents(c, va, cpa[..k], bytes) + [Copy(c, va[k], cpa[k], bytes[k])]
  }

  lemma {:induction false} ForkEventsOwn(c: nat, va: seq<nat>, cpa: seq<nat>, bytes: seq<seq<nat>>)
    requires |cpa| <= |va| && |cpa| <= |bytes|
    ensures forall i, s :: 0 <= i < |ForkEvents(c, va, cpa, bytes)| && s != c ==>
              !By(ForkEvents(c, va, cpa, bytes)[i], s)
    decreases |cpa|
  {
    if |cpa| > 0 {
      ForkEventsOwn(c, va, cpa[..|cpa| - 1], bytes);
    }
  }

  // The processes with a child that has the first pages.
  function WithChild(procs: Procs, c: nat, va: seq<nat>, cpa: seq<nat>): Procs
    requires |cpa| <= |va|
  {
    procs[c := Record(va[..|cpa|], cpa)]
  }

  lemma ChildMore(procs: Procs, c: nat, va: seq<nat>, cpa: seq<nat>, p: nat, words: seq<nat>)
    requires |cpa| < |va|
    ensures AfterEvent(WithChild(procs, c, va, cpa), Copy(c, va[|cpa|], p, words)) == WithChild(procs, c, va, cpa + [p])
  {
    TakeMore(va, |cpa|);
  }

  // The first pages are copied by the events of a fork ...
  ghost predicate CopiedProcs(st0: State, procs0: Procs, st: State, c: nat, va: seq<nat>, bytes: seq<seq<nat>>,
                              cpa: seq<nat>) {
    && |cpa| <= |va| == |bytes|
    && Leads(st0, st, procs0, ForkEvents(c, va, cpa, bytes))
    && AfterEvents(procs0, ForkEvents(c, va, cpa, bytes)) == WithChild(procs0, c, va, cpa)
    && ProcsOk(st, WithChild(procs0, c, va, cpa))
  }

  // ... into frames that were free, and everything that was in use is as it was.
  ghost predicate CopiedBytes(st0: State, st: State, bytes: seq<seq<nat>>, cpa: seq<nat>) {
    && |cpa| <= |bytes| && st.avail <= st0.avail
    && (forall p :: DataPage(st0, p) ==> DataPage(st, p) && st.mem[p] == st0.mem[p])
    && (forall i :: 0 <= i < |cpa| ==> cpa[i] in st0.avail && DataPage(st, cpa[i]) && st.mem[cpa[i]] == bytes[i])
  }

  // The child is created, and nothing is copied yet.
  lemma CopiedNone(st0: State, procs0: Procs, st: State, c: nat, va: seq<nat>, bytes: seq<seq<nat>>)
    requires ProcsOk(st0, procs0) && Step(st0, st, Created(c)) && |va| == |bytes|
    ensures c !in procs0 && CopiedProcs(st0, procs0, st, c, va, bytes, []) && CopiedBytes(st0, st, bytes, [])
  {
    CreateKeeps(st0, st, procs0, c);
    LeadsMore(st0, st0, st, procs0, [], Create(c));
    assert va[..0] == [];
    forall p | DataPage(st0, p)
      ensures DataPage(st, p) && st.mem[p] == st0.mem[p]
    {
      DataPageKept(st0, st, Created(c), p);
    }
  }

  // Allocate a frame, fill it, map it: that is one event ...
  lemma CopyHappens(a: State, b: State, procs0: Procs, c: nat, va: seq<nat>, cpa: seq<nat>, p: nat, words: seq<nat>)
    requires |cpa| < |va| && Paged(va)
    requires Three(a, b, Took(p), Wrote(p, words), Set(c, va[|cpa|] / PG_SIZE, p + 7))
    ensures Happens(a, b, WithChild(procs0, c, va, cpa), Copy(c, va[|cpa|], p, words))
  {
    assert va[|cpa|] !in va[..|cpa|];
  }

  // ... and one page more is copied.
  lemma CopyStepProcs(st0: State, procs0: Procs, a: State, b: State, c: nat, va: seq<nat>, bytes: seq<seq<nat>>,
                      cpa: seq<nat>, p: nat)
    requires CopiedProcs(st0, procs0, a, c, va, bytes, cpa) && |cpa| < |va|
    requires Happens(a, b, WithChild(procs0, c, va, cpa), Copy(c, va[|cpa|], p, bytes[|cpa|]))
    ensures CopiedProcs(st0, procs0, b, c, va, bytes, cpa + [p])
  {
    var procs, e := WithChild(procs0, c, va, cpa), Copy(c, va[|cpa|], p, bytes[|cpa|]);
    EventKeepsProcs(a, b, procs, e);
    ChildMore(procs0, c, va, cpa, p, bytes[|cpa|]);
    LeadsMore(st0, a, b, procs0, ForkEvents(c, va, cpa, bytes), e);
    ForkEventsMore(c, va, cpa, p, bytes);
  }

  lemma ForkEventsMore(c: nat, va: seq<nat>, cpa: seq<nat>, p: nat, bytes: seq<seq<nat>>)
    requires |cpa| < |va| && |cpa| < |bytes|
    ensures ForkEvents(c, va, cpa + [p], bytes) == ForkEvents(c, va, cpa, bytes) + [Copy(c, va[|cpa|], p, bytes[|cpa|])]
  {
    assert (cpa + [p])[..|cpa|] == cpa;
  }

  lemma CopyStepBytes(st0: State, procs: Procs, a: State, b: State, c: nat, va: nat, bytes: seq<seq<nat>>,
                      cpa: seq<nat>, p: nat)
    requires TreeOk(a.mem, a.avail, a.at) && CopiedBytes(st0, a, bytes, cpa) && |cpa| < |bytes|
    requires Happens(a, b, procs, Copy(c, va, p, bytes[|cpa|]))
    ensures CopiedBytes(st0, b, bytes, cpa + [p])
  {
    forall q | DataPage(a, q)
      ensures DataPage(b, q) && b.mem[q] == a.mem[q]
    {
      CopyKeepsData(a, b, procs, c, va, p, bytes[|cpa|], q);
    }
    CopyIsThere(a, b, procs, c, va, p, bytes[|cpa|]);
  }

  lemma CopyIsThere(a: State, b: State, procs: Procs, c: nat, va: nat, p: nat, words: seq<nat>)
    requires TreeOk(a.mem, a.avail, a.at) && Happens(a, b, procs, Copy(c, va, p, words))
    ensures p in a.avail && b.avail <= a.avail && DataPage(b, p) && b.mem[p] == words
  {
    var m2 :| Two(a, m2, Took(p), Wrote(p, words)) && Step(m2, b, Set(c, va / PG_SIZE, p + 7));
    var m1 :| Step(a, m1, Took(p)) && Step(m1, m2, Wrote(p, words));
    TookIsFresh(a, m1, p);
    DataPageKept(m1, m2, Wrote(p, words), p);
    DataPageKept(m2, b, Set(c, va / PG_SIZE, p + 7), p);
  }

  lemma CopiedIsForked(st0: State, procs0: Procs, st: State, s: nat, c: nat, bytes: seq<seq<nat>>, cpa: seq<nat>)
    requires s in procs0 && c !in procs0 && |cpa| == |procs0[s].va| == |procs0[s].pa|
    requires forall i :: 0 <= i < |procs0[s].pa| ==> DataPage(st0, procs0[s].pa[i])
    requires bytes == Bytes(st0, procs0[s].pa)
    requires CopiedProcs(st0, procs0, st, c, procs0[s].va, bytes, cpa) && CopiedBytes(st0, st, bytes, cpa)
    ensures Forked(st, procs0[c := Record(procs0[s].va, cpa)], s, c)
  {
    var va, pa := procs0[s].va, procs0[s].pa;
    assert va[..|cpa|] == va;
    forall i | 0 <= i < |pa|
      ensures st.mem[cpa[i]] == st.mem[pa[i]]
    {
      assert DataPage(st0, pa[i]);
    }
  }

  // ---- how many pages fork needs --------------------------------------------------------------------

  // The tables that an address needs and none of the others does, down to a level.
  function NewTables(vas: seq<nat>, va: nat, level: nat): nat {
    if level <= 1 then 0
    else NewTables(vas, va, level - 1)
         + if exists j :: 0 <= j < |vas| && Prefix(vas[j], level) == Prefix(va, level) then 0 else 1
  }

  // The tables below the root that a list of pages needs.
  function TablesFor(vas: seq<nat>): nat {
    if |vas| == 0 then 0
    else TablesFor(vas[..|vas| - 1]) + NewTables(vas[..|vas| - 1], vas[|vas| - 1], PT_LEVELS)
  }

  lemma {:induction false} TablesMono(vas: seq<nat>, i: nat)
    requires i <= |vas|
    ensures TablesFor(vas[..i]) <= TablesFor(vas)
    decreases |vas|
  {
    if i < |vas| {
      TablesMono(vas[..|vas| - 1], i);
      assert vas[..|vas| - 1][..i] == vas[..i];
    } else {
      assert vas[..i] == vas;
    }
  }

  lemma TablesNext(vas: seq<nat>, i: nat)
    requires i < |vas|
    ensures TablesFor(vas[..i + 1]) == TablesFor(vas[..i]) + NewTables(vas[..i], vas[i], PT_LEVELS)
    ensures TablesFor(vas[..i + 1]) <= TablesFor(vas)
  {
    assert vas[..i + 1][..i] == vas[..i];
    TablesMono(vas, i + 1);
  }

  // Never more than three for a page.
  lemma {:induction false} TablesAtMost(vas: seq<nat>)
    ensures TablesFor(vas) <= 3 * |vas|
  {
    if |vas| > 0 {
      TablesAtMost(vas[..|vas| - 1]);
      NewTablesAtMost(vas[..|vas| - 1], vas[|vas| - 1], PT_LEVELS);
    }
  }

  lemma {:induction false} NewTablesAtMost(vas: seq<nat>, va: nat, level: nat)
    ensures NewTables(vas, va, level) <= if level <= 1 then 0 else level - 1
  {
    if level > 1 {
      NewTablesAtMost(vas, va, level - 1);
    }
  }

  // A space has exactly the tables that its pages need.
  ghost predicate TablesAre(at: Tree, c: nat, vas: seq<nat>) {
    forall n: Node {:trigger n in at} :: n.space == c && n.level >= 2 ==>
      (n in at <==> exists j :: 0 <= j < |vas| && OnPath(n, c, vas[j], PT_LEVELS))
  }

  lemma {:induction false} MissingIsNew(at: Tree, c: nat, vas: seq<nat>, va: nat, level: nat)
    requires TablesAre(at, c, vas) && level <= 4
    ensures Missing(at, c, va, level) == NewTables(vas, va, level)
  {
    if level > 1 {
      MissingIsNew(at, c, vas, va, level - 1);
      var n := PathNode(c, va, level);
      forall j | 0 <= j < |vas|
        ensures OnPath(n, c, vas[j], PT_LEVELS) <==> Prefix(vas[j], level) == Prefix(va, level)
      {
      }
    }
  }

  lemma TablesAreNone(a: State, b: State, c: nat)
    requires TreeOk(a.mem, a.avail, a.at) && Step(a, b, Created(c))
    ensures TablesAre(b.at, c, [])
  {
    forall n | n in a.at
      ensures n.space != c
    {
      RootOfNode(a.at, n);
    }
  }

  lemma TablesAreMore(at0: Tree, at: Tree, c: nat, vas: seq<nat>, va: nat)
    requires TablesAre(at0, c, vas) && PathAdded(at0, at, c, va, PT_LEVELS)
    ensures TablesAre(at, c, vas + [va])
  {
    forall n: Node | n.space == c && n.level >= 2
      ensures n in at <==> exists j :: 0 <= j < |vas + [va]| && OnPath(n, c, (vas + [va])[j], PT_LEVELS)
    {
      var more := vas + [va];
      if n in at0 {
        var j :| 0 <= j < |vas| && OnPath(n, c, vas[j], PT_LEVELS);
        assert more[j] == vas[j];
      }
      assert more[|vas|] == va;
      forall j | 0 <= j < |more| && OnPath(n, c, more[j], PT_LEVELS)
        ensures n in at
      {
        assert j < |vas| ==> more[j] == vas[j];
      }
    }
  }

  // The first pages are copied, into frames that were free, under the tables they need.
  ghost predicate CopiedUpTo(st: State, st0: State, procs0: Procs, c: nat, vas: seq<nat>, bytes: seq<seq<nat>>,
                             cpa: seq<nat>) {
    exists k :: k == |cpa| && k <= |vas|
      && CopiedProcs(st0, procs0, st, c, vas, bytes, cpa) && CopiedBytes(st0, st, bytes, cpa)
      && TablesAre(st.at, c, vas[..k])
  }

  lemma CopiedStart(st0: State, procs0: Procs, st: State, c: nat, vas: seq<nat>, bytes: seq<seq<nat>>)
    requires ProcsOk(st0, procs0) && One(st0, st, Created(c)) && |vas| == |bytes|
    ensures c !in procs0 && CopiedUpTo(st, st0, procs0, c, vas, bytes, [])
  {
    CopiedNone(st0, procs0, st, c, vas, bytes);
    TablesAreNone(st0, st, c);
    assert vas[..0] == [];
  }

  // The next page to copy is not mapped yet, and the missing tables are the new ones.
  lemma CopyFits(a: State, st0: State, procs0: Procs, c: nat, vas: seq<nat>, bytes: seq<seq<nat>>, cpa: seq<nat>)
    requires CopiedUpTo(a, st0, procs0, c, vas, bytes, cpa) && |cpa| < |vas| && Paged(vas)
    ensures InUserArea(vas[|cpa|]) && vas[|cpa|] % PG_SIZE == 0
    ensures Entry(a.mem, a.at, c, vas[|cpa|] / PG_SIZE) == 0
    ensures Missing(a.at, c, vas[|cpa|], PT_LEVELS) == NewTables(vas[..|cpa|], vas[|cpa|], PT_LEVELS)
  {
    var k, procs := |cpa|, WithChild(procs0, c, vas, cpa);
    assert c in procs && procs[c] == Record(vas[..k], cpa);
    assert Owns(a, c, vas[..k], cpa);
    ListedMeaning(vas[..k], cpa, vas[k]);
    MissingIsNew(a.at, c, vas[..k], vas[k], PT_LEVELS);
  }

  // A frame taken and filled changes no entry and no table.
  lemma FilledKeeps(a: State, b: State, p: nat, words: seq<nat>, s: nat, vpn: nat)
    requires TreeOk(a.mem, a.avail, a.at) && Two(a, b, Took(p), Wrote(p, words))
    ensures b.at == a.at && Entry(b.mem, b.at, s, vpn) == Entry(a.mem, a.at, s, vpn)
  {
    var m :| Step(a, m, Took(p)) && Step(m, b, Wrote(p, words));
    DataWriteEntry(m, b.mem, p, s, vpn);
  }

  lemma TakeMore(s: seq<nat>, k: nat)
    requires k < |s|
    ensures s[..k] + [s[k]] == s[..k + 1]
  {
  }

  // One page more is copied.
  lemma CopyDone(a: State, b: State, st0: State, procs0: Procs, c: nat, vas: seq<nat>, bytes: seq<seq<nat>>,
                 cpa: seq<nat>, p: nat)
    requires CopiedUpTo(a, st0, procs0, c, vas, bytes, cpa) && |cpa| < |vas| == |bytes|
    requires Three(a, b, Took(p), Wrote(p, bytes[|cpa|]), Set(c, vas[|cpa|] / PG_SIZE, p + 7)) && Paged(vas)
    requires PathAdded(a.at, b.at, c, vas[|cpa|], PT_LEVELS)
    ensures CopiedUpTo(b, st0, procs0, c, vas, bytes, cpa + [p])
  {
    var k := |cpa|;
    CopyHappens(a, b, procs0, c, vas, cpa, p, bytes[k]);
    CopyStepProcs(st0, procs0, a, b, c, vas, bytes, cpa, p);
    CopyStepBytes(st0, WithChild(procs0, c, vas, cpa), a, b, c, vas[k], bytes, cpa, p);
    TablesAreMore(a.at, b.at, c, vas[..k], vas[k]);
    TakeMore(vas, k);
  }
}
