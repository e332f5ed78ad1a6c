/** Whole runs of the virtual memory manager: any number of address spaces, created,
    mapped, unmapped and destroyed in any order, with data pages taken and written in
    between, refine one plain map per space. */
module VmRuns {
  import opened Paging
  import opened VmSpec
  import PmmLayout

  // ---- the specification: one map from pages to entries per space -----------------

  type Spaces = map<nat, map<nat, nat>>

  function WithPage(pages: map<nat, nat>, vpn: nat, e: nat): map<nat, nat> {
    pages[vpn := e]
  }

  function Apply(spec: Spaces, op: Op): Spaces {
    match op
    case Created(s) => spec[s := map[]]
    case Set(s, vpn, e) => if s in spec then spec[s := WithPage(spec[s], vpn, e)] else spec
    case Destroyed(s) => spec - {s}
    case Took(_) => spec
    case Wrote(_, _) => spec
  }

  function Replay(spec: Spaces, ops: seq<Op>): Spaces {
    if |ops| == 0 then spec else Apply(Replay(spec, ops[..|ops| - 1]), ops[|ops| - 1])
  }

  function Lookup(spec: Spaces, s: nat, vpn: nat): nat {
    if s in spec && vpn in spec[s] then spec[s][vpn] else 0
  }

  ghost predicate Refines(st: State, spec: Spaces) {
    && TreeOk(st.mem, st.avail, st.at)
    && (forall s :: Root(s) in st.at <==> s in spec)
    && (forall s, vpn :: Entry(st.mem, st.at, s, vpn) == Lookup(spec, s, vpn))
  }

  lemma StepRefines(a: State, b: State, op: Op, spec: Spaces)
    requires Refines(a, spec) && Step(a, b, op)
    ensures Refines(b, Apply(spec, op))
  {
    var spec' := Apply(spec, op);
    match op
    case Created(s) =>
    case Set(s, vpn, e) =>
    case Destroyed(s) =>
      forall t, vpn
        ensures Entry(b.mem, b.at, t, vpn) == Lookup(spec', t, vpn)
      {
        if t != s {
          DropSpaceEntry(a.mem, b.mem, a.avail, a.at, s, t, vpn);
        }
      }
    case Took(p) =>
    case Wrote(p, words) =>
      forall t, vpn
        ensures Entry(b.mem, b.at, t, vpn) == Entry(a.mem, a.at, t, vpn)
      {
        DataWriteEntry(a, b.mem, p, t, vpn);
      }
  }

  // Writing a data page changes no entry of any space.
  lemma DataWriteEntry(a: State, mem: Memory, p: nat, s: nat, vpn: nat)
    requires TreeOk(a.mem, a.avail, a.at) && DataPage(a, p)
    requires forall q :: q in a.mem && q != p ==> q in mem && mem[q] == a.mem[q]
    ensures Entry(mem, a.at, s, vpn) == Entry(a.mem, a.at, s, vpn)
  {
    var n := Node(s, 4, vpn / 512);
    if n in a.at {
      assert TableOk(a.mem, a.at, n);
      assert a.at[n] in Pages(a.at);
    }
  }

  ghost predicate Run(states: seq<State>, ops: seq<Op>) {
    && |states| == |ops| + 1
    && forall i :: 0 <= i < |ops| ==> Step(states[i], states[i + 1], ops[i])
  }

  lemma RunPrefix(states: seq<State>, ops: seq<Op>)
    requires Run(states, ops) && |ops| > 0
    ensures Run(states[..|ops|], ops[..|ops| - 1])
    ensures Step(states[..|ops|][|ops| - 1], states[|ops|], ops[|ops| - 1])
  {
    forall i | 0 <= i < |ops|
      ensures Step(states[i], states[i + 1], ops[i])
    {
    }
  }

  /** Whatever happened before, the tables hold exactly what a replay of the operations
      on plain maps holds. */
  lemma {:induction false} RunRefines(states: seq<State>, ops: seq<Op>, spec: Spaces)
    requires Run(states, ops) && Refines(states[0], spec)
    ensures Refines(states[|ops|], Replay(spec, ops))
    decreases |ops|
  {
    if |ops| > 0 {
      var k := |ops| - 1;
      RunPrefix(states, ops);
      RunRefines(states[..k + 1], ops[..k], spec);
      StepRefines(states[k], states[k + 1], ops[k], Replay(spec, ops[..k]));
    }
  }

  /** So the hardware walk of any page above the kernel half gives the entry installed
      last, and the kernel half stays the identity in every space. */
  lemma RunTranslates(states: seq<State>, ops: seq<Op>, spec: Spaces, s: nat, va: nat)
    requires Run(states, ops) && Refines(states[0], spec)
    requires s in Replay(spec, ops) && va < VA_END
    ensures Translate(states[|ops|].mem, s + 5, va)
         == if va < KERNEL_END then To(va, true, false)
            else LeafTranslation(Lookup(Replay(spec, ops), s, va / PG_SIZE), va)
  {
    RunRefines(states, ops, spec);
    var st := states[|ops|];
    if va < KERNEL_END {
      KernelHalf(st.mem, st.avail, st.at, s, va);
    } else {
      TranslateIsEntry(st.mem, st.avail, st.at, s, va);
    }
  }

  // The manager starts with the boot tables and no space: a run can begin there.
  lemma BootRefines(mem: Memory, avail: set<nat>)
    requires BootOk(mem) && FreeOk(mem, avail)
    ensures Refines(State(mem, avail, map[]), map[])
    ensures Balanced(State(mem, avail, map[]), {}, avail)
  {
    assert Pages(map[]) == {};
  }

  // ---- conservation ----------------------------------------------------------------

  // The data pages the run has taken; nothing in the kernel gives them back.
  function Held(held: set<nat>, ops: seq<Op>): set<nat> {
    if |ops| == 0 then held else
    var h := Held(held, ops[..|ops| - 1]);
    match ops[|ops| - 1]
    case Took(p) => h + {p}
    case _ => h
  }

  ghost predicate Balanced(st: State, held: set<nat>, all: set<nat>) {
    && st.avail !! Pages(st.at) && st.avail !! held && held !! Pages(st.at)
    && st.avail + Pages(st.at) + held == all
  }

  lemma PagesSplit(mem: Memory, avail: set<nat>, at: Tree, s: nat)
    requires TreeOk(mem, avail, at)
    ensures Pages(OtherSpaces(at, s)) == Pages(at) - SpacePages(at, s)
    ensures SpacePages(at, s) <= Pages(at)
  {
    var others := OtherSpaces(at, s);
    forall p | p in Pages(at) - SpacePages(at, s)
      ensures p in Pages(others)
    {
      var n :| n in at && at[n] == p;
      assert n in others && others[n] == p;
    }
    forall p | p in Pages(others)
      ensures p in Pages(at) - SpacePages(at, s)
    {
      var n :| n in others && others[n] == p;
      NotOfSpace(mem, avail, at, s, n);
      assert at[n] == p;
    }
    forall p | p in SpacePages(at, s)
      ensures p in Pages(at)
    {
    }
  }

  lemma TablesInUse(st: State)
    requires TreeOk(st.mem, st.avail, st.at)
    ensures st.avail !! Pages(st.at)
  {
    forall p | p in Pages(st.at)
      ensures p !in st.avail
    {
      var n :| n in st.at && st.at[n] == p;
      assert NodeOk(st.at, n);
    }
  }

  lemma StepBalanced(a: State, b: State, op: Op, held: set<nat>, all: set<nat>)
    requires TreeOk(a.mem, a.avail, a.at) && Step(a, b, op) && Balanced(a, held, all)
    ensures Balanced(b, match op case Took(p) => held + {p} case _ => held, all)
  {
    TablesInUse(b);
    match op
    case Destroyed(s) => PagesSplit(a.mem, a.avail, a.at, s);
    case _ =>
  }

  /** No page is lost or handed out twice: free pages, tables and held data pages always
      partition the pages the run began with. */
  lemma {:induction false} RunBalanced(states: seq<State>, ops: seq<Op>, held: set<nat>, all: set<nat>)
    requires Run(states, ops) && TreeOk(states[0].mem, states[0].avail, states[0].at)
    requires Balanced(states[0], held, all)
    ensures TreeOk(states[|ops|].mem, states[|ops|].avail, states[|ops|].at)
    ensures Balanced(states[|ops|], Held(held, ops), all)
    decreases |ops|
  {
    if |ops| > 0 {
      var k := |ops| - 1;
      RunPrefix(states, ops);
      RunBalanced(states[..k + 1], ops[..k], held, all);
      StepBalanced(states[k], states[k + 1], ops[k], Held(held, ops[..k]), all);
    }
  }

  // Tables and free pages stay blocks of the allocator's page class.
  lemma {:induction false} RunFromHeap(states: seq<State>, ops: seq<Op>, h: PmmLayout.Heap)
    requires Run(states, ops) && TreeOk(states[0].mem, states[0].avail, states[0].at) && FromHeap(h, states[0])
    ensures FromHeap(h, states[|ops|])
    ensures TreeOk(states[|ops|].mem, states[|ops|].avail, states[|ops|].at)
    decreases |ops|
  {
    if |ops| > 0 {
      var k := |ops| - 1;
      RunPrefix(states, ops);
      RunFromHeap(states[..k + 1], ops[..k], h);
      StepFromHeap(states[k], states[k + 1], ops[k], h);
    }
  }

  lemma StepFromHeap(a: State, b: State, op: Op, h: PmmLayout.Heap)
    requires TreeOk(a.mem, a.avail, a.at) && Step(a, b, op) && FromHeap(h, a)
    ensures FromHeap(h, b)
  {
    match op
    case Destroyed(s) => PagesSplit(a.mem, a.avail, a.at, s);
    case _ =>
  }

  /** When every space is destroyed again, every table page is back in the allocator, and
      only the data pages are missing. */
  lemma AllReturned(states: seq<State>, ops: seq<Op>, spec: Spaces, held: set<nat>)
    requires Run(states, ops) && Refines(states[0], spec)
    requires Balanced(states[0], held, states[0].avail + held)
    requires Replay(spec, ops) == map[]
    ensures states[|ops|].at == map[]
    ensures states[|ops|].avail + Held(held, ops) == states[0].avail + held
  {
    RunRefines(states, ops, spec);
    RunBalanced(states, ops, held, states[0].avail + held);
    var st := states[|ops|];
    forall n | n in st.at
      ensures false
    {
      RootOfNode(st.at, n);
    }
    assert Pages(map[]) == {};
  }
}
