/** User processes: page faults that grow a process, fork, and teardown, which compose the
    scheduler's list, the page allocator and the page tables. */
module Uproc {
  import opened Bits
  import opened Paging
  import opened VmSpec
  import opened Vme
  import opened VmRuns
  import opened ProcMem
  import opened Sched
  import PmmLayout

  const MMAP_READ: nat := 1
  const PROT_READ: nat := 2
  const PROT_WRITE: nat := 4

  function RootOf(sp: AddrSpace): nat
    reads sp
  {
    if sp.ptr >= 5 then sp.ptr - 5 else 0
  }

  function VaList(t: Task): seq<nat>
    reads t`np, t`va
  {
    if t.np <= |t.va| then t.va[..t.np] else []
  }

  function PaList(t: Task): seq<nat>
    reads t`np, t`pa
  {
    if t.np <= |t.pa| then t.pa[..t.np] else []
  }

  ghost predicate Recorded(t: Task)
    reads t`np, t`va, t`pa
  {
    && |t.va| == |t.pa| == MAX_PAGES && t.np <= MAX_PAGES
    && forall i :: 0 <= i < MAX_PAGES ==> t.va[i] < TWO64
  }

  // The fields that creating the space has set.
  ghost predicate Prepared(sp: AddrSpace)
    reads sp
  {
    sp.ptr >= 5 && sp.pgsize == PG_SIZE && sp.start == USER_START && sp.end == USER_END
  }

  // The next pid, and the tasks by their pids.
  datatype Pids = Pids(next: nat, table: map<nat, Task>)

  function Register(p: Pids, t: Task): Pids { Pids(p.next + 1, p.table[p.next := t]) }

  function RegisterAll(p: Pids, ts: seq<Task>): Pids {
    if |ts| == 0 then p else Register(RegisterAll(p, ts[..|ts| - 1]), ts[|ts| - 1])
  }

  // Double pages that are free, pids, and tasks of the CPU.
  datatype Counts = Counts(doubles: nat, pids: Pids, tasks: nat)

  // One task more.
  function OneMore(c: Counts, t: Task): Counts
    requires c.doubles > 0
  {
    Counts(c.doubles - 1, Register(c.pids, t), c.tasks + 1)
  }

  // Every task is found under its own pid, and the next pid is free.
  predicate PidsOk(p: Pids) {
    forall k :: k in p.table ==> k < p.next && p.table[k].pid == k
  }

  // Each task has the pid that is next when it is registered.
  predicate InTurn(p: Pids, ts: seq<Task>) {
    forall i :: 0 <= i < |ts| ==> ts[i].pid == p.next + i
  }

  /** Over any run of creates and forks every task gets a pid of its own, the next one, under
      which the table finds it from then on; the tasks there were stay where they are. */
  lemma {:induction false} RunRegisters(p: Pids, ts: seq<Task>)
    requires PidsOk(p) && InTurn(p, ts)
    ensures var r := RegisterAll(p, ts);
            && r.next == p.next + |ts| && PidsOk(r)
            && (forall i :: 0 <= i < |ts| ==> ts[i].pid in r.table && r.table[ts[i].pid] == ts[i])
            && (forall k :: k in p.table ==> k in r.table && r.table[k] == p.table[k])
  {
    if |ts| > 0 {
      var less := ts[..|ts| - 1];
      RunRegisters(p, less);
      Registered(RegisterAll(p, less), ts[|ts| - 1]);
      assert forall i :: 0 <= i < |less| ==> ts[i] == less[i];
    }
  }

  lemma Registered(p: Pids, t: Task)
    requires PidsOk(p) && t.pid == p.next
    ensures PidsOk(Register(p, t)) && forall k :: k in p.table ==> Register(p, t).table[k] == p.table[k]
  {
  }

  // So different tasks have different pids.
  lemma PidsDiffer(p: Pids, t: Task, u: Task)
    requires PidsOk(p) && t in p.table.Values && u in p.table.Values && t != u
    ensures t.pid != u.pid && t.pid in p.table && p.table[t.pid] == t
  {
  }

  // How a page fault ends, with so many free pages.
  function FaultResult(free: nat, at: Tree, s: nat, va: seq<nat>, v: nat): Outcome {
    if free == 0 then Panic(NoMemory)
    else if |va| == MAX_PAGES then Panic(TooManyPages)
    else if !InUserArea(v) then Panic(BadAddress)
    else if free - 1 < Missing(at, s, v, PT_LEVELS) then Panic(NoMemory)
    else if v in va then Panic(AlreadyMapped)
    else Done
  }

  // The pages a fork takes: the root of the child, its frames, and its tables.
  function ForkNeeds(t: Task): nat
    reads t`np, t`va
  {
    1 + t.np + TablesFor(VaList(t))
  }

  // Everything in use has kept its bytes.
  ghost predicate DataKept(a: State, b: State) {
    forall p :: DataPage(a, p) ==> DataPage(b, p) && b.mem[p] == a.mem[p]
  }

  class Kernel {
    const mmu: Mmu
    const cpu: Cpu
    var doubles: nat               // the double pages the allocator can still hand out
    var pidrec: nat
    var pidtables: map<nat, Task>
    ghost var procs: Procs         // what the processes of all tasks have recorded

    constructor (mmu: Mmu, cpu: Cpu, doubles: nat)
      requires mmu.Valid()
      ensures this.mmu == mmu && this.cpu == cpu && this.doubles == doubles && pidrec == 1 && procs == map[] && MemOk()
    {
      this.mmu, this.cpu, this.doubles := mmu, cpu, doubles;
      pidrec, pidtables, procs := 1, map[], map[];
    }

    function PidState(): Pids
      reads this`pidrec, this`pidtables
    {
      Pids(pidrec, pidtables)
    }

    function Counters(): Counts
      reads this`doubles, this`pidrec, this`pidtables, cpu`numTask
    {
      Counts(doubles, PidState(), cpu.numTask)
    }

    ghost predicate MemOk()
      reads this`procs, mmu
    {
      ProcsOk(mmu.Now(), procs)
    }

    // The task's process is in the table as the task has recorded it.
    ghost predicate Process(t: Task)
      reads this`procs, t`np, t`va, t`pa, t.space, mmu
    {
      && Recorded(t) && mmu.Live(t.space) && RootOf(t.space) in procs
      && procs[RootOf(t.space)] == Record(VaList(t), PaList(t))
    }

    // Records a page in the task and maps it. With 64 pages recorded the original writes
    // past its arrays before its assertion stops the machine.
    method PgMap(task: Task, va: nat, pa: nat, prot: nat) returns (r: Outcome)
      requires mmu.Valid() && mmu.Live(task.space) && Recorded(task)
      requires va < TWO64 && pa < TWO64
      modifies mmu, task`va, task`pa, task`np
      ensures mmu.Valid() && mmu.Live(task.space) && Recorded(task)
      ensures r == if old(task.np) == MAX_PAGES then Panic(TooManyPages)
                   else MapResult(|old(mmu.avail)|, old(mmu.at),
                                  Entry(old(mmu.mem), old(mmu.at), RootOf(task.space), va / PG_SIZE),
                                  RootOf(task.space), va, pa, prot)
      ensures r == Panic(NoMemory) ==> mmu.avail == {}
      ensures r == Done ==>
                && One(old(mmu.Now()), mmu.Now(), Set(RootOf(task.space), va / PG_SIZE, Installed(pa, prot)))
                && VaList(task) == old(VaList(task)) + [va] && PaList(task) == old(PaList(task)) + [pa]
                && PathAdded(old(mmu.at), mmu.at, RootOf(task.space), va, PT_LEVELS)
                && |old(mmu.avail)| == |mmu.avail| + Missing(old(mmu.at), RootOf(task.space), va, PT_LEVELS)
    {
      var pages := task.np;
      if pages == MAX_PAGES {
        return Panic(TooManyPages);
      }
      task.va := task.va[pages := va];
      task.pa := task.pa[pages := pa];
      task.np := task.np + 1;
      r := mmu.Map(task.space, va, pa, prot);
    }

    // A page fault gives the faulting page a fresh frame.
    method PageFault(task: Task, ref: nat) returns (r: Outcome, ghost frame: nat)
      requires MemOk() && Process(task) && ref < TWO64
      modifies mmu, this`procs, task`va, task`pa, task`np
      ensures r == FaultResult(|old(mmu.avail)|, old(mmu.at), RootOf(task.space), old(VaList(task)), FrameOf(ref))
      ensures r == Panic(NoMemory) ==> mmu.avail == {}
      ensures r == Done ==>
                && MemOk() && Process(task) && frame in old(mmu.avail)
                && VaList(task) == old(VaList(task)) + [FrameOf(ref)] && PaList(task) == old(PaList(task)) + [frame]
                && Happens(old(mmu.Now()), mmu.Now(), old(procs), Grow(RootOf(task.space), FrameOf(ref), frame))
                && procs == AfterEvent(old(procs), Grow(RootOf(task.space), FrameOf(ref), frame))
                && DataKept(old(mmu.Now()), mmu.Now())
      ensures r == Done ==> Serves(old(mmu.mem), mmu.mem, RootOf(task.space), ref, frame)
    {
      ghost var st0, s, pages := mmu.Now(), RootOf(task.space), procs[RootOf(task.space)];
      var va := FrameOf(ref);
      assert Owns(st0, s, pages.va, pages.pa) && Paged(pages.va);
      FaultOutcome(st0, s, pages.va, pages.pa, va);
      r, frame := FaultIn(task, va);
      if r == Done {
        ghost var procs0 := procs;
        procs := Grown(st0, mmu.Now(), procs, s, va, frame);
        Served(st0, mmu.Now(), procs0, procs, s, ref, frame);
      }
    }

    // The frame and the mapping of a page fault.
    method FaultIn(task: Task, va: nat) returns (r: Outcome, frame: nat)
      requires mmu.Valid() && mmu.Live(task.space) && Recorded(task) && va % PG_SIZE == 0 && va < TWO64
      modifies mmu, task`va, task`pa, task`np
      ensures r == if old(mmu.avail) == {} then Panic(NoMemory)
                   else if old(task.np) == MAX_PAGES then Panic(TooManyPages)
                   else MapResult(|old(mmu.avail)| - 1, old(mmu.at),
                                  Entry(old(mmu.mem), old(mmu.at), RootOf(task.space), va / PG_SIZE),
                                  RootOf(task.space), va, 0, 3)
      ensures r == Panic(NoMemory) ==> mmu.avail == {}
      ensures r == Done ==>
                && mmu.Valid() && mmu.Live(task.space) && Recorded(task) && frame in old(mmu.avail)
                && VaList(task) == old(VaList(task)) + [va] && PaList(task) == old(PaList(task)) + [frame]
                && Two(old(mmu.Now()), mmu.Now(), Took(frame), Set(RootOf(task.space), va / PG_SIZE, frame + 7))
    {
      ghost var st0, s := mmu.Now(), RootOf(task.space);
      frame := mmu.PgAlloc();
      if frame == 0 {
        return Panic(NoMemory), frame;
      }
      ghost var st1 := mmu.Now();
      TookIsFresh(st0, st1, frame);
      assert IsFrame(frame);
      FlagValues();
      InstalledWritable(frame);
      r := PgMap(task, va, frame, Or(MMAP_READ, MMAP_WRITE));
      if r == Done {
        ThenSet(st0, st1, mmu.Now(), Took(frame), s, va / PG_SIZE, Installed(frame, 3), frame + 7);
      }
    }

    lemma FlagValues()
      ensures Or(MMAP_READ, MMAP_WRITE) == 3 && Or(PROT_READ, PROT_WRITE) == 6
    {
    }

    // A page fault ends as its mapping does.
    lemma FaultOutcome(st: State, s: nat, va: seq<nat>, pas: seq<nat>, v: nat)
      requires Owns(st, s, va, pas) && Paged(va) && v % PG_SIZE == 0
      ensures FaultResult(|st.avail|, st.at, s, va, v) ==
              if st.avail == {} then Panic(NoMemory)
              else if |va| == MAX_PAGES then Panic(TooManyPages)
              else MapResult(|st.avail| - 1, st.at, Entry(st.mem, st.at, s, v / PG_SIZE), s, v, 0, 3)
    {
      ListedMeaning(va, pas, v);
      assert Entry(st.mem, st.at, s, v / PG_SIZE) == Listed(va, pas, v / PG_SIZE);
    }

    // The table after one page more.
    lemma Grown(a: State, b: State, procs: Procs, s: nat, va: nat, p: nat) returns (next: Procs)
      requires ProcsOk(a, procs) && Two(a, b, Took(p), Set(s, va / PG_SIZE, p + 7))
      requires s in procs && Recordable(procs[s], va)
      ensures next == AfterEvent(procs, Grow(s, va, p)) && ProcsOk(b, next)
      ensures Happens(a, b, procs, Grow(s, va, p)) && DataKept(a, b)
    {
      next := AfterEvent(procs, Grow(s, va, p));
      EventKeepsProcs(a, b, procs, Grow(s, va, p));
      forall q | DataPage(a, q)
        ensures DataPage(b, q) && b.mem[q] == a.mem[q]
      {
        var m :| Step(a, m, Took(p)) && Step(m, b, Set(s, va / PG_SIZE, p + 7));
        DataPageKept(a, m, Took(p), q);
        DataPageKept(m, b, Set(s, va / PG_SIZE, p + 7), q);
      }
    }

    lemma Served(a: State, b: State, procs: Procs, next: Procs, s: nat, ref: nat, frame: nat)
      requires ProcsOk(a, procs) && ProcsOk(b, next) && s in procs && Recordable(procs[s], FrameOf(ref))
      requires next == AfterEvent(procs, Grow(s, FrameOf(ref), frame))
      ensures Serves(a.mem, b.mem, s, ref, frame)
    {
      var pages := procs[s];
      assert next[s] == With(pages, FrameOf(ref), frame);
      FaultServed(a, b, s, pages.va, pages.pa, ref, frame);
    }

    // ---- creation ------------------------------------------------------------------------------

    // The memory of a task is a double page.
    method TaskAlloc(user: Context) returns (ok: bool, t: Task)
      modifies this`doubles
      ensures fresh(t) && fresh(t.space) && Newborn(t, user) && t.pid == pidrec
      ensures ok == (old(doubles) > 0) && doubles == if ok then old(doubles) - 1 else 0
    {
      t := new Task(user, pidrec);
      ok := doubles > 0;
      if ok {
        doubles := doubles - 1;
      }
    }

    // The fields of a new process: an empty space, the first context, a pid.
    method NewProcess(user: Context) returns (r: Outcome, t: Task)
      requires mmu.Valid()
      modifies this`doubles, this`pidrec, this`pidtables, mmu
      ensures fresh(t) && fresh(t.space)
      ensures r == if old(doubles) == 0 || old(mmu.avail) == {} then Panic(NoMemory) else Done
      ensures r == Panic(NoMemory) ==> old(doubles) == 0 || mmu.avail == {}
      ensures r == Done ==> doubles == old(doubles) - 1
      ensures r == Done ==>
                && Step(old(mmu.Now()), mmu.Now(), Created(RootOf(t.space)))
                && mmu.Live(t.space) && RootOf(t.space) in old(mmu.avail) && |mmu.avail| == |old(mmu.avail)| - 1
                && Newborn(t, user.(cr3 := t.space.ptr)) && t.pid == old(pidrec)
                && PidState() == Register(old(PidState()), t)
    {
      var ok;
      ok, t := TaskAlloc(user);
      if !ok {
        return Panic(NoMemory), t;
      }
      r := mmu.Protect(t.space);
      if r == Done {
        FillProcess(t, user);
      }
    }

    method FillProcess(t: Task, user: Context)
      requires Newborn(t, user) && t.pid == pidrec
      modifies this`pidrec, this`pidtables, t`context
      ensures Newborn(t, user.(cr3 := t.space.ptr)) && t.pid == old(pidrec)
      ensures pidrec == old(pidrec) + 1 && pidtables == old(pidtables)[old(pidrec) := t]
    {
      t.context := t.context[0 := user.(cr3 := t.space.ptr)];
      pidtables := pidtables[pidrec := t];
      pidrec := pidrec + 1;
    }

    // A process that was just created, in a memory and a table that were mem0 and procs0.
    ghost predicate Appeared(t: Task, user: Context, mem0: State, procs0: Procs)
      reads this`procs, mmu, t`nc, t`context, t`np, t`va, t`pa, t`status, t`handlers, t.space
      reads t`parent, t`bros, t`children, t`nchildren
    {
      exists c :: c == RootOf(t.space)
        && One(mem0, mmu.Now(), Created(c)) && mmu.Live(t.space) && |mmu.avail| == |mem0.avail| - 1
        && Newborn(t, user.(cr3 := t.space.ptr))
        && c !in procs0 && procs == procs0[c := Record([], [])]
        && MemOk() && Process(t) && DataKept(mem0, mmu.Now())
    }

    // ... and its place among the processes.
    method NewRecord(user: Context) returns (r: Outcome, t: Task)
      requires MemOk()
      modifies this, mmu
      ensures fresh(t) && fresh(t.space)
      ensures r == if old(doubles) == 0 || old(mmu.avail) == {} then Panic(NoMemory) else Done
      ensures r == Panic(NoMemory) ==> old(doubles) == 0 || mmu.avail == {}
      ensures r == Done ==> doubles == old(doubles) - 1 && PidState() == Register(old(PidState()), t)
      ensures cpu.numTask == old(cpu.numTask)
      ensures r == Done ==> Appeared(t, user, old(mmu.Now()), old(procs)) && t.pid == old(pidrec)
    {
      ghost var st0 := mmu.Now();
      r, t := NewProcess(user);
      if r == Done {
        procs := Born(st0, mmu.Now(), procs, RootOf(t.space));
      }
    }

    // The CPU's list of tasks, with a new one that is ready to start.
    ghost predicate Joined(s: seq<Task>, t: Task, start: Context, pid: nat)
      reads cpu, s`next, s`prev, s`context, s`nc, s`handlers, t`nc, t`context, t`status, t`handlers
      reads t`parent, t`bros, t`children, t`nchildren
    {
      exists now :: now in s && now == cpu.curTask && s == cpu.ring && cpu.Valid() && Started(t, start) && t.pid == pid
    }

    // s is the CPU's list of tasks.
    ghost predicate InCpu(s: seq<Task>)
      reads cpu, s`next, s`prev, s`context, s`nc, s`handlers
    {
      exists now :: now in s && now == cpu.currents && s == cpu.ring && cpu.Valid()
    }

    method Join(t: Task, ghost user: Context, ghost mem0: State, ghost procs0: Procs)
      requires Appeared(t, user, mem0, procs0) && InCpu(cpu.ring) && t !in cpu.ring
      modifies cpu`ring, cpu`numTask, t`next, t`prev, cpu.currents`next, cpu.currents.next`prev
      ensures Appeared(t, user, mem0, procs0)
      ensures Counters() == old(Counters()).(tasks := old(cpu.numTask) + 1)
      ensures Joined([old(cpu.ring)[0], t] + old(cpu.ring)[1..], t, user.(cr3 := t.space.ptr), t.pid)
    {
      assert Newborn(t, user.(cr3 := t.space.ptr));
      cpu.Insert(t);
    }

    // The list is as before, without the new process.
    method NewOutside(user: Context) returns (r: Outcome, t: Task)
      requires MemOk() && InCpu(cpu.ring)
      modifies this, mmu
      ensures fresh(t) && fresh(t.space) && InCpu(cpu.ring) && t !in cpu.ring
      ensures r == if old(doubles) == 0 || old(mmu.avail) == {} then Panic(NoMemory) else Done
      ensures r == Panic(NoMemory) ==> old(doubles) == 0 || mmu.avail == {}
      ensures r == Done ==> Counters() == OneMore(old(Counters()), t).(tasks := old(cpu.numTask))
      ensures r == Done ==> Appeared(t, user, old(mmu.Now()), old(procs)) && t.pid == old(pidrec)
    {
      r, t := NewRecord(user);
    }

    // ... which joins the list right behind the current task.
    method UCreate(user: Context) returns (r: Outcome, t: Task)
      requires MemOk() && InCpu(cpu.ring)
      modifies this, mmu, cpu`ring, cpu`numTask, cpu.currents`next, cpu.currents.next`prev
      ensures fresh(t) && fresh(t.space)
      ensures r == if old(doubles) == 0 || old(mmu.avail) == {} then Panic(NoMemory) else Done
      ensures r == Panic(NoMemory) ==> old(doubles) == 0 || mmu.avail == {}
      ensures r == Done ==> Counters() == OneMore(old(Counters()), t)
      ensures r == Done ==> Appeared(t, user, old(mmu.Now()), old(procs))
      ensures r == Done ==>
        Joined([old(cpu.ring)[0], t] + old(cpu.ring)[1..], t, user.(cr3 := t.space.ptr), old(pidrec))
    {
      ghost var mem0, procs0 := mmu.Now(), procs;
      r, t := NewOutside(user);
      if r == Done {
        Join(t, user, mem0, procs0);
      }
    }

    // The table with one process more, that has no pages.
    lemma Born(a: State, b: State, procs: Procs, c: nat) returns (next: Procs)
      requires ProcsOk(a, procs) && Step(a, b, Created(c))
      ensures c !in procs && next == procs[c := Record([], [])] && ProcsOk(b, next) && DataKept(a, b)
    {
      next := procs[c := Record([], [])];
      CreateKeeps(a, b, procs, c);
      forall p | DataPage(a, p)
        ensures DataPage(b, p) && b.mem[p] == a.mem[p]
      {
        DataPageKept(a, b, Created(c), p);
      }
    }

    // ---- fork ------------------------------------------------------------------------------------

    // k pages are copied and recorded in the child.
    ghost predicate Copying(nproc: Task, st0: State, procs0: Procs, va: seq<nat>, bytes: seq<seq<nat>>, k: nat)
      reads nproc`np, nproc`va, nproc`pa, nproc.space, mmu
    {
      exists c, cpa :: c == RootOf(nproc.space) && cpa == PaList(nproc)
        && mmu.Live(nproc.space) && Recorded(nproc) && k <= |va| && nproc.np == k && VaList(nproc) == va[..k]
        && |cpa| == k && |va| == |bytes| && CopiedUpTo(mmu.Now(), st0, procs0, c, va, bytes, cpa)
    }

    // A new frame with the bytes of another.
    method CopyFrame(pa: nat) returns (npa: nat)
      requires mmu.Valid() && DataPage(mmu.Now(), pa)
      modifies mmu`mem, mmu`avail
      ensures npa == 0 <==> old(mmu.avail) == {}
      ensures npa == 0 ==> mmu.avail == {}
      ensures npa != 0 ==>
                && npa % PG_SIZE == 0 && npa < TWO64 && |mmu.avail| == |old(mmu.avail)| - 1
                && mmu.Valid() && Two(old(mmu.Now()), mmu.Now(), Took(npa), Wrote(npa, old(mmu.mem)[pa]))
    {
      ghost var st0 := mmu.Now();
      npa := mmu.PgAlloc();
      if npa == 0 {
        return;
      }
      ghost var st1 := mmu.Now();
      TookIsFresh(st0, st1, npa);
      assert IsFrame(npa);
      mmu.StorePage(npa, mmu.mem[pa]);
      assert Step(st0, st1, Took(npa)) && Step(st1, mmu.Now(), Wrote(npa, st0.mem[pa]));
    }

    // One turn of the copying loop: a frame, the bytes, the mapping.
    method CopyPage(nproc: Task, va: nat, pa: nat) returns (r: Outcome, npa: nat)
      requires mmu.Valid() && mmu.Live(nproc.space) && Recorded(nproc) && nproc.np < MAX_PAGES
      requires InUserArea(va) && va % PG_SIZE == 0 && DataPage(mmu.Now(), pa)
      requires Entry(mmu.mem, mmu.at, RootOf(nproc.space), va / PG_SIZE) == 0
      modifies mmu, nproc`va, nproc`pa, nproc`np
      ensures r == if |old(mmu.avail)| < 1 + Missing(old(mmu.at), RootOf(nproc.space), va, PT_LEVELS)
                   then Panic(NoMemory) else Done
      ensures r == Panic(NoMemory) ==> mmu.avail == {}
      ensures r == Done ==>
                && mmu.Valid() && mmu.Live(nproc.space) && Recorded(nproc)
                && VaList(nproc) == old(VaList(nproc)) + [va] && PaList(nproc) == old(PaList(nproc)) + [npa]
                && Three(old(mmu.Now()), mmu.Now(), Took(npa), Wrote(npa, old(mmu.mem)[pa]),
                         Set(RootOf(nproc.space), va / PG_SIZE, npa + 7))
                && PathAdded(old(mmu.at), mmu.at, RootOf(nproc.space), va, PT_LEVELS)
                && |old(mmu.avail)| == |mmu.avail| + 1 + Missing(old(mmu.at), RootOf(nproc.space), va, PT_LEVELS)
    {
      ghost var a, s := mmu.Now(), RootOf(nproc.space);
      npa := CopyFrame(pa);
      if npa == 0 {
        return Panic(NoMemory), 0;
      }
      ghost var m := mmu.Now();
      FilledKeeps(a, m, npa, a.mem[pa], s, va / PG_SIZE);
      FlagValues();
      InstalledWritable(npa);
      r := PgMap(nproc, va, npa, Or(PROT_READ, PROT_WRITE));
      if r == Done {
        ThenSetToo(a, m, mmu.Now(), Took(npa), Wrote(npa, a.mem[pa]), s, va / PG_SIZE, Installed(npa, 6), npa + 7);
      }
    }

    lemma InstalledWritable(p: nat)
      ensures Installed(p, 3) == Installed(p, 6) == p + 7
    {
    }

    // A parent with so many bytes behind its pages, and a child that has none yet.
    ghost predicate CopyReady(task: Task, nproc: Task, st0: State, procs0: Procs, bytes: seq<seq<nat>>)
      reads task`np, task`va, task`pa, nproc`np, nproc`va, nproc`pa, nproc.space, mmu
    {
      exists va :: va == VaList(task) && task.np == |bytes| && Recorded(task) && Paged(va)
        && (forall i :: 0 <= i < task.np ==> DataPage(st0, task.pa[i]) && st0.mem[task.pa[i]] == bytes[i])
        && Copying(nproc, st0, procs0, va, bytes, 0)
    }

    // All recorded pages of the parent, one after the other.
    method CopyPages(task: Task, nproc: Task, ghost st0: State, ghost procs0: Procs, ghost bytes: seq<seq<nat>>)
      returns (r: Outcome)
      requires CopyReady(task, nproc, st0, procs0, bytes) && task != nproc
      modifies mmu, nproc`va, nproc`pa, nproc`np
      ensures r == if |old(mmu.avail)| < old(task.np + TablesFor(VaList(task))) then Panic(NoMemory) else Done
      ensures r == Panic(NoMemory) ==> mmu.avail == {}
      ensures r == Done ==> Copying(nproc, st0, procs0, old(VaList(task)), bytes, old(task.np))
    {
      ghost var vas := VaList(task);
      assert vas[..0] == [];
      var i := 0;
      while i < task.np
        invariant i <= |vas| == task.np && Copying(nproc, st0, procs0, vas, bytes, i)
        invariant |old(mmu.avail)| == |mmu.avail| + i + TablesFor(vas[..i])
        modifies mmu, nproc`va, nproc`pa, nproc`np
      {
        TablesNext(vas, i);
        r := CopyTurn(nproc, task.va[i], task.pa[i], st0, procs0, vas, bytes, i);
        if r != Done {
          return;
        }
        i := i + 1;
      }
      assert vas[..i] == vas;
      r := Done;
    }

    method CopyTurn(nproc: Task, va: nat, pa: nat, ghost st0: State, ghost procs0: Procs, ghost vas: seq<nat>,
                    ghost bytes: seq<seq<nat>>, ghost k: nat)
      returns (r: Outcome)
      requires Copying(nproc, st0, procs0, vas, bytes, k) && k < |vas| <= MAX_PAGES && Paged(vas)
      requires va == vas[k] && DataPage(st0, pa) && st0.mem[pa] == bytes[k]
      modifies mmu, nproc`va, nproc`pa, nproc`np
      ensures r == if |old(mmu.avail)| < 1 + NewTables(vas[..k], va, PT_LEVELS) then Panic(NoMemory) else Done
      ensures r == Panic(NoMemory) ==> mmu.avail == {}
      ensures r == Done ==> Copying(nproc, st0, procs0, vas, bytes, k + 1)
      ensures r == Done ==> |old(mmu.avail)| == |mmu.avail| + 1 + NewTables(vas[..k], va, PT_LEVELS)
    {
      ghost var a, c, cpa := mmu.Now(), RootOf(nproc.space), PaList(nproc);
      assert DataPage(a, pa) && a.mem[pa] == bytes[k];
      CopyFits(a, st0, procs0, c, vas, bytes, cpa);
      var npa;
      r, npa := CopyPage(nproc, va, pa);
      if r == Done {
        CopyDone(a, mmu.Now(), st0, procs0, c, vas, bytes, cpa, npa);
        TakeMore(vas, k);
      }
    }

    // The child continues from the parent's last saved context, in its own space and on
    // its own kernel stack, with 0 as the result of the call.
    method ForkContexts(task: Task, nproc: Task)
      requires task != nproc && 1 <= task.nc <= |task.context| == MAX_CONTEXTS
      requires |nproc.context| == MAX_CONTEXTS
      modifies nproc`context
      ensures |nproc.context| == MAX_CONTEXTS
      ensures nproc.context[0]
           == task.context[task.nc - 1].
                (rsp0 := old(nproc.context)[0].rsp0, cr3 := old(nproc.context)[0].cr3, gprx := 0)
    {
      var id := task.nc - 1;
      var rsp0 := nproc.context[0].rsp0;
      var cr3 := nproc.context[0].cr3;
      nproc.context := nproc.context[0 := task.context[id]];
      nproc.context := nproc.context[0 := nproc.context[0].(rsp0 := rsp0)];
      nproc.context := nproc.context[0 := nproc.context[0].(cr3 := cr3)];
      nproc.context := nproc.context[0 := nproc.context[0].(gprx := 0)];
    }

    // The child becomes the first of the parent's children, the parent learns its pid.
    method LinkFamily(task: Task, nproc: Task)
      requires task != nproc && 1 <= task.nc <= |task.context| == MAX_CONTEXTS
      requires nproc.nc == 1 && |nproc.context| == MAX_CONTEXTS
      modifies nproc`parent, nproc`bros, nproc`context, task`children, task`nchildren, task`context
      ensures nproc.parent == task && nproc.bros == old(task.children)
      ensures task.children == nproc && task.nchildren == old(task.nchildren) + 1
      ensures |task.context| == |nproc.context| == MAX_CONTEXTS
      ensures task.context == old(task.context)[task.nc - 1 := old(task.context)[task.nc - 1].(gprx := nproc.pid)]
      ensures nproc.context == old(nproc.context)[0 := old(nproc.context)[0].(gprx := 0)]
    {
      nproc.parent := task;
      nproc.bros := task.children;
      task.children := nproc;
      task.nchildren := task.nchildren + 1;
      task.context := task.context[task.nc - 1 := task.context[task.nc - 1].(gprx := nproc.pid)];
      nproc.context := nproc.context[nproc.nc - 1 := nproc.context[nproc.nc - 1].(gprx := 0)];
    }

    // The bookkeeping half of fork.
    method FinishFork(task: Task, nproc: Task, ghost user: Context, ghost pid: nat)
      requires cpu.Valid() && task in cpu.ring && nproc in cpu.ring && task != nproc
      requires 1 <= task.nc && Started(nproc, user.(cr3 := nproc.space.ptr)) && nproc.pid == pid
      modifies nproc`parent, nproc`bros, nproc`context, task`children, task`nchildren, task`context
      ensures cpu.Valid()
      ensures Returned(task, nproc, user, pid, old(task.context), old(task.children), old(task.nchildren))
    {
      assert StackOk(task, task == cpu.curTask) && StackOk(nproc, nproc == cpu.curTask);
      ForkContexts(task, nproc);
      LinkFamily(task, nproc);
      forall t | t in cpu.ring
        ensures StackOk(t, t == cpu.curTask)
      {
        assert old(StackOk(t, t == cpu.curTask));
      }
    }

    // The task's process had these pages in the memory mem0 and the table procs0.
    ghost predicate Parent(task: Task, mem0: State, procs0: Procs)
      reads task`np, task`va, task`pa, task.space
    {
      exists s :: s == RootOf(task.space) && Prepared(task.space)
        && ProcsOk(mem0, procs0) && Recorded(task) && s in procs0 && procs0[s] == Record(VaList(task), PaList(task))
    }

    // A child without pages is ready to be copied to.
    lemma StartCopying(nproc: Task, user: Context, st0: State, procs0: Procs, va: seq<nat>, bytes: seq<seq<nat>>)
      requires ProcsOk(st0, procs0) && Appeared(nproc, user, st0, procs0) && |va| == |bytes|
      ensures Copying(nproc, st0, procs0, va, bytes, 0) && Newborn(nproc, user.(cr3 := nproc.space.ptr))
      ensures RootOf(nproc.space) !in procs0
      ensures |mmu.avail| == |st0.avail| - 1
    {
      var c :| c == RootOf(nproc.space) && One(st0, mmu.Now(), Created(c));
      assert PaList(nproc) == [] && VaList(nproc) == [] == va[..0];
      CopiedStart(st0, procs0, mmu.Now(), c, va, bytes);
    }

    lemma ForkFrames(task: Task, st0: State, procs0: Procs)
      requires Parent(task, st0, procs0)
      ensures Paged(VaList(task)) && |PaList(task)| == |VaList(task)| == task.np
      ensures forall i :: 0 <= i < task.np ==>
        DataPage(st0, task.pa[i]) && st0.mem[task.pa[i]] == Bytes(st0, PaList(task))[i]
    {
      var s := RootOf(task.space);
      assert Owns(st0, s, procs0[s].va, procs0[s].pa);
      forall i | 0 <= i < task.np
        ensures DataPage(st0, task.pa[i]) && st0.mem[task.pa[i]] == Bytes(st0, PaList(task))[i]
      {
        assert DataPage(st0, PaList(task)[i]);
      }
    }

    // What fork has made of the memory mem0 and the table procs0: a child with a copy of
    // the parent's memory, reached by events of the child alone.
    ghost predicate HasForked(task: Task, nproc: Task, mem0: State, procs0: Procs)
      reads this`procs, mmu, task`np, task`va, task`pa, task.space, nproc`np, nproc`va, nproc`pa, nproc.space
    {
      exists s, c :: s == RootOf(task.space) && c == RootOf(nproc.space)
        && c !in procs0 && procs == procs0[c := Record(VaList(task), PaList(nproc))]
        && Process(task) && Process(nproc) && Forked(mmu.Now(), procs, s, c)
        && CopiedBytes(mem0, mmu.Now(), Bytes(mem0, PaList(task)), PaList(nproc))
        && Leads(mem0, mmu.Now(), procs0, ForkEvents(c, VaList(task), PaList(nproc), Bytes(mem0, PaList(task))))
        && AfterEvents(procs0, ForkEvents(c, VaList(task), PaList(nproc), Bytes(mem0, PaList(task)))) == procs
    }

    // With everything copied and recorded the child is a process, and a fork of its parent.
    lemma Copied(task: Task, nproc: Task, st0: State, procs0: Procs, bytes: seq<seq<nat>>)
      requires Parent(task, st0, procs0) && RootOf(nproc.space) !in procs0
      requires bytes == Bytes(st0, PaList(task)) && Copying(nproc, st0, procs0, VaList(task), bytes, task.np)
      requires procs == procs0[RootOf(nproc.space) := Record(VaList(task), PaList(nproc))]
      ensures HasForked(task, nproc, st0, procs0) && MemOk() && Process(task) && Process(nproc)
      ensures AfterEvents(procs0, ForkEvents(RootOf(nproc.space), VaList(task), PaList(nproc), bytes)) == procs
    {
      var s, c, va, cpa := RootOf(task.space), RootOf(nproc.space), VaList(task), PaList(nproc);
      assert va[..task.np] == va;
      assert Owns(st0, s, va, PaList(task));
      CopiedIsForked(st0, procs0, mmu.Now(), s, c, bytes, cpa);
      assert WithChild(procs0, c, va, cpa) == procs;
    }

    ghost method Enter(task: Task, nproc: Task, st0: State, procs0: Procs, bytes: seq<seq<nat>>)
      requires Parent(task, st0, procs0) && RootOf(nproc.space) !in procs0
      requires bytes == Bytes(st0, PaList(task)) && Copying(nproc, st0, procs0, VaList(task), bytes, task.np)
      modifies this`procs
      ensures HasForked(task, nproc, st0, procs0)
    {
      procs := procs0[RootOf(nproc.space) := Record(VaList(task), PaList(nproc))];
      Copied(task, nproc, st0, procs0, bytes);
    }

    lemma ReadyToCopy(task: Task, nproc: Task, user: Context, st0: State, procs0: Procs, bytes: seq<seq<nat>>)
      requires Parent(task, st0, procs0) && Appeared(nproc, user, st0, procs0) && bytes == Bytes(st0, PaList(task))
      ensures CopyReady(task, nproc, st0, procs0, bytes) && RootOf(nproc.space) !in procs0
      ensures |mmu.avail| == |st0.avail| - 1
    {
      ForkFrames(task, st0, procs0);
      StartCopying(nproc, user, st0, procs0, VaList(task), bytes);
    }

    // All pages of the parent for a child that has none.
    method CopyAll(task: Task, nproc: Task, ghost user: Context, ghost st0: State, ghost procs0: Procs)
      returns (r: Outcome)
      requires Parent(task, st0, procs0) && Appeared(nproc, user, st0, procs0) && task != nproc
      modifies this`procs, mmu, nproc`va, nproc`pa, nproc`np
      ensures r == if |st0.avail| < old(ForkNeeds(task)) then Panic(NoMemory) else Done
      ensures r == Panic(NoMemory) ==> mmu.avail == {}
      ensures r == Done ==> HasForked(task, nproc, st0, procs0)
    {
      ghost var bytes := Bytes(st0, PaList(task));
      ReadyToCopy(task, nproc, user, st0, procs0, bytes);
      r := CopyPages(task, nproc, st0, procs0, bytes);
      if r == Done {
        Enter(task, nproc, st0, procs0, bytes);
      }
    }

    // ... while the list stays as it is.
    method CopyInList(task: Task, nproc: Task, ghost user: Context, ghost st0: State, ghost procs0: Procs,
                      ghost s: seq<Task>, ghost pid: nat)
      returns (r: Outcome)
      requires Parent(task, st0, procs0) && Appeared(nproc, user, st0, procs0) && task != nproc
      requires Joined(s, nproc, user.(cr3 := nproc.space.ptr), pid)
      modifies this`procs, mmu, nproc`va, nproc`pa, nproc`np
      ensures Joined(s, nproc, user.(cr3 := nproc.space.ptr), pid)
      ensures r == if |st0.avail| < old(ForkNeeds(task)) then Panic(NoMemory) else Done
      ensures r == Panic(NoMemory) ==> mmu.avail == {}
      ensures r == Done ==> HasForked(task, nproc, st0, procs0)
      ensures Counters() == old(Counters()) && task.context == old(task.context)
      ensures task.children == old(task.children) && task.nchildren == old(task.nchildren)
    {
      r := CopyAll(task, nproc, user, st0, procs0);
    }

    // Memory and list are in order, and s is the list from the current task on.
    ghost predicate InOrder(s: seq<Task>)
      reads this`procs, mmu, cpu, s`next, s`prev, s`context, s`nc, s`handlers
    {
      exists now :: now in s && now == cpu.currents && s == cpu.ring && cpu.Valid() && MemOk()
    }

    // The parent, whose stack of contexts was context0, learns the pid; the child, first
    // of its children now, will go on from the same context, with result 0.
    ghost predicate Returned(task: Task, nproc: Task, user: Context, pid: nat, context0: seq<Context>,
                             children0: Task?, nchildren0: nat)
      reads task`nc, task`context, task`children, task`nchildren
      reads nproc`nc, nproc`context, nproc`parent, nproc`bros, nproc.space
      reads nproc`status, nproc`children, nproc`nchildren
    {
      exists id: nat :: id == task.nc - 1
        && |context0| == |task.context| == |nproc.context| == MAX_CONTEXTS && id < MAX_CONTEXTS && nproc.nc == 1
        && nproc.pid == pid && nproc.parent == task && nproc.bros == children0
        && nproc.status == RUNNING && nproc.children == null && nproc.nchildren == 0
        && task.children == nproc && task.nchildren == nchildren0 + 1
        && nproc.context[0] == context0[id].(rsp0 := user.rsp0, cr3 := nproc.space.ptr, gprx := 0)
        && task.context == context0[id := context0[id].(gprx := pid)]
    }

    // The rest of fork leaves memory and list as they are.
    method FinishInList(task: Task, nproc: Task, ghost user: Context, ghost mem0: State, ghost procs0: Procs,
                        ghost rest: seq<Task>, ghost pid: nat)
      requires HasForked(task, nproc, mem0, procs0)
      requires Joined([task, nproc] + rest, nproc, user.(cr3 := nproc.space.ptr), pid)
      requires task != nproc && 1 <= task.nc
      modifies nproc`parent, nproc`bros, nproc`context, task`children, task`nchildren, task`context
      ensures InOrder([task, nproc] + rest) && HasForked(task, nproc, mem0, procs0)
      ensures Returned(task, nproc, user, pid, old(task.context), old(task.children), old(task.nchildren))
      ensures Counters() == old(Counters())
    {
      ghost var s := [task, nproc] + rest;
      assert s[0] == task && s[1] == nproc;
      FinishFork(task, nproc, user, pid);
    }

    // All of fork that comes after the child's creation.
    method CopyAndFinish(task: Task, nproc: Task, ghost user: Context, ghost mem0: State, ghost procs0: Procs,
                         ghost rest: seq<Task>, ghost pid: nat)
      returns (r: Outcome)
      requires Parent(task, mem0, procs0) && Appeared(nproc, user, mem0, procs0) && task != nproc && 1 <= task.nc
      requires Joined([task, nproc] + rest, nproc, user.(cr3 := nproc.space.ptr), pid)
      modifies this`procs, mmu, nproc`va, nproc`pa, nproc`np
      modifies nproc`parent, nproc`bros, nproc`context, task`children, task`nchildren, task`context
      ensures r == if |mem0.avail| < old(ForkNeeds(task)) then Panic(NoMemory) else Done
      ensures r == Panic(NoMemory) ==> mmu.avail == {}
      ensures Counters() == old(Counters())
      ensures r == Done ==> InOrder([task, nproc] + rest) && HasForked(task, nproc, mem0, procs0)
      ensures r == Done ==>
        Returned(task, nproc, user, pid, old(task.context), old(task.children), old(task.nchildren))
    {
      r := CopyInList(task, nproc, user, mem0, procs0, [task, nproc] + rest, pid);
      if r == Done {
        FinishInList(task, nproc, user, mem0, procs0, rest, pid);
      }
    }

    // A child of the current task, and what is known of the parent.
    method CreateChild(task: Task, user: Context) returns (r: Outcome, nproc: Task)
      requires InOrder(cpu.ring) && Process(task) && task == cpu.currents
      modifies this, mmu, cpu`ring, cpu`numTask, task`next, task.next`prev
      ensures fresh(nproc) && fresh(nproc.space)
      ensures r == if old(doubles) == 0 || old(mmu.avail) == {} then Panic(NoMemory) else Done
      ensures r == Panic(NoMemory) ==> old(doubles) == 0 || mmu.avail == {}
      ensures r == Done ==> Counters() == OneMore(old(Counters()), nproc)
      ensures task.context == old(task.context) && task.children == old(task.children)
      ensures task.nchildren == old(task.nchildren) && ForkNeeds(task) == old(ForkNeeds(task))
      ensures r == Done ==>
        Parent(task, old(mmu.Now()), old(procs)) && Appeared(nproc, user, old(mmu.Now()), old(procs))
      ensures r == Done ==>
        Joined([task, nproc] + old(cpu.ring)[1..], nproc, user.(cr3 := nproc.space.ptr), old(pidrec))
    {
      assert Parent(task, mmu.Now(), procs);
      r, nproc := UCreate(user);
    }

    /** fork: the child maps the parent's pages through frames of its own with equal bytes,
        and continues from the parent's last saved context with result 0. It fails exactly if
        there is no double page for the child's task, or there are fewer free pages than the
        root, the frames and the tables of the child. */
    method Fork(task: Task, user: Context) returns (r: Outcome, nproc: Task)
      requires InOrder(cpu.ring) && Process(task)
      requires task == cpu.currents && 1 <= task.nc
      modifies this, mmu
      modifies cpu`ring, cpu`numTask, task`next, task.next`prev, task`children, task`nchildren, task`context
      ensures fresh(nproc) && fresh(nproc.space)
      ensures r == if old(doubles) == 0 || |old(mmu.avail)| < old(ForkNeeds(task)) then Panic(NoMemory) else Done
      ensures r == Panic(NoMemory) ==> old(doubles) == 0 || mmu.avail == {}
      ensures r == Done ==> Counters() == OneMore(old(Counters()), nproc)
      ensures r == Done ==> InOrder([task, nproc] + old(cpu.ring)[1..])
      ensures r == Done ==> HasForked(task, nproc, old(mmu.Now()), old(procs))
      ensures r == Done ==>
        Returned(task, nproc, user, old(pidrec), old(task.context), old(task.children), old(task.nchildren))
    {
      ghost var mem0, procs0, rest, pid := mmu.Now(), procs, cpu.ring[1..], pidrec;
      r, nproc := CreateChild(task, user);
      if r == Done {
        r := CopyAndFinish(task, nproc, user, mem0, procs0, rest, pid);
      }
    }

    /** Every process there was, the parent's too, is as it was after a fork: the same pages,
        frames that are none of the child's, and the same answer to every load. */
    lemma OthersAfterFork(task: Task, nproc: Task, mem0: State, procs0: Procs, t: nat, addr: nat)
      requires ProcsOk(mem0, procs0) && HasForked(task, nproc, mem0, procs0) && t in procs0
      requires KERNEL_END <= addr < VA_END
      ensures t in procs && procs[t] == procs0[t]
      ensures Owns(mmu.Now(), t, procs[t].va, procs[t].pa)
      ensures Load(mmu.mem, t, addr) == Load(mem0.mem, t, addr)
      ensures forall i, j :: 0 <= i < |procs[t].pa| && 0 <= j < |PaList(nproc)| ==> procs[t].pa[i] != PaList(nproc)[j]
    {
      var c, cpa, bytes := RootOf(nproc.space), PaList(nproc), Bytes(mem0, PaList(task));
      ForkEventsOwn(c, VaList(task), cpa, bytes);
      RunIsolated(mem0, mmu.Now(), procs0, ForkEvents(c, VaList(task), cpa, bytes), t, addr);
      forall i, j | 0 <= i < |procs[t].pa| && 0 <= j < |cpa|
        ensures procs[t].pa[i] != cpa[j]
      {
        assert Behind(procs, t, i, procs[t].pa[i]) && Behind(procs, c, j, cpa[j]);
      }
    }

    // ---- teardown --------------------------------------------------------------------------------

    // The tables of a finished process and its task go back to the allocator; its frames do
    // not. The allocator halts if the page at the start of its page area is one of the tables.
    method UTeardown(task: Task) returns (r: Outcome)
      requires MemOk() && Process(task) && task.status == ZOMBIE && FromHeap(mmu.heap, mmu.Now())
      modifies this`procs, this`doubles, mmu
      ensures r == if PmmLayout.PageStart(mmu.heap) in SpacePages(old(mmu.at), RootOf(task.space))
                   then Panic(NotABlock) else Done
      ensures r == Done ==>
                && MemOk() && Happens(old(mmu.Now()), mmu.Now(), old(procs), Destroy(RootOf(task.space)))
                && procs == AfterEvent(old(procs), Destroy(RootOf(task.space))) && doubles == old(doubles) + 1
                && mmu.avail == old(mmu.avail) + SpacePages(old(mmu.at), RootOf(task.space))
                && forall p :: p in PaList(task) ==> p !in mmu.avail
    {
      ghost var st0, s, pages := mmu.Now(), RootOf(task.space), procs[RootOf(task.space)];
      assert Owns(st0, s, pages.va, pages.pa);
      PagesSplit(mmu.mem, mmu.avail, mmu.at, s);
      assert forall p :: p in pages.pa ==> DataPage(st0, p);
      r := mmu.Unprotect(task.space);
      if r == Done {
        EventKeepsProcs(st0, mmu.Now(), procs, Destroy(s));
        procs := procs - {s};
        doubles := doubles + 1;
      }
    }
  }

  // One saved context to start from, no pages yet.
  ghost predicate Newborn(t: Task, start: Context)
    reads t`nc, t`context, t`np, t`va, t`pa, t`status, t`handlers, t`parent, t`bros, t`children, t`nchildren
  {
    Started(t, start) && Recorded(t) && t.np == 0
  }

  ghost predicate Started(t: Task, start: Context)
    reads t`nc, t`context, t`status, t`handlers, t`parent, t`bros, t`children, t`nchildren
  {
    && t.nc == 1 && |t.context| == MAX_CONTEXTS && t.context[0] == start && t.handlers == 0 && t.status == RUNNING
    && t.parent == null && t.bros == null && t.children == null && t.nchildren == 0
  }
}
