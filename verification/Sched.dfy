/** One CPU's tasks: a circular doubly linked list, a stack of saved contexts per task,
    and the trap handler that saves, schedules and restores. */
module Sched {
  import opened Vme

  // The registers a trap saves; the ones the kernel never looks at are one field.
  datatype Context = Context(cr3: nat, gprx: nat, rsp0: nat, others: seq<nat>)

  datatype Status = RUNNING | SLEEPING | WAITING | ZOMBIE

  const MAX_CONTEXTS: nat := 4
  const MAX_PAGES: nat := 64

  class Task {
    var next: Task
    var prev: Task
    var status: Status
    var nc: nat
    var context: seq<Context>
    // process fields
    const pid: nat            // written once, when the task is created
    var parent: Task?
    var children: Task?
    var bros: Task?
    var nchildren: nat
    var excode: int
    var np: nat
    var va: seq<nat>
    var pa: seq<nat>
    const space: AddrSpace
    ghost var handlers: nat   // trap handlers of this task that have not yet scheduled

    // Freshly allocated memory for a task; the links are not meaningful yet.
    constructor (ctx: Context, pid: nat)
      ensures status == RUNNING && nc == 1 && handlers == 0
      ensures |context| == MAX_CONTEXTS && context[0] == ctx
      ensures np == 0 && |va| == |pa| == MAX_PAGES && forall i :: 0 <= i < MAX_PAGES ==> va[i] == 0
      ensures this.pid == pid && parent == null && children == null && bros == null && nchildren == 0
      ensures fresh(space)
    {
      next, prev := this, this;
      status, nc, handlers := RUNNING, 1, 0;
      context := seq(MAX_CONTEXTS, i => ctx);
      this.pid, parent, children, bros, nchildren, excode := pid, null, null, null, 0, 0;
      np, va, pa := 0, seq(MAX_PAGES, i => 0), seq(MAX_PAGES, i => 0);
      space := new AddrSpace();
    }

    // The stack of saved contexts.
    function Saved(): seq<Context>
      reads this`nc, this`context
    {
      if nc <= |context| then context[..nc] else []
    }
  }

  function Succ(i: nat, n: nat): nat
    requires i < n
  {
    if i + 1 < n then i + 1 else 0
  }

  function Rotate<T>(s: seq<T>, k: nat): seq<T>
    requires k <= |s|
  {
    s[k..] + s[..k]
  }

  predicate Distinct<T(==)>(s: seq<T>) {
    forall i, j :: 0 <= i < j < |s| ==> s[i] != s[j]
  }

  // s, read with next from its first task, is one closed cycle, and prev is its inverse.
  ghost predicate Cycle(s: seq<Task>)
    reads s`next, s`prev
  {
    forall i :: 0 <= i < |s| ==>
      s[i].next == s[Succ(i, |s|)] && s[Succ(i, |s|)].prev == s[i]
  }

  predicate Eligible(t: Task)
    reads t`status
  {
    t.status != ZOMBIE && t.status != WAITING
  }

  lemma InsertDistinct<T>(s: seq<T>, x: T)
    requires |s| >= 1 && Distinct(s) && x !in s
    ensures Distinct([s[0], x] + s[1..])
  {
  }

  lemma DropDistinct<T>(s: seq<T>, k: nat)
    requires k < |s| && Distinct(s)
    ensures Distinct(s[..k] + s[k + 1..])
  {
    var r := s[..k] + s[k + 1..];
    forall i, j | 0 <= i < j < |r|
      ensures r[i] != r[j]
    {
      assert r[i] == s[if i < k then i else i + 1] && r[j] == s[if j < k then j else j + 1];
    }
  }

  // The cycle s with the links of its k-th task skipped.
  ghost predicate CycleAround(s: seq<Task>, k: nat)
    requires 0 < k < |s|
    reads s`next, s`prev
  {
    && s[k - 1].next == s[Succ(k, |s|)] && s[Succ(k, |s|)].prev == s[k - 1]
    && (forall i :: 0 <= i < |s| && i != k - 1 ==> s[i].next == s[Succ(i, |s|)])
    && (forall i :: 0 <= i < |s| && i != k ==> s[Succ(i, |s|)].prev == s[i])
  }

  lemma CycleWithout(s: seq<Task>, k: nat)
    requires 0 < k < |s| && CycleAround(s, k)
    ensures Cycle(s[..k] + s[k + 1..])
  {
    var r := s[..k] + s[k + 1..];
    forall i | 0 <= i < |r|
      ensures r[i].next == r[Succ(i, |r|)] && r[Succ(i, |r|)].prev == r[i]
    {
      var o := if i < k then i else i + 1;
      assert r[i] == s[o];
      if o == k - 1 {
        assert r[Succ(i, |r|)] == s[Succ(k, |s|)];
      } else {
        assert r[Succ(i, |r|)] == s[Succ(o, |s|)];
      }
    }
  }

  // The cycle s with a task linked in behind the first one.
  ghost predicate CycleOpened(s: seq<Task>, task: Task)
    requires |s| >= 1
    reads s`next, s`prev, task`next, task`prev
  {
    && s[0].next == task && task.prev == s[0]
    && task.next == s[Succ(0, |s|)] && s[Succ(0, |s|)].prev == task
    && (forall i :: 0 < i < |s| ==> s[i].next == s[Succ(i, |s|)] && s[Succ(i, |s|)].prev == s[i])
  }

  lemma CycleWith(s: seq<Task>, task: Task)
    requires |s| >= 1 && CycleOpened(s, task)
    ensures Cycle([s[0], task] + s[1..])
  {
    var r := [s[0], task] + s[1..];
    forall i | 0 <= i < |r|
      ensures r[i].next == r[Succ(i, |r|)] && r[Succ(i, |r|)].prev == r[i]
    {
      if i >= 1 {
        assert r[Succ(i, |r|)] == s[Succ(i - 1, |s|)];
      }
    }
  }

  lemma RotateCycle(s: seq<Task>, k: nat)
    requires k <= |s| && Cycle(s) && Distinct(s)
    ensures Cycle(Rotate(s, k)) && Distinct(Rotate(s, k))
  {
    var r := Rotate(s, k);
    forall i | 0 <= i < |r|
      ensures r[i].next == r[Succ(i, |r|)] && r[Succ(i, |r|)].prev == r[i]
    {
      var o := if i + k < |s| then i + k else i + k - |s|;
      assert r[i] == s[o];
      assert r[Succ(i, |r|)] == s[Succ(o, |s|)];
    }
  }

  // Every task that is not running has one saved context more than handlers to finish:
  // the one it resumes from.
  ghost predicate StackOk(t: Task, running: bool)
    reads t`context, t`nc, t`handlers
  {
    && |t.context| == MAX_CONTEXTS && t.nc <= MAX_CONTEXTS
    && t.nc == t.handlers + if running then 0 else 1
  }

  class Cpu {
    var curTask: Task
    var currents: Task
    var numTask: nat
    ghost var ring: seq<Task>   // the list, from the current task on

    ghost predicate Valid()
      reads this, ring`next, ring`prev, ring`context, ring`nc, ring`handlers
    {
      && |ring| >= 1 && ring[0] == curTask && currents == curTask
      && curTask in ring && StackOk(curTask, true)
      && Distinct(ring) && Cycle(ring)
      && (forall t :: t in ring ==> StackOk(t, t == curTask))
    }

    // The boot task of the CPU, its own neighbour.
    constructor (idle: Task)
      requires idle.nc == 0 && idle.handlers == 0 && |idle.context| == MAX_CONTEXTS
      modifies idle
      ensures Valid() && ring == [idle] && numTask == 1
    {
      idle.next := idle;
      idle.prev := idle;
      curTask, currents, numTask := idle, idle, 1;
      ring := [idle];
    }

    // A new task goes right behind the current one.
    method Insert(task: Task)
      requires Valid() && task !in ring
      requires task.nc == 1 && task.handlers == 0 && |task.context| == MAX_CONTEXTS
      modifies this`ring, this`numTask, task`next, task`prev, currents`next, currents.next`prev
      ensures Valid() && numTask == old(numTask) + 1
      ensures ring == [old(ring)[0], task] + old(ring)[1..]
    {
      ghost var s := ring;
      numTask := numTask + 1;
      LinkIn(task);
      CycleWith(s, task);
      ring := [s[0], task] + s[1..];
      InsertDistinct(s, task);
      forall t | t in ring
        ensures StackOk(t, t == curTask)
      {
        assert t == task || t in s;
      }
    }

    method LinkIn(task: Task)
      requires |ring| >= 1 && ring[0] == currents && Cycle(ring) && Distinct(ring) && task !in ring
      modifies task`next, task`prev, currents`next, currents.next`prev
      ensures CycleOpened(ring, task)
    {
      ghost var s := ring;
      assert s[0].next == s[Succ(0, |s|)];
      task.next := currents.next;
      task.prev := currents;
      currents.next := task;
      task.next.prev := task;
      forall i | 0 < i < |s|
        ensures s[i].next == s[Succ(i, |s|)] && s[Succ(i, |s|)].prev == s[i]
      {
        assert old(s[i].next == s[Succ(i, |s|)] && s[Succ(i, |s|)].prev == s[i]);
      }
    }

    // A thread: its first context goes in slot 0, then it joins the list.
    method KCreate(task: Task, entry: Context)
      requires Valid() && task !in ring && |task.context| == MAX_CONTEXTS
      modifies this`ring, this`numTask, task, currents`next, currents.next`prev
      ensures Valid() && numTask == old(numTask) + 1
      ensures ring == [old(ring)[0], task] + old(ring)[1..]
      ensures task.nc == 1 && |task.context| == MAX_CONTEXTS && task.context[0] == entry
      ensures task.status == RUNNING && Eligible(task)
    {
      task.context := task.context[0 := entry];
      task.nc := 1;
      task.handlers := 0;
      task.status := RUNNING;
      assert Valid();
      Insert(task);
    }

    // The running process ends: it stays in the list but is never scheduled again.
    method Exit(status: int)
      requires Valid()
      modifies currents`status, currents`excode
      ensures Valid() && currents.status == ZOMBIE && !Eligible(currents) && currents.excode == status
    {
      currents.status := ZOMBIE;
      currents.excode := status;
    }

    // A task other than the current one is unlinked.
    method KTeardown(task: Task, ghost k: nat)
      requires Valid() && 0 < k < |ring| && ring[k] == task
      modifies this`ring, task.next`prev, task.prev`next
      ensures Valid() && ring == old(ring)[..k] + old(ring)[k + 1..]
    {
      ghost var s := ring;
      Unlink(task, k);
      ring := s[..k] + s[k + 1..];
      DropDistinct(s, k);
      CycleWithout(s, k);
      assert ring[0] == s[0];
      forall t | t in ring
        ensures StackOk(t, t == curTask)
      {
        assert t in s;
      }
    }

    method Unlink(task: Task, ghost k: nat)
      requires 0 < k < |ring| && ring[k] == task && Cycle(ring) && Distinct(ring)
      modifies task.next`prev, task.prev`next
      ensures CycleAround(ring, k)
    {
      ghost var s := ring;
      assert s[Succ(k - 1, |s|)] == task;
      task.next.prev := task.prev;
      task.prev.next := task.next;
      forall i | 0 <= i < |s|
        ensures i != k - 1 ==> s[i].next == s[Succ(i, |s|)]
        ensures i != k ==> s[Succ(i, |s|)].prev == s[i]
      {
        assert old(s[i].next == s[Succ(i, |s|)] && s[Succ(i, |s|)].prev == s[i]);
      }
    }

    // Entry of the trap handler: the context goes onto the stack of the running task.
    method TrapSave(context: Context)
      requires Valid() && currents.nc < MAX_CONTEXTS
      modifies currents`context, currents`nc, currents`handlers
      ensures Valid()
      ensures currents.Saved() == old(currents.Saved()) + [context]
      ensures currents.handlers == old(currents.handlers) + 1
      ensures forall t :: t in ring && t != currents ==> t.Saved() == old(t.Saved())
      ensures Eligibles(ring) == old(Eligibles(ring))
    {
      currents.context := currents.context[currents.nc := context];
      currents.nc := currents.nc + 1;
      currents.handlers := currents.handlers + 1;
    }

    // The scheduling loop: on from the current task until one is eligible.
    method Advance() returns (ghost k: nat)
      requires |ring| >= 1 && ring[0] == curTask && Cycle(ring) && SomeTrue(Eligibles(ring))
      modifies this`curTask
      ensures k == FirstEligible(old(Eligibles(ring))) && 1 <= k <= |ring|
      ensures curTask == ring[Wrap(k, |ring|)] && Eligible(curTask)
      ensures curTask.status != ZOMBIE && curTask.status != WAITING
      ensures forall j :: 1 <= j < k ==> ring[j].status == ZOMBIE || ring[j].status == WAITING
    {
      ghost var s, e := ring, Eligibles(ring);
      k := FirstEligible(e);
      FirstEligibleMeaning(e);
      ghost var steps := 1;
      curTask := curTask.next;
      while curTask.status == ZOMBIE || curTask.status == WAITING
        modifies this`curTask
        invariant 1 <= steps <= k && curTask == s[Wrap(steps, |s|)]
        decreases k - steps
      {
        assert !e[Wrap(steps, |s|)];
        assert s[Wrap(steps, |s|)].next == s[Succ(Wrap(steps, |s|), |s|)];
        curTask := curTask.next;
        steps := steps + 1;
      }
      assert e[Wrap(steps, |s|)];
    }

    // The list, read from the chosen task on.
    method TurnRing()
      requires |ring| >= 1 && ring[0] == curTask && Cycle(ring) && Distinct(ring) && SomeTrue(Eligibles(ring))
      modifies this`curTask, this`ring
      ensures 1 <= FirstEligible(old(Eligibles(ring))) <= |old(ring)|
      ensures ring == Rotate(old(ring), FirstEligible(old(Eligibles(ring))))
      ensures |ring| >= 1 && ring[0] == curTask && Eligible(curTask) && curTask in ring
      ensures Distinct(ring) && Cycle(ring)
      ensures forall t :: t in ring <==> t in old(ring)
    {
      ghost var s := ring;
      ghost var k := Advance();
      TurnedFacts(s, k);
      ring := Rotate(s, k);
    }

    lemma TurnedFacts(s: seq<Task>, k: nat)
      requires 1 <= k <= |s| && Cycle(s) && Distinct(s)
      ensures Cycle(Rotate(s, k)) && Distinct(Rotate(s, k)) && Rotate(s, k)[0] == s[Wrap(k, |s|)]
      ensures forall t :: t in Rotate(s, k) <==> t in s
    {
      RotateCycle(s, k);
      RotateMembers(s, k);
    }

    // Exit of the trap handler: the next eligible task resumes from its last context.
    method TrapSchedule() returns (context: Context)
      requires Valid() && currents.handlers >= 1
      requires SomeTrue(Eligibles(ring))
      modifies this`curTask, this`currents, this`ring, ring`nc, ring`handlers
      ensures Valid()
      ensures 1 <= FirstEligible(old(Eligibles(ring))) <= |old(ring)|
      ensures ring == Rotate(old(ring), FirstEligible(old(Eligibles(ring))))
      ensures Eligible(currents)
      ensures var t := currents; t in old(ring) && old(t.Saved()) == t.Saved() + [context]
      ensures forall t :: t in ring && t != currents ==> t.Saved() == old(t.Saved())
    {
      ghost var s, e := ring, Eligibles(ring);
      TurnRing();
      RotateMembers(s, FirstEligible(e));
      context := RestoreInRing();
    }

    method RestoreInRing() returns (context: Context)
      requires |ring| >= 1 && ring[0] == curTask && curTask in ring && currents in ring
      requires Distinct(ring) && Cycle(ring)
      requires forall t :: t in ring ==> StackOk(t, t == currents)
      requires currents.handlers >= 1
      modifies this`currents, ring`nc, ring`handlers
      ensures Valid()
      ensures old(curTask.Saved()) == curTask.Saved() + [context]
      ensures forall t :: t in ring && t != curTask ==> t.Saved() == old(t.Saved())
    {
      assert StackOk(currents, true) && StackOk(curTask, curTask == currents);
      context := Restore();
      forall t | t in ring
        ensures StackOk(t, t == curTask)
      {
        assert old(t in ring && StackOk(t, t == currents));
      }
      assert Cycle(ring);
    }

    // The old task has finished one handler; the new one gives up its last saved context.
    method Restore() returns (context: Context)
      requires currents != curTask ==> StackOk(currents, true) && StackOk(curTask, false)
      requires currents == curTask ==> StackOk(currents, true)
      requires currents.handlers >= 1
      modifies this`currents, currents`handlers, curTask`nc
      ensures currents == curTask
      ensures StackOk(curTask, true) && (old(currents) != curTask ==> StackOk(old(currents), false))
      ensures old(curTask.nc) >= 1 && curTask.nc == old(curTask.nc) - 1
      ensures context == curTask.context[curTask.nc]
      ensures currents.handlers == old(curTask.handlers) - (if old(currents) == curTask then 1 else 0)
    {
      currents.handlers := currents.handlers - 1;
      currents := curTask;
      currents.nc := currents.nc - 1;
      context := currents.context[currents.nc];
    }

    // One trap: save, schedule, and the task that comes next resumes.
    method Trap(context: Context) returns (next: Context)
      requires Valid() && currents.nc < MAX_CONTEXTS && SomeTrue(Eligibles(ring))
      modifies this`curTask, this`currents, this`ring, ring`nc, ring`handlers, ring`context
      ensures Valid() && currents.nc < MAX_CONTEXTS
      ensures 1 <= FirstEligible(old(Eligibles(ring))) <= |old(ring)|
      ensures ring == Rotate(old(ring), FirstEligible(old(Eligibles(ring))))
      ensures Eligibles(ring) == Rotate(old(Eligibles(ring)), FirstEligible(old(Eligibles(ring))))
      ensures currents == old(currents) ==> next == context && currents.Saved() == old(currents.Saved())
      ensures currents != old(currents) ==> old(currents).Saved() == old(currents.Saved()) + [context]
      ensures currents != old(currents) ==> var t := currents; old(t.Saved()) == t.Saved() + [next]
      ensures forall t :: t in ring && t != currents && t != old(currents) ==> t.Saved() == old(t.Saved())
    {
      ghost var s, e := ring, Eligibles(ring);
      next := SaveAndSchedule(context);
      EligiblesRotate(s, FirstEligible(e));
    }

    method SaveAndSchedule(context: Context) returns (next: Context)
      requires Valid() && currents.nc < MAX_CONTEXTS && SomeTrue(Eligibles(ring))
      modifies this`curTask, this`currents, this`ring, ring`nc, ring`handlers, ring`context
      ensures Valid() && currents.nc < MAX_CONTEXTS
      ensures 1 <= FirstEligible(old(Eligibles(ring))) <= |old(ring)|
      ensures ring == Rotate(old(ring), FirstEligible(old(Eligibles(ring))))
      ensures currents == old(currents) ==> next == context && currents.Saved() == old(currents.Saved())
      ensures currents != old(currents) ==> old(currents).Saved() == old(currents.Saved()) + [context]
      ensures currents != old(currents) ==> var t := currents; old(t.Saved()) == t.Saved() + [next]
      ensures forall t :: t in ring && t != currents && t != old(currents) ==> t.Saved() == old(t.Saved())
    {
      ghost var stack := currents.Saved();
      TrapSave(context);
      next := TrapSchedule();
      AppendSame(currents.Saved(), next, stack, context);
      assert StackOk(currents, true);
    }

    lemma AppendSame<T>(a: seq<T>, x: T, b: seq<T>, y: T)
      ensures a + [x] == b + [y] ==> a == b && x == y
    {
      if a + [x] == b + [y] {
        assert (a + [x])[..|a|] == a && (b + [y])[..|b|] == b;
        assert (a + [x])[|a|] == x && (b + [y])[|b|] == y;
      }
    }

    /** Traps, one after the other: the current task is the one that so many schedules turn
        the list to, and the contexts that tasks resume with are those of the replay. */
    method Traps(contexts: seq<Context>) returns (resumed: seq<Context>)
      requires Valid() && currents.nc < MAX_CONTEXTS && SomeTrue(Eligibles(ring))
      modifies this`curTask, this`currents, this`ring, ring`nc, ring`handlers, ring`context
      ensures Valid() && currents.nc < MAX_CONTEXTS
      ensures ring == Rotate(old(ring), Around(Turned(old(Eligibles(ring)), |contexts|), |old(ring)|))
      ensures currents == old(ring)[Around(Turned(old(Eligibles(ring)), |contexts|), |old(ring)|)]
      ensures Stacks(old(ring)) == Replay(old(Stacks(ring)), old(Eligibles(ring)), contexts)
      ensures resumed == Resumed(old(Stacks(ring)), old(Eligibles(ring)), contexts)
    {
      ghost var s, e, stacks, at: nat := ring, Eligibles(ring), Stacks(ring), 0;
      resumed := [];
      var i := 0;
      FirstPlace(e, i);
      StartTurning(at);
      assert contexts[..i] == [];
      while i < |contexts|
        modifies this`curTask, this`currents, this`ring, s`nc, s`handlers, s`context
        invariant i <= |contexts| && at == Place(e, i) && Eligibles(s) == e
        invariant Turning(s, at, Replay(stacks, e, contexts[..i])) && resumed == Resumed(stacks, e, contexts[..i])
      {
        PlaceNext(e, i);
        ReplayNext(stacks, e, contexts, i);
        var next;
        next, at := TrapInLap(contexts[i], s, e, at, Replay(stacks, e, contexts[..i]));
        resumed := resumed + [next];
        i := i + 1;
      }
      assert contexts[..i] == contexts;
    }

    // The list, read from its place in s on, with these saved contexts.
    ghost predicate Turning(s: seq<Task>, at: nat, stacks: seq<seq<Context>>)
      reads this, s, ring`next, ring`prev, ring`context, ring`nc, ring`handlers
    {
      exists n :: n == at < |s| && ring == Rotate(s, n) && Valid() && currents.nc < MAX_CONTEXTS && Stacks(s) == stacks
    }

    lemma StartTurning(at: nat)
      requires Valid() && currents.nc < MAX_CONTEXTS && at == 0
      ensures Turning(ring, at, Stacks(ring))
    {
      assert Rotate(ring, at) == ring;
    }

    method TrapInLap(context: Context, ghost s: seq<Task>, ghost e: seq<bool>, ghost at: nat,
                     ghost stacks: seq<seq<Context>>)
      returns (next: Context, ghost to: nat)
      requires Turning(s, at, stacks) && SomeTrue(e) && Distinct(s) && Eligibles(s) == e
      modifies this`curTask, this`currents, this`ring, s`nc, s`handlers, s`context
      ensures to == NextPlace(e, at) < |s| && Eligibles(s) == e
      ensures Turning(s, to, AfterTrap(stacks, at, to, context)) && next == Top(stacks, at, to, context)
    {
      next, to := TrapTurn(context, s, e, at, stacks);
    }

    method TrapTurn(context: Context, ghost s: seq<Task>, ghost e: seq<bool>, ghost at: nat,
                    ghost stacks: seq<seq<Context>>)
      returns (next: Context, ghost to: nat)
      requires Turning(s, at, stacks) && SomeTrue(e) && Distinct(s) && Eligibles(s) == e
      modifies this`curTask, this`currents, this`ring, s`nc, s`handlers, s`context
      ensures to == NextPlace(e, at) < |s|
      ensures Turning(s, to, AfterTrap(stacks, at, to, context)) && next == Top(stacks, at, to, context)
    {
      RotateSome(e, at);
      EligiblesRotate(s, at);
      to := RotatedOn(s, e, at);
      next := TrapFromTo(context, s, at, to);
    }

    method TrapFromTo(context: Context, ghost s: seq<Task>, ghost at: nat, ghost to: nat) returns (next: Context)
      requires Valid() && currents.nc < MAX_CONTEXTS && SomeTrue(Eligibles(ring)) && Distinct(s)
      requires at < |s| && to < |s| && ring == Rotate(s, at)
      requires Rotate(ring, FirstEligible(Eligibles(ring))) == Rotate(s, to)
      modifies this`curTask, this`currents, this`ring, s`nc, s`handlers, s`context
      ensures Turning(s, to, AfterTrap(old(Stacks(s)), at, to, context)) && next == Top(old(Stacks(s)), at, to, context)
    {
      ghost var stacks := Stacks(s);
      next := TrapAt(context, s, at, to);
      StacksMove(stacks, Stacks(s), at, to, context, next);
    }

    method TrapAt(context: Context, ghost s: seq<Task>, ghost at: nat, ghost to: nat) returns (next: Context)
      requires Valid() && currents.nc < MAX_CONTEXTS && SomeTrue(Eligibles(ring)) && Distinct(s)
      requires at < |s| && to < |s| && ring == Rotate(s, at)
      requires Rotate(ring, FirstEligible(Eligibles(ring))) == Rotate(s, to)
      modifies this`curTask, this`currents, this`ring, s`nc, s`handlers, s`context
      ensures Valid() && currents.nc < MAX_CONTEXTS && ring == Rotate(s, to)
      ensures at == to ==> next == context && s[at].Saved() == old(s[at].Saved())
      ensures at != to ==> s[at].Saved() == old(s[at].Saved()) + [context]
      ensures at != to ==> old(s[to].Saved()) == s[to].Saved() + [next]
      ensures forall i :: 0 <= i < |s| && i != at && i != to ==> s[i].Saved() == old(s[i].Saved())
    {
      RotateMembers(s, at);
      RotateHead(s, at);
      next := SaveAndSchedule(context);
      RotateMembers(s, to);
      RotateHead(s, to);
    }

    /** Every eligible task gets its turn within a lap: the one at distance d runs after as many
        traps as there are eligible tasks up to it. */
    method TrapsUpTo(contexts: seq<Context>, ghost d: nat)
      requires Valid() && currents.nc < MAX_CONTEXTS && 1 <= d <= |ring| && Eligible(ring[Wrap(d, |ring|)])
      requires |contexts| == EligibleUpTo(Eligibles(ring), d)
      modifies this`curTask, this`currents, this`ring, ring`nc, ring`handlers, ring`context
      ensures Valid() && currents == old(ring)[Wrap(d, |old(ring)|)]
    {
      assert Eligibles(ring)[Wrap(d, |ring|)];
      LapReaches(Eligibles(ring), d);
      AroundIsWrap(d, |ring|);
      var _ := Traps(contexts);
    }
  }

  ghost function Eligibles(s: seq<Task>): (e: seq<bool>)
    reads s`status
    ensures |e| == |s| && forall i :: 0 <= i < |s| ==> e[i] == Eligible(s[i])
  {
    if |s| == 0 then [] else Eligibles(s[..|s| - 1]) + [Eligible(s[|s| - 1])]
  }

  // The saved contexts of all tasks.
  ghost function Stacks(s: seq<Task>): (r: seq<seq<Context>>)
    reads s
    ensures |r| == |s| && forall i :: 0 <= i < |s| ==> r[i] == s[i].Saved()
  {
    seq(|s|, i requires 0 <= i < |s| reads s => s[i].Saved())
  }

  lemma {:induction false} EligiblesRotate(s: seq<Task>, k: nat)
    requires k <= |s|
    ensures Eligibles(Rotate(s, k)) == Rotate(Eligibles(s), k)
  {
    var r := Rotate(s, k);
    forall i | 0 <= i < |s|
      ensures Eligibles(r)[i] == Rotate(Eligibles(s), k)[i]
    {
      assert r[i] == if i < |s| - k then s[i + k] else s[i - (|s| - k)];
    }
  }

  predicate SomeTrue(e: seq<bool>) {
    exists i :: 0 <= i < |e| && e[i]
  }

  lemma RotateHead<T>(s: seq<T>, k: nat)
    requires k < |s|
    ensures Rotate(s, k)[0] == s[k]
  {
  }

  lemma RotateMembers<T>(s: seq<T>, k: nat)
    requires k <= |s|
    ensures forall t :: t in Rotate(s, k) <==> t in s
  {
    assert s == s[..k] + s[k..];
  }

  // Positions are counted from the first one; n is the first one again, a lap later.
  function Wrap(i: nat, n: nat): nat
    requires i <= n
  {
    if i < n then i else 0
  }

  // How far behind the first position the next true one is.
  function FirstEligible(e: seq<bool>): (k: nat) {
    if |e| == 0 then 0 else 1 + FirstFrom(e, 1)
  }

  function FirstFrom(e: seq<bool>, i: nat): (k: nat)
    requires 1 <= i <= |e|
    ensures k <= |e| - i
    decreases |e| - i
  {
    if i == |e| || e[i] then 0 else 1 + FirstFrom(e, i + 1)
  }

  lemma FirstEligibleMeaning(e: seq<bool>)
    requires |e| > 0 && SomeTrue(e)
    ensures var k := FirstEligible(e);
            && 1 <= k <= |e| && e[Wrap(k, |e|)]
            && forall j :: 1 <= j < k ==> !e[j]
  {
    FirstFromMeaning(e, 1);
  }

  lemma {:induction false} FirstFromMeaning(e: seq<bool>, i: nat)
    requires 1 <= i <= |e|
    ensures var k := i + FirstFrom(e, i);
            && (k < |e| ==> e[k])
            && forall j :: i <= j < k ==> !e[j]
    decreases |e| - i
  {
    if i < |e| && !e[i] {
      FirstFromMeaning(e, i + 1);
    }
  }


  // ---- fairness ------------------------------------------------------------------------

  // How far the list has turned after a number of schedules, with nothing else changing.
  function Turned(e: seq<bool>, schedules: nat): nat
    requires |e| > 0 && SomeTrue(e)
    decreases schedules
  {
    if schedules == 0 then 0 else
    FirstEligibleMeaning(e);
    var k := FirstEligible(e);
    RotateSome(e, k);
    k + Turned(Rotate(e, k), schedules - 1)
  }

  lemma RotateSome(e: seq<bool>, k: nat)
    requires k <= |e| && SomeTrue(e)
    ensures SomeTrue(Rotate(e, k))
  {
    var i :| 0 <= i < |e| && e[i];
    assert Rotate(e, k)[if i >= k then i - k else i + |e| - k];
  }

  lemma TurnedNext(e: seq<bool>, schedules: nat)
    requires schedules > 0 && SomeTrue(e)
    ensures var k := FirstEligible(e);
            && 1 <= k <= |e| && SomeTrue(Rotate(e, k))
            && Turned(e, schedules) == k + Turned(Rotate(e, k), schedules - 1)
  {
    FirstEligibleMeaning(e);
    RotateSome(e, FirstEligible(e));
  }

  // A position, counted on over the end of the list.
  function Around(i: nat, n: nat): (r: nat)
    requires n > 0
    ensures r < n
  {
    if i < n then i else Around(i - n, n)
  }

  lemma {:induction false} AroundAdd(i: nat, k: nat, n: nat)
    requires n > 0 && k <= n
    ensures Around(i + k, n) == var j := Around(i, n) + k; if j < n then j else j - n
    decreases i
  {
    if i >= n {
      AroundAdd(i - n, k, n);
    }
  }

  lemma AroundIsWrap(d: nat, n: nat)
    requires 0 < n && d <= n
    ensures Around(d, n) == Wrap(d, n)
  {
  }

  // Where the list is turned to next.
  lemma RotatedOn<T>(s: seq<T>, e: seq<bool>, at: nat) returns (to: nat)
    requires at < |s| == |e| && SomeTrue(Rotate(e, at))
    ensures to == NextPlace(e, at) < |s|
    ensures 1 <= FirstEligible(Rotate(e, at)) <= |s|
    ensures Rotate(Rotate(s, at), FirstEligible(Rotate(e, at))) == Rotate(s, to)
  {
    FirstEligibleMeaning(Rotate(e, at));
    to := NextPlace(e, at);
    AroundAdd(at, FirstEligible(Rotate(e, at)), |s|);
    RotateSum(s, at, FirstEligible(Rotate(e, at)), to);
  }

  lemma RotateSum<T>(s: seq<T>, i: nat, k: nat, j: nat)
    requires i < |s| && k <= |s| && j == if i + k < |s| then i + k else i + k - |s|
    ensures Rotate(Rotate(s, i), k) == Rotate(s, j)
  {
    var once := Rotate(s, i);
    forall x | 0 <= x < |s|
      ensures Rotate(once, k)[x] == Rotate(s, j)[x]
    {
      var y := if x + k < |s| then x + k else x + k - |s|;
      assert Rotate(once, k)[x] == once[y] && once[y] == s[if y + i < |s| then y + i else y + i - |s|];
    }
  }

  // ---- which context a task resumes with -----------------------------------------------------------

  // The place in the list, read from the first running task on, of the one that runs after n traps.
  function Place(e: seq<bool>, n: nat): nat
    requires SomeTrue(e)
  {
    Around(Turned(e, n), |e|)
  }

  function NextPlace(e: seq<bool>, at: nat): nat
    requires at < |e|
  {
    Around(at + FirstEligible(Rotate(e, at)), |e|)
  }

  lemma {:induction false} PlaceNext(e: seq<bool>, n: nat)
    requires SomeTrue(e)
    ensures Place(e, n + 1) == NextPlace(e, Place(e, n))
    decreases n
  {
    TurnedLast(e, n);
    var at := Place(e, n);
    RotateSome(e, at);
    FirstEligibleMeaning(Rotate(e, at));
    AroundAdd(Turned(e, n), FirstEligible(Rotate(e, at)), |e|);
    AroundAdd(at, FirstEligible(Rotate(e, at)), |e|);
  }

  lemma {:induction false} TurnedLast(e: seq<bool>, n: nat)
    requires SomeTrue(e)
    ensures Turned(e, n + 1) == Turned(e, n) + FirstEligible(Rotate(e, Place(e, n)))
    decreases n
  {
    if n == 0 {
      TurnedFirst(e, n);
    } else {
      FirstEligibleMeaning(e);
      RotateSome(e, FirstEligible(e));
      TurnedLast(Rotate(e, FirstEligible(e)), n - 1);
      TurnedStep(e, n, FirstEligible(e), Rotate(e, FirstEligible(e)));
    }
  }

  lemma TurnedFirst(e: seq<bool>, n: nat)
    requires SomeTrue(e) && n == 0
    ensures Turned(e, n + 1) == Turned(e, n) + FirstEligible(Rotate(e, Place(e, n)))
  {
    TurnedNext(e, n + 1);
    FirstPlace(e, n);
    assert Rotate(e, Place(e, n)) == e;
  }

  lemma TurnedStep(e: seq<bool>, n: nat, k: nat, turned: seq<bool>)
    requires SomeTrue(e) && n > 0 && k == FirstEligible(e) <= |e| && turned == Rotate(e, k) && SomeTrue(turned)
    requires Turned(turned, n) == Turned(turned, n - 1) + FirstEligible(Rotate(turned, Place(turned, n - 1)))
    ensures Turned(e, n + 1) == Turned(e, n) + FirstEligible(Rotate(e, Place(e, n)))
  {
    TurnedNext(e, n + 1);
    TurnedNext(e, n);
    SamePlace(e, k, turned, n - 1, Turned(e, n));
  }

  lemma SamePlace(e: seq<bool>, k: nat, turned: seq<bool>, n: nat, sum: nat)
    requires SomeTrue(e) && SomeTrue(turned) && k <= |e| && turned == Rotate(e, k) && sum == k + Turned(turned, n)
    ensures FirstEligible(Rotate(turned, Place(turned, n))) == FirstEligible(Rotate(e, Around(sum, |e|)))
  {
    RotateOnward(e, k, Turned(turned, n));
  }

  lemma RotateOnward<T>(s: seq<T>, k: nat, more: nat)
    requires |s| > 0 && k <= |s|
    ensures Rotate(Rotate(s, k), Around(more, |s|)) == Rotate(s, Around(k + more, |s|))
  {
    AroundAdd(more, k, |s|);
    if k < |s| {
      RotateSum(s, k, Around(more, |s|), Around(k + more, |s|));
    } else {
      assert Rotate(s, k) == s;
    }
  }

  // A trap pushes the context on the stack of the running task at a, and pops that of b.
  function AfterTrap(stacks: seq<seq<Context>>, a: nat, b: nat, c: Context): seq<seq<Context>>
    requires a < |stacks| && b < |stacks|
  {
    var pushed := stacks[a := stacks[a] + [c]];
    pushed[b := if |pushed[b]| > 0 then pushed[b][..|pushed[b]| - 1] else []]
  }

  lemma StacksMove(was: seq<seq<Context>>, now: seq<seq<Context>>, a: nat, b: nat, c: Context, next: Context)
    requires |was| == |now| && a < |was| && b < |was|
    requires a == b ==> next == c && now[a] == was[a]
    requires a != b ==> now[a] == was[a] + [c] && was[b] == now[b] + [next]
    requires forall i :: 0 <= i < |was| && i != a && i != b ==> now[i] == was[i]
    ensures now == AfterTrap(was, a, b, c) && next == Top(was, a, b, c)
  {
    forall i | 0 <= i < |was|
      ensures now[i] == AfterTrap(was, a, b, c)[i]
    {
    }
  }

  function Top(stacks: seq<seq<Context>>, a: nat, b: nat, c: Context): Context
    requires a < |stacks| && b < |stacks|
  {
    var stack := stacks[a := stacks[a] + [c]][b];
    if |stack| > 0 then stack[|stack| - 1] else c
  }

  // All stacks after traps with these contexts ...
  function Replay(stacks: seq<seq<Context>>, e: seq<bool>, contexts: seq<Context>): (r: seq<seq<Context>>)
    requires SomeTrue(e) && |stacks| == |e|
    ensures |r| == |e|
  {
    if |contexts| == 0 then stacks
    else
      var n := |contexts| - 1;
      AfterTrap(Replay(stacks, e, contexts[..n]), Place(e, n), Place(e, n + 1), contexts[n])
  }

  // ... and what the tasks have resumed with.
  function Resumed(stacks: seq<seq<Context>>, e: seq<bool>, contexts: seq<Context>): (r: seq<Context>)
    requires SomeTrue(e) && |stacks| == |e|
    ensures |r| == |contexts|
  {
    if |contexts| == 0 then []
    else
      var n := |contexts| - 1;
      Resumed(stacks, e, contexts[..n])
      + [Top(Replay(stacks, e, contexts[..n]), Place(e, n), Place(e, n + 1), contexts[n])]
  }

  lemma ReplayNext(stacks: seq<seq<Context>>, e: seq<bool>, contexts: seq<Context>, i: nat)
    requires SomeTrue(e) && |stacks| == |e| && i < |contexts|
    ensures var r := Replay(stacks, e, contexts[..i]);
            && Replay(stacks, e, contexts[..i + 1]) == AfterTrap(r, Place(e, i), Place(e, i + 1), contexts[i])
            && Resumed(stacks, e, contexts[..i + 1])
               == Resumed(stacks, e, contexts[..i]) + [Top(r, Place(e, i), Place(e, i + 1), contexts[i])]
  {
    assert contexts[..i + 1][..i] == contexts[..i];
  }

  // The last of the first n traps that interrupted the task at p, or -1.
  function LastInterruption(e: seq<bool>, n: nat, p: nat): (j: int)
    requires SomeTrue(e)
    ensures -1 <= j < n && (j >= 0 ==> Place(e, j) == p)
    ensures forall i :: j < i < n ==> Place(e, i) != p
  {
    if n == 0 then -1 else if Place(e, n - 1) == p then n - 1 else LastInterruption(e, n - 1, p)
  }

  // What the task at p will resume with after n traps: the context of its last interruption,
  // or what it had saved before.
  function Pending(stacks: seq<seq<Context>>, e: seq<bool>, contexts: seq<Context>, n: nat, p: nat): seq<Context>
    requires SomeTrue(e) && |stacks| == |e| && p < |e| && n <= |contexts|
  {
    var j := LastInterruption(e, n, p);
    if j >= 0 then [contexts[j]] else if |stacks[p]| > 0 then [stacks[p][|stacks[p]| - 1]] else []
  }

  // The stack below that: nested handlers of the first running task, and of the others.
  function Below(stacks: seq<seq<Context>>, p: nat): seq<Context>
    requires p < |stacks|
  {
    if p == 0 || |stacks[p]| == 0 then stacks[p] else stacks[p][..|stacks[p]| - 1]
  }

  // Every task but the running one has one context pending.
  ghost predicate StacksAre(stacks: seq<seq<Context>>, e: seq<bool>, contexts: seq<Context>, n: nat,
                            now: seq<seq<Context>>)
    requires SomeTrue(e) && |stacks| == |e| && n <= |contexts|
  {
    && |now| == |e|
    && forall p :: 0 <= p < |e| ==>
         now[p] == if p == Place(e, n) then Below(stacks, p) else Below(stacks, p) + Pending(stacks, e, contexts, n, p)
  }

  lemma FirstPlace(e: seq<bool>, n: nat)
    requires SomeTrue(e) && n == 0
    ensures Place(e, n) == 0
  {
  }

  lemma {:induction false} RanFirst(e: seq<bool>, n: nat)
    requires SomeTrue(e) && n > 0
    ensures LastInterruption(e, n, 0) >= 0
  {
    if n == 1 {
      FirstPlace(e, n - 1);
    } else {
      RanFirst(e, n - 1);
    }
  }

  lemma {:induction false} StacksStart(stacks: seq<seq<Context>>, e: seq<bool>, contexts: seq<Context>, n: nat)
    requires SomeTrue(e) && |stacks| == |e| && n == 0
    requires forall p :: 0 < p < |stacks| ==> |stacks[p]| > 0
    ensures StacksAre(stacks, e, contexts, n, stacks)
  {
    FirstPlace(e, n);
    forall p | 0 < p < |e|
      ensures stacks[p] == Below(stacks, p) + Pending(stacks, e, contexts, n, p)
    {
      LastInterruptionNone(e, n, p);
    }
  }

  lemma LastInterruptionNone(e: seq<bool>, n: nat, p: nat)
    requires SomeTrue(e) && n == 0
    ensures LastInterruption(e, n, p) == -1
  {
  }

  lemma {:induction false} ReplayStacks(stacks: seq<seq<Context>>, e: seq<bool>, contexts: seq<Context>, n: nat)
    requires SomeTrue(e) && |stacks| == |e| && n <= |contexts|
    requires forall p :: 0 < p < |stacks| ==> |stacks[p]| > 0
    ensures StacksAre(stacks, e, contexts, n, Replay(stacks, e, contexts[..n]))
    decreases n
  {
    if n == 0 {
      assert contexts[..n] == [];
      StacksStart(stacks, e, contexts, n);
    } else {
      var m := n - 1;
      var before := Replay(stacks, e, contexts[..m]);
      ReplayStacks(stacks, e, contexts, m);
      ReplayNext(stacks, e, contexts, m);
      StacksNext(stacks, e, contexts, m, before);
      assert Replay(stacks, e, contexts[..n]) == AfterTrap(before, Place(e, m), Place(e, n), contexts[m]);
    }
  }

  lemma StacksNext(stacks: seq<seq<Context>>, e: seq<bool>, contexts: seq<Context>, n: nat, now: seq<seq<Context>>)
    requires SomeTrue(e) && |stacks| == |e| && n < |contexts|
    requires forall p :: 0 < p < |stacks| ==> |stacks[p]| > 0
    requires StacksAre(stacks, e, contexts, n, now)
    ensures StacksAre(stacks, e, contexts, n + 1, AfterTrap(now, Place(e, n), Place(e, n + 1), contexts[n]))
    ensures [Top(now, Place(e, n), Place(e, n + 1), contexts[n])]
         == Pending(stacks, e, contexts, n + 1, Place(e, n + 1))
  {
    var a, b, c := Place(e, n), Place(e, n + 1), contexts[n];
    RanFirst(e, n + 1);
    forall p | 0 <= p < |e|
      ensures AfterTrap(now, a, b, c)[p]
           == if p == b then Below(stacks, p) else Below(stacks, p) + Pending(stacks, e, contexts, n + 1, p)
    {
    }
  }

  /** Every task that a trap resumes goes on with exactly the context that was given when it
      was interrupted last, or, if it has not run yet, with the one it had saved before. */
  lemma ResumesWhereInterrupted(stacks: seq<seq<Context>>, e: seq<bool>, contexts: seq<Context>, i: nat)
    requires SomeTrue(e) && |stacks| == |e| && i < |contexts|
    requires forall p :: 0 < p < |stacks| ==> |stacks[p]| > 0
    ensures var p := Place(e, i + 1);
            var j := LastInterruption(e, i + 1, p);
            && (j < 0 ==> p > 0)
            && Resumed(stacks, e, contexts)[i] == if j >= 0 then contexts[j] else stacks[p][|stacks[p]| - 1]
  {
    RanFirst(e, i + 1);
    ReplayStacks(stacks, e, contexts, i);
    StacksNext(stacks, e, contexts, i, Replay(stacks, e, contexts[..i]));
    ReplayNext(stacks, e, contexts, i);
    ResumedAt(stacks, e, contexts, i);
  }

  lemma {:induction false} ResumedAt(stacks: seq<seq<Context>>, e: seq<bool>, contexts: seq<Context>, i: nat)
    requires SomeTrue(e) && |stacks| == |e| && i < |contexts|
    ensures Resumed(stacks, e, contexts)[i] == Resumed(stacks, e, contexts[..i + 1])[i]
    decreases |contexts|
  {
    var last := |contexts| - 1;
    if i == last {
      assert contexts[..i + 1] == contexts;
    } else {
      ResumedAt(stacks, e, contexts[..last], i);
      assert contexts[..last][..i + 1] == contexts[..i + 1];
    }
  }

  // The eligible tasks at distances 1 to d.
  function EligibleUpTo(e: seq<bool>, d: nat): (c: nat)
    requires d <= |e|
    ensures c <= d
  {
    if d == 0 then 0 else EligibleUpTo(e, d - 1) + if e[Wrap(d, |e|)] then 1 else 0
  }

  /** Every eligible task is reached: one at distance d runs after exactly as many
      schedules as there are eligible tasks up to it, so after at most one lap. */
  lemma {:induction false} LapReaches(e: seq<bool>, d: nat)
    requires 1 <= d <= |e| && e[Wrap(d, |e|)]
    ensures Turned(e, EligibleUpTo(e, d)) == d
    decreases d
  {
    FirstEligibleMeaning(e);
    var k := FirstEligible(e);
    SkipCount(e, k);
    RotateSome(e, k);
    if d == k {
      assert Turned(e, 1) == k + Turned(Rotate(e, k), 0);
    } else {
      assert d > k;
      SplitCount(e, k, d - k);
      LapReaches(Rotate(e, k), d - k);
    }
  }

  lemma {:induction false} SkipCount(e: seq<bool>, k: nat)
    requires 1 <= k <= |e| && e[Wrap(k, |e|)] && forall j :: 1 <= j < k ==> !e[j]
    ensures EligibleUpTo(e, k) == 1
  {
    NoneUpTo(e, k - 1);
  }

  lemma {:induction false} NoneUpTo(e: seq<bool>, d: nat)
    requires d < |e| && forall j :: 1 <= j <= d ==> !e[j]
    ensures EligibleUpTo(e, d) == 0
  {
    if d > 0 {
      NoneUpTo(e, d - 1);
    }
  }

  lemma {:induction false} SplitCount(e: seq<bool>, k: nat, m: nat)
    requires 1 <= k && k + m <= |e|
    ensures EligibleUpTo(e, k + m) == EligibleUpTo(e, k) + EligibleUpTo(Rotate(e, k), m)
  {
    if m > 0 {
      SplitCount(e, k, m - 1);
      assert Rotate(e, k)[m] == e[Wrap(k + m, |e|)];
    }
  }
}
