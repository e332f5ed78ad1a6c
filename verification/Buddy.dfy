/** The buddy tree of the older allocator: a complete binary tree in an array, where 0 is
    free, 1 is partly used and 2 is full, searched from the root and updated upwards. */
module Buddy {
  import opened Bits

  const TOP: nat := 25   // the root block has 2^25 bytes

  function ParentOf(id: nat): nat
    requires id > 0
  {
    (id - 1) / 2
  }

  function Depth(id: nat): nat {
    if id == 0 then 0 else 1 + Depth(ParentOf(id))
  }

  // x is y or stands above y.
  predicate Above(x: nat, y: nat) {
    x == y || (y > 0 && Above(x, ParentOf(y)))
  }

  lemma {:induction false} AboveDepth(x: nat, y: nat)
    requires Above(x, y)
    ensures x <= y && Depth(x) <= Depth(y)
    ensures x != y ==> x < y && Depth(x) < Depth(y)
  {
    if x != y {
      AboveDepth(x, ParentOf(y));
    }
  }

  // What is above a node's child is the child, or above the node.
  lemma AboveChild(x: nat, c: nat)
    requires c > 0
    ensures Above(x, c) <==> x == c || Above(x, ParentOf(c))
  {
  }

  lemma {:induction false} AboveTrans(x: nat, y: nat, z: nat)
    requires Above(x, y) && Above(y, z)
    ensures Above(x, z)
  {
    if y != z {
      AboveTrans(x, y, ParentOf(z));
    }
  }

  // Two nodes above the same node are comparable.
  lemma {:induction false} AboveLinear(x: nat, y: nat, z: nat)
    requires Above(x, z) && Above(y, z)
    ensures Above(x, y) || Above(y, x)
  {
    if x != z && y != z {
      AboveLinear(x, y, ParentOf(z));
    }
  }

  // A node below x, and not x, is below one of the two children.
  lemma {:induction false} BelowChild(x: nat, y: nat)
    requires Above(x, y) && x != y
    ensures Above(2 * x + 1, y) || Above(2 * x + 2, y)
  {
    if ParentOf(y) != x {
      BelowChild(x, ParentOf(y));
    }
  }

  lemma {:induction false} RootAbove(y: nat)
    ensures Above(0, y)
  {
    if y > 0 {
      RootAbove(ParentOf(y));
    }
  }

  // ---- the meaning of the tree ----------------------------------------------------------

  // No allocated block lies in the block of id.
  ghost predicate Unused(taken: set<nat>, id: nat) {
    forall a :: a in taken ==> !Above(id, a)
  }

  // A block that can be handed out: nothing in it, and it lies in nothing allocated.
  ghost predicate FreeBlock(taken: set<nat>, id: nat) {
    forall a :: a in taken ==> !Above(id, a) && !Above(a, id)
  }

  predicate BothFull(t: seq<nat>, id: nat) {
    2 * id + 2 < |t| && t[2 * id + 1] == 2 && t[2 * id + 2] == 2
  }

  ghost predicate NodeRight(t: seq<nat>, taken: set<nat>, id: nat)
    requires id < |t|
  {
    && t[id] <= 2
    && (t[id] == 0 <==> Unused(taken, id))
    && (t[id] == 2 <==> id in taken || BothFull(t, id))
  }

  // Complete levels 0 to depth.
  predicate Complete(t: seq<nat>, depth: nat) {
    depth >= 1 && |t| == Pow2(depth + 1) - 1
  }

  ghost predicate TreeOk(t: seq<nat>, depth: nat, taken: set<nat>) {
    && Complete(t, depth)
    && (forall id :: 0 < id < |t| ==> NodeRight(t, taken, id))
    && (t[0] == if BothFull(t, 0) then 2 else 0)
    && (forall a :: a in taken ==> 0 < a < |t|)
    && (forall a, b :: a in taken && b in taken && Above(a, b) ==> a == b)
  }

  lemma {:induction false} DepthBounds(id: nat)
    ensures Pow2(Depth(id)) <= id + 1 < Pow2(Depth(id) + 1)
  {
    if id > 0 {
      DepthBounds(ParentOf(id));
    }
  }

  lemma InTree(t: seq<nat>, depth: nat, id: nat)
    requires Complete(t, depth)
    ensures id < |t| <==> Depth(id) <= depth
  {
    DepthBounds(id);
    if Depth(id) <= depth {
      Pow2Mono(Depth(id) + 1, depth + 1);
    } else {
      Pow2Mono(depth + 1, Depth(id));
    }
  }

  // ---- the search -------------------------------------------------------------------------

  function Dfs(t: seq<nat>, depth: nat, dep: nat, id: nat, sz: nat): (r: int)
    requires Complete(t, depth) && dep == Depth(id) <= sz <= depth
    decreases sz - dep
  {
    InTree(t, depth, id);
    if dep == sz then (if t[id] == 0 then id else -1)
    else if t[id] == 2 then -1
    else
      var ch1 := 2 * id + 1;
      var ch2 := ch1 + 1;
      var ans1, ans2 := Dfs(t, depth, dep + 1, ch1, sz), Dfs(t, depth, dep + 1, ch2, sz);
      if ans1 == -1 then ans2 else ans1
  }

  // A full block holds no free block of any depth below it.
  lemma {:induction false} FullHasNoFree(t: seq<nat>, depth: nat, taken: set<nat>, x: nat, y: nat)
    requires TreeOk(t, depth, taken) && x < |t| && t[x] == 2 && Above(x, y) && y < |t|
    ensures !FreeBlock(taken, y)
    decreases |t| - x
  {
    assert x > 0 ==> NodeRight(t, taken, x);
    if x in taken {
    } else if x == y && x > 0 {
    } else if x == y {
      assert BothFull(t, 0) && NodeRight(t, taken, 1);
      var a :| a in taken && Above(1, a);
      RootAbove(a);
    } else {
      BelowChild(x, y);
      var c := if Above(2 * x + 1, y) then 2 * x + 1 else 2 * x + 2;
      FullHasNoFree(t, depth, taken, c, y);
    }
  }

  /** The search fails below a node exactly when no free block of that depth lies there. */
  lemma {:induction false} DfsFails(t: seq<nat>, depth: nat, taken: set<nat>, id: nat, sz: nat, y: nat)
    requires TreeOk(t, depth, taken) && Depth(id) <= sz <= depth && sz >= 1
    requires Dfs(t, depth, Depth(id), id, sz) == -1
    requires Above(id, y) && Depth(y) == sz
    ensures !FreeBlock(taken, y)
    decreases sz - Depth(id)
  {
    InTree(t, depth, id);
    InTree(t, depth, y);
    AboveDepth(id, y);
    if Depth(id) == sz {
      assert y == id;
      assert id > 0 && NodeRight(t, taken, id);
    } else if t[id] == 2 {
      FullHasNoFree(t, depth, taken, id, y);
    } else {
      BelowChild(id, y);
      assert Depth(2 * id + 1) == Depth(2 * id + 2) == Depth(id) + 1;
      DfsFails(t, depth, taken, if Above(2 * id + 1, y) then 2 * id + 1 else 2 * id + 2, sz, y);
    }
  }

  // No full node from id down to r, r itself aside.
  ghost predicate OpenPath(t: seq<nat>, id: nat, r: nat) {
    forall x: nat :: Above(id, x) && Above(x, r) && x != r ==> x < |t| && t[x] != 2
  }

  lemma OpenPathUp(t: seq<nat>, id: nat, c: nat, r: nat)
    requires c > 0 && ParentOf(c) == id && Above(c, r) && OpenPath(t, c, r)
    requires id < |t| && t[id] != 2
    ensures OpenPath(t, id, r) && Above(id, r)
  {
    AboveTrans(id, c, r);
    forall x: nat | Above(id, x) && Above(x, r) && x != r
      ensures x < |t| && t[x] != 2
    {
      AboveLinear(c, x, r);
      if !Above(c, x) {
        AboveDepth(id, x);
        AboveDepth(x, id);
      }
    }
  }

  // What the search returns is empty, of the wanted depth, and under no full node.
  lemma {:induction false} DfsFinds(t: seq<nat>, depth: nat, id: nat, sz: nat)
    requires Complete(t, depth) && Depth(id) <= sz <= depth
    ensures var r := Dfs(t, depth, Depth(id), id, sz);
            r != -1 ==> 0 <= r < |t| && Depth(r) == sz && Above(id, r) && t[r] == 0 && OpenPath(t, id, r)
    decreases sz - Depth(id)
  {
    InTree(t, depth, id);
    var r := Dfs(t, depth, Depth(id), id, sz);
    if r != -1 {
      if Depth(id) == sz {
        forall x: nat | Above(id, x) && Above(x, r)
          ensures x == r
        {
          AboveDepth(id, x);
          AboveDepth(x, r);
        }
      } else {
        assert Depth(2 * id + 1) == Depth(2 * id + 2) == Depth(id) + 1;
        DfsFinds(t, depth, 2 * id + 1, sz);
        DfsFinds(t, depth, 2 * id + 2, sz);
        var c := if Dfs(t, depth, Depth(id) + 1, 2 * id + 1, sz) != -1 then 2 * id + 1 else 2 * id + 2;
        OpenPathUp(t, id, c, r);
      }
    }
  }

  /** The search from the root returns a free block, and fails only when there is none. */
  lemma DfsExact(t: seq<nat>, depth: nat, taken: set<nat>, sz: nat)
    requires TreeOk(t, depth, taken) && 1 <= sz <= depth
    ensures var r := Dfs(t, depth, 0, 0, sz);
            if r == -1 then forall y :: Depth(y) == sz ==> !FreeBlock(taken, y)
            else r > 0 && r < |t| && Depth(r) == sz && FreeBlock(taken, r)
  {
    var r := Dfs(t, depth, 0, 0, sz);
    if r == -1 {
      forall y | Depth(y) == sz
        ensures !FreeBlock(taken, y)
      {
        RootAbove(y);
        DfsFails(t, depth, taken, 0, sz, y);
      }
    } else {
      DfsFinds(t, depth, 0, sz);
      assert NodeRight(t, taken, r);
      forall a | a in taken
        ensures !Above(a, r)
      {
        RootAbove(a);
        assert NodeRight(t, taken, a);
      }
    }
  }

  // ---- the update -------------------------------------------------------------------------

  // Nodes not above cur are right for the new set; those above it are still as before.
  ghost predicate Updated(t0: seq<nat>, t: seq<nat>, taken: set<nat>, cur: nat) {
    && |t| == |t0|
    && (forall x :: 0 < x < |t| && !Above(x, cur) ==> NodeRight(t, taken, x))
    && (forall x :: 0 <= x < |t| && Above(x, cur) ==> t[x] == t0[x])
  }

  function Sibling(id: nat): nat
    requires id > 0
  {
    if id % 2 == 1 then id + 1 else id - 1
  }

  lemma SiblingInTree(t: seq<nat>, depth: nat, id: nat)
    requires Complete(t, depth) && 0 < id < |t|
    ensures Sibling(id) < |t| && ParentOf(Sibling(id)) == ParentOf(id)
    ensures BothFull(t, ParentOf(id)) <==> t[id] == 2 && t[Sibling(id)] == 2
    ensures !Above(Sibling(id), id) && !Above(id, Sibling(id))
  {
    if Above(Sibling(id), id) {
      AboveDepth(Sibling(id), id);
    }
    if Above(id, Sibling(id)) {
      AboveDepth(id, Sibling(id));
    }
    assert Pow2(depth + 1) % 2 == 0;
  }

  // A free block keeps the rest of the tree right when it is taken.
  lemma TakeStart(t: seq<nat>, depth: nat, taken: set<nat>, id: nat)
    requires TreeOk(t, depth, taken) && 0 < id < |t| && FreeBlock(taken, id)
    ensures Updated(t, t, taken + {id}, id)
  {
    forall x | 0 < x < |t| && !Above(x, id)
      ensures NodeRight(t, taken + {id}, x)
    {
      assert NodeRight(t, taken, x);
    }
  }

  // One node of the path, rewritten: full if it is the block itself or both children are.
  lemma TakeStep(t0: seq<nat>, t: seq<nat>, depth: nat, taken: set<nat>, id: nat, cur: nat, merge: bool)
    requires TreeOk(t0, depth, taken) && FreeBlock(taken, id) && 0 < id < |t0|
    requires 0 < cur && Above(cur, id) && Updated(t0, t, taken + {id}, cur)
    requires merge <==> cur == id || BothFull(t, cur)
    ensures cur < |t|
    ensures Updated(t0, t[cur := if merge then 2 else 1], taken + {id}, ParentOf(cur))
  {
    AboveDepth(cur, id);
    var t' := t[cur := if merge then 2 else 1];
    var now := taken + {id};
    assert cur != id ==> cur !in taken;
    forall x | 0 < x < |t'| && !Above(x, ParentOf(cur))
      ensures NodeRight(t', now, x)
    {
      if x == cur {
        assert id in now && Above(cur, id);
        assert BothFull(t', cur) == BothFull(t, cur);
      } else {
        AboveChild(x, cur);
        assert NodeRight(t, now, x);
        assert x != ParentOf(cur);
        assert BothFull(t', x) == BothFull(t, x);
      }
    }
    forall x | 0 <= x < |t'| && Above(x, ParentOf(cur))
      ensures t'[x] == t0[x]
    {
      AboveDepth(x, ParentOf(cur));
      AboveChild(x, cur);
    }
  }

  // The whole path is rewritten and the root is set when both halves are full.
  lemma TakeEnd(t0: seq<nat>, t: seq<nat>, depth: nat, taken: set<nat>, id: nat)
    requires TreeOk(t0, depth, taken) && FreeBlock(taken, id) && 0 < id < |t0|
    requires Updated(t0, t, taken + {id}, 0) && t0[0] != 2
    ensures TreeOk(t[0 := if BothFull(t, 0) then 2 else t[0]], depth, taken + {id})
  {
    var t' := t[0 := if BothFull(t, 0) then 2 else t[0]];
    var now := taken + {id};
    assert Above(0, 0);
    forall x | 0 < x < |t'|
      ensures NodeRight(t', now, x)
    {
      if Above(x, 0) {
        AboveDepth(x, 0);
      }
      assert NodeRight(t, now, x);
    }
    forall a, b | a in now && b in now && Above(a, b)
      ensures a == b
    {
    }
  }

  // ---- addresses ----------------------------------------------------------------------------

  // The block of a node, as an offset from the start of the managed memory.
  function BlockSize(id: nat): nat
    requires Depth(id) <= TOP
  {
    Pow2(TOP - Depth(id))
  }

  // The position of a node among those of its depth.
  function BlockIndex(id: nat): int {
    id - Pow2(Depth(id)) + 1
  }

  function BlockStart(id: nat): int
    requires Depth(id) <= TOP
  {
    BlockSize(id) * BlockIndex(id)
  }

  lemma {:induction false} BlockInside(x: nat, y: nat)
    requires Above(x, y) && Depth(y) <= TOP
    ensures Depth(x) <= TOP
    ensures BlockStart(x) <= BlockStart(y) && BlockStart(y) + BlockSize(y) <= BlockStart(x) + BlockSize(x)
    decreases y
  {
    AboveDepth(x, y);
    if x != y {
      var p := ParentOf(y);
      HalfBlock(y);
      BlockInside(x, p);
    }
  }

  lemma HalfBlock(y: nat)
    requires y > 0 && Depth(y) <= TOP
    ensures BlockSize(ParentOf(y)) == 2 * BlockSize(y)
    ensures BlockStart(y) == BlockStart(ParentOf(y)) + if y % 2 == 1 then 0 else BlockSize(y)
  {
    var p := ParentOf(y);
    Pow2Step(TOP - Depth(p));
    Pow2Step(Depth(y));
    HalfIndex(y, p, Pow2(Depth(p)));
    HalfSlot(BlockSize(y), BlockSize(p), BlockIndex(p), BlockIndex(y), y % 2 == 1);
  }

  lemma HalfIndex(y: nat, p: nat, first: nat)
    requires y > 0 && p == ParentOf(y)
    ensures y - 2 * first + 1 == 2 * (p - first + 1) + if y % 2 == 1 then 0 else 1
  {
  }

  // Slot k of size 2*b splits into slots 2*k and 2*k + 1 of size b.
  lemma HalfSlot(b: nat, bb: nat, k: int, j: int, left: bool)
    requires bb == 2 * b && j == 2 * k + if left then 0 else 1
    ensures b * j == bb * k + if left then 0 else b
  {
    assert (2 * b) * k == b * (2 * k);
    assert b * (2 * k + 1) == b * (2 * k) + b;
  }

  lemma SlotsInOrder(b: nat, i: int, j: int)
    requires i < j
    ensures b * i + b <= b * j
  {
    MulMono(i + 1, j, b);
    assert b * j == j * b && b * i + b == (i + 1) * b;
  }

  predicate Separate(x: nat, y: nat)
    requires Depth(x) <= TOP && Depth(y) <= TOP
  {
    BlockStart(x) + BlockSize(x) <= BlockStart(y) || BlockStart(y) + BlockSize(y) <= BlockStart(x)
  }

  /** Blocks of which neither contains the other do not overlap. */
  lemma {:induction false} BlocksSeparate(x: nat, y: nat)
    requires Depth(x) <= TOP && Depth(y) <= TOP && !Above(x, y) && !Above(y, x)
    ensures Separate(x, y)
    decreases x + y
  {
    if Depth(x) < Depth(y) {
      AboveChild(x, y);
      BlocksSeparateUp(x, y);
    } else if Depth(y) < Depth(x) {
      AboveChild(y, x);
      BlocksSeparateUp(y, x);
    } else {
      SameLevel(x, y);
    }
  }

  lemma {:induction false} BlocksSeparateUp(x: nat, y: nat)
    requires Depth(x) < Depth(y) <= TOP && !Above(x, y)
    ensures Separate(x, y)
    decreases y
  {
    var p := ParentOf(y);
    BlockInside(p, y);
    if Depth(x) < Depth(p) {
      BlocksSeparateUp(x, p);
    } else {
      SameLevel(x, p);
    }
  }

  lemma SameLevel(x: nat, y: nat)
    requires Depth(x) == Depth(y) <= TOP && x != y
    ensures Separate(x, y)
  {
    if x < y {
      SlotsInOrder(BlockSize(x), BlockIndex(x), BlockIndex(y));
    } else {
      SlotsInOrder(BlockSize(x), BlockIndex(y), BlockIndex(x));
    }
  }

  /** In every state of the tree the blocks handed out are disjoint and inside the memory. */
  lemma TakenDisjoint(t: seq<nat>, depth: nat, taken: set<nat>, x: nat, y: nat)
    requires TreeOk(t, depth, taken) && depth <= TOP && x in taken && y in taken && x != y
    ensures Depth(x) <= TOP && Depth(y) <= TOP && Separate(x, y)
    ensures 0 <= BlockStart(x) && BlockStart(x) + BlockSize(x) <= BlockSize(0)
  {
    InTree(t, depth, x);
    InTree(t, depth, y);
    BlocksSeparate(x, y);
    RootAbove(x);
    BlockInside(0, x);
    RootBlock();
  }

  lemma RootBlock()
    ensures BlockStart(0) == 0 && BlockSize(0) == Pow2(TOP)
  {
    assert BlockIndex(0) == 0;
  }

  // ---- calls and runs --------------------------------------------------------------------------

  datatype Pointer = Null | At(address: int)

  datatype Buddy = Buddy(t: seq<nat>, taken: set<nat>, locked: bool)

  // What one call does. It needs the lock, and keeps it if the answer is NULL. The whole
  // memory is granted unless both halves are full, and nothing is noted then.
  ghost predicate Call(a: Buddy, b: Buddy, depth: nat, huge: nat, sz: nat, p: Pointer, id: nat) {
    && sz <= TOP && !a.locked && (b.locked <==> p.Null?) && TreeOk(b.t, depth, b.taken)
    && (sz == TOP || p.Null? ==> b.t == a.t && b.taken == a.taken)
    && if sz == TOP then p == if BothFull(a.t, 0) then Null else At(huge)
       else
         && (p.Null? <==> forall y :: Depth(y) == TOP - sz ==> !FreeBlock(a.taken, y))
         && (p.At? ==> FreeBlock(a.taken, id) && Depth(id) == TOP - sz && b.taken == a.taken + {id}
                       && p.address == huge + BlockStart(id))
  }

  function ZeroTree(depth: nat): seq<nat> {
    seq(Pow2(depth + 1) - 1, i => 0)
  }

  lemma ZeroOk(depth: nat)
    requires depth >= 1
    ensures Complete(ZeroTree(depth), depth) && TreeOk(ZeroTree(depth), depth, {})
  {
    Pow2Mono(1, depth + 1);
  }

  datatype Answer = Answer(sz: nat, p: Pointer, id: nat)

  // The calls, with their answers, lead from a to b.
  ghost predicate Calls(a: Buddy, b: Buddy, depth: nat, huge: nat, answers: seq<Answer>)
    decreases |answers|
  {
    if |answers| == 0 then b == a
    else
      var last := answers[|answers| - 1];
      exists m :: Calls(a, m, depth, huge, answers[..|answers| - 1])
                  && Call(m, b, depth, huge, last.sz, last.p, last.id)
  }

  // The bytes of two grants do not overlap.
  predicate GrantsApart(a: Answer, b: Answer)
    requires a.p.At? && b.p.At?
  {
    a.p.address + Pow2(a.sz) <= b.p.address || b.p.address + Pow2(b.sz) <= a.p.address
  }

  // A grant is a noted block, or the whole memory.
  ghost predicate Noted(b: Buddy, depth: nat, huge: nat, a: Answer) {
    && a.sz <= TOP
    && (a.p.At? ==>
          if a.sz == TOP then a.p.address == huge
          else a.id in b.taken && Depth(a.id) == TOP - a.sz && a.p.address == huge + BlockStart(a.id))
  }

  predicate IsBlock(a: Answer) {
    a.p.At? && a.sz < TOP
  }

  // The grants of a run are noted, each as a block of its own, and only the last answer can be NULL.
  ghost predicate RunNoted(b: Buddy, depth: nat, huge: nat, answers: seq<Answer>) {
    && TreeOk(b.t, depth, b.taken)
    && (forall i :: 0 <= i < |answers| ==> Noted(b, depth, huge, answers[i]))
    && (forall i, j :: 0 <= i < j < |answers| && IsBlock(answers[i]) && IsBlock(answers[j]) ==>
          answers[i].id != answers[j].id)
    && (forall i :: 0 <= i < |answers| && answers[i].p.Null? ==> i == |answers| - 1)
    && (b.locked <==> |answers| > 0 && answers[|answers| - 1].p.Null?)
  }

  lemma {:induction false} CallsNoted(b: Buddy, depth: nat, huge: nat, answers: seq<Answer>)
    requires depth >= 1 && Calls(Buddy(ZeroTree(depth), {}, false), b, depth, huge, answers)
    ensures RunNoted(b, depth, huge, answers)
    decreases |answers|
  {
    if |answers| == 0 {
      ZeroOk(depth);
    } else {
      var k := |answers| - 1;
      var last := answers[k];
      var m :| Calls(Buddy(ZeroTree(depth), {}, false), m, depth, huge, answers[..k])
               && Call(m, b, depth, huge, last.sz, last.p, last.id);
      CallsNoted(m, depth, huge, answers[..k]);
      NotedMore(m, b, depth, huge, answers[..k], last);
      assert answers[..k] + [last] == answers;
    }
  }

  lemma NotedMore(m: Buddy, b: Buddy, depth: nat, huge: nat, answers: seq<Answer>, last: Answer)
    requires RunNoted(m, depth, huge, answers) && Call(m, b, depth, huge, last.sz, last.p, last.id)
    ensures RunNoted(b, depth, huge, answers + [last])
  {
    var all := answers + [last];
    assert last.sz < TOP && last.p.At? ==> FreeBlock(m.taken, last.id);
    forall i | 0 <= i < |answers|
      ensures Noted(b, depth, huge, all[i]) && all[i].p.At?
      ensures IsBlock(all[i]) && IsBlock(last) ==> all[i].id != last.id
    {
      assert all[i] == answers[i] && Noted(m, depth, huge, answers[i]);
      assert Above(last.id, last.id);
    }
    assert Noted(b, depth, huge, last);
  }

  /** From the cleared tree, whatever is asked for: a NULL is the last answer there is, the
      lock being kept, and two grants overlap exactly if one of them is the whole memory. */
  lemma GrantsOfRun(b: Buddy, depth: nat, huge: nat, answers: seq<Answer>, i: nat, j: nat)
    requires 1 <= depth <= TOP && Calls(Buddy(ZeroTree(depth), {}, false), b, depth, huge, answers)
    requires i < j < |answers|
    ensures answers[i].p.At? && (b.locked <==> answers[|answers| - 1].p.Null?)
    ensures answers[j].p.At? ==> (GrantsApart(answers[i], answers[j]) <==> answers[i].sz < TOP && answers[j].sz < TOP)
  {
    CallsNoted(b, depth, huge, answers);
    if answers[j].p.At? {
      TwoGrants(b, depth, huge, answers[i], answers[j]);
    }
  }

  lemma TwoGrants(b: Buddy, depth: nat, huge: nat, x: Answer, y: Answer)
    requires TreeOk(b.t, depth, b.taken) && depth <= TOP && Noted(b, depth, huge, x) && Noted(b, depth, huge, y)
    requires x.p.At? && y.p.At? && (IsBlock(x) && IsBlock(y) ==> x.id != y.id)
    ensures GrantsApart(x, y) <==> x.sz < TOP && y.sz < TOP
  {
    GrantInside(b, depth, huge, x);
    GrantInside(b, depth, huge, y);
    if x.sz < TOP && y.sz < TOP {
      GrantSize(x.id, x.sz);
      GrantSize(y.id, y.sz);
      TakenDisjoint(b.t, depth, b.taken, x.id, y.id);
    } else {
      GrantSize(0, TOP);
    }
  }

  /** Every grant of a run lies in the memory, aligned to its size. */
  lemma GrantOfRun(b: Buddy, depth: nat, huge: nat, answers: seq<Answer>, i: nat)
    requires 1 <= depth <= TOP && Calls(Buddy(ZeroTree(depth), {}, false), b, depth, huge, answers)
    requires i < |answers| && answers[i].p.At?
    ensures huge <= answers[i].p.address && answers[i].p.address + Pow2(answers[i].sz) <= huge + BlockSize(0)
    ensures (answers[i].p.address - huge) % Pow2(answers[i].sz) == 0
  {
    CallsNoted(b, depth, huge, answers);
    GrantInside(b, depth, huge, answers[i]);
  }

  // ---- two runs that go wrong -----------------------------------------------------------------

  ghost function Cleared(depth: nat): Buddy { Buddy(ZeroTree(depth), {}, false) }

  lemma {:induction false} CallsMore(a: Buddy, m: Buddy, b: Buddy, depth: nat, huge: nat, answers: seq<Answer>,
                                     last: Answer)
    requires Calls(a, m, depth, huge, answers) && Call(m, b, depth, huge, last.sz, last.p, last.id)
    ensures Calls(a, b, depth, huge, answers + [last])
  {
    var all := answers + [last];
    assert all[|all| - 1] == last && all[..|all| - 1] == answers;
  }

  lemma CallsTwo(a: Buddy, m: Buddy, b: Buddy, depth: nat, huge: nat, x: Answer, y: Answer)
    requires Call(a, m, depth, huge, x.sz, x.p, x.id) && Call(m, b, depth, huge, y.sz, y.p, y.id)
    ensures Calls(a, b, depth, huge, [x, y])
  {
    CallsMore(a, a, m, depth, huge, [], x);
    assert [] + [x] == [x];
    CallsMore(a, m, b, depth, huge, [x], y);
    assert [x] + [y] == [x, y];
  }

  // The whole memory, asked for twice, is granted twice.
  lemma WholeTwice(depth: nat, huge: nat)
    requires 1 <= depth <= TOP
    ensures var whole := Answer(TOP, At(huge), 0);
            && Calls(Cleared(depth), Cleared(depth), depth, huge, [whole, whole])
            && !GrantsApart(whole, whole)
  {
    var whole, start := Answer(TOP, At(huge), 0), Cleared(depth);
    ZeroOk(depth);
    assert Call(start, start, depth, huge, whole.sz, whole.p, whole.id);
    CallsTwo(start, start, start, depth, huge, whole, whole);
  }

  // The tree with the first half of the memory handed out, or both.
  function HalvesTree(depth: nat, both: bool): seq<nat>
    requires depth >= 1
  {
    Pow2Mono(2, depth + 1);
    var t := ZeroTree(depth)[1 := 2];
    if both then t[2 := 2][0 := 2] else t
  }

  ghost function HalvesTaken(both: bool): set<nat> { if both then {1, 2} else {1} }

  lemma HalvesApart()
    ensures !Above(1, 2) && !Above(2, 1)
  {
    if Above(1, 2) { AboveDepth(1, 2); }
    if Above(2, 1) { AboveDepth(2, 1); }
  }

  lemma HalvesOk(depth: nat, both: bool)
    requires depth >= 1
    ensures TreeOk(HalvesTree(depth, both), depth, HalvesTaken(both))
  {
    var t, taken := HalvesTree(depth, both), HalvesTaken(both);
    HalvesApart();
    Pow2Mono(2, depth + 1);
    assert |t| == |ZeroTree(depth)| == Pow2(depth + 1) - 1;
    forall id | 0 < id < |t|
      ensures NodeRight(t, taken, id)
    {
      assert Above(id, id);
      forall a | a in taken && Above(id, a)
        ensures id == a
      {
        AboveDepth(id, a);
      }
    }
  }

  // With both halves handed out a third request gets NULL and keeps the lock.
  lemma LockKept(depth: nat, huge: nat)
    requires 1 <= depth <= TOP
    ensures var half := TOP - 1;
            var answers := [Answer(half, At(huge), 1), Answer(half, At(huge + Pow2(half)), 2), Answer(half, Null, 0)];
            Calls(Cleared(depth), Buddy(HalvesTree(depth, true), {1, 2}, true), depth, huge, answers)
  {
    var half := TOP - 1;
    var one, two := Answer(half, At(huge), 1), Answer(half, At(huge + Pow2(half)), 2);
    var none := Answer(half, Null, 0);
    var s0, s1 := Cleared(depth), Buddy(HalvesTree(depth, false), {1}, false);
    var s2, s3 := Buddy(HalvesTree(depth, true), {1, 2}, false), Buddy(HalvesTree(depth, true), {1, 2}, true);
    HalvesOk(depth, false);
    HalvesOk(depth, true);
    HalfAnswers(s0, s1, s2, s3, depth, huge, half);
    CallsTwo(s0, s1, s2, depth, huge, one, two);
    CallsMore(s0, s2, s3, depth, huge, [one, two], none);
    assert [one, two] + [none] == [one, two, none];
  }

  lemma HalfAnswers(s0: Buddy, s1: Buddy, s2: Buddy, s3: Buddy, depth: nat, huge: nat, half: nat)
    requires 1 <= depth <= TOP && half == TOP - 1
    requires s0 == Cleared(depth) && s1 == Buddy(HalvesTree(depth, false), {1}, false)
    requires s2 == Buddy(HalvesTree(depth, true), {1, 2}, false) && s3 == s2.(locked := true)
    requires TreeOk(s1.t, depth, s1.taken) && TreeOk(s2.t, depth, s2.taken)
    ensures Call(s0, s1, depth, huge, half, At(huge), 1)
    ensures Call(s1, s2, depth, huge, half, At(huge + Pow2(half)), 2)
    ensures Call(s2, s3, depth, huge, half, Null, 0)
  {
    HalvesApart();
    assert Depth(1) == 1 && Depth(2) == 1;
    GrantAddress(1, half);
    GrantAddress(2, half);
    assert FreeBlock({}, 1) && FreeBlock({1}, 2);
    forall y | Depth(y) == 1
      ensures !FreeBlock({1, 2}, y)
    {
      DepthBounds(y);
      assert y in {1, 2} && Above(y, y);
    }
  }

  lemma GrantInside(b: Buddy, depth: nat, huge: nat, a: Answer)
    requires TreeOk(b.t, depth, b.taken) && depth <= TOP && Noted(b, depth, huge, a) && a.p.At?
    ensures huge <= a.p.address && a.p.address + Pow2(a.sz) <= huge + BlockSize(0)
    ensures (a.p.address - huge) % Pow2(a.sz) == 0 && Pow2(a.sz) > 0
  {
    if a.sz < TOP {
      GrantSize(a.id, a.sz);
      BlockInMemory(a.id);
    } else {
      GrantSize(0, a.sz);
      DivModUnique(a.p.address - huge, 0, Pow2(a.sz), 0);
    }
  }

  lemma GrantSize(id: nat, sz: nat)
    requires sz <= TOP && Depth(id) == TOP - sz
    ensures BlockSize(id) == Pow2(sz)
  {
    assert TOP - Depth(id) == sz;
  }

  lemma GrantAddress(id: nat, sz: nat)
    requires sz <= TOP && Depth(id) == TOP - sz
    ensures BlockStart(id) == Pow2(sz) * (id - Pow2(TOP - sz) + 1) && (id == 0 ==> BlockStart(id) == 0)
  {
    GrantSize(id, sz);
  }

  lemma BlockInMemory(id: nat)
    requires Depth(id) <= TOP
    ensures 0 <= BlockStart(id) && BlockStart(id) + BlockSize(id) <= BlockSize(0)
    ensures BlockSize(id) > 0 && BlockStart(id) % BlockSize(id) == 0
  {
    RootBlock();
    RootAbove(id);
    BlockInside(0, id);
    DivModUnique(BlockStart(id), BlockIndex(id), BlockSize(id), 0);
  }

  class BuddyTree {
    const intree: array<nat>
    const huge: nat                // HUGE, where the managed memory starts
    const depth: nat
    var locked: bool               // b_lock
    ghost var taken: set<nat>

    ghost predicate Valid()
      reads this, intree
    {
      TreeOk(intree[..], depth, taken) && depth <= TOP
    }

    ghost function Now(): Buddy
      reads this, intree
    {
      Buddy(intree[..], taken, locked)
    }

    // All nodes are free and nobody holds the lock.
    constructor (huge: nat, depth: nat)
      requires 1 <= depth <= TOP
      ensures Valid() && this.huge == huge && this.depth == depth && fresh(intree)
      ensures Now() == Buddy(ZeroTree(depth), {}, false)
    {
      intree := new nat[Pow2(depth + 1) - 1](_ => 0);
      this.huge, this.depth, locked, taken := huge, depth, false, {};
      new;
      assert intree[..] == ZeroTree(depth);
      ZeroOk(depth);
    }

    // The lock must be free, or the call would wait for ever; the original gives it back
    // only when the search succeeds.
    method HugeAlloc(sz: nat) returns (p: Pointer, ghost id: nat)
      requires Valid() && !locked && TOP - depth <= sz <= TOP
      modifies this`taken, this`locked, intree
      ensures Valid() && Call(old(Now()), Now(), depth, huge, sz, p, id)
    {
      id := 0;
      var dep := TOP - sz;
      locked := true;
      ghost var t0 := intree[..];
      var found := Dfs(intree[..], depth, 0, 0, dep);
      if dep > 0 {
        DfsExact(t0, depth, taken, dep);
      }
      if found == -1 {
        return Null, 0;
      }
      var node: nat := found;
      id := node;
      MarkPath(node);
      if node > 0 {
        taken := taken + {id};
      }
      locked := false;
      var seq0 := node - Pow2(dep) + 1;
      p := At(Pow2(sz) * seq0 + huge);
      GrantAddress(node, sz);
    }

    method MarkPath(id: nat)
      requires Valid() && id < intree.Length && (if id > 0 then FreeBlock(taken, id) else intree[0] == 0)
      modifies intree
      ensures id > 0 ==> TreeOk(intree[..], depth, taken + {id})
      ensures id == 0 ==> intree[..] == old(intree[..])
    {
      ghost var t0 := intree[..];
      if id > 0 {
        TakeStart(t0, depth, taken, id);
        RootNotFull(t0, depth, taken, id);
      }
      var cur: nat := id;
      var merge := true;
      while cur > 0
        invariant Above(cur, id) && (id == 0 ==> intree[..] == t0)
        invariant id > 0 ==> Updated(t0, intree[..], taken + {id}, cur)
        invariant cur > 0 ==> (merge <==> cur == id || BothFull(intree[..], cur))
      {
        TakeStep(t0, intree[..], depth, taken, id, cur, merge);
        ghost var t1 := intree[..];
        if merge {
          intree[cur] := 2;
        } else {
          intree[cur] := 1;
        }
        assert intree[..] == t1[cur := if merge then 2 else 1];
        merge := false;
        AboveChild(ParentOf(cur), cur);
        AboveTrans(ParentOf(cur), cur, id);
        AboveDepth(cur, id);
        SiblingInTree(intree[..], depth, cur);
        var neib := if cur % 2 == 1 then cur + 1 else cur - 1;
        if intree[neib] == 2 && intree[cur] == 2 {
          merge := true;
        }
        cur := (cur - 1) / 2;
      }
      if id > 0 {
        TakeEnd(t0, intree[..], depth, taken, id);
      }
      HasHalves(intree[..], depth);
      ghost var t2 := intree[..];
      if intree[1] == 2 && intree[2] == 2 {
        intree[0] := 2;
      }
      assert intree[..] == t2[0 := if BothFull(t2, 0) then 2 else t2[0]];
    }
  }

  lemma HasHalves(t: seq<nat>, depth: nat)
    requires Complete(t, depth)
    ensures |t| >= 3
  {
    Pow2Mono(2, depth + 1);
  }

  lemma RootNotFull(t: seq<nat>, depth: nat, taken: set<nat>, id: nat)
    requires TreeOk(t, depth, taken) && 0 < id < |t| && FreeBlock(taken, id)
    ensures t[0] != 2
  {
    if t[0] == 2 {
      RootAbove(id);
      FullHasNoFree(t, depth, taken, 0, id);
    }
  }
}
