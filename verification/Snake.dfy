/** The snake: a linked list of straight runs, changed in place each frame, that stands for
    the list of points it lies on; every move drops the tail's point and adds the head's. */
module Snake {

  const SIDE: int := 5
  const LEN: nat := 10

  // ---- points and runs ---------------------------------------------------------------------------

  datatype Point = Point(x: int, y: int)

  datatype Dir = Up | Down | Left | Right

  function Go(p: Point, d: Dir): Point {
    match d
    case Up => Point(p.x, p.y - SIDE)
    case Down => Point(p.x, p.y + SIDE)
    case Left => Point(p.x - SIDE, p.y)
    case Right => Point(p.x + SIDE, p.y)
  }

  // A segment's fields: across or vertical, towards larger or smaller coordinates, its start
  // along its direction, its other coordinate, and its length in steps.
  datatype Run = Run(st: int, len: int, status: bool, towards: bool, another: int) {
    function Heading(): Dir {
      if status then (if towards then Right else Left) else (if towards then Down else Up)
    }

    // The point k steps along.
    function At(k: int): Point {
      var a := if towards then st + k * SIDE else st - k * SIDE;
      if status then Point(a, another) else Point(another, a)
    }
  }

  // The points of a run after its first.
  function Steps(r: Run, k: nat): seq<Point> {
    if k == 0 then [] else Steps(r, k - 1) + [r.At(k)]
  }

  function Tail(runs: seq<Run>): seq<Point> {
    if |runs| == 0 then []
    else
      var r := runs[|runs| - 1];
      Tail(runs[..|runs| - 1]) + Steps(r, if r.len < 0 then 0 else r.len)
  }

  // The points the snake lies on, from its tail to its head.
  function Points(runs: seq<Run>): seq<Point>
    requires |runs| > 0
  {
    [runs[0].At(0)] + Tail(runs)
  }

  // Every run begins where the one behind it ends.
  predicate Joined(runs: seq<Run>) {
    && (forall i :: 0 <= i < |runs| ==> runs[i].len >= 1)
    && (forall i :: 0 <= i < |runs| - 1 ==> runs[i].At(runs[i].len) == runs[i + 1].At(0))
  }

  function Head(runs: seq<Run>): Point
    requires |runs| > 0
  {
    runs[|runs| - 1].At(runs[|runs| - 1].len)
  }

  function Length(runs: seq<Run>): int {
    if |runs| == 0 then 0 else Length(runs[..|runs| - 1]) + runs[|runs| - 1].len
  }

  // The snake moves one step: the tail's point goes, a new one comes in front of the head.
  function Moved(points: seq<Point>, d: Dir): seq<Point>
    requires |points| > 0
  {
    points[1..] + [Go(points[|points| - 1], d)]
  }

  lemma {:induction false} StepsLength(r: Run, k: nat)
    ensures |Steps(r, k)| == k
  {
    if k > 0 {
      StepsLength(r, k - 1);
    }
  }

  lemma {:induction false} TailLength(runs: seq<Run>)
    requires forall i :: 0 <= i < |runs| ==> runs[i].len >= 1
    ensures |Tail(runs)| == Length(runs)
  {
    if |runs| > 0 {
      TailLength(runs[..|runs| - 1]);
      StepsLength(runs[|runs| - 1], runs[|runs| - 1].len);
    }
  }

  lemma LastPoint(runs: seq<Run>)
    requires |runs| > 0 && Joined(runs)
    ensures |Points(runs)| == Length(runs) + 1
    ensures Points(runs)[|Points(runs)| - 1] == Head(runs)
  {
    TailLength(runs);
    TailLength(runs[..|runs| - 1]);
    StepsLength(runs[|runs| - 1], runs[|runs| - 1].len - 1);
  }

  function Grown(runs: seq<Run>): seq<Run>
    requires |runs| > 0
  {
    var k := |runs| - 1;
    runs[k := runs[k].(len := runs[k].len + 1)]
  }

  // A longer last run: one more point, in the run's direction.
  lemma GrowHead(runs: seq<Run>)
    requires |runs| > 0 && Joined(runs)
    ensures Joined(Grown(runs))
    ensures Points(Grown(runs)) == Points(runs) + [Go(Head(runs), runs[|runs| - 1].Heading())]
  {
    var k := |runs| - 1;
    var r, longer := runs[k], Grown(runs);
    assert longer[..k] == runs[..k];
    SameSteps(r, longer[k], r.len);
    assert longer[0].At(0) == runs[0].At(0);
  }

  lemma {:induction false} SameSteps(r: Run, s: Run, k: nat)
    requires s == r.(len := s.len)
    ensures Steps(s, k) == Steps(r, k)
  {
    if k > 0 {
      SameSteps(r, s, k - 1);
    }
  }

  // A new run from the head: one more point, in the new direction.
  lemma AddRun(runs: seq<Run>, r: Run)
    requires |runs| > 0 && Joined(runs) && r.len == 1 && r.At(0) == Head(runs)
    ensures Joined(runs + [r]) && Points(runs + [r]) == Points(runs) + [Go(Head(runs), r.Heading())]
  {
    assert (runs + [r])[..|runs|] == runs;
    assert Steps(r, 1) == Steps(r, 0) + [r.At(1)];
  }

  // The tail's run without its first step, or the next run if that was all of it.
  function DropStep(runs: seq<Run>): seq<Run>
    requires |runs| > 0
  {
    var r := runs[0];
    if r.len - 1 <= 0 then runs[1..]
    else runs[0 := r.(len := r.len - 1, st := if r.towards then r.st + SIDE else r.st - SIDE)]
  }

  lemma {:induction false} ShiftSteps(r: Run, s: Run, k: nat)
    requires s.At(0) == r.At(1) && s.status == r.status && s.towards == r.towards
    ensures [r.At(1)] + Steps(s, k) == Steps(r, k + 1)
  {
    if k > 0 {
      ShiftSteps(r, s, k - 1);
      assert s.At(k) == r.At(k + 1);
    } else {
      assert Steps(r, 1) == Steps(r, 0) + [r.At(1)];
    }
  }

  lemma {:induction false} TailFirst(runs: seq<Run>)
    requires |runs| > 0 && Joined(runs)
    ensures Tail(runs) == Steps(runs[0], runs[0].len) + Tail(runs[1..])
  {
    var k := |runs| - 1;
    if k > 0 {
      TailFirst(runs[..k]);
      assert runs[..k][1..] == runs[1..][..k - 1];
    } else {
      assert runs[..0] == [] && runs[1..] == [];
    }
  }

  lemma {:induction false} StepsEnd(r: Run, k: nat)
    requires k > 0
    ensures |Steps(r, k)| == k && Steps(r, k)[k - 1] == r.At(k)
  {
    StepsLength(r, k - 1);
  }

  lemma DropStepParts(runs: seq<Run>)
    requires |runs| > 0
    ensures var r := runs[0];
            DropStep(runs) == if r.len - 1 <= 0 then runs[1..]
                              else [Shifted(r.(len := r.len - 1))] + runs[1..]
  {
  }

  lemma DropRun(runs: seq<Run>)
    requires |runs| > 1 && Joined(runs) && runs[0].len == 1
    ensures Joined(runs[1..]) && Points(runs[1..]) == Points(runs)[1..]
  {
    TailFirst(runs);
    var r := runs[0];
    assert Steps(r, 1) == Steps(r, 0) + [r.At(1)];
    assert Points(runs)[1..] == Tail(runs);
  }

  lemma ShiftedShort(r: Run)
    ensures var s := Shifted(r.(len := r.len - 1)); s.At(0) == r.At(1) && s.At(s.len) == r.At(r.len)
  {
  }

  lemma DropFirstStep(runs: seq<Run>, s: Run)
    requires |runs| > 0 && Joined(runs) && runs[0].len > 1
    requires s == Shifted(runs[0].(len := runs[0].len - 1))
    ensures Joined([s] + runs[1..]) && Points([s] + runs[1..]) == Points(runs)[1..]
  {
    var r, less := runs[0], [s] + runs[1..];
    ShiftedShort(r);
    TailFirst(runs);
    TailFirst(less);
    assert less[1..] == runs[1..];
    ShiftSteps(r, s, s.len);
    assert Points(runs)[1..] == Tail(runs);
  }

  // Without that step the first point is gone, and nothing else.
  lemma DropTail(runs: seq<Run>)
    requires |runs| > 0 && Joined(runs) && Length(runs) > 1
    ensures var less := DropStep(runs);
            |less| > 0 && Joined(less) && Points(less) == Points(runs)[1..]
  {
    assert Length(runs[..0]) == 0;
    DropStepParts(runs);
    if runs[0].len == 1 {
      DropRun(runs);
    } else {
      DropFirstStep(runs, DropStep(runs)[0]);
    }
  }

  lemma OneRun(r: Run)
    requires r.len >= 1
    ensures Joined([r]) && Length([r]) == r.len && Head([r]) == r.At(r.len)
    ensures Points([r]) == [r.At(0)] + Steps(r, r.len)
  {
    assert [r][..0] == [];
    assert Tail([r]) == Steps(r, r.len);
  }

  // A run moved along by one step.
  function Shifted(r: Run): Run { r.(st := if r.towards then r.st + SIDE else r.st - SIDE) }

  lemma MovedTail(p: Point, steps: seq<Point>, d: Dir)
    requires |steps| > 0
    ensures Moved([p] + steps, d) == steps + [Go(steps[|steps| - 1], d)]
  {
  }

  // A snake of one run only moves along.
  lemma ShiftRun(r: Run)
    requires r.len >= 1
    ensures Joined([Shifted(r)]) && Points([Shifted(r)]) == Moved(Points([r]), r.Heading())
  {
    var n: nat, s := r.len, Shifted(r);
    OneRun(r);
    OneRun(s);
    StartShifted(r);
    ShiftSteps(r, s, n);
    StepsEnd(r, n);
    NextAt(r, n);
    MovedTail(r.At(0), Steps(r, n), r.Heading());
  }

  lemma StartShifted(r: Run)
    ensures Shifted(r).At(0) == r.At(1)
  {
  }

  lemma NextAt(r: Run, k: nat)
    ensures Go(r.At(k), r.Heading()) == r.At(k + 1) && Steps(r, k + 1) == Steps(r, k) + [r.At(k + 1)]
  {
  }

  // Growing at the head and losing the tail's step is a move of the whole snake.
  lemma {:induction false} MoveOn(runs: seq<Run>, grown: seq<Run>, d: Dir)
    requires |runs| > 0 && Joined(runs) && |grown| > 0 && Joined(grown)
    requires Points(grown) == Points(runs) + [Go(Head(runs), d)]
    ensures grown[0].len <= 1 ==> |grown| > 1
    ensures var less := DropStep(grown);
            && |less| > 0 && Joined(less) && Length(less) == Length(runs)
            && Points(less) == Moved(Points(runs), d) && Head(less) == Go(Head(runs), d)
  {
    LastPoint(runs);
    LastPoint(grown);
    assert Length(grown[..0]) == 0;
    DropTail(grown);
    LastPoint(DropStep(grown));
  }

  // The whole snake has moved one step that way.
  ghost predicate Stepped(runs: seq<Run>, now: seq<Run>, d: Dir)
    requires |runs| > 0
  {
    && |now| > 0 && Joined(now) && Length(now) == Length(runs)
    && Points(now) == Moved(Points(runs), d) && Head(now) == Go(Head(runs), d)
    && now[|now| - 1].Heading() == d
  }

  lemma StepAside(runs: seq<Run>, r: Run)
    requires |runs| > 0 && Joined(runs) && r.len == 1 && r.At(0) == Head(runs)
    ensures Stepped(runs, DropStep(runs + [r]), r.Heading())
    ensures runs[0].len <= 1 ==> |runs + [r]| > 1
  {
    AddRun(runs, r);
    MoveOn(runs, runs + [r], r.Heading());
  }

  lemma StepAhead(runs: seq<Run>)
    requires |runs| > 1 && Joined(runs)
    ensures Stepped(runs, DropStep(Grown(runs)), runs[|runs| - 1].Heading())
  {
    GrowHead(runs);
    MoveOn(runs, Grown(runs), runs[|runs| - 1].Heading());
  }

  lemma StepAlone(r: Run)
    requires r.len >= 1
    ensures Stepped([r], [Shifted(r)], r.Heading())
  {
    ShiftRun(r);
    OneRun(r);
    OneRun(Shifted(r));
  }

  // ---- the snake as a path ----------------------------------------------------------------------

  predicate Adjacent(p: Point, q: Point) { exists d: Dir :: q == Go(p, d) }

  predicate Connected(points: seq<Point>) {
    forall i :: 0 <= i < |points| - 1 ==> Adjacent(points[i], points[i + 1])
  }

  lemma {:induction false} StepsConnected(r: Run, k: nat)
    ensures Connected([r.At(0)] + Steps(r, k))
    ensures |Steps(r, k)| == k && ([r.At(0)] + Steps(r, k))[k..] == [r.At(k)]
  {
    StepsLength(r, k);
    if k > 0 {
      StepsConnected(r, k - 1);
      assert r.At(k) == Go(r.At(k - 1), r.Heading());
      assert [r.At(0)] + Steps(r, k) == [r.At(0)] + Steps(r, k - 1) + [r.At(k)];
    }
  }

  // Joined runs make one path without gaps.
  lemma {:induction false} PointsConnected(runs: seq<Run>)
    requires |runs| > 0 && Joined(runs)
    ensures Connected(Points(runs))
  {
    var k := |runs| - 1;
    var r := runs[k];
    StepsConnected(r, r.len);
    if k == 0 {
      OneRun(r);
      assert runs == [r];
    } else {
      var before := runs[..k];
      PointsConnected(before);
      LastPoint(before);
      var n := |Points(before)|;
      assert Points(runs) == Points(before) + Steps(r, r.len);
      StepsLength(r, r.len);
      forall i | 0 <= i < |Points(runs)| - 1
        ensures Adjacent(Points(runs)[i], Points(runs)[i + 1])
      {
        if i >= n - 1 {
          var path := [r.At(0)] + Steps(r, r.len);
          assert Points(runs)[i] == path[i - n + 1] && Points(runs)[i + 1] == path[i - n + 2];
        } else {
          assert Adjacent(Points(before)[i], Points(before)[i + 1]);
        }
      }
    }
  }

  // ---- frames on the points alone ------------------------------------------------------------------

  datatype Track = Track(points: seq<Point>, d: Dir)

  function Frame(t: Track, key: Key): Track {
    if Moves(t.d, key) && |t.points| > 0 then Track(Moved(t.points, Turn(t.d, key)), Turn(t.d, key)) else t
  }

  function Frames(t: Track, keys: seq<Key>): Track {
    if |keys| == 0 then t else Frame(Frames(t, keys[..|keys| - 1]), keys[|keys| - 1])
  }

  lemma FramesNext(t: Track, keys: seq<Key>, n: nat)
    requires n < |keys|
    ensures Frames(t, keys[..n + 1]) == Frame(Frames(t, keys[..n]), keys[n])
  {
    assert keys[..n + 1][..n] == keys[..n];
  }

  // The frame ends the game: Escape, or a move that leads off the field.
  predicate Ends(t: Track, key: Key, w: int, h: int) {
    || key == Escape
    || (Moves(t.d, key) && |t.points| > 0 && !InField(Go(t.points[|t.points| - 1], Turn(t.d, key)), w, h))
  }

  predicate EndsAt(t: Track, keys: seq<Key>, i: nat, w: int, h: int)
    requires i < |keys|
  {
    Ends(Frames(t, keys[..i]), keys[i], w, h)
  }

  predicate NoneEnds(t: Track, keys: seq<Key>, n: nat, w: int, h: int)
    requires n <= |keys|
  {
    forall i :: 0 <= i < n ==> !EndsAt(t, keys, i, w, h)
  }

  lemma NoneEndsNext(t: Track, keys: seq<Key>, n: nat, w: int, h: int)
    requires n < |keys| && NoneEnds(t, keys, n, w, h)
    ensures NoneEnds(t, keys, n + 1, w, h) <==> !EndsAt(t, keys, n, w, h)
  {
  }

  // Whatever the keys, the path keeps its length and stays without gaps.
  lemma {:induction false} FramesKeep(t: Track, keys: seq<Key>)
    requires |t.points| > 0 && Connected(t.points)
    ensures |Frames(t, keys).points| == |t.points| && Connected(Frames(t, keys).points)
  {
    if |keys| > 0 {
      FramesKeep(t, keys[..|keys| - 1]);
      var before, key := Frames(t, keys[..|keys| - 1]), keys[|keys| - 1];
      var n := |before.points|;
      if Moves(before.d, key) {
        var after := Moved(before.points, Turn(before.d, key));
        assert Adjacent(before.points[n - 1], after[n - 1]);
        forall i | 0 <= i < n - 1
          ensures Adjacent(after[i], after[i + 1])
        {
          assert i < n - 2 ==> Adjacent(before.points[i + 1], before.points[i + 1 + 1]);
        }
      }
    }
  }

  lemma FrameHead(t: Track, key: Key)
    requires |t.points| > 0 && Moves(t.d, key)
    ensures |Frame(t, key).points| == |t.points|
    ensures Frame(t, key).points[|t.points| - 1] == Go(t.points[|t.points| - 1], Turn(t.d, key))
  {
  }

  function Idle(n: nat): seq<Key> { seq(n, i => NoKey) }

  // n frames without a key: n steps along the way the snake is on.
  lemma {:induction false} GoesOn(t: Track, n: nat)
    requires |t.points| > 0
    ensures var now, p, far := Frames(t, Idle(n)), t.points[|t.points| - 1], SIDE * n;
            && |now.points| == |t.points| && now.d == t.d
            && now.points[|t.points| - 1] == match t.d
                 case Up => Point(p.x, p.y - far)
                 case Down => Point(p.x, p.y + far)
                 case Left => Point(p.x - far, p.y)
                 case Right => Point(p.x + far, p.y)
  {
    if n > 0 {
      GoesOn(t, n - 1);
      assert Idle(n)[..n - 1] == Idle(n - 1);
      FrameHead(Frames(t, Idle(n - 1)), NoKey);
    }
  }

  lemma {:induction false} FramesAfter(t: Track, key: Key, keys: seq<Key>)
    ensures Frames(t, [key] + keys) == Frames(Frame(t, key), keys)
  {
    var n := |keys|;
    if n == 0 {
      assert ([key] + keys)[..0] == [];
    } else {
      FramesAfter(t, key, keys[..n - 1]);
      assert ([key] + keys)[..n] == [key] + keys[..n - 1];
    }
  }

  /** A snake heading to a side is steered up the field by W and down by S, one heading up or
      down to the left by A and to the right by D, and so it goes on until the next key. */
  lemma SteerAndGo(t: Track, key: Key, n: nat)
    requires |t.points| > 0
    ensures var now, p := Frames(t, [key] + Idle(n)), t.points[|t.points| - 1];
            var far := SIDE + SIDE * n;
            && |now.points| == |t.points|
            && var q := now.points[|t.points| - 1];
               && (t.d == Left || t.d == Right ==>
                    && (key == W ==> now.d == Up && q == Point(p.x, p.y - far))
                    && (key == S ==> now.d == Down && q == Point(p.x, p.y + far)))
               && (t.d == Up || t.d == Down ==>
                    && (key == A ==> now.d == Left && q == Point(p.x - far, p.y))
                    && (key == D ==> now.d == Right && q == Point(p.x + far, p.y)))
  {
    FramesAfter(t, key, Idle(n));
    if Moves(t.d, key) { FrameHead(t, key); }
    GoesOn(Frame(t, key), n);
  }

  datatype Key = NoKey | Released | W | A | S | D | Escape | OtherKey

  // Where a key sends a snake that is heading somewhere: only ever to its side.
  function Turn(d: Dir, key: Key): Dir {
    if key == W && (d == Left || d == Right) then Up
    else if key == S && (d == Left || d == Right) then Down
    else if key == A && (d == Up || d == Down) then Left
    else if key == D && (d == Up || d == Down) then Right
    else d
  }

  // A frame moves the snake unless a key came that does not turn it.
  predicate Moves(d: Dir, key: Key) { key == NoKey || Turn(d, key) != d }

  predicate InField(p: Point, w: int, h: int) { 0 <= p.x <= w && 0 <= p.y <= h }

  class Segment {
    var st: int
    var len: int
    var status: bool
    var towards: bool
    var another: int
    var front: Segment?

    constructor (st: int, len: int, status: bool, towards: bool, another: int)
      ensures Value() == Run(st, len, status, towards, another) && front == null
    {
      this.st, this.len, this.status, this.towards, this.another, front := st, len, status, towards, another, null;
    }

    function Value(): Run
      reads this
    {
      Run(st, len, status, towards, another)
    }
  }

  ghost function Values(body: seq<Segment>): (r: seq<Run>)
    reads body
    ensures |r| == |body| && forall i :: 0 <= i < |body| ==> r[i] == body[i].Value()
  {
    seq(|body|, i requires 0 <= i < |body| reads body => body[i].Value())
  }

  class Game {
    const w: int
    const h: int
    var beg: Segment
    var end: Segment
    ghost var body: seq<Segment>   // from the tail's segment to the head's
    ghost var nodes: set<Segment>  // every segment there has been

    ghost predicate Linked()
      reads this, body
    {
      && |body| > 0 && body[0] == end && body[|body| - 1] == beg && beg.front == null
      && (forall i :: 0 <= i < |body| - 1 ==> body[i].front == body[i + 1])
      && (forall i, j :: 0 <= i < j < |body| ==> body[i] != body[j])
      && (forall i :: 0 <= i < |body| ==> body[i] in nodes)
    }

    ghost function Runs(): seq<Run>
      reads this, body
    {
      Values(body)
    }

    ghost predicate Valid()
      reads this, body
    {
      Linked() && Joined(Runs()) && Length(Runs()) == LEN
    }

    ghost function Snake(): seq<Point>
      reads this, body
      requires |body| > 0
    {
      Points(Runs())
    }

    ghost function HeadPoint(): Point
      reads this, body
      requires |body| > 0
    {
      Head(Runs())
    }

    ghost function Heading(): Dir
      reads this, body
      requires |body| > 0
    {
      Runs()[|body| - 1].Heading()
    }

    constructor (w: int, h: int)
      requires w >= 0 && h >= 0
      ensures Valid() && this.w == w && this.h == h
      ensures fresh(nodes) && HeadPoint() == Point(w / 2 + LEN * SIDE, h / 2) && Heading() == Right
    {
      this.w, this.h := w, h;
      var s := new Segment(w / 2, LEN, true, true, h / 2);
      beg, end, body, nodes := s, s, [s], {s};
      new;
      OneRun(s.Value());
      assert Runs() == [s.Value()];
    }

    // The tail's last step goes; a segment without steps leaves the list.
    method LogicForEnd()
      requires Linked() && (end.len <= 1 ==> |body| > 1)
      modifies this`end, this`body, end`len, end`st
      ensures Linked() && Runs() == DropStep(old(Runs()))
    {
      ghost var runs := Runs();
      ghost var rest, goal := runs[1..], DropStep(runs);
      DropStepParts(runs);
      ShortenEnd(rest);
      if end.len <= 0 {
        Unlink(goal);
      } else {
        MoveEnd(runs[0], rest, goal);
      }
    }

    method ShortenEnd(ghost rest: seq<Run>)
      requires Linked() && rest == Runs()[1..]
      modifies end`len
      ensures Linked() && |body| == |rest| + 1 && end.Value() == old(end.Value()).(len := old(end.len) - 1)
      ensures forall i :: 0 < i < |body| ==> body[i].Value() == rest[i - 1]
    {
      assert forall i :: 0 < i < |body| ==> body[i] != body[0] && body[i].Value() == rest[i - 1];
      end.len := end.len - 1;
    }

    method Unlink(ghost rest: seq<Run>)
      requires Linked() && |rest| > 0 && |body| == |rest| + 1
      requires forall i :: 0 < i < |body| ==> body[i].Value() == rest[i - 1]
      modifies this`end, this`body
      ensures Linked() && Runs() == rest && body == old(body)[1..]
    {
      assert body[0].front == body[1];
      end := end.front;
      body := body[1..];
    }

    method MoveEnd(ghost r: Run, ghost rest: seq<Run>, ghost goal: seq<Run>)
      requires Linked() && |body| == |rest| + 1 && end.Value() == r.(len := r.len - 1)
      requires forall i :: 0 < i < |body| ==> body[i].Value() == rest[i - 1]
      requires goal == [Shifted(r.(len := r.len - 1))] + rest
      modifies end`st
      ensures Linked() && Runs() == goal
    {
      if end.towards {
        end.st := end.st + SIDE;
      } else {
        end.st := end.st - SIDE;
      }
      assert forall i :: 0 < i < |body| ==> body[i] != body[0];
    }

    // A turn: a new segment of one step at the head, and one step less at the tail.
    method NewSegCreate(status: bool, towards: bool) returns (code: int)
      requires Valid() && beg.status != status
      modifies this`beg, this`end, this`body, this`nodes, nodes
      ensures code == 0 ==> Valid() && Stepped(old(Runs()), Runs(), SideOf(status, towards))
      ensures code != 0 ==> Valid() && Runs() == old(Runs())
      ensures fresh(nodes - old(nodes))
      ensures old(InField(HeadPoint(), w, h)) ==>
                (code != 0 <==> !InField(Go(old(HeadPoint()), SideOf(status, towards)), w, h))
    {
      code := TurnDead(status, towards);
      if code != 0 { return; }
      TurnTo(status, towards);
    }

    method TurnTo(status: bool, towards: bool)
      requires Valid() && beg.status != status
      modifies this`beg, this`end, this`body, this`nodes, nodes
      ensures Valid() && Stepped(old(Runs()), Runs(), SideOf(status, towards))
      ensures fresh(nodes - old(nodes))
    {
      ghost var runs := Runs();
      ghost var r := AddSegment(status, towards);
      StepAside(runs, r);
      LogicForEnd();
    }

    method AddSegment(status: bool, towards: bool) returns (ghost r: Run)
      requires Linked() && beg.status != status
      modifies this`beg, this`body, this`nodes, beg`front
      ensures Linked() && Runs() == old(Runs()) + [r] && end.Value() == old(Runs())[0]
      ensures r.len == 1 && r.At(0) == old(HeadPoint()) && r.Heading() == SideOf(status, towards)
      ensures fresh(nodes - old(nodes))
    {
      var seg := new Segment(beg.another, 1, status, towards,
                             if beg.towards then beg.st + beg.len * SIDE else beg.st - beg.len * SIDE);
      r := seg.Value();
      assert Runs()[|body| - 1] == beg.Value();
      Link(seg);
    }

    function SideOf(status: bool, towards: bool): Dir {
      if status then (if towards then Right else Left) else (if towards then Down else Up)
    }

    method TurnDead(status: bool, towards: bool) returns (code: int)
      requires Valid() && beg.status != status
      ensures InField(HeadPoint(), w, h) ==> (code != 0 <==> !InField(Go(HeadPoint(), SideOf(status, towards)), w, h))
    {
      code := 0;
      if !towards {
        if beg.another - SIDE < 0 { code := 5; }
      } else {
        if status && beg.another + SIDE > w { code := 6; }
        else if !status && beg.another + SIDE > h { code := 7; }
      }
      assert Runs()[|body| - 1] == beg.Value();
    }

    method Link(seg: Segment)
      requires Linked() && seg !in nodes && seg.front == null
      modifies this`beg, this`body, this`nodes, beg`front
      ensures Linked() && body == old(body) + [seg] && nodes == old(nodes) + {seg}
      ensures Runs() == old(Runs()) + [seg.Value()]
      ensures end == old(end) && seg.Value() == old(seg.Value())
    {
      beg.front := seg;
      beg := seg;
      body, nodes := body + [seg], nodes + {seg};
    }

    // Straight on: the head's segment grows, or a single segment moves along.
    method Forward() returns (code: int)
      requires Valid()
      modifies this`end, this`body, nodes
      ensures code == 0 ==> Valid() && Stepped(old(Runs()), Runs(), old(Heading()))
      ensures code != 0 ==> Valid() && Runs() == old(Runs())
      ensures old(InField(HeadPoint(), w, h)) ==>
                (code != 0 <==> !InField(Go(old(HeadPoint()), old(Heading())), w, h))
    {
      code := AheadDead();
      if code != 0 { return; }
      if beg == end {
        MoveAlong();
      } else {
        Grow();
      }
    }

    method MoveAlong()
      requires Valid() && beg == end
      modifies beg`st
      ensures Valid() && Stepped(old(Runs()), Runs(), old(Heading()))
    {
      ghost var r := beg.Value();
      assert |body| == 1 && Runs() == [r];
      ShiftAlone();
      StepAlone(r);
    }

    method ShiftAlone()
      requires Linked() && beg == end && |body| == 1
      modifies beg`st
      ensures Linked() && Runs() == [Shifted(old(beg.Value()))]
    {
      if beg.towards {
        beg.st := beg.st + SIDE;
      } else {
        beg.st := beg.st - SIDE;
      }
    }

    method Grow()
      requires Valid() && beg != end
      modifies this`end, this`body, nodes
      ensures Valid() && Stepped(old(Runs()), Runs(), old(Heading()))
    {
      ghost var runs := Runs();
      GrowBeg();
      LogicForEnd();
      StepAhead(runs);
    }

    method GrowBeg()
      requires Linked()
      modifies beg`len
      ensures Linked() && body == old(body) && Runs() == Grown(old(Runs()))
    {
      ghost var runs := Runs();
      beg.len := beg.len + 1;
      assert Runs() == Grown(runs);
    }

    method AheadDead() returns (code: int)
      requires Valid()
      ensures InField(HeadPoint(), w, h) ==> (code != 0 <==> !InField(Go(HeadPoint(), Heading()), w, h))
    {
      code := 0;
      if !beg.towards && beg.st - SIDE * (beg.len + 1) < 0 {
        code := 2;
      } else if beg.towards {
        if beg.status && beg.st + SIDE * (beg.len + 1) > w { code := 3; }
        if !beg.status && beg.st + SIDE * (beg.len + 1) > h { code := 4; }
      }
      assert Runs()[|body| - 1] == beg.Value();
    }

    // A key turns the snake only to its side.
    method KbdProcess(key: Key) returns (code: int)
      requires Valid()
      modifies this`beg, this`end, this`body, this`nodes, nodes
      ensures key == Escape ==> code == 1
      ensures key != Escape && Turn(old(Heading()), key) == old(Heading()) ==> code == 0
      ensures code != 0 || Turn(old(Heading()), key) == old(Heading()) ==> Valid() && Runs() == old(Runs())
      ensures code == 0 && Turn(old(Heading()), key) != old(Heading()) ==>
                Valid() && Stepped(old(Runs()), Runs(), Turn(old(Heading()), key))
      ensures fresh(nodes - old(nodes))
      ensures old(InField(HeadPoint(), w, h)) && Turn(old(Heading()), key) != old(Heading()) ==>
                (code != 0 <==> !InField(Go(old(HeadPoint()), Turn(old(Heading()), key)), w, h))
    {
      code := 0;
      assert Runs()[|body| - 1] == beg.Value();
      if key == Escape {
        code := 1;
      } else if key == W {
        if beg.status { code := NewSegCreate(false, false); }
      } else if key == S {
        if beg.status { code := NewSegCreate(false, true); }
      } else if key == D {
        if !beg.status { code := NewSegCreate(true, true); }
      } else if key == A {
        if !beg.status { code := NewSegCreate(true, false); }
      }
    }

    // The frame ends the game: Escape, or a move that leads off the field.
    ghost predicate Deadly(key: Key)
      reads this, body
      requires |body| > 0
    {
      || key == Escape
      || (Moves(Heading(), key) && !InField(Go(HeadPoint(), Turn(Heading(), key)), w, h))
    }

    // One frame.
    method GameProgress(key: Key) returns (code: int)
      requires Valid()
      modifies this`beg, this`end, this`body, this`nodes, nodes
      ensures Valid() && fresh(nodes - old(nodes))
      ensures code == 0 && Moves(old(Heading()), key) ==> Stepped(old(Runs()), Runs(), Turn(old(Heading()), key))
      ensures code != 0 || !Moves(old(Heading()), key) ==> Runs() == old(Runs())
      ensures old(InField(HeadPoint(), w, h)) ==>
                (code != 0 <==> old(Deadly(key)))
    {
      code := 0;
      if key != NoKey && key != Released {
        code := KbdProcess(key);
      } else if key == NoKey {
        code := Forward();
      }
    }

    ghost function Now(): Track
      reads this, body
      requires |body| > 0
    {
      Track(Snake(), Heading())
    }

    method PlayOne(key: Key) returns (code: int)
      requires Valid()
      modifies this`beg, this`end, this`body, this`nodes, nodes
      ensures Valid() && fresh(nodes - old(nodes))
      ensures Now() == if code == 0 then Frame(old(Now()), key) else old(Now())
      ensures code != 0 ==> Runs() == old(Runs())
      ensures old(InField(HeadPoint(), w, h)) ==>
                InField(HeadPoint(), w, h) && (code != 0 <==> Ends(old(Now()), key, w, h))
    {
      LastPoint(Runs());
      ghost var runs, d := Runs(), Heading();
      code := GameProgress(key);
      Followed(runs, Runs(), d, key, code);
    }

    // A step of the runs is a frame of the points.
    lemma Followed(runs: seq<Run>, now: seq<Run>, d: Dir, key: Key, code: int)
      requires |runs| > 0 && |now| > 0
      requires code == 0 && Moves(d, key) ==> Stepped(runs, now, Turn(d, key))
      requires code != 0 || !Moves(d, key) ==> now == runs
      requires d == runs[|runs| - 1].Heading()
      ensures Track(Points(now), now[|now| - 1].Heading()) ==
              if code == 0 then Frame(Track(Points(runs), d), key) else Track(Points(runs), d)
      ensures Head(now) == if code == 0 && Moves(d, key) then Go(Head(runs), Turn(d, key)) else Head(runs)
    {
    }

    /** Frame after frame the linked segments follow the points; from a head in the field the
        game ends at the first frame that brings Escape or leads off the field, if there is one. */
    method Play(keys: seq<Key>) returns (code: int, frames: nat)
      requires Valid()
      modifies this`beg, this`end, this`body, this`nodes, nodes
      ensures Valid() && frames <= |keys|
      ensures Now() == Frames(old(Now()), keys[..frames])
      ensures code == 0 <==> frames == |keys|
      ensures old(InField(HeadPoint(), w, h)) ==>
                NoneEnds(old(Now()), keys, frames, w, h) && (code != 0 ==> EndsAt(old(Now()), keys, frames, w, h))
    {
      code, frames := 0, 0;
      ghost var start, was, inside := Now(), nodes, InField(HeadPoint(), w, h);
      while frames < |keys| && code == 0
        invariant Valid() && frames <= |keys| && fresh(nodes - was)
        invariant Now() == Frames(start, keys[..frames])
        invariant code != 0 ==> frames < |keys|
        invariant inside ==> InField(HeadPoint(), w, h) && NoneEnds(start, keys, frames, w, h)
        invariant inside && code != 0 ==> EndsAt(start, keys, frames, w, h)
        decreases |keys| - frames, code == 0
      {
        assert EndsAt(start, keys, frames, w, h) == Ends(Now(), keys[frames], w, h);
        code := PlayOne(keys[frames]);
        if code == 0 {
          FramesNext(start, keys, frames);
          if inside { NoneEndsNext(start, keys, frames, w, h); }
          frames := frames + 1;
        }
      }
    }
  }
}
