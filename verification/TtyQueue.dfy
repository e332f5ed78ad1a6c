/** The terminal's input queue: typed characters are edited in a ring buffer until a
    newline finishes the line, and readers take finished lines, oldest first. */
module TtyQueue {

  const NUL: nat := 0
  const NEWLINE: nat := 10
  const BACKSPACE: nat := 8
  const TTY_COOK_BUF_SZ: nat := 1024

  // ---- the editing a user expects ------------------------------------------------------

  // The lines finished by a sequence of key strokes, each with its newline.
  function LinesOf(typed: seq<nat>): seq<seq<nat>> {
    if |typed| == 0 then [] else
    var k := |typed| - 1;
    if typed[k] == NEWLINE then LinesOf(typed[..k]) + [EditOf(typed[..k]) + [NEWLINE]]
    else LinesOf(typed[..k])
  }

  // The unfinished line: backspace takes back one character of this line, never more.
  function EditOf(typed: seq<nat>): seq<nat> {
    if |typed| == 0 then [] else
    var k := |typed| - 1;
    var e := EditOf(typed[..k]);
    if typed[k] == NEWLINE then []
    else if typed[k] == BACKSPACE then (if |e| == 0 then e else e[..|e| - 1])
    else e + [typed[k]]
  }

  function Truncate(line: seq<nat>, count: int): seq<nat> {
    if count <= 0 then [] else if count < |line| then line[..count] else line
  }

  function Backspaces(k: nat): seq<nat> { seq(k, i => BACKSPACE) }

  // Key strokes that only add characters.
  predicate NoEdits(text: seq<nat>) {
    forall i :: 0 <= i < |text| ==> text[i] != NEWLINE && text[i] != BACKSPACE
  }

  // Text typed in a line stands there.
  lemma {:induction false} TypedStands(typed: seq<nat>, text: seq<nat>)
    requires NoEdits(text)
    ensures EditOf(typed + text) == EditOf(typed) + text && LinesOf(typed + text) == LinesOf(typed)
  {
    if |text| == 0 {
      assert typed + text == typed;
    } else {
      var n := |text| - 1;
      TypedStands(typed, text[..n]);
      TypeOne(typed + text[..n], text[n]);
      assert typed + text == typed + text[..n] + [text[n]];
    }
  }

  // k backspaces take the last k characters of a line back.
  lemma {:induction false} Erased(typed: seq<nat>, before: seq<nat>, text: seq<nat>, k: nat)
    requires EditOf(typed) == before + text && k <= |text|
    ensures EditOf(typed + Backspaces(k)) == before + text[..|text| - k]
    ensures LinesOf(typed + Backspaces(k)) == LinesOf(typed)
  {
    if k == 0 {
      assert typed + Backspaces(k) == typed;
    } else {
      Erased(typed, before, text, k - 1);
      EraseOne(typed + Backspaces(k - 1), before, text[..|text| - (k - 1)]);
      assert typed + Backspaces(k) == typed + Backspaces(k - 1) + [BACKSPACE];
    }
  }

  lemma EraseOne(typed: seq<nat>, before: seq<nat>, text: seq<nat>)
    requires EditOf(typed) == before + text && |text| > 0
    ensures EditOf(typed + [BACKSPACE]) == before + text[..|text| - 1]
    ensures LinesOf(typed + [BACKSPACE]) == LinesOf(typed)
  {
    TypeOne(typed, BACKSPACE);
    assert (before + text)[..|before + text| - 1] == before + text[..|text| - 1];
  }

  /** A line typed from its start, with its last k characters taken back and more backspaces than
      it has characters doing nothing, is finished by a newline as what is left of it. */
  lemma LineAsTyped(typed: seq<nat>, text: seq<nat>, k: nat)
    requires NoEdits(text) && EditOf(typed) == []
    ensures var all := typed + text + Backspaces(k) + [NEWLINE];
            && LinesOf(all) == LinesOf(typed) + [text[..if k < |text| then |text| - k else 0] + [NEWLINE]]
            && EditOf(all) == []
  {
    var all := typed + text + Backspaces(k);
    TypedStands(typed, text);
    if k <= |text| {
      Erased(typed + text, [], text, k);
    } else {
      Erased(typed + text, [], text, |text|);
      NothingToErase(typed + text + Backspaces(|text|), k - |text|);
      assert typed + text + Backspaces(|text|) + Backspaces(k - |text|) == all;
    }
    assert EditOf(all) == text[..if k < |text| then |text| - k else 0];
    assert (all + [NEWLINE])[..|all|] == all;
  }

  // At the start of a line backspaces do nothing.
  lemma {:induction false} NothingToErase(typed: seq<nat>, k: nat)
    requires k > 0 ==> EditOf(typed) == []
    ensures EditOf(typed + Backspaces(k)) == EditOf(typed) && LinesOf(typed + Backspaces(k)) == LinesOf(typed)
  {
    var all := typed + Backspaces(k);
    if k > 0 {
      NothingToErase(typed, k - 1);
      assert all[..|all| - 1] == typed + Backspaces(k - 1);
    } else {
      assert all == typed;
    }
  }

  predicate Plain(text: seq<nat>) {
    forall i :: 0 <= i < |text| ==> text[i] != NUL
  }

  lemma {:induction false} EditIsPlain(typed: seq<nat>)
    requires Plain(typed)
    ensures Plain(EditOf(typed))
    ensures forall i :: 0 <= i < |LinesOf(typed)| ==> Plain(LinesOf(typed)[i])
  {
    if |typed| > 0 {
      EditIsPlain(typed[..|typed| - 1]);
    }
  }

  // Finished lines as they stand in the buffer, each behind its terminator.
  function Flat(lines: seq<seq<nat>>): seq<nat> {
    if |lines| == 0 then [] else Flat(lines[..|lines| - 1]) + lines[|lines| - 1] + [NUL]
  }

  lemma {:induction false} FlatFirst(lines: seq<seq<nat>>)
    requires |lines| > 0
    ensures Flat(lines) == lines[0] + [NUL] + Flat(lines[1..])
  {
    var k := |lines| - 1;
    if k == 0 {
      assert lines[..0] == [] && lines[1..] == [];
    } else {
      FlatFirst(lines[..k]);
      assert lines[..k][1..] == lines[1..][..k - 1];
    }
  }

  lemma FlatEnds(lines: seq<seq<nat>>)
    requires |lines| > 0
    ensures |Flat(lines)| > 0 && Flat(lines)[|Flat(lines)| - 1] == NUL
  {
  }

  // c is what a queue holds of the key strokes: the finished lines, so many, that have not
  // been taken yet, and the line being edited.
  ghost predicate Queued(typed: seq<nat>, taken: nat, c: seq<nat>, finished: int) {
    exists edit :: edit == EditOf(typed)
      && Plain(typed) && taken <= |LinesOf(typed)| && finished == |LinesOf(typed)| - taken
      && c == Flat(LinesOf(typed)[taken..]) + edit
  }

  // The place before another in a ring of n.
  function Before(i: nat, n: nat): nat
    requires i < n
  {
    if i == 0 then n - 1 else i - 1
  }

  datatype CookResult = Echo | Silent | QueueFull

  class Tty {
    const buf: array<nat>
    var front: nat
    var rear: nat
    var cooked: nat                // semaphore: finished lines not yet claimed by a reader
    ghost var pending: nat         // readers that have claimed a line and not yet taken it
    ghost var typed: seq<nat>      // every key stroke so far
    ghost var taken: nat           // lines taken so far

    function Contents(): seq<nat>
      reads this`front, this`rear, buf
      requires front < buf.Length && rear < buf.Length
    {
      if front <= rear then buf[front..rear] else buf[front..] + buf[..rear]
    }

    ghost predicate Ring()
      reads this`front, this`rear, buf
    {
      exists n: nat :: n == buf.Length
        && n >= 2 && front < n && rear < n && buf[rear] == NUL && buf[Before(front, n)] == NUL
    }

    ghost predicate Valid()
      reads this, buf
    {
      Ring() && Queued(typed, taken, Contents(), cooked + pending)
    }

    // Zeroed memory for the buffer.
    constructor (size: nat)
      requires size >= 2
      ensures Valid() && typed == [] && taken == 0 && pending == 0 && buf.Length == size
    {
      buf := new nat[size](i => NUL);
      front, rear, cooked, pending, typed, taken := 0, 0, 0, 0, [], 0;
      new;
      assert Contents() == [] && Before(front, buf.Length) < buf.Length;
      QueuedNothing();
    }

    // One character at the rear; a full queue stops the machine.
    method Enqueue(ch: nat) returns (ok: bool)
      requires Ring()
      modifies this`rear, buf
      ensures ok <==> |old(Contents())| + 1 < buf.Length
      ensures ok ==> Ring() && Contents() == old(Contents()) + [ch]
    {
      ghost var was := Contents();
      buf[rear] := ch;
      rear := rear + 1;
      if rear == buf.Length {
        rear := 0;
      }
      if rear == front {
        return false;
      }
      buf[rear] := NUL;
      assert Contents() == was + [ch];
      ok := true;
    }

    // Takes the last character back unless it ends a finished line or the queue is empty.
    method PopBack() returns (nothing: bool)
      requires Ring()
      modifies this`rear, buf
      ensures Ring()
      ensures var c := old(Contents());
              && nothing == (|c| == 0 || c[|c| - 1] == NUL)
              && Contents() == if nothing then c else c[..|c| - 1]
    {
      ghost var was := Contents();
      var pos := rear;
      if pos == 0 {
        pos := buf.Length;
      }
      if buf[pos - 1] != NUL {
        rear := pos - 1;
        buf[rear] := NUL;
        assert Contents() == was[..|was| - 1];
        return false;
      }
      return true;
    }

    // The newline and the terminator behind it.
    method EndLine() returns (ok: bool)
      requires Ring()
      modifies this`rear, buf
      ensures ok <==> |old(Contents())| + 2 < buf.Length
      ensures ok ==> Ring() && Contents() == old(Contents()) + [NEWLINE] + [NUL]
    {
      ok := Enqueue(NEWLINE);
      if ok {
        ok := Enqueue(NUL);
      }
    }

    // The front character, consumed.
    method Dequeue() returns (ch: nat)
      requires front < buf.Length && rear < buf.Length && |Contents()| > 0
      modifies this`front
      ensures front < buf.Length && ch == old(Contents())[0] == buf[Before(front, buf.Length)]
      ensures Contents() == old(Contents())[1..]
    {
      ch := buf[front];
      front := front + 1;
      if front == buf.Length {
        front := 0;
      }
    }

    // A key stroke. Echo and Silent are the return values 0 and 1 of the original.
    method Cook(ch: nat) returns (r: CookResult)
      requires Valid() && ch != NUL
      modifies this, buf
      ensures r.QueueFull? <==> Room(ch) + |old(Contents())| >= buf.Length
      ensures !r.QueueFull? ==> Valid()
      ensures !r.QueueFull? ==> typed == old(typed) + [ch] && taken == old(taken) && pending == old(pending)
      ensures r.Silent? <==> ch == BACKSPACE && |EditOf(old(typed))| == 0
    {
      r := CookQueue(ch, cooked + pending);
      typed := typed + [ch];
    }

    method CookQueue(ch: nat, ghost finished: int) returns (r: CookResult)
      requires Ring() && Queued(typed, taken, Contents(), finished) && ch != NUL
      modifies this`rear, this`cooked, buf
      ensures r.QueueFull? <==> Room(ch) + |old(Contents())| >= buf.Length
      ensures !r.QueueFull? ==> Ring() && Queued(typed + [ch], taken, Contents(), finished + cooked - old(cooked))
      ensures r.Silent? <==> ch == BACKSPACE && |EditOf(typed)| == 0
    {
      CookStep(typed, taken, ch, Contents(), finished);
      r := CookRing(ch);
    }

    // What it does to the ring and to the count of finished lines.
    method CookRing(ch: nat) returns (r: CookResult)
      requires Ring()
      modifies this`rear, this`cooked, buf
      ensures r.QueueFull? <==> Room(ch) + |old(Contents())| >= buf.Length
      ensures !r.QueueFull? ==> Ring() && Contents() == Keyed(old(Contents()), ch)
      ensures !r.QueueFull? ==> cooked == old(cooked) + if ch == NEWLINE then 1 else 0
      ensures r.Silent? <==> ch == BACKSPACE && AtLineEnd(old(Contents()))
    {
      if ch == NEWLINE {
        var ok := EndLine();
        if !ok {
          return QueueFull;
        }
        cooked := cooked + 1;
        r := Echo;
      } else if ch == BACKSPACE {
        var nothing := PopBack();
        r := if nothing then Silent else Echo;
      } else {
        var ok := Enqueue(ch);
        if !ok {
          return QueueFull;
        }
        r := Echo;
      }
    }

    // sem_wait on the finished lines: a reader claims one.
    method Claim() returns (ok: bool)
      requires Valid()
      modifies this`cooked, this`pending
      ensures Valid()
      ensures ok <==> old(cooked) > 0
      ensures pending == old(pending) + (if ok then 1 else 0)
    {
      ok := cooked > 0;
      if ok {
        cooked := cooked - 1;
        pending := pending + 1;
      }
    }

    // The claimed read: the oldest line, cut to count, its rest discarded.
    method Read(count: int) returns (data: seq<nat>)
      requires Valid() && pending > 0
      modifies this
      ensures Valid() && typed == old(typed) && taken == old(taken) + 1 && pending == old(pending) - 1
      ensures old(taken) < |LinesOf(old(typed))| && data == Truncate(LinesOf(old(typed))[old(taken)], count)
    {
      data := TakeOldest(count, cooked + pending);
      Taken();
    }

    // One finished line less in the books.
    ghost method Taken()
      requires Ring() && pending > 0 && Queued(typed, taken + 1, Contents(), cooked + pending - 1)
      modifies this`taken, this`pending
      ensures Valid() && taken == old(taken) + 1 && pending == old(pending) - 1
    {
      taken, pending := taken + 1, pending - 1;
    }

    method TakeOldest(count: int, ghost finished: int) returns (data: seq<nat>)
      requires Ring() && Queued(typed, taken, Contents(), finished) && finished > 0
      modifies this`front
      ensures Ring() && Queued(typed, taken + 1, Contents(), finished - 1)
      ensures taken < |LinesOf(typed)| && data == Truncate(LinesOf(typed)[taken], count)
    {
      ghost var rest := OldestLine(typed, taken, Contents(), finished);
      data := TakeLine(count, LinesOf(typed)[taken], rest);
    }

    method TakeLine(count: int, ghost line: seq<nat>, ghost rest: seq<nat>) returns (data: seq<nat>)
      requires Ring() && Plain(line) && Contents() == line + [NUL] + rest
      modifies this`front
      ensures Ring() && Contents() == rest
      ensures data == Truncate(line, count)
    {
      ghost var used := 0;
      data := [];
      var nread := 0;
      while true
        invariant front < buf.Length && used <= |line|
        invariant Contents() == line[used..] + [NUL] + rest
        invariant data == Truncate(line[..used], count) && nread == |data|
        decreases |line| - used
      {
        FirstOfLine(line, used, rest);
        var ch := Dequeue();
        if used < |line| {
          TruncateNext(line, used, count);
        }
        if nread < count && ch != NUL {
          data := data + [ch];
          nread := nread + 1;
        }
        if ch == NUL {
          break;
        }
        used := used + 1;
      }
      assert line[..used] == line;
    }
  }

  // What is next of a line and the rest of the queue.
  lemma FirstOfLine(line: seq<nat>, used: nat, rest: seq<nat>)
    requires used <= |line|
    ensures var c := line[used..] + [NUL] + rest;
            && c[0] == (if used < |line| then line[used] else NUL)
            && c[1..] == if used < |line| then line[used + 1..] + [NUL] + rest else rest
  {
  }

  lemma TruncateNext(line: seq<nat>, used: nat, count: int)
    requires used < |line|
    ensures var data := Truncate(line[..used], count);
            Truncate(line[..used + 1], count) == if |data| < count then data + [line[used]] else data
  {
  }

  lemma QueuedNothing()
    ensures Queued([], 0, [], 0)
  {
    var lines := LinesOf([]);
    assert lines[0..] == lines == [] && Flat(lines[0..]) + EditOf([]) == [];
  }

  // The oldest line of a queue, and what is left without it.
  lemma OldestLine(typed: seq<nat>, taken: nat, c: seq<nat>, finished: int) returns (rest: seq<nat>)
    requires Queued(typed, taken, c, finished) && finished > 0
    ensures taken < |LinesOf(typed)| && Plain(LinesOf(typed)[taken])
    ensures c == LinesOf(typed)[taken] + [NUL] + rest && Queued(typed, taken + 1, rest, finished - 1)
  {
    var lines := LinesOf(typed)[taken..];
    FlatFirst(lines);
    EditIsPlain(typed);
    assert LinesOf(typed)[taken + 1..] == lines[1..];
    rest := Flat(lines[1..]) + EditOf(typed);
    assert lines[0] + [NUL] + Flat(lines[1..]) + EditOf(typed) == lines[0] + [NUL] + rest;
  }

  // The places a key stroke needs.
  function Room(ch: nat): int {
    if ch == BACKSPACE then -1 else if ch == NEWLINE then 2 else 1
  }

  // Nothing to take back: the queue is empty or a line ends there.
  predicate AtLineEnd(c: seq<nat>) {
    |c| == 0 || c[|c| - 1] == NUL
  }

  // The queue after a key stroke.
  function Keyed(c: seq<nat>, ch: nat): seq<nat> {
    if ch == NEWLINE then c + [NEWLINE] + [NUL]
    else if ch == BACKSPACE then (if AtLineEnd(c) then c else c[..|c| - 1])
    else c + [ch]
  }

  // What a key stroke must do to the contents of the queue.
  lemma CookStep(typed: seq<nat>, taken: nat, ch: nat, c: seq<nat>, finished: int)
    requires Queued(typed, taken, c, finished) && ch != NUL
    ensures Queued(typed + [ch], taken, Keyed(c, ch), finished + if ch == NEWLINE then 1 else 0)
    ensures |EditOf(typed)| == 0 <==> AtLineEnd(c)
  {
    var lines, edit := LinesOf(typed)[taken..], EditOf(typed);
    TypeOne(typed, ch);
    EditIsPlain(typed);
    FlatSplit(lines, edit);
    if ch == NEWLINE {
      SuffixMore(LinesOf(typed), edit + [NEWLINE], taken);
      FlatMore(lines, edit + [NEWLINE]);
      JoinEnd(Flat(lines), edit);
    } else if ch == BACKSPACE {
      if |edit| > 0 {
        JoinLess(Flat(lines), edit);
      }
    } else {
      JoinMore(Flat(lines), edit, ch);
    }
  }

  lemma SuffixMore<T>(s: seq<T>, x: T, k: nat)
    requires k <= |s|
    ensures (s + [x])[k..] == s[k..] + [x]
  {
  }

  lemma JoinMore(f: seq<nat>, e: seq<nat>, ch: nat)
    ensures f + (e + [ch]) == f + e + [ch]
  {
  }

  lemma JoinLess(f: seq<nat>, e: seq<nat>)
    requires |e| > 0
    ensures f + e[..|e| - 1] == (f + e)[..|f + e| - 1]
  {
  }

  lemma JoinEnd(f: seq<nat>, e: seq<nat>)
    ensures f + (e + [NEWLINE]) + [NUL] + [] == f + e + [NEWLINE] + [NUL]
  {
  }

  lemma TypeOne(typed: seq<nat>, ch: nat)
    ensures (typed + [ch])[..|typed|] == typed && (Plain(typed) && ch != NUL ==> Plain(typed + [ch]))
    ensures LinesOf(typed + [ch])
         == if ch == NEWLINE then LinesOf(typed) + [EditOf(typed) + [NEWLINE]] else LinesOf(typed)
    ensures EditOf(typed + [ch]) == if ch == NEWLINE then [] else if ch == BACKSPACE
              then (if |EditOf(typed)| == 0 then [] else EditOf(typed)[..|EditOf(typed)| - 1])
              else EditOf(typed) + [ch]
  {
    assert (typed + [ch])[..|typed|] == typed;
  }

  lemma FlatMore(lines: seq<seq<nat>>, line: seq<nat>)
    ensures Flat(lines + [line]) == Flat(lines) + line + [NUL]
  {
    assert (lines + [line])[..|lines|] == lines;
  }

  // The last character of the queue is of the edited line exactly when there is one.
  lemma FlatSplit(lines: seq<seq<nat>>, edit: seq<nat>)
    requires Plain(edit)
    ensures var c := Flat(lines) + edit; |edit| == 0 <==> |c| == 0 || c[|c| - 1] == NUL
  {
    if |edit| == 0 && |lines| > 0 {
      FlatEnds(lines);
    }
  }
}
