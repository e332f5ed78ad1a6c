/** The terminal's screen: a flat buffer with a cursor that behaves like rows of cells, and
    incremental drawing that leaves the display as a full redraw would. */
module TtyScreen {
  import opened Bits

  const CR: nat := 13
  const BS: nat := 8
  const LF: nat := 10
  const CURSOR_GLYPH: nat := 0xdb

  // ---- a terminal of rows ------------------------------------------------------------

  datatype Term = Term(rows: seq<seq<nat>>, row: nat, col: nat)

  function Blank(columns: nat): seq<nat> { seq(columns, i => 0) }

  // Down one row; past the last row everything moves up and a blank row appears.
  function Feed(t: Term, columns: nat): Term {
    if t.row + 1 < |t.rows| then t.(row := t.row + 1)
    else if |t.rows| == 0 then t
    else t.(rows := t.rows[1..] + [Blank(columns)])
  }

  function WithCell(rows: seq<seq<nat>>, r: nat, c: nat, ch: nat): seq<seq<nat>> {
    if r < |rows| && c < |rows[r]| then
      var row: seq<nat> := rows[r][c := ch];
      rows[r := row]
    else rows
  }

  function Put(t: Term, columns: nat, ch: nat): Term
    requires columns > 0
  {
    if ch == CR then t.(col := 0)
    else if ch == BS then
      if t.col > 0 then Term(WithCell(t.rows, t.row, t.col - 1, 0), t.row, t.col - 1)
      else if t.row > 0 then Term(WithCell(t.rows, t.row - 1, columns - 1, 0), t.row - 1, columns - 1)
      else t
    else if ch == LF then Feed(t.(col := 0), columns)
    else
      var t' := t.(rows := WithCell(t.rows, t.row, t.col, ch));
      if t.col + 1 < columns then t'.(col := t.col + 1) else Feed(t'.(col := 0), columns)
  }

  function PutAll(t: Term, columns: nat, text: seq<nat>): Term
    requires columns > 0
  {
    if |text| == 0 then t
    else Put(PutAll(t, columns, text[..|text| - 1]), columns, text[|text| - 1])
  }

  // A backspace takes back the character before it, if that stood in an empty cell and did
  // not scroll the screen.
  lemma BackspaceUndoes(t: Term, columns: nat, ch: nat)
    requires columns > 0 && t.row < |t.rows| && |t.rows[t.row]| == columns && t.col < columns
    requires ch != CR && ch != BS && ch != LF
    requires t.rows[t.row][t.col] == 0 && (t.col + 1 < columns || t.row + 1 < |t.rows|)
    ensures Put(Put(t, columns, ch), columns, BS) == t
  {
    var row := t.rows[t.row];
    assert row[t.col := ch][t.col := 0] == row;
    assert t.rows[t.row := row[t.col := ch]][t.row := row] == t.rows;
  }

  // ---- the flat buffer as rows -------------------------------------------------------

  function RowsOf(cells: seq<nat>, columns: nat): seq<seq<nat>>
    requires columns > 0
  {
    if |cells| < columns then [] else [cells[..columns]] + RowsOf(cells[columns..], columns)
  }

  lemma {:induction false} RowsShape(cells: seq<nat>, columns: nat, lines: nat)
    requires columns > 0 && |cells| == lines * columns
    ensures |RowsOf(cells, columns)| == lines
    ensures forall r :: 0 <= r < lines ==> |RowsOf(cells, columns)[r]| == columns
  {
    if lines == 0 {
    } else {
      MulAtLeast(lines, columns);
      assert (lines - 1) * columns == lines * columns - columns;
      RowsShape(cells[columns..], columns, lines - 1);
    }
  }

  // A cell of the buffer is a cell of its row.
  lemma {:induction false} RowsCell(cells: seq<nat>, columns: nat, lines: nat, r: nat, c: nat, ch: nat)
    requires columns > 0 && |cells| == lines * columns && r < lines && c < columns
    ensures r * columns + c < |cells|
    ensures RowsOf(cells[r * columns + c := ch], columns) == WithCell(RowsOf(cells, columns), r, c, ch)
    decreases r
  {
    RowsShape(cells, columns, lines);
    MulMono(r + 1, lines, columns);
    assert (r + 1) * columns == r * columns + columns;
    var k := r * columns + c;
    if r > 0 {
      assert (r - 1) * columns == r * columns - columns;
      assert (lines - 1) * columns == lines * columns - columns;
      MulAtLeast(r, columns);
      RowsCell(cells[columns..], columns, lines - 1, r - 1, c, ch);
      assert cells[k := ch][columns..] == cells[columns..][k - columns := ch];
      assert cells[k := ch][..columns] == cells[..columns];
    } else {
      assert cells[k := ch][columns..] == cells[columns..];
    }
  }

  // Moving the buffer up by one row drops the first row.
  lemma {:induction false} RowsScroll(cells: seq<nat>, columns: nat, lines: nat)
    requires columns > 0 && |cells| == lines * columns && lines >= 1
    ensures |cells| >= columns
    ensures RowsOf(cells[columns..] + Blank(columns), columns) == RowsOf(cells, columns)[1..] + [Blank(columns)]
  {
    MulAtLeast(lines, columns);
    assert (lines - 1) * columns == lines * columns - columns;
    RowsAppend(cells[columns..], columns, lines - 1, Blank(columns));
  }

  lemma {:induction false} RowsAppend(cells: seq<nat>, columns: nat, lines: nat, last: seq<nat>)
    requires columns > 0 && |cells| == lines * columns && |last| == columns
    ensures RowsOf(cells + last, columns) == RowsOf(cells, columns) + [last]
  {
    if lines == 0 {
      assert cells + last == last;
      assert last[..columns] == last && last[columns..] == [];
    } else {
      MulAtLeast(lines, columns);
      assert (lines - 1) * columns == lines * columns - columns;
      RowsAppend(cells[columns..], columns, lines - 1, last);
      assert (cells + last)[..columns] == cells[..columns];
      assert (cells + last)[columns..] == cells[columns..] + last;
    }
  }

  // ---- the display -------------------------------------------------------------------

  datatype Sprite = Sprite(x: nat, y: nat, texture: nat)

  type Frame = map<(nat, nat), nat>

  // The accelerator draws the sprites in order.
  function DrawAll(fb: Frame, sprites: seq<Sprite>): Frame {
    if |sprites| == 0 then fb else
    var s := sprites[|sprites| - 1];
    DrawAll(fb, sprites[..|sprites| - 1])[(s.x, s.y) := s.texture]
  }

  // A cell is drawn with two tiles, the upper and the lower half of its glyph.
  predicate CellShows(fb: Frame, x: nat, y: nat, glyph: nat) {
    && (x * 8, y * 16) in fb && fb[(x * 8, y * 16)] == glyph * 2 + 1
    && (x * 8, y * 16 + 8) in fb && fb[(x * 8, y * 16 + 8)] == glyph * 2 + 2
  }

  predicate SameTile(a: Frame, b: Frame, key: (nat, nat)) {
    (key in a <==> key in b) && (key in a ==> a[key] == b[key])
  }

  // A cell looks the same in two frames.
  predicate SameCell(a: Frame, b: Frame, x: nat, y: nat) {
    SameTile(a, b, (x * 8, y * 16)) && SameTile(a, b, (x * 8, y * 16 + 8))
  }

  function Upper(x: nat, y: nat, glyph: nat): Sprite { Sprite(x * 8, y * 16, glyph * 2 + 1) }

  function Lower(x: nat, y: nat, glyph: nat): Sprite { Sprite(x * 8, y * 16 + 8, glyph * 2 + 2) }

  lemma DrawTwo(fb: Frame, sprites: seq<Sprite>, a: Sprite, b: Sprite)
    ensures DrawAll(fb, sprites + [a] + [b]) == DrawAll(fb, sprites)[(a.x, a.y) := a.texture][(b.x, b.y) := b.texture]
  {
    assert (sprites + [a] + [b])[..|sprites| + 1] == sprites + [a];
    assert (sprites + [a])[..|sprites|] == sprites;
  }

  // The two sprites of a cell draw that cell and touch no other.
  lemma DrawCell(fb: Frame, sprites: seq<Sprite>, x: nat, y: nat, glyph: nat)
    ensures CellShows(DrawAll(fb, sprites + [Upper(x, y, glyph)] + [Lower(x, y, glyph)]), x, y, glyph)
    ensures forall x': nat, y': nat {:trigger (x', y')} :: (x', y') != (x, y) ==>
              SameCell(DrawAll(fb, sprites), DrawAll(fb, sprites + [Upper(x, y, glyph)] + [Lower(x, y, glyph)]), x', y')
  {
    DrawTwo(fb, sprites, Upper(x, y, glyph), Lower(x, y, glyph));
  }

  // All that decides what a render draws.
  datatype Look = Look(cells: seq<nat>, cursor: nat, show: bool, dirty: seq<nat>) {
    function Glyph(i: nat): nat
      requires i < |cells|
    {
      if i == cursor && show then CURSOR_GLYPH else cells[i]
    }
  }

  // Every cell that looks different from before is marked, and no mark was lost.
  ghost predicate Marked(was: Look, now: Look) {
    && |was.cells| == |now.cells| == |was.dirty| == |now.dirty|
    && forall i :: 0 <= i < |now.cells| ==>
         now.dirty[i] != 0 || (was.dirty[i] == 0 && now.Glyph(i) == was.Glyph(i))
  }

  // Marking a whole row covers a move of the cursor within it.
  lemma MarkedByLine(was: Look, now: Look, columns: nat, r: nat)
    requires columns > 0 && |was.cells| == |was.dirty| == |now.dirty| && now.cells == was.cells && now.show == was.show
    requires now.cursor / columns == r && was.cursor / columns == r
    requires forall k :: 0 <= k < |now.dirty| ==> now.dirty[k] == if k / columns == r then 1 else was.dirty[k]
    ensures Marked(was, now)
  {
  }

  // Marking two cells covers changes there, with the cursor moving between them.
  lemma MarkedByCells(was: Look, now: Look, a: nat, b: nat)
    requires |was.cells| == |now.cells| == |was.dirty| == |now.dirty| && now.show == was.show
    requires forall k :: 0 <= k < |now.dirty| ==>
               if k == a || k == b then now.dirty[k] != 0
               else now.dirty[k] == was.dirty[k] && now.cells[k] == was.cells[k]
    requires (now.cursor == a || now.cursor == b) && (was.cursor == a || was.cursor == b)
    ensures Marked(was, now)
  {
  }

  class Screen {
    const lines: nat
    const columns: nat
    const buf: array<nat>
    const dirty: array<nat>
    var cursor: nat
    var showCursor: bool
    var fb: Frame            // what the display shows of this terminal
    const spBuf: array<Sprite>

    function Size(): nat { lines * columns }

    ghost predicate Valid()
      reads this, buf, dirty
    {
      && lines >= 1 && columns >= 1 && Size() >= 2
      && buf.Length == dirty.Length == Size() && buf != dirty && spBuf.Length == 2 * Size()
      && cursor < Size()
    }

    ghost function View(): Term
      reads this, buf
      requires columns > 0
    {
      Term(RowsOf(buf[..], columns), cursor / columns, cursor % columns)
    }

    function Row(i: nat): nat
      requires columns > 0
    {
      i / columns
    }

    function Col(i: nat): nat
      requires columns > 0
    {
      i % columns
    }

    function Glyph(i: nat): nat
      reads this, buf
      requires i < buf.Length
    {
      if i == cursor && showCursor then CURSOR_GLYPH else buf[i]
    }

    // Whatever the display shows wrongly is marked.
    ghost predicate InSync()
      reads this, buf, dirty
      requires Valid()
    {
      forall i :: 0 <= i < Size() ==>
        dirty[i] != 0 || CellShows(fb, Col(i), Row(i), Glyph(i))
    }

    // The display is what drawing every cell would make it.
    ghost predicate FullyDrawn()
      reads this, buf, dirty
      requires Valid()
    {
      forall i :: 0 <= i < Size() ==> CellShows(fb, Col(i), Row(i), Glyph(i))
    }

    constructor (lines: nat, columns: nat)
      requires lines >= 1 && columns >= 1 && lines * columns >= 2
      ensures Valid() && this.lines == lines && this.columns == columns && cursor == 0
      ensures forall i :: 0 <= i < Size() ==> buf[i] == 0 && dirty[i] == 0
    {
      this.lines, this.columns := lines, columns;
      buf := new nat[lines * columns](i => 0);
      dirty := new nat[lines * columns](i => 0);
      spBuf := new Sprite[lines * columns * 2](i => Sprite(0, 0, 0));
      cursor, showCursor, fb := 0, true, map[];
      MulAtLeast(lines, columns);
    }

    // ---- marking ------------------------------------------------------------------------

    method Mark(i: nat)
      requires i < dirty.Length
      modifies dirty
      ensures dirty[..] == old(dirty[..])[i := 1]
    {
      dirty[i] := 1;
    }

    method MarkLine(i: nat)
      requires Valid() && i < Size()
      modifies dirty
      ensures forall k :: 0 <= k < Size() ==>
                dirty[k] == if k / columns == i / columns then 1 else old(dirty[k])
    {
      var x := i % columns;
      LineBounds(i / columns);
      forall k | 0 <= k < Size()
        ensures k / columns == i / columns <==> i - x <= k < i - x + columns
      {
        SameLine(k, i / columns);
      }
      var n := 0;
      while n < columns
        invariant n <= columns
        invariant forall k :: 0 <= k < Size() ==>
                    dirty[k] == if i - x <= k < i - x + n then 1 else old(dirty[k])
      {
        Mark(i - x + n);
        n := n + 1;
      }
    }

    lemma LineBounds(r: nat)
      requires columns > 0 && r < lines
      ensures 0 <= r * columns && r * columns + columns <= Size()
    {
      MulMono(r + 1, lines, columns);
      assert (r + 1) * columns == r * columns + columns;
    }

    lemma SameLine(k: nat, r: nat)
      requires columns > 0
      ensures k / columns == r <==> r * columns <= k < r * columns + columns
    {
      if r * columns <= k < r * columns + columns {
        DivModUnique(k, r, columns, k - r * columns);
      }
    }

    lemma RowCol(i: nat)
      requires columns > 0 && i < Size()
      ensures i / columns < lines && i % columns < columns && i == (i / columns) * columns + i % columns
    {
      if i / columns >= lines {
        MulMono(lines, i / columns, columns);
      }
    }

    method MarkAll()
      requires Valid()
      modifies dirty
      ensures forall i :: 0 <= i < Size() ==> dirty[i] != 0
    {
      var i := 0;
      while i < lines * columns
        invariant i <= Size()
        invariant forall k :: 0 <= k < i ==> dirty[k] != 0
      {
        Mark(i);
        i := i + 1;
      }
    }

    // ---- cursor and buffer ----------------------------------------------------------------

    // memmove towards lower addresses (section 7.24.2.2 of C11).
    method MoveFront(a: array<nat>, from: nat)
      requires from <= a.Length
      modifies a
      ensures a[..] == old(a[..])[from..] + old(a[..])[a.Length - from..]
    {
      var i := 0;
      while i < a.Length - from
        invariant i <= a.Length - from
        invariant forall k :: 0 <= k < i ==> a[k] == old(a[k + from])
        invariant forall k :: i <= k < a.Length ==> a[k] == old(a[k])
      {
        a[i] := a[i + from];
        i := i + 1;
      }
    }

    // The cursor has run off the end: everything moves up one row, the marks too; those of
    // the last row stay.
    method ScrollUp()
      requires lines >= 1 && columns >= 1 && Size() >= 2
        && buf.Length == dirty.Length == Size() && buf != dirty && spBuf.Length == 2 * Size()
      requires cursor == Size()
      modifies this`cursor, buf, dirty
      ensures Valid() && cursor == Size() - columns
      ensures buf[..] == old(buf[..])[columns..] + Blank(columns)
      ensures dirty[..] == old(dirty[..])[columns..] + old(dirty[..])[Size() - columns..]
    {
      MulAtLeast(lines, columns);
      MoveFront(buf, columns);
      MoveFront(dirty, columns);
      cursor := cursor - columns;
      ClearLine(cursor);
    }

    method ClearLine(start: nat)
      requires start + columns == buf.Length
      modifies buf
      ensures buf[..] == old(buf[..])[..start] + Blank(columns)
    {
      var i := 0;
      while i < columns
        invariant i <= columns
        invariant forall k :: 0 <= k < start ==> buf[k] == old(buf[k])
        invariant forall k :: start <= k < start + i ==> buf[k] == 0
      {
        buf[start + i] := 0;
        i := i + 1;
      }
    }

    // Every cell whose appearance has changed since a state is marked.
    ghost predicate MarkedSince(was: Look)
      reads this, buf, dirty
    {
      Marked(was, LookNow())
    }

    ghost function LookNow(): Look
      reads this, buf, dirty
    {
      Look(buf[..], cursor, showCursor, dirty[..])
    }

    method PutReturn()
      requires Valid()
      modifies this`cursor, dirty
      ensures Valid() && MarkedSince(old(LookNow()))
      ensures View() == Put(old(View()), columns, CR)
      ensures cursor == old(cursor) - old(cursor) % columns
    {
      ghost var r := cursor / columns;
      RowCol(cursor);
      var x := cursor % columns;
      cursor := cursor - x;
      DivModUnique(cursor, r, columns, 0);
      MarkLine(cursor);
      MarkedByLine(old(LookNow()), LookNow(), columns, r);
    }

    lemma NextCell(i: nat)
      requires columns > 0
      ensures (i + 1) / columns == if i % columns + 1 < columns then i / columns else i / columns + 1
      ensures (i + 1) % columns == if i % columns + 1 < columns then i % columns + 1 else 0
    {
      var r, c := i / columns, i % columns;
      assert i == r * columns + c;
      if c + 1 < columns {
        DivModUnique(i + 1, r, columns, c + 1);
      } else {
        assert (r + 1) * columns == r * columns + columns;
        DivModUnique(i + 1, r + 1, columns, 0);
      }
    }

    method WriteCell(i: nat, ch: nat)
      requires Valid() && i < Size()
      modifies buf
      ensures buf[..] == old(buf[..])[i := ch]
      ensures RowsOf(buf[..], columns) == WithCell(RowsOf(old(buf[..]), columns), i / columns, i % columns, ch)
    {
      ghost var cells := buf[..];
      RowCol(i);
      RowsCell(cells, columns, lines, i / columns, i % columns, ch);
      buf[i] := ch;
      assert buf[..] == cells[i := ch];
    }

    // A step back: the cell before the cursor is emptied, unless this is the first cell.
    method StepBack()
      requires Valid()
      modifies this`cursor, buf
      ensures Valid() && View() == Put(old(View()), columns, BS)
      ensures cursor + 1 < Size()
      ensures if old(cursor) > 0 then cursor == old(cursor) - 1 && buf[..] == old(buf[..])[cursor := 0]
              else cursor == 0 && buf[..] == old(buf[..])
    {
      if cursor > 0 {
        cursor := cursor - 1;
        NextCell(cursor);
        WriteCell(cursor, 0);
      }
    }

    method PutBack()
      requires Valid()
      modifies this`cursor, buf, dirty
      ensures Valid() && MarkedSince(old(LookNow()))
      ensures View() == Put(old(View()), columns, BS)
      ensures if old(cursor) > 0 then cursor == old(cursor) - 1 && buf[..] == old(buf[..])[cursor := 0]
              else cursor == 0 && buf[..] == old(buf[..])
    {
      StepBack();
      Mark(cursor);
      Mark(cursor + 1);
      MarkedByCells(old(LookNow()), LookNow(), cursor, cursor + 1);
    }

    // Off the end of the last row: everything moves up, and everything is marked.
    method WrapAtEnd()
      requires lines >= 1 && columns >= 1 && buf.Length == dirty.Length == Size() && buf != dirty
        && spBuf.Length == 2 * Size() && Size() >= 2
      requires cursor == Size()
      modifies this`cursor, buf, dirty
      ensures Valid() && View() == Term(RowsOf(old(buf[..]), columns)[1..] + [Blank(columns)], lines - 1, 0)
      ensures cursor == Size() - columns && buf[..] == old(buf[..])[columns..] + Blank(columns)
      ensures forall i :: 0 <= i < Size() ==> dirty[i] != 0
    {
      RowsScroll(buf[..], columns, lines);
      ScrollUp();
      assert (lines - 1) * columns == lines * columns - columns;
      DivModUnique(cursor, lines - 1, columns, 0);
      MarkAll();
    }

    // The end of a line feed or of a full row: scroll at the bottom, else mark two rows.
    method PutFeed()
      requires Valid()
      modifies this`cursor, buf, dirty
      ensures Valid() && MarkedSince(old(LookNow()))
      ensures View() == Put(old(View()), columns, LF)
      ensures var next := old(cursor) - old(cursor) % columns + columns;
              if next < Size() then cursor == next && buf[..] == old(buf[..])
              else cursor == Size() - columns && buf[..] == old(buf[..])[columns..] + Blank(columns)
    {
      ghost var cells, r := buf[..], cursor / columns;
      RowsShape(cells, columns, lines);
      RowCol(cursor);
      LineBounds(r);
      var x := cursor % columns;
      cursor := cursor - x;
      cursor := cursor + columns;
      assert (r + 1) * columns == r * columns + columns;
      DivModUnique(cursor, r + 1, columns, 0);
      if cursor == lines * columns {
        DivModUnique(cursor, lines, columns, 0);
        WrapAtEnd();
      } else {
        RowCol(cursor);
        DivModUnique(cursor - columns, r, columns, 0);
        MarkLine(cursor - columns);
        MarkLine(cursor);
      }
    }

    method PutChar(ch: nat)
      requires Valid() && ch != CR && ch != BS && ch != LF
      modifies this`cursor, buf, dirty
      ensures Valid() && MarkedSince(old(LookNow()))
      ensures View() == Put(old(View()), columns, ch)
      ensures var cells := old(buf[..])[old(cursor) := ch];
              if old(cursor) + 1 < Size() then cursor == old(cursor) + 1 && buf[..] == cells
              else cursor == Size() - columns && buf[..] == cells[columns..] + Blank(columns)
    {
      ghost var was := LookNow();
      RowCol(cursor);
      NextCell(cursor);
      RowsShape(buf[..], columns, lines);
      WriteCell(cursor, ch);
      RowsShape(buf[..], columns, lines);
      cursor := cursor + 1;
      if cursor == lines * columns {
        DivModUnique(cursor, lines, columns, 0);
        WrapAtEnd();
      } else {
        RowCol(cursor);
        Mark(cursor - 1);
        Mark(cursor);
        MarkedByCells(was, LookNow(), cursor - 1, cursor);
      }
    }

    // One character, on the rows and cell by cell.
    method PutC(ch: nat)
      requires Valid()
      modifies this`cursor, buf, dirty
      ensures Valid() && View() == Put(old(View()), columns, ch)
      ensures old(InSync()) ==> InSync()
      ensures ch == CR ==> buf[..] == old(buf[..]) && cursor == old(cursor) - old(cursor) % columns
      ensures ch == BS ==>
                if old(cursor) > 0 then cursor == old(cursor) - 1 && buf[..] == old(buf[..])[cursor := 0]
                else cursor == 0 && buf[..] == old(buf[..])
      ensures ch == LF ==>
                var next := old(cursor) - old(cursor) % columns + columns;
                if next < Size() then cursor == next && buf[..] == old(buf[..])
                else cursor == Size() - columns && buf[..] == old(buf[..])[columns..] + Blank(columns)
      ensures ch != CR && ch != BS && ch != LF ==>
                var cells := old(buf[..])[old(cursor) := ch];
                if old(cursor) + 1 < Size() then cursor == old(cursor) + 1 && buf[..] == cells
                else cursor == Size() - columns && buf[..] == cells[columns..] + Blank(columns)
    {
      if ch == CR {
        PutReturn();
      } else if ch == BS {
        PutBack();
      } else if ch == LF {
        PutFeed();
      } else {
        PutChar(ch);
      }
    }

    // ---- drawing --------------------------------------------------------------------------

    // The first n cells have been gone through: the marked ones show, the rest is untouched.
    ghost predicate Drawn(now: Frame, n: nat)
      reads this, buf, dirty
      requires Valid()
    {
      forall k :: 0 <= k < Size() ==> CellDrawn(now, n, k, Col(k), Row(k))
    }

    ghost predicate CellDrawn(now: Frame, n: nat, k: nat, x: nat, y: nat)
      reads this, buf, dirty
      requires Valid() && k < Size()
    {
      if k < n && dirty[k] != 0 then CellShows(now, x, y, Glyph(k)) else SameCell(fb, now, x, y)
    }

    lemma DistinctCells(i: nat, k: nat)
      requires columns > 0 && i != k
      ensures (Col(k), Row(k)) != (Col(i), Row(i))
    {
      assert i == (i / columns) * columns + i % columns;
      assert k == (k / columns) * columns + k % columns;
    }

    lemma DrawnStep(before: Frame, after: Frame, i: nat)
      requires Valid() && i < Size() && dirty[i] != 0 && Drawn(before, i)
      requires CellShows(after, Col(i), Row(i), Glyph(i))
      requires forall x: nat, y: nat {:trigger (x, y)} :: (x, y) != (Col(i), Row(i)) ==> SameCell(before, after, x, y)
      ensures Drawn(after, i + 1)
    {
      forall k | 0 <= k < Size()
        ensures CellDrawn(after, i + 1, k, Col(k), Row(k))
      {
        if k != i {
          DistinctCells(i, k);
          StillDrawn(before, after, i, k, Col(k), Row(k));
        }
      }
    }

    lemma StillDrawn(before: Frame, after: Frame, i: nat, k: nat, x: nat, y: nat)
      requires Valid() && k < Size() && k != i && CellDrawn(before, i, k, x, y) && SameCell(before, after, x, y)
      ensures CellDrawn(after, i + 1, k, x, y)
    {
    }

    method DrawGlyph(sp: nat, x: nat, y: nat, draw: nat) returns (next: nat)
      requires sp + 2 <= spBuf.Length
      modifies spBuf
      ensures next == sp + 2
      ensures CellShows(DrawAll(fb, spBuf[..next]), x, y, draw)
      ensures forall x': nat, y': nat {:trigger (x', y')} :: (x', y') != (x, y) ==>
                SameCell(DrawAll(fb, old(spBuf[..sp])), DrawAll(fb, spBuf[..next]), x', y')
    {
      next := sp;
      spBuf[next] := Sprite(x * 8, y * 16, draw * 2 + 1);
      next := next + 1;
      spBuf[next] := Sprite(x * 8, y * 16 + 8, draw * 2 + 2);
      next := next + 1;
      assert spBuf[..next] == old(spBuf[..sp]) + [Upper(x, y, draw)] + [Lower(x, y, draw)];
      DrawCell(fb, old(spBuf[..sp]), x, y, draw);
    }

    method RenderCell(i: nat, x: nat, y: nat, sp: nat) returns (next: nat)
      requires Valid() && i < Size() && x == Col(i) && y == Row(i) && sp <= 2 * i
      requires Drawn(DrawAll(fb, spBuf[..sp]), i)
      modifies spBuf
      ensures sp <= next <= sp + 2
      ensures Drawn(DrawAll(fb, spBuf[..next]), i + 1)
    {
      next := sp;
      if dirty[i] != 0 {
        var draw := if i == cursor && showCursor then CURSOR_GLYPH else buf[i];
        ghost var before := spBuf[..sp];
        next := DrawGlyph(sp, x, y, draw);
        DrawnStep(DrawAll(fb, before), DrawAll(fb, spBuf[..next]), i);
      }
    }

    // Only marked cells are drawn, and then nothing on the display differs from the buffer.
    method Render()
      requires Valid()
      modifies this`fb, dirty, spBuf
      ensures Valid()
      ensures old(InSync()) ==> FullyDrawn()
      ensures forall i :: 0 <= i < Size() ==> dirty[i] == 0
      ensures forall i :: 0 <= i < Size() && old(dirty[i]) == 0 ==> SameCell(old(fb), fb, Col(i), Row(i))
    {
      var y, i, sp := 0, 0, 0;
      while y < lines
        invariant y <= lines && i == y * columns && sp <= 2 * i
        invariant Drawn(DrawAll(fb, spBuf[..sp]), i)
        modifies spBuf
      {
        var x := 0;
        LineBounds(y);
        while x < columns
          invariant x <= columns && i == y * columns + x && sp <= 2 * i
          invariant Drawn(DrawAll(fb, spBuf[..sp]), i)
          modifies spBuf
        {
          DivModUnique(i, y, columns, x);
          sp := RenderCell(i, x, y, sp);
          i := i + 1;
          x := x + 1;
        }
        assert (y + 1) * columns == y * columns + columns;
        y := y + 1;
      }
      fb := DrawAll(fb, spBuf[..sp]);
      ClearMarks();
    }

    method ClearMarks()
      requires Valid()
      modifies dirty
      ensures forall i :: 0 <= i < Size() ==> dirty[i] == 0
    {
      var i := 0;
      while i < lines * columns
        invariant i <= Size()
        invariant forall k :: 0 <= k < i ==> dirty[k] == 0
      {
        dirty[i] := 0;
        i := i + 1;
      }
    }

    // ---- what the terminal task and writers do ---------------------------------------------

    // Any text, then a render: the screen is the terminal after the text, fully drawn.
    method Write(text: seq<nat>)
      requires Valid()
      modifies this`cursor, this`fb, buf, dirty, spBuf
      ensures Valid() && View() == PutAll(old(View()), columns, text)
      ensures old(InSync()) ==> FullyDrawn()
      ensures forall i :: 0 <= i < Size() ==> dirty[i] == 0
    {
      var i := 0;
      assert text[..0] == [];
      while i < |text|
        invariant i <= |text| && Valid() && (old(InSync()) ==> InSync())
        invariant View() == PutAll(old(View()), columns, text[..i])
        modifies this`cursor, buf, dirty
      {
        PutC(text[i]);
        assert text[..i + 1][..i] == text[..i];
        i := i + 1;
      }
      assert text[..i] == text;
      Render();
    }

    // The cursor's blink: the cell under it is marked.
    method Blink(changed: bool)
      requires Valid()
      modifies this`showCursor, dirty
      ensures Valid() && showCursor == (!old(showCursor) || changed)
      ensures old(InSync()) ==> InSync()
    {
      showCursor := !showCursor || changed;
      Mark(cursor);
    }

    // Start-up and a change of terminal begin here: whatever was drawn, all is marked.
    method SwitchTo()
      requires Valid()
      modifies dirty
      ensures InSync()
    {
      MarkAll();
    }
  }
}
