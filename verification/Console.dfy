/** charframe.c: the text buffer of the console, its keys, and the incremental redraw. */
module Console {

  const TEXT_WIDTH: nat := 128
  const TEXT_HEIGHT: nat := 48
  const TEXT_SIZE: nat := 6144

  /** A C char. */
  type octet = x: int | -128 <= x < 128

  const NEWLINE: octet := 10
  const TAB: octet := 9
  const BACKSPACE: octet := 8

  type Cells = s: seq<octet> | |s| == TEXT_SIZE witness seq(TEXT_SIZE, _ => 0)

  /** charBuffer and pos. */
  datatype Text = Text(cells: Cells, pos: nat)

  predicate IsPrintable(c: octet) {
    32 <= c <= 126
  }

  function NextRowIndex(pos: nat): nat {
    (pos / TEXT_WIDTH + 1) * TEXT_WIDTH
  }

  function NextTabIndex(pos: nat): nat {
    (pos / 4 + 1) * 4
  }

  /** Where the position goes when `c` is put at `pos`. */
  function Advance(pos: nat, c: octet): (next: nat)
    ensures next > pos
  {
    if c == NEWLINE then NextRowIndex(pos) else if c == TAB then NextTabIndex(pos) else pos + 1
  }

  predicate Puts(c: octet) {
    c == NEWLINE || c == TAB || IsPrintable(c)
  }

  // ---- What one key does ----

  /** The last non-zero cell at or before `q`; -1 when there is none. */
  function LastNonZero(cells: Cells, q: int): (r: int)
    requires q < TEXT_SIZE
    ensures -1 <= r && (0 <= r ==> r <= q && cells[r] != 0)
    ensures forall i :: r < i <= q && 0 <= i ==> cells[i] == 0
    decreases q
  {
    if q < 0 then -1 else if cells[q] != 0 then q else LastNonZero(cells, q - 1)
  }

  function Erase(t: Text): Text
    requires t.pos < TEXT_SIZE
  {
    if t.pos == 0 then t
    else if IsPrintable(t.cells[t.pos - 1]) then Text(t.cells[t.pos - 1 := 0], t.pos - 1)
    else
      var q := LastNonZero(t.cells, t.pos);
      if q < 0 then t
      else if t.cells[q] != NEWLINE && t.cells[q] != TAB then t.(pos := q + 1)
      else Text(t.cells[q := 0], q)
  }

  /** key_handler. */
  function Press(t: Text, c: octet): Text
    requires t.pos < TEXT_SIZE
  {
    if c == BACKSPACE then Erase(t)
    else if Puts(c) then Text(t.cells[t.pos := c], Advance(t.pos, c))
    else t
  }

  // ---- What a run of keys means ----

  /** The keys still in effect: a backspace takes back the last one, other keys that put
      nothing are ignored. */
  function Effect(typed: seq<octet>, c: octet): (s: seq<octet>)
  {
    if c == BACKSPACE then (if typed == [] then [] else typed[..|typed| - 1])
    else if Puts(c) then typed + [c]
    else typed
  }

  function InEffect(keys: seq<octet>): seq<octet>
  {
    if keys == [] then [] else Effect(InEffect(keys[..|keys| - 1]), keys[|keys| - 1])
  }

  /** The position after typing `s`. */
  function EndPos(s: seq<octet>): nat {
    if s == [] then 0 else Advance(EndPos(s[..|s| - 1]), s[|s| - 1])
  }

  predicate AllPut(s: seq<octet>) {
    forall i :: 0 <= i < |s| ==> Puts(s[i])
  }

  function BlankCells(): Cells {
    seq(TEXT_SIZE, _ => 0)
  }

  /** The buffer holding exactly the text `s`: every character where the position stood. */
  function Render(s: seq<octet>): (t: Text)
    requires EndPos(s) < TEXT_SIZE
    ensures t.pos == EndPos(s)
  {
    if s == [] then Text(BlankCells(), 0)
    else
      var p := s[..|s| - 1];
      Text(Render(p).cells[EndPos(p) := s[|s| - 1]], EndPos(s))
  }

  /** Every cell from the position on is blank. */
  lemma {:induction false} BlankBeyond(s: seq<octet>, i: nat)
    requires EndPos(s) < TEXT_SIZE && EndPos(s) <= i < TEXT_SIZE
    ensures Render(s).cells[i] == 0
  {
    if s != [] {
      BlankBeyond(s[..|s| - 1], i);
    }
  }

  /** Between the last character and the position there are only blank cells, and clearing the
      last character gives the text before it. */
  lemma LastCharacter(s: seq<octet>)
    requires s != [] && AllPut(s) && EndPos(s) < TEXT_SIZE
    ensures var p := s[..|s| - 1];
      && EndPos(p) < EndPos(s) && Render(s).cells[EndPos(p)] == s[|s| - 1]
      && (forall i :: EndPos(p) < i <= EndPos(s) ==> Render(s).cells[i] == 0)
      && Render(s).cells[EndPos(p) := 0] == Render(p).cells
  {
    var p := s[..|s| - 1];
    forall i | EndPos(p) <= i < TEXT_SIZE ensures Render(p).cells[i] == 0 {
      BlankBeyond(p, i);
    }
  }

  /** Backspace on a position that a character at `p` led to, with only blank cells after it. */
  lemma EraseTakesBack(t: Text, p: nat, c: octet)
    requires p < t.pos < TEXT_SIZE && Puts(c) && t.cells[p] == c && (IsPrintable(c) ==> t.pos == p + 1)
    requires forall i :: p < i <= t.pos ==> t.cells[i] == 0
    ensures Erase(t) == Text(t.cells[p := 0], p)
  {
    var q := LastNonZero(t.cells, t.pos);
    assert q == p;
  }

  /** Backspace takes back exactly the last key, whether it was printable, a newline or a tab. */
  lemma BackspaceUndoes(s: seq<octet>)
    requires s != [] && AllPut(s) && EndPos(s) < TEXT_SIZE
    ensures EndPos(s[..|s| - 1]) < TEXT_SIZE && Erase(Render(s)) == Render(s[..|s| - 1])
  {
    LastCharacter(s);
    EraseTakesBack(Render(s), EndPos(s[..|s| - 1]), s[|s| - 1]);
  }

  /** The backward search of a backspace ends. */
  lemma SomethingToErase(s: seq<octet>)
    requires AllPut(s) && EndPos(s) < TEXT_SIZE
    ensures EndPos(s) > 0 ==> LastNonZero(Render(s).cells, EndPos(s)) >= 0
  {
    if s != [] {
      LastCharacter(s);
    }
  }

  /** One key on a buffer that holds a text gives the buffer that holds the text with the key's effect. */
  lemma PressRenders(s: seq<octet>, c: octet)
    requires AllPut(s) && EndPos(s) < TEXT_SIZE && EndPos(Effect(s, c)) < TEXT_SIZE
    ensures AllPut(Effect(s, c)) && Press(Render(s), c) == Render(Effect(s, c))
  {
    if c == BACKSPACE {
      if s != [] { BackspaceUndoes(s); }
    } else if Puts(c) {
      assert (s + [c])[..|s|] == s;
    }
  }

  /** After every key of the run the position is inside the text area. */
  predicate StaysInside(keys: seq<octet>) {
    EndPos(InEffect(keys)) < TEXT_SIZE && (keys == [] || StaysInside(keys[..|keys| - 1]))
  }

  /** The buffer after a run of keys from an empty one. Any run leaves exactly what the keys
      still in effect would have left: backspace is an exact undo, without a history being kept. */
  function Typed(keys: seq<octet>): (t: Text)
    requires StaysInside(keys)
    ensures AllPut(InEffect(keys)) && t == Render(InEffect(keys))
  {
    if keys == [] then Text(BlankCells(), 0)
    else
      var before := keys[..|keys| - 1];
      var t := Typed(before);
      PressRenders(InEffect(before), keys[|keys| - 1]);
      Press(t, keys[|keys| - 1])
  }

  // ---- Where the text stands ----

  /** What a key that puts something does: its character goes where the position stood, and the
      position moves to the start of the next row, to the next multiple of four, or one on. */
  lemma PressPuts(t: Text, c: octet)
    requires t.pos < TEXT_SIZE && c != BACKSPACE
    ensures var u := Press(t, c);
      if c == 10 then u.cells == t.cells[t.pos := 10] && u.pos % 128 == 0 && t.pos < u.pos <= t.pos + 128
      else if c == 9 then u.cells == t.cells[t.pos := 9] && u.pos % 4 == 0 && t.pos < u.pos <= t.pos + 4
      else if 32 <= c <= 126 then u.cells == t.cells[t.pos := c] && u.pos == t.pos + 1
      else u == t
  {
  }

  /** Character `i` of the text stands where the ones before it end. */
  lemma {:induction false} RenderPlaces(s: seq<octet>, i: nat)
    requires AllPut(s) && EndPos(s) < TEXT_SIZE && i < |s|
    ensures EndPos(s[..i]) < TEXT_SIZE && Render(s).cells[EndPos(s[..i])] == s[i]
    decreases |s|
  {
    var p := s[..|s| - 1];
    if i < |s| - 1 {
      assert p[..i] == s[..i];
      RenderPlaces(p, i);
      EndPosGrows(p, i);
    }
  }

  lemma {:induction false} EndPosGrows(s: seq<octet>, i: nat)
    requires i < |s|
    ensures EndPos(s[..i]) < EndPos(s)
    decreases |s|
  {
    if i < |s| - 1 {
      assert s[..|s| - 1][..i] == s[..i];
      EndPosGrows(s[..|s| - 1], i);
    }
  }

  /** One character after another: a row or a tab stop apart, or in the next cell. */
  lemma NextPlace(s: seq<octet>, i: nat)
    requires AllPut(s) && i < |s|
    ensures var here, next := EndPos(s[..i]), EndPos(s[..i + 1]);
      if s[i] == 10 then next % 128 == 0 && here < next <= here + 128
      else if s[i] == 9 then next % 4 == 0 && here < next <= here + 4
      else next == here + 1
  {
    assert s[..i + 1][..i] == s[..i];
  }

  /** The layout of whatever was typed: the text still in effect starts in the first cell, each of
      its characters is in the buffer, what follows a newline starts in column 0 of the next row
      and what follows a tab at the next multiple of four. */
  lemma TypedLayout(keys: seq<octet>, i: nat)
    requires StaysInside(keys) && i < |InEffect(keys)|
    ensures var t, s := Typed(keys), InEffect(keys);
      var here := EndPos(s[..i]);
      && here < TEXT_SIZE && t.cells[here] == s[i]
      && (i == 0 ==> here == 0)
      && (i > 0 ==>
            var before := EndPos(s[..i - 1]);
            if s[i - 1] == 10 then here % 128 == 0 && before < here <= before + 128
            else if s[i - 1] == 9 then here % 4 == 0 && before < here <= before + 4
            else here == before + 1)
  {
    var t, s := Typed(keys), InEffect(keys);
    RenderPlaces(s, i);
    if i > 0 {
      NextPlace(s, i - 1);
    }
  }

  // ---- The screen ----

  /** What is drawn in one character cell. */
  datatype Glyph = Blank | Drawn(c: octet)

  function GlyphOf(c: octet): Glyph {
    if IsPrintable(c) then Drawn(c) else Blank
  }

  /** A full redraw of the buffer. */
  function FullRedraw(cells: Cells): (s: seq<Glyph>)
    ensures |s| == TEXT_SIZE
  {
    seq(TEXT_SIZE, i requires 0 <= i < TEXT_SIZE => GlyphOf(cells[i]))
  }

  /** What a full redraw shows: printable characters as themselves, every other cell empty. */
  lemma RedrawShows(cells: Cells, i: nat)
    requires i < TEXT_SIZE
    ensures FullRedraw(cells)[i] == if 32 <= cells[i] <= 126 then Drawn(cells[i]) else Blank
  {
  }

  /** The two screens agree everywhere but, possibly, at cell `pos`. */
  predicate AgreeOffCursor(s: seq<Glyph>, u: seq<Glyph>, pos: nat) {
    |s| == |u| && forall i :: 0 <= i < |s| && i != pos ==> s[i] == u[i]
  }

  /** Cell `i` lies on the walk from `from` to `to`, `to` excluded. */
  ghost predicate Walked(i: int, from: int, to: int) {
    from <= i < to || to < i <= from
  }

  /** Showing the cells walked over is enough: when a key changes no other cell, the screen then
      agrees with a full redraw but for the cursor's new cell. */
  lemma WalkSuffices(was: seq<Glyph>, now: seq<Glyph>, before: Text, after: Text)
    requires |was| == |now| == TEXT_SIZE && AgreeOffCursor(was, FullRedraw(before.cells), before.pos)
    requires forall i :: 0 <= i < TEXT_SIZE ==>
      now[i] == if Walked(i, before.pos, after.pos) then GlyphOf(after.cells[i]) else was[i]
    requires forall i :: 0 <= i < TEXT_SIZE && before.cells[i] != after.cells[i] ==>
      if before.pos < after.pos then i == before.pos else i == after.pos
    ensures AgreeOffCursor(now, FullRedraw(after.cells), after.pos)
  {
  }

  class CharFrame {
    const charBuffer: array<octet>
    const screen: array<Glyph>
    var pos: nat
    ghost var typed: seq<octet>   // the keys in effect since the last reset

    ghost predicate Sized() {
      charBuffer.Length == TEXT_SIZE && screen.Length == TEXT_SIZE
    }

    ghost function Now(): Text
      requires Sized()
      reads this, charBuffer
    {
      Text(charBuffer[..], pos)
    }

    /** The buffer holds the typed text, and the screen shows the buffer but for the cursor cell. */
    ghost predicate Valid()
      reads this, charBuffer, screen
    {
      && Sized() && AllPut(typed) && EndPos(typed) < TEXT_SIZE && Now() == Render(typed)
      && AgreeOffCursor(screen[..], FullRedraw(charBuffer[..]), pos)
    }

    /** reset_buffer on a cleared screen. */
    constructor ()
      ensures Valid() && typed == [] && fresh(charBuffer) && fresh(screen)
    {
      charBuffer := new octet[TEXT_SIZE](_ => 0);
      screen := new Glyph[TEXT_SIZE](_ => Blank);
      pos := 0;
      typed := [];
      new;
      assert charBuffer[..] == BlankCells();
    }

    method HandleBackspace()
      requires Sized() && pos < TEXT_SIZE
      requires pos > 0 && !IsPrintable(charBuffer[pos - 1]) ==> LastNonZero(charBuffer[..], pos) >= 0
      modifies this`pos, charBuffer
      ensures Now() == Erase(old(Now()))
    {
      if pos == 0 {
        return;
      }
      if 32 <= charBuffer[pos - 1] && charBuffer[pos - 1] <= 126 {
        charBuffer[pos - 1] := 0;
        pos := pos - 1;
      } else {
        while charBuffer[pos] == 0
          invariant pos < TEXT_SIZE && charBuffer[..] == old(charBuffer[..])
          invariant LastNonZero(charBuffer[..], pos) == LastNonZero(old(charBuffer[..]), old(pos)) >= 0
          decreases pos
        {
          pos := pos - 1;
        }
        if charBuffer[pos] != NEWLINE && charBuffer[pos] != TAB {
          pos := pos + 1;
        } else {
          charBuffer[pos] := 0;
        }
      }
    }

    method KeyHandler(c: octet)
      requires Sized() && pos < TEXT_SIZE
      requires c == BACKSPACE && pos > 0 && !IsPrintable(charBuffer[pos - 1]) ==> LastNonZero(charBuffer[..], pos) >= 0
      modifies this`pos, charBuffer
      ensures Now() == Press(old(Now()), c)
    {
      if c != 0 {
        if c == NEWLINE {
          charBuffer[pos] := NEWLINE;
          pos := NextRowIndex(pos);
        } else if c == TAB {
          charBuffer[pos] := TAB;
          pos := NextTabIndex(pos);
        } else if c == BACKSPACE {
          HandleBackspace();
        } else if 32 <= c && c <= 126 {
          charBuffer[pos] := c;
          pos := pos + 1;
        }
      }
    }

    /** draw_char_at, in cell coordinates. */
    method DrawCharAt(c: octet, row: nat, column: nat)
      requires Sized() && row < TEXT_HEIGHT && column < TEXT_WIDTH
      modifies screen
      ensures screen[..] == old(screen[..])[row * TEXT_WIDTH + column := GlyphOf(c)]
    {
      var cell := row * TEXT_WIDTH + column;
      screen[cell] := if c < 32 || c > 126 then Blank else Drawn(c);
    }

    /** Handles a key and redraws only the cells between the old and the new position, walking
        in either direction and stopping short of the new one. */
    method BufferedDraw(c: octet)
      requires Valid() && EndPos(Effect(typed, c)) < TEXT_SIZE
      modifies this, charBuffer, screen
      ensures Valid() && typed == Effect(old(typed), c)
    {
      var lastPos := pos;
      ghost var before, was := Now(), screen[..];
      PressRenders(typed, c);
      SomethingToErase(typed);
      KeyHandler(c);
      PressTouches(before, c);
      Redraw(lastPos);
      WalkSuffices(was, screen[..], before, Now());
      typed := Effect(typed, c);
    }

    /** The redraw loop: every cell walked over shows the buffer, the others stay as they are. */
    method Redraw(from: nat)
      requires Sized() && from < TEXT_SIZE && pos < TEXT_SIZE
      modifies screen
      ensures forall i :: 0 <= i < TEXT_SIZE ==>
        screen[i] == if Walked(i, from, pos) then GlyphOf(charBuffer[i]) else old(screen[i])
    {
      var lastPos := from;
      while pos != lastPos
        invariant from <= lastPos <= pos || pos <= lastPos <= from
        invariant forall i :: 0 <= i < TEXT_SIZE ==>
          screen[i] == if Walked(i, from, lastPos) then GlyphOf(charBuffer[i]) else old(screen[i])
        decreases if pos < lastPos then lastPos - pos else pos - lastPos
      {
        ghost var was := screen[..];
        DrawCharAt(charBuffer[lastPos], lastPos / TEXT_WIDTH, lastPos % TEXT_WIDTH);
        assert screen[..] == was[lastPos := GlyphOf(charBuffer[lastPos])];
        assert forall i :: 0 <= i < TEXT_SIZE ==> screen[i] == screen[..][i];
        lastPos := lastPos + if pos > lastPos then 1 else -1;
      }
    }

    /** draw_cursor: '|' in the first half of each second, a space in the other. */
    method DrawCursor(tick: nat)
      requires Valid()
      modifies screen
      ensures Valid()
      ensures screen[..] == old(screen[..])[pos := if tick < 500 then Drawn('|' as int) else Drawn(' ' as int)]
    {
      DrawCharAt(if tick < 500 then '|' as int else ' ' as int, pos / TEXT_WIDTH, pos % TEXT_WIDTH);
    }
  }

  /** A key changes no cell but those between the old position and the new one: the old
      position's, going forward, and the new position's, going back. */
  lemma PressTouches(t: Text, c: octet)
    requires t.pos < TEXT_SIZE
    ensures var u := Press(t, c);
      forall i :: 0 <= i < TEXT_SIZE && t.cells[i] != u.cells[i] ==> if t.pos < u.pos then i == t.pos else i == u.pos
  {
  }
}
