/** The terminal with scrollback (kernel/src/main.c): video memory is a cache of a window of the scroll buffer. */
module Terminal {
  import opened Words

  const WIDTH: nat := 80
  const HEIGHT: nat := 25
  const LINES: nat := 200
  const CELLS: nat := 16000
  const VISIBLE: nat := 2000
  const BLANK: char := ' '

  // ---- Text ----

  /** The scroll buffer with its cursor; all cells have the one terminal colour. */
  datatype Text = Text(cells: seq<char>, row: nat, col: nat)
  {
    function Cursor(): nat { row * WIDTH + col }
  }

  ghost predicate BlankFrom(s: seq<char>, k: nat) {
    forall i | k <= i < |s| :: s[i] == BLANK
  }

  /** The cursor is inside, and every cell at or after it is blank. */
  ghost predicate TextOk(t: Text) {
    |t.cells| == CELLS && t.row < LINES && t.col < WIDTH && BlankFrom(t.cells, t.Cursor())
  }

  function BlankLine(): (s: seq<char>)
    ensures |s| == WIDTH && forall i | 0 <= i < WIDTH :: s[i] == BLANK
  {
    seq(WIDTH, i => BLANK)
  }

  /** One line up, with a blank line at the bottom. */
  function Scrolled(s: seq<char>): seq<char>
    requires |s| >= WIDTH
  {
    s[WIDTH..] + BlankLine()
  }

  function NextLine(t: Text): Text
    requires |t.cells| == CELLS
  {
    if t.row + 1 == LINES then Text(Scrolled(t.cells), t.row, 0) else Text(t.cells, t.row + 1, 0)
  }

  function Back(t: Text): Text {
    if t.col > 0 then t.(col := t.col - 1) else if t.row > 0 then t.(row := t.row - 1, col := WIDTH - 1) else t
  }

  function Blanked(t: Text): Text
    requires t.Cursor() < |t.cells|
  {
    t.(cells := t.cells[t.Cursor() := BLANK])
  }

  function Advance(t: Text, c: char): Text
    requires |t.cells| == CELLS && t.Cursor() < CELLS
  {
    var p := t.(cells := t.cells[t.Cursor() := c]);
    if t.col + 1 == WIDTH then NextLine(p) else p.(col := t.col + 1)
  }

  /** What one character does to the text. */
  function Type(t: Text, c: char): Text
    requires |t.cells| == CELLS && t.row < LINES && t.col < WIDTH
  {
    if c == BACKSPACE then Blanked(Back(t)) else if c == NEWLINE then NextLine(t) else Advance(t, c)
  }

  /** Every character keeps all cells at or after the cursor blank. */
  lemma TypeKeeps(t: Text, c: char)
    requires TextOk(t)
    ensures TextOk(Type(t, c))
  {
  }

  /** A backspace takes back a printed character, unless printing it scrolled the whole buffer. */
  lemma BackspaceUndoes(t: Text, c: char)
    requires TextOk(t) && c != BACKSPACE && c != NEWLINE
    ensures TextOk(Type(t, c))
    ensures Type(Type(t, c), BACKSPACE) == t <==> !(t.row == LINES - 1 && t.col == WIDTH - 1)
  {
  }

  /** The text one line up: the first of the 200 lines is lost and the last is blank. */
  ghost predicate Lifted(before: seq<char>, after: seq<char>) {
    && |before| == |after| == 16000 && (forall k | 0 <= k < 15920 :: after[k] == before[k + 80])
    && forall k | 15920 <= k < 16000 :: after[k] == ' '
  }

  /** A newline, wherever it is typed, resets the column and steps down; in the last line the text moves up instead. */
  lemma NewlineMeaning(t: Text)
    requires TextOk(t)
    ensures var r := Type(t, NEWLINE);
            && r.col == 0
            && (t.row < 199 ==> r.row == t.row + 1 && r.cells == t.cells)
            && (t.row == 199 ==> r.row == 199 && Lifted(t.cells, r.cells))
  {
  }

  /** Any other character but a backspace goes into the cell of the cursor, which moves right; in column 79 it goes on
      to the next line as after a newline. */
  lemma PrintMeaning(t: Text, c: char)
    requires TextOk(t) && c != BACKSPACE && c != NEWLINE
    ensures var (r, k) := (Type(t, c), t.row * 80 + t.col);
            && k < |t.cells|
            && if t.col < 79 then r == Text(t.cells[k := c], t.row, t.col + 1)
               else if t.row < 199 then r == Text(t.cells[k := c], t.row + 1, 0)
               else r.row == 199 && r.col == 0 && Lifted(t.cells[k := c], r.cells)
  {
  }

  /** A backspace steps the cursor back, over the end of the line above if need be and not before the first cell, and
      blanks the cell it comes to. */
  lemma EraseMeaning(t: Text)
    requires TextOk(t)
    ensures var (r, k) := (Type(t, BACKSPACE), t.row * 80 + t.col);
            if k == 0 then r == t
            else r.row * 80 + r.col == k - 1 && r.col < 80 && r.cells == t.cells[k - 1 := ' ']
  {
    if t.Cursor() == 0 {
      assert t.cells[0 := BLANK] == t.cells;
    }
  }

  /** A text without control characters that fits into the line stands there, from the old cursor on, and the cursor
      behind it. */
  lemma {:induction false} WrittenStands(t: Text, cs: seq<char>)
    requires TextOk(t) && BACKSPACE !in cs && NEWLINE !in cs && t.col + |cs| < 80
    ensures var (r, k) := (TypeAll(t, cs), t.row * 80 + t.col);
            && |r.cells| == |t.cells| && r.row == t.row && r.col == t.col + |cs|
            && forall i | 0 <= i < |t.cells| :: r.cells[i] == if k <= i < k + |cs| then cs[i - k] else t.cells[i]
    decreases |cs|
  {
    hide Type, TextOk;
    TextSized(t);
    if cs != [] {
      assert cs[0] in cs;
      PrintMeaning(t, cs[0]);
      TypeKeeps(t, cs[0]);
      WrittenStands(Type(t, cs[0]), cs[1..]);
    }
  }

  lemma TextSized(t: Text)
    requires TextOk(t)
    ensures |t.cells| == 16000 && t.row < 200 && t.col < 80
  {
  }

  // ---- The visible window ----

  /** display_start. */
  function Start(row: nat): nat {
    if row >= HEIGHT then row - HEIGHT + 1 else 0
  }

  /** The cursor's line is the last of the 25 visible ones, or the display starts at the top of the text. */
  lemma StartMeaning(row: nat)
    ensures if row < 25 then Start(row) == 0 else Start(row) + 24 == row
  {
  }

  function Window(cells: seq<char>, line: nat): seq<char>
    requires (line + HEIGHT) * WIDTH <= |cells|
  {
    cells[line * WIDTH..(line + HEIGHT) * WIDTH]
  }

  /** The window is the 25 lines from the given one on. */
  lemma WindowMeaning(cells: seq<char>, line: nat, y: nat, x: nat)
    requires (line + 25) * 80 <= |cells| && y < 25 && x < 80
    ensures |Window(cells, line)| == 2000 && Window(cells, line)[y * 80 + x] == cells[(line + y) * 80 + x]
  {
  }

  /** Scrolling video memory agrees with a full refresh when the line that comes into view is blank. */
  lemma ScrolledWindow(cells: seq<char>, line: nat)
    requires (line + 1 + HEIGHT) * WIDTH <= |cells|
    requires forall i | (line + HEIGHT) * WIDTH <= i < (line + 1 + HEIGHT) * WIDTH :: cells[i] == BLANK
    ensures Window(cells, line + 1) == Scrolled(Window(cells, line))
  {
  }

  /** Writing a visible cell in both places keeps the window. */
  lemma WindowPut(cells: seq<char>, line: nat, i: nat, c: char)
    requires (line + HEIGHT) * WIDTH <= |cells| && line * WIDTH <= i < (line + HEIGHT) * WIDTH
    ensures Window(cells[i := c], line) == Window(cells, line)[i - line * WIDTH := c]
  {
  }

  /** The lines that the window shows before and after stepping up from row t.row are all alike, and blank up to their
      last column. */
  ghost predicate Uniform(t: Text)
    requires |t.cells| == CELLS && HEIGHT <= t.row < LINES
  {
    var (first, last) := ((Start(t.row) - 1) * WIDTH, (t.row - 1) * WIDTH);
    && (forall i | first <= i < last :: t.cells[i] == t.cells[i + WIDTH])
    && (forall i | last <= i < last + WIDTH - 1 :: t.cells[i] == BLANK)
  }

  /** A backspace at column 0 below the first screen moves the window up without redrawing it: what video memory then
      holds is the new window exactly when the lines are uniform. */
  lemma StaleWindow(t: Text)
    requires TextOk(t) && t.col == 0 && t.row >= HEIGHT
    ensures var u := Type(t, BACKSPACE);
            && u.row == t.row - 1 && |u.cells| == CELLS
            && (Window(t.cells, Start(t.row))[VISIBLE - 1 := BLANK] == Window(u.cells, Start(u.row)) <==> Uniform(t))
  {
    var u := Type(t, BACKSPACE);
    var first, last := (t.row - HEIGHT) * WIDTH, (t.row - 1) * WIDTH;
    var shown, wanted := Window(t.cells, Start(t.row))[VISIBLE - 1 := BLANK], Window(u.cells, Start(u.row));
    hide Uniform, Type, Window;
    StaleCell(t, 0);
    if Uniform(t) {
      forall k | 0 <= k < VISIBLE
        ensures shown[k] == wanted[k]
      {
        StaleCell(t, k);
        if k < VISIBLE - 1 {
          UniformCell(t, first + k);
        }
      }
      assert shown == wanted;
    } else if shown == wanted {
      forall i | first <= i < last + WIDTH - 1
        ensures t.cells[i] == t.cells[i + WIDTH]
      {
        StaleCell(t, i - first);
      }
      StaleUniform(t, first, last);
    }
  }

  /** Cell k of what is shown and of what should be shown after the backspace. */
  lemma StaleCell(t: Text, k: nat)
    requires TextOk(t) && t.col == 0 && t.row >= HEIGHT && k < VISIBLE
    ensures var (u, i) := (Type(t, BACKSPACE), (t.row - HEIGHT) * WIDTH + k);
            && u.row == t.row - 1 && |u.cells| == CELLS
            && |Window(t.cells, Start(t.row))| == VISIBLE == |Window(u.cells, Start(u.row))|
            && Window(t.cells, Start(t.row))[VISIBLE - 1 := BLANK][k]
                  == (if k == VISIBLE - 1 then BLANK else t.cells[i + WIDTH])
            && Window(u.cells, Start(u.row))[k] == if k == VISIBLE - 1 then BLANK else t.cells[i]
  {
  }

  lemma UniformCell(t: Text, i: nat)
    requires TextOk(t) && t.col == 0 && t.row >= HEIGHT && Uniform(t)
    requires (t.row - HEIGHT) * WIDTH <= i < t.row * WIDTH - 1
    ensures t.cells[i] == t.cells[i + WIDTH]
  {
  }

  lemma StaleUniform(t: Text, first: nat, last: nat)
    requires TextOk(t) && t.col == 0 && t.row >= HEIGHT && first == (t.row - HEIGHT) * WIDTH
             && last == (t.row - 1) * WIDTH
    requires forall i | first <= i < last + WIDTH - 1 :: t.cells[i] == t.cells[i + WIDTH]
    ensures Uniform(t)
  {
    forall i | last <= i < last + WIDTH - 1
      ensures t.cells[i] == BLANK
    {
      assert t.cells[i] == t.cells[i + WIDTH] && i + WIDTH >= t.Cursor();
    }
  }

  /** One printed character, pushed one line above the window, is enough for a stale display. */
  lemma StaleExample()
    ensures var t := Text(['a'] + seq(CELLS - 1, i => BLANK), HEIGHT, 0);
            TextOk(t) && !SafeChar(t, BACKSPACE) && !Uniform(t)
  {
    var t := Text(['a'] + seq(CELLS - 1, i => BLANK), HEIGHT, 0);
    assert t.cells[0] != t.cells[0 + WIDTH];
  }

  /** The stream never backspaces at column 0 of a row below the first screen. */
  ghost predicate SafeStream(t: Text, cs: seq<char>)
    requires TextOk(t)
    decreases |cs|
  {
    cs != [] ==> SafeChar(t, cs[0]) && (TypeKeeps(t, cs[0]); SafeStream(Type(t, cs[0]), cs[1..]))
  }

  ghost predicate SafeChar(t: Text, c: char) {
    !(c == BACKSPACE && t.col == 0 && t.row >= HEIGHT)
  }

  function TypeAll(t: Text, cs: seq<char>): Text
    requires |t.cells| == CELLS && t.row < LINES && t.col < WIDTH
    decreases |cs|
  {
    if cs == [] then t else TypeAll(Type(t, cs[0]), cs[1..])
  }

  lemma {:induction false} TypeAllKeeps(t: Text, cs: seq<char>)
    requires TextOk(t)
    ensures TextOk(TypeAll(t, cs))
    decreases |cs|
  {
    if cs != [] {
      TypeKeeps(t, cs[0]);
      TypeAllKeeps(Type(t, cs[0]), cs[1..]);
    }
  }

  lemma BlankBelow(t: Text)
    requires TextOk(t)
    ensures BlankFrom(t.cells, (t.row + 1) * WIDTH) && Type(t, NEWLINE) == NextLine(t)
  {
  }

  // ---- The terminal in place ----

  class Display {
    const buffer: array<char>
    const vga: array<char>
    var row: nat
    var col: nat
    var offset: nat

    ghost function View(): Text
      reads this`row, this`col, buffer
    {
      Text(buffer[..], row, col)
    }

    ghost predicate Shape()
      reads this`row, this`col, buffer
    {
      buffer != vga && buffer.Length == CELLS && vga.Length == VISIBLE && TextOk(View())
    }

    /** Video memory shows the window that ends offset lines above the live one. */
    ghost predicate Coherent()
      reads this`row, this`offset, buffer, vga
    {
      && buffer.Length == CELLS && row < LINES && offset <= Start(row)
      && vga[..] == Window(buffer[..], Start(row) - offset)
    }

    ghost predicate Valid()
      reads this, buffer, vga
    {
      Shape() && Coherent()
    }

    /** terminal_initialize. */
    constructor ()
      ensures Valid() && fresh(buffer) && fresh(vga) && offset == 0 && row == 0 && col == 0
    {
      buffer := new char[CELLS](i => BLANK);
      vga := new char[VISIBLE](i => BLANK);
      row, col, offset := 0, 0, 0;
    }

    /** terminal_scroll_buffer. */
    method ScrollBuffer()
      requires buffer.Length == CELLS
      modifies buffer, this`row
      ensures buffer[..] == Scrolled(old(buffer[..])) && row == LINES - 1
    {
      ghost var was := buffer[..];
      for i := 0 to (LINES - 1) * WIDTH
        invariant forall k | 0 <= k < i :: buffer[k] == was[k + WIDTH]
        invariant forall k | i <= k < CELLS :: buffer[k] == was[k]
      {
        buffer[i] := buffer[i + WIDTH];
      }
      for x := 0 to WIDTH
        invariant forall k | 0 <= k < (LINES - 1) * WIDTH :: buffer[k] == was[k + WIDTH]
        invariant forall k | (LINES - 1) * WIDTH <= k < (LINES - 1) * WIDTH + x :: buffer[k] == BLANK
      {
        buffer[(LINES - 1) * WIDTH + x] := BLANK;
      }
      row := LINES - 1;
    }

    /** The inner loop of vga_scroll: line y moves up. */
    method MoveLine(y: nat, ghost was: seq<char>)
      requires vga.Length == VISIBLE == |was| && 1 <= y < HEIGHT
      requires forall k | 0 <= k < (y - 1) * WIDTH :: vga[k] == was[k + WIDTH]
      requires forall k | (y - 1) * WIDTH <= k < VISIBLE :: vga[k] == was[k]
      modifies vga
      ensures forall k | 0 <= k < y * WIDTH :: vga[k] == was[k + WIDTH]
      ensures forall k | y * WIDTH <= k < VISIBLE :: vga[k] == was[k]
    {
      for x := 0 to WIDTH
        invariant forall k | 0 <= k < (y - 1) * WIDTH + x :: vga[k] == was[k + WIDTH]
        invariant forall k | (y - 1) * WIDTH + x <= k < VISIBLE :: vga[k] == was[k]
      {
        vga[(y - 1) * WIDTH + x] := vga[y * WIDTH + x];
      }
    }

    /** vga_scroll. */
    method VgaScroll()
      requires vga.Length == VISIBLE
      modifies vga
      ensures vga[..] == Scrolled(old(vga[..]))
    {
      ghost var was := vga[..];
      for y := 1 to HEIGHT
        invariant forall k | 0 <= k < (y - 1) * WIDTH :: vga[k] == was[k + WIDTH]
        invariant forall k | (y - 1) * WIDTH <= k < VISIBLE :: vga[k] == was[k]
      {
        MoveLine(y, was);
      }
      for x := 0 to WIDTH
        invariant forall k | 0 <= k < (HEIGHT - 1) * WIDTH :: vga[k] == was[k + WIDTH]
        invariant forall k | (HEIGHT - 1) * WIDTH <= k < (HEIGHT - 1) * WIDTH + x :: vga[k] == BLANK
      {
        vga[(HEIGHT - 1) * WIDTH + x] := BLANK;
      }
    }

    /** terminal_refresh_display. */
    method Refresh()
      requires buffer.Length == CELLS && vga.Length == VISIBLE && buffer != vga && row < LINES
      modifies vga
      ensures vga[..] == Window(buffer[..], if Start(row) >= offset then Start(row) - offset else 0)
    {
      var ds := Start(row);
      ds := if ds >= offset then ds - offset else 0;
      for y := 0 to HEIGHT
        invariant vga[..y * WIDTH] == buffer[ds * WIDTH..(ds + y) * WIDTH]
      {
        for x := 0 to WIDTH
          invariant vga[..y * WIDTH + x] == buffer[ds * WIDTH..(ds + y) * WIDTH + x]
        {
          vga[y * WIDTH + x] := buffer[(ds + y) * WIDTH + x];
        }
      }
      assert vga[..] == vga[..HEIGHT * WIDTH];
    }

    /** terminal_putchar_at: the cell changes in the buffer, and in video memory if the live view shows it. */
    method PutcharAt(c: char, x: nat, y: nat)
      requires buffer.Length == CELLS && vga.Length == VISIBLE && buffer != vga && row < LINES && x < WIDTH && y < LINES
      modifies buffer, vga
      ensures buffer[..] == old(buffer[..])[y * WIDTH + x := c]
      ensures vga[..] == if offset == 0 && Start(row) <= y < Start(row) + HEIGHT
                         then old(vga[..])[(y - Start(row)) * WIDTH + x := c] else old(vga[..])
    {
      buffer[y * WIDTH + x] := c;
      if offset == 0 {
        var ds := Start(row);
        if y >= ds && y < ds + HEIGHT {
          vga[(y - ds) * WIDTH + x] := c;
        }
      }
    }

    /** The end of a line in terminal_putchar: the buffer scrolls when it is full, video memory when its window
        moves. */
    method NewLine()
      requires buffer.Length == CELLS && vga.Length == VISIBLE && buffer != vga && row < LINES && offset == 0
      requires BlankFrom(buffer[..], (row + 1) * WIDTH) && vga[..] == Window(buffer[..], Start(row))
      modifies buffer, vga, this`row, this`col
      ensures View() == NextLine(old(View())) && vga[..] == Window(buffer[..], Start(row))
    {
      col := 0;
      var oldStart := Start(row);
      row := row + 1;
      if row == LINES {
        ScrollBuffer();
        Refresh();
      } else if Start(row) != oldStart {
        ScrolledWindow(buffer[..], oldStart);
        VgaScroll();
      }
    }

    /** The backspace branch of terminal_putchar. */
    method Erase()
      requires Valid() && offset == 0
      modifies buffer, vga, this`row, this`col
      ensures View() == Type(old(View()), BACKSPACE)
      ensures Coherent() <==> SafeChar(old(View()), BACKSPACE) || Uniform(old(View()))
    {
      hide Window, BlankFrom, Uniform;
      ghost var t := View();
      if !SafeChar(t, BACKSPACE) {
        StaleWindow(t);
      }
      if col > 0 {
        col := col - 1;
      } else if row > 0 {
        row := row - 1;
        col := WIDTH - 1;
      }
      assert View() == Back(t);
      WindowPut(buffer[..], Start(row), row * WIDTH + col, BLANK);
      PutcharAt(BLANK, col, row);
      assert View() == Blanked(Back(t));
    }

    /** The printing branch of terminal_putchar. */
    method Print(c: char)
      requires Valid() && offset == 0 && c != BACKSPACE && c != NEWLINE
      modifies buffer, vga, this`row, this`col
      ensures View() == Type(old(View()), c) && Coherent()
    {
      hide Window;
      ghost var t := View();
      WindowPut(buffer[..], Start(row), row * WIDTH + col, c);
      PutcharAt(c, col, row);
      assert BlankFrom(buffer[..], t.Cursor() + 1);
      assert View() == t.(cells := t.cells[t.Cursor() := c]);
      if col + 1 == WIDTH {
        NewLine();
      } else {
        col := col + 1;
      }
    }

    /** terminal_putchar: the text changes as the model says, and video memory shows its live window, except after a
        backspace at column 0 below the first screen over lines that are not uniform. */
    method Putchar(c: char)
      requires Valid()
      modifies buffer, vga, this`row, this`col, this`offset
      ensures Shape() && View() == Type(old(View()), c) && offset == 0
      ensures Coherent() <==> SafeChar(old(View()), c) || Uniform(old(View()))
    {
      hide Window, BlankFrom, Type, Uniform;
      TypeKeeps(View(), c);
      if offset != 0 {
        offset := 0;
        Refresh();
      }
      if c == BACKSPACE {
        Erase();
      } else if c == NEWLINE {
        BlankBelow(View());
        NewLine();
      } else {
        Print(c);
      }
    }

    /** terminal_write, for every stream that is safe from here. */
    method Write(cs: seq<char>)
      requires Valid() && SafeStream(View(), cs)
      modifies buffer, vga, this`row, this`col, this`offset
      ensures Valid() && View() == TypeAll(old(View()), cs) && (cs != [] ==> offset == 0)
    {
      ghost var t := View();
      for i := 0 to |cs|
        invariant Valid() && SafeStream(View(), cs[i..]) && TypeAll(View(), cs[i..]) == TypeAll(t, cs)
        invariant i > 0 ==> offset == 0
      {
        assert cs[i..][0] == cs[i] && cs[i..][1..] == cs[i + 1..];
        Putchar(cs[i]);
      }
    }

    /** terminal_scroll_up, with the 32-bit wrap-around of its sum. */
    method ScrollUp(lines: nat)
      requires Valid() && lines < U32
      modifies vga, this`offset
      ensures Valid()
      ensures offset == if Wrap(old(offset) + lines) > Start(row) then Start(row) else Wrap(old(offset) + lines)
    {
      offset := Wrap(offset + lines);
      if offset > Start(row) {
        offset := Start(row);
      }
      Refresh();
    }

    /** terminal_scroll_down. */
    method ScrollDown(lines: nat)
      requires Valid()
      modifies vga, this`offset
      ensures Valid() && offset == if old(offset) >= lines then old(offset) - lines else 0
    {
      offset := if offset >= lines then offset - lines else 0;
      Refresh();
    }
  }
}
