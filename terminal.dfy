/** terminal.c: the VGA text terminal as the kernel runs it, a cursor and a
    color over the 2000 cells of text memory, updated in place. Every
    method is proved to compute the function of module TerminalSpec that
    describes it. */
module Terminal {
  import opened CTypes
  import opened Memcpy
  import Memmove
  import opened TerminalSpec

  /** `struct terminal` (terminal.h:6-11). buffer is the text memory at
      0xB8000, bound once when the object is made. */
  class Terminal {
    var row: u32
    var column: u32
    var color: u8
    const buffer: array<Cell>

    ghost predicate Valid()
      reads this
    {
      buffer.Length == CellCount
    }

    /** The state as a value. */
    function Model(): Screen
      reads this, buffer
    {
      Screen(row, column, color, buffer[..])
    }

    /** The zero-initialised global, with its text memory. */
    constructor (vga: array<Cell>)
      requires vga.Length == CellCount
      ensures Valid() && buffer == vga && row == 0 && column == 0 && color == 0
    {
      buffer := vga;
      row, column, color := 0, 0, 0;
    }

    /** terminal.c:10-20: blanks from (x, y) to the end of the screen, row
        by row, in the current color. */
    method ClearAt(x: nat, y: nat)
      requires Valid()
      modifies buffer
      ensures buffer[..] == ClearFrom(old(buffer[..]), ClearStart(x, y), Blank(color))
    {
      ghost var start := ClearStart(x, y);
      var cx, cy := x, y;
      while cy < Height
        invariant cy >= y && cx == (if cy == y then x else 0)
        invariant cy > y ==> cy <= Height
        invariant forall i :: 0 <= i < CellCount ==>
          buffer[i] == if start <= i < Min(CellCount, cy * Width + Min(cx, Width)) then Blank(color) else old(buffer[i])
      {
        while cx < Width
          invariant cx >= (if cy == y then x else 0)
          invariant forall i :: 0 <= i < CellCount ==>
            buffer[i] == if start <= i < cy * Width + Min(cx, Width) then Blank(color) else old(buffer[i])
        {
          buffer[cy * Width + cx] := Blank(color);
          cx := cx + 1;
        }
        cx := 0;
        cy := cy + 1;
      }
      assert forall i :: 0 <= i < CellCount ==>
        buffer[..][i] == ClearFrom(old(buffer[..]), start, Blank(color))[i];
    }

    /** terminal.c:22-25. */
    method Clear()
      requires Valid()
      modifies buffer
      ensures buffer[..] == ClearFrom(old(buffer[..]), 0, Blank(color))
    {
      ClearAt(0, 0);
    }

    /** terminal.c:27-36: cursor to the top left, the default color (the
        value of vga_entry_color, which is not part of this model, is the
        parameter), and every cell blank. */
    method Initialize(defaultColor: u8)
      requires Valid()
      modifies this, buffer
      ensures row == 0 && column == 0 && color == defaultColor
      ensures forall i :: 0 <= i < CellCount ==> buffer[i] == Blank(defaultColor)
    {
      row := 0;
      column := 0;
      color := defaultColor;
      Clear();
      assert forall i :: 0 <= i < CellCount ==> buffer[i] == buffer[..][i];
    }

    /** terminal.c:38-41. */
    method GetRow() returns (r: u32)
      ensures r == row
    {
      r := row;
    }

    /** terminal.c:43-46. */
    method SetColor(newColor: u8)
      modifies this
      ensures color == newColor && row == old(row) && column == old(column)
    {
      color := newColor;
    }

    /** terminal.c:48-53: stores one cell of text memory; nothing else
        changes. Only the 2000 cells of the page are held in buffer: the
        cells of text memory after them are never read by terminal.c, so a
        store there changes none of the state. */
    method PutEntryAt(c: char, entryColor: u8, x: nat, y: nat)
      requires Valid() && y * Width + x < TextCells
      modifies buffer
      ensures buffer[..] == Store(old(buffer[..]), y * Width + x, VgaEntry(c, entryColor))
    {
      var index := y * Width + x;
      if index < CellCount {
        buffer[index] := VgaEntry(c, entryColor);
      }
    }

    /** terminal.c:55-63. y is at most 25, or the length handed to memmove
        wraps around. */
    method ScrollDown(y: nat)
      requires Valid() && y <= Height
      modifies this, buffer
      ensures Model() == ScrollSpec(old(Model()), y)
    {
      ghost var s := Model();
      var delta := y * Width;
      var newLength := Width * (Height - y);
      var moved := Memmove.Memmove(buffer, 0, delta, newLength);
      ghost var moved' := buffer[..];
      row := (row - y) % TWO32;
      ClearAt(0, (row + 1) % TWO32);
      ghost var cleared := buffer[..];
      ScrollParts(s, y, moved', cleared, row);
    }

    /** terminal.c:65-86, with the new column (column + x) % 80 that line 72
        evidently means; as written it is column + x % 80. */
    method MoveRel(x: nat, y: nat)
      requires Valid() && MoveOk(Model(), x, y)
      modifies this, buffer
      ensures Model() == MoveRelSpec(old(Model()), x, y)
    {
      ghost var s := Model();
      var dy := y;
      if column + x >= Width {
        dy := dy + (column + x) / Width;
      }
      var nx := (column + x) % Width;
      if row + dy >= Height {
        ScrollDown(row + dy - Height + 1);
        ghost var t := Model();
        column, row := nx, Height - 1;
        assert buffer[..] == t.cells;
        MoveRelScrolls(s, x, y, t, Model());
      } else {
        column, row := nx, row + dy;
        assert buffer[..] == s.cells;
        MoveRelStays(s, x, y, Model());
      }
    }

    /** terminal.c:88-92. */
    method Newline()
      requires Valid() && MoveOk(Model(), 0, 1)
      modifies this, buffer
      ensures Model() == NewlineSpec(old(Model()))
    {
      MoveRel(0, 1);
      column := 0;
    }

    /** terminal.c:94-104. */
    method Putchar(c: char)
      requires Valid() && PutcharOk(Model(), c)
      modifies this, buffer
      ensures Model() == PutcharSpec(old(Model()), c)
    {
      if c == '\n' {
        Newline();
      } else {
        CursorCellInTextMemory(Model());
        PutEntryAt(c, color, column, row);
        MoveRel(1, 0);
      }
    }

    /** terminal.c:106-112: puts each character in turn and returns size,
        converted to int. */
    method Write(data: seq<char>) returns (r: int)
      requires Valid() && |data| < TWO32 && WriteOk(Model(), data)
      modifies this, buffer
      ensures Model() == WriteSpec(old(Model()), data)
      ensures r == if |data| <= INT_MAX then |data| else |data| - TWO32
    {
      var i := 0;
      while i < |data|
        invariant 0 <= i <= |data|
        invariant WriteOk(Model(), data[i..])
        invariant WriteSpec(Model(), data[i..]) == WriteSpec(old(Model()), data)
      {
        assert data[i..][0] == data[i] && data[i..][1..] == data[i + 1..];
        Putchar(data[i]);
        i := i + 1;
      }
      r := if |data| <= INT_MAX then |data| else |data| - TWO32;
    }
  }
}
