/**
 Strings in cells of four bytes (amxmodx/amx.cpp): packed with the first character in the highest byte
 of a cell, or unpacked with one character to a cell. The machine keeps the lowest byte of a cell
 first, and characters are signed bytes.
 */
module PackedStrings {
  import opened Basics

  /** A cell as its bytes in memory, the lowest first. */
  datatype Cell = Cell(b0: byte, b1: byte, b2: byte, b3: byte)

  const Zero := Cell(0, 0, 0, 0)
  const UNPACKEDMAX := 0xff_ffff

  function Value(c: Cell): int {
    c.b0 as int + 256 * (c.b1 as int + 256 * (c.b2 as int + 256 * c.b3 as int))
  }

  function Swapped(c: Cell): Cell {
    Cell(c.b3, c.b2, c.b1, c.b0)
  }

  function ByteOf(c: Cell, i: nat): byte
    requires i < 4
  {
    if i == 0 then c.b0 else if i == 1 then c.b1 else if i == 2 then c.b2 else c.b3
  }

  function WithByte(c: Cell, i: nat, b: byte): Cell
    requires i < 4
  {
    if i == 0 then c.(b0 := b) else if i == 1 then c.(b1 := b) else if i == 2 then c.(b2 := b) else c.(b3 := b)
  }

  /** What tells packed strings: the highest byte of their first cell. */
  predicate IsPacked(c: Cell) {
    Value(c) > UNPACKEDMAX
  }

  lemma PackedByte(c: Cell)
    ensures IsPacked(c) <==> c.b3 != 0
  {
  }

  /** A character as a cell, with its sign. */
  function FromChar(b: byte): Cell {
    if b < 128 then Cell(b, 0, 0, 0) else Cell(b, 255, 255, 255)
  }

  /** The k-th character of a packed string. */
  function CharAt(cells: seq<Cell>, k: nat): byte
    requires k / 4 < |cells|
  {
    ByteOf(cells[k / 4], 3 - k % 4)
  }

  /** The k-th byte in memory. */
  function MemAt(cells: seq<Cell>, k: nat): byte
    requires k / 4 < |cells|
  {
    ByteOf(cells[k / 4], k % 4)
  }

  /** The cells hold the packed string: its characters, and zero up to the end of its last cell. */
  ghost predicate HoldsPacked(cells: seq<Cell>, s: seq<byte>) {
    && |s| / 4 < |cells|
    && (forall k: nat {:trigger s[k]} :: k < |s| ==> CharAt(cells, k) == s[k])
    && (forall k: nat {:trigger CharAt(cells, k)} :: |s| <= k < 4 * (|s| / 4 + 1) ==> CharAt(cells, k) == 0)
  }

  ghost predicate HoldsUnpacked(cells: seq<Cell>, s: seq<byte>) {
    && |s| < |cells| && cells[|s|] == Zero
    && (forall k {:trigger s[k]} :: 0 <= k < |s| ==> cells[k] == FromChar(s[k]))
  }

  // ---------- Storing ----------

  /** How much of a string goes into a buffer of that many cells. */
  function Fitting(s: seq<byte>, pack: bool, size: nat): seq<byte>
    requires size > 0
  {
    var room := if pack then 4 * size else size;
    if |s| >= room then s[..room - 1] else s
  }

  method SetString(dest: array<Cell>, source: seq<byte>, pack: bool, size: nat)
    requires 0 < size <= dest.Length
    modifies dest
    ensures if pack then HoldsPacked(dest[..], Fitting(source, pack, size))
            else HoldsUnpacked(dest[..], Fitting(source, pack, size))
  {
    var text := Fitting(source, pack, size);
    if pack {
      SetPacked(dest, text);
    } else {
      for i := 0 to |text|
        invariant forall k {:trigger text[k]} :: 0 <= k < i ==> dest[k] == FromChar(text[k])
      {
        dest[i] := FromChar(text[i]);
      }
      dest[|text|] := Zero;
    }
  }

  method SetPacked(dest: array<Cell>, text: seq<byte>)
    requires |text| / 4 < dest.Length
    modifies dest
    ensures HoldsPacked(dest[..], text)
  {
    CopyBytes(dest, text);
    ghost var mem := dest[..];
    var last := |text| / 4;
    var i := last;
    while i >= 0
      invariant -1 <= i <= last
      invariant forall q :: i < q <= last ==> dest[q] == Swapped(mem[q])
      invariant forall q :: 0 <= q <= i ==> dest[q] == mem[q]
    {
      dest[i] := Swapped(dest[i]);
      i := i - 1;
    }
    forall k: nat | k / 4 <= last ensures CharAt(dest[..], k) == MemAt(mem, k) {
      assert dest[k / 4] == Swapped(mem[k / 4]);
    }
  }

  /** The characters in the order of memory, and zero behind them in the last cell. */
  method CopyBytes(dest: array<Cell>, text: seq<byte>)
    requires |text| / 4 < dest.Length
    modifies dest
    ensures forall k: nat {:trigger text[k]} :: k < |text| ==> MemAt(dest[..], k) == text[k]
    ensures forall k: nat {:trigger MemAt(dest[..], k)} :: |text| <= k < 4 * (|text| / 4 + 1) ==>
              MemAt(dest[..], k) == 0
  {
    dest[|text| / 4] := Zero;
    for i := 0 to |text|
      invariant forall k: nat {:trigger text[k]} :: k < i ==> MemAt(dest[..], k) == text[k]
      invariant forall k: nat {:trigger MemAt(dest[..], k)} :: |text| <= k < 4 * (|text| / 4 + 1) ==>
                  MemAt(dest[..], k) == 0
    {
      ghost var before := dest[..];
      dest[i / 4] := WithByte(dest[i / 4], i % 4, text[i]);
      forall k: nat | k / 4 < |before| && k != i ensures MemAt(dest[..], k) == MemAt(before, k) {
        if k / 4 == i / 4 {
          assert k % 4 != i % 4;
        }
      }
    }
  }

  // ---------- What cells say ----------

  /** The first zero character of a packed string, from k on. */
  function PackedEnd(cells: seq<Cell>, k: nat): (r: nat)
    requires k <= 4 * |cells|
    ensures k <= r <= 4 * |cells| && (forall i: nat {:trigger CharAt(cells, i)} :: k <= i < r ==> CharAt(cells, i) != 0)
    ensures r < 4 * |cells| ==> CharAt(cells, r) == 0
    decreases 4 * |cells| - k
  {
    if k == 4 * |cells| || CharAt(cells, k) == 0 then k else PackedEnd(cells, k + 1)
  }

  /** The first zero cell of an unpacked string, from k on. */
  function UnpackedEnd(cells: seq<Cell>, k: nat): (r: nat)
    requires k <= |cells|
    ensures k <= r <= |cells| && (forall i {:trigger cells[i]} :: k <= i < r ==> cells[i] != Zero)
            && (r < |cells| ==> cells[r] == Zero)
    decreases |cells| - k
  {
    if k == |cells| || cells[k] == Zero then k else UnpackedEnd(cells, k + 1)
  }

  /** The string in the cells is terminated within them. */
  predicate Terminated(cells: seq<Cell>) {
    cells != [] && if IsPacked(cells[0]) then PackedEnd(cells, 0) < 4 * |cells| else UnpackedEnd(cells, 0) < |cells|
  }

  /** The string that the cells are taken for. */
  function TextOf(cells: seq<Cell>): (r: seq<byte>)
    requires Terminated(cells)
    ensures |r| == if IsPacked(cells[0]) then PackedEnd(cells, 0) else UnpackedEnd(cells, 0)
  {
    if IsPacked(cells[0]) then seq(PackedEnd(cells, 0), k requires 0 <= k < PackedEnd(cells, 0) => CharAt(cells, k))
    else seq(UnpackedEnd(cells, 0), k requires 0 <= k < UnpackedEnd(cells, 0) => cells[k].b0)
  }

  // ---------- Length and reading ----------

  method StrLen(cells: seq<Cell>) returns (len: nat)
    requires Terminated(cells)
    ensures len == |TextOf(cells)|
  {
    if IsPacked(cells[0]) {
      len := PackedLength(cells);
    } else {
      len := 0;
      while cells[len] != Zero
        invariant len <= UnpackedEnd(cells, 0)
        decreases UnpackedEnd(cells, 0) - len
      {
        len := len + 1;
      }
    }
  }

  /** The first zero byte in memory tells the last cell, and its highest bytes the rest. */
  method PackedLength(cells: seq<Cell>) returns (len: nat)
    requires cells != [] && PackedEnd(cells, 0) < 4 * |cells|
    ensures len == PackedEnd(cells, 0)
  {
    ghost var end := PackedEnd(cells, 0);
    assert CharAt(cells, end) == MemAt(cells, 4 * (end / 4) + (3 - end % 4));
    len := 0;
    while MemAt(cells, len) != 0
      invariant len <= 4 * (end / 4) + (3 - end % 4)
      decreases 4 * |cells| - len
    {
      len := len + 1;
    }
    SameCell(cells, len, end);
    len := len - len % 4;
    var n := HighBytes(cells[len / 4]);
    EndInCell(cells, len, n, end);
    len := len + n;
  }

  function Shifted(c: Cell, n: nat): Cell
    requires n < 4
  {
    if n == 0 then c else if n == 1 then Cell(0, c.b0, c.b1, c.b2) else if n == 2 then Cell(0, 0, c.b0, c.b1)
      else Cell(0, 0, 0, c.b0)
  }

  /** The shifting loop: the number of bytes before the first zero, from the highest. */
  method HighBytes(cell: Cell) returns (n: nat)
    requires cell.b0 == 0 || cell.b1 == 0 || cell.b2 == 0 || cell.b3 == 0
    ensures n < 4 && ByteOf(cell, 3 - n) == 0 && (n > 0 ==> cell.b3 != 0) && (n > 1 ==> cell.b2 != 0)
            && (n > 2 ==> cell.b1 != 0)
  {
    var c := cell;
    n := 0;
    while c.b3 != 0
      invariant n < 4 && c == Shifted(cell, n) && (n > 0 ==> cell.b3 != 0) && (n > 1 ==> cell.b2 != 0)
                && (n > 2 ==> cell.b1 != 0)
      decreases 4 - n
    {
      n := n + 1;
      c := Cell(0, c.b0, c.b1, c.b2);
    }
  }

  lemma EndInCell(cells: seq<Cell>, len: nat, n: nat, end: nat)
    requires end == PackedEnd(cells, 0) < 4 * |cells| && len % 4 == 0 && len / 4 == end / 4 && n < 4
    requires var c := cells[len / 4];
             ByteOf(c, 3 - n) == 0 && (n > 0 ==> c.b3 != 0) && (n > 1 ==> c.b2 != 0) && (n > 2 ==> c.b1 != 0)
    ensures len + n == end
  {
    assert CharAt(cells, len) == cells[len / 4].b3 && CharAt(cells, len + 1) == cells[len / 4].b2
        && CharAt(cells, len + 2) == cells[len / 4].b1 && CharAt(cells, len + 3) == cells[len / 4].b0;
  }

  /** The first zero in memory is in the cell of the first zero character. */
  lemma SameCell(cells: seq<Cell>, len: nat, end: nat)
    requires end == PackedEnd(cells, 0) < 4 * |cells| && len <= 4 * (end / 4) + (3 - end % 4)
    requires MemAt(cells, len) == 0
    ensures len / 4 == end / 4 && var c := cells[len / 4]; c.b0 == 0 || c.b1 == 0 || c.b2 == 0 || c.b3 == 0
  {
    assert CharAt(cells, 4 * (len / 4) + (3 - len % 4)) == MemAt(cells, len);
  }

  method GetString(dest: array<byte>, cells: seq<Cell>, size: nat)
    requires Terminated(cells) && 0 < size <= dest.Length
    modifies dest
    ensures var text := TextOf(cells);
            var n := if |text| < size then |text| else size - 1;
            dest[..n] == text[..n] && dest[n] == 0
  {
    ghost var text := TextOf(cells);
    var len := 0;
    if IsPacked(cells[0]) {
      len := GetPacked(dest, cells, size);
    } else {
      while cells[len] != Zero && len < size
        invariant len <= size && len <= |text| && forall k {:trigger text[k]} :: 0 <= k < len ==> dest[k] == text[k]
        decreases size - len
      {
        dest[len] := cells[len].b0;
        len := len + 1;
      }
    }
    if len >= size {
      len := size - 1;
    }
    dest[len] := 0;
  }

  /** All characters of the cells, past the end of the string too. */
  function Chars(cells: seq<Cell>): (r: seq<byte>)
    ensures |r| == 4 * |cells|
  {
    seq(4 * |cells|, k requires 0 <= k < 4 * |cells| => CharAt(cells, k))
  }

  lemma CharsText(cells: seq<Cell>)
    requires Terminated(cells) && IsPacked(cells[0])
    ensures var text, chars := TextOf(cells), Chars(cells);
            |text| < |chars| && text == chars[..|text|] && chars[|text|] == 0 && 0 !in text
  {
  }

  lemma CharIs(cells: seq<Cell>, k: nat)
    requires k < 4 * |cells|
    ensures ByteOf(cells[k / 4], 3 - k % 4) == Chars(cells)[k]
  {
  }

  /** The next place in the cell, or the first one of the next cell. */
  lemma NextPlace(len: nat)
    ensures (3 - len % 4 + 3) % 4 == 3 - (len + 1) % 4
    ensures 3 - (len + 1) % 4 < 3 ==> (len + 1) / 4 == len / 4
  {
  }

  method GetPacked(dest: array<byte>, cells: seq<Cell>, size: nat) returns (len: nat)
    requires Terminated(cells) && IsPacked(cells[0]) && 0 < size <= dest.Length
    modifies dest
    ensures var text := TextOf(cells);
            && len == (if |text| < size then |text| + 1 else size)
            && (forall k {:trigger text[k]} :: 0 <= k < len && k < |text| ==> dest[k] == text[k])
            && (|text| < size ==> dest[|text|] == 0)
  {
    ghost var text, chars := TextOf(cells), Chars(cells);
    CharsText(cells);
    var c, i := Zero, 3;
    len := 0;
    while len < size
      invariant len <= size && len <= |text| && forall k {:trigger text[k]} :: 0 <= k < len ==> dest[k] == text[k]
      invariant i == 3 - len % 4 && (i < 3 ==> c == cells[len / 4])
      decreases size - len
    {
      if i == 3 {
        c := cells[len / 4];
      }
      CharIs(cells, len);
      NextPlace(len);
      dest[len] := ByteOf(c, i);
      assert len < |text| ==> text[len] == chars[len] && text[len] in text;
      len := len + 1;
      if dest[len - 1] == 0 {
        return;
      }
      i := (i + 3) % 4;
    }
  }

  // ---------- Round trips ----------

  lemma PackedRoundTrip(cells: seq<Cell>, s: seq<byte>)
    requires HoldsPacked(cells, s) && 0 !in s
    ensures Terminated(cells) && TextOf(cells) == s
  {
    assert CharAt(cells, |s|) == 0;
    assert forall k: nat :: k < |s| ==> CharAt(cells, k) == s[k];
    if s != [] {
      assert CharAt(cells, 0) == s[0] != 0;
      PackedByte(cells[0]);
    } else {
      assert CharAt(cells, 0) == 0 && CharAt(cells, 1) == 0 && CharAt(cells, 2) == 0 && CharAt(cells, 3) == 0;
      assert cells[0] == Zero;
    }
  }

  lemma UnpackedFirst(cells: seq<Cell>, s: seq<byte>)
    requires HoldsUnpacked(cells, s)
    ensures IsPacked(cells[0]) <==> s != [] && s[0] >= 128
  {
  }

  lemma UnpackedCells(cells: seq<Cell>, s: seq<byte>, k: nat)
    requires HoldsUnpacked(cells, s) && 0 !in s && k < |s|
    ensures cells[k] != Zero && cells[k].b0 == s[k]
  {
  }

  lemma HighChar(cells: seq<Cell>, s: seq<byte>, k: nat)
    requires HoldsUnpacked(cells, s) && k / 4 < |s| && s[k / 4] >= 128
    ensures CharAt(cells, k) >= 128
  {
  }

  lemma {:induction false} AllHigh(cells: seq<Cell>, s: seq<byte>, k: nat)
    requires HoldsUnpacked(cells, s) && s != [] && s[0] >= 128 && k < |s| <= 4 * |cells|
    requires forall i {:trigger s[i]} :: 0 <= i < |s| ==> s[i] == CharAt(cells, i)
    ensures s[k] >= 128
  {
    if k > 0 {
      AllHigh(cells, s, k / 4);
      HighChar(cells, s, k);
    }
  }

  lemma NotReadBack(cells: seq<Cell>, s: seq<byte>)
    requires HoldsUnpacked(cells, s) && s != [] && s[0] >= 128 && IsPacked(cells[0]) && Terminated(cells)
    ensures TextOf(cells) != s
  {
    if TextOf(cells) == s {
      assert |s| == PackedEnd(cells, 0);
      forall i {:trigger s[i]} | 0 <= i < |s| ensures s[i] == CharAt(cells, i) {
        assert s[i] == TextOf(cells)[i];
      }
      AllHigh(cells, s, |s| / 4);
      HighChar(cells, s, |s|);
    }
  }

  /** An unpacked string is read back exactly unless its first character is beyond 7 bits: then it is
      taken for a packed one, and never comes out as it was. */
  lemma UnpackedRoundTrip(cells: seq<Cell>, s: seq<byte>)
    requires HoldsUnpacked(cells, s) && 0 !in s
    ensures Terminated(cells) && (TextOf(cells) == s <==> s == [] || s[0] < 128)
  {
    UnpackedFirst(cells, s);
    forall k | 0 <= k < |s| ensures cells[k] != Zero && cells[k].b0 == s[k] {
      UnpackedCells(cells, s, k);
    }
    assert CharAt(cells, 4 * |s|) == 0;
    if s != [] && s[0] >= 128 {
      NotReadBack(cells, s);
    }
  }
}
