/**
 The compact form of a plugin image, as the compiler writes it: what expansion reads back (amxmodx/amx.cpp,
 `expand`).
 */
module Compact {
  import opened Basics
  import opened Expand

  /** Seven bits hold the number with its sign. */
  predicate Small(n: int) {
    -64 <= n < 64
  }

  /** The groups of seven bits of a number, all marked as continued. */
  function Continued(n: int): (r: seq<byte>)
    ensures r != []
    decreases if n < 0 then -n else n
  {
    if Small(n) then [128 + n % 128] else Continued(n / 128) + [128 + n % 128]
  }

  /** A number in as few bytes as it needs, most significant first. */
  function Compressed(n: int): (r: seq<byte>)
    ensures r != []
  {
    if Small(n) then [n % 128] else Continued(n / 128) + [n % 128]
  }

  function CompressedAll(cells: seq<cell>): seq<byte> {
    if cells == [] then [] else Compressed(Signed(cells[0])) + CompressedAll(cells[1..])
  }

  lemma {:induction false} ContinuedReads(n: int)
    ensures ReadForward(Continued(n)) == n
    decreases if n < 0 then -n else n
  {
    if !Small(n) {
      ContinuedReads(n / 128);
      assert Continued(n)[..|Continued(n)| - 1] == Continued(n / 128);
    }
  }

  lemma CompressedReads(n: int)
    ensures ReadForward(Compressed(n)) == n
  {
    if !Small(n) {
      ContinuedReads(n / 128);
      assert Compressed(n)[..|Compressed(n)| - 1] == Continued(n / 128);
    }
  }

  /** All bytes but the last are continued. */
  predicate IsGroup(g: seq<byte>) {
    g != [] && !Continues(g[|g| - 1]) && forall i :: 0 <= i < |g| - 1 ==> Continues(g[i])
  }

  lemma {:induction false} ContinuedContinues(n: int)
    ensures forall i :: 0 <= i < |Continued(n)| ==> Continues(Continued(n)[i])
    decreases if n < 0 then -n else n
  {
    if !Small(n) {
      ContinuedContinues(n / 128);
    }
  }

  lemma CompressedIsGroup(n: int)
    ensures IsGroup(Compressed(n))
  {
    if !Small(n) {
      ContinuedContinues(n / 128);
    }
  }

  /** A number of 32 bits needs at most five bytes. */
  lemma CompressedFits(n: int)
    requires -0x8000_0000 <= n < 0x8000_0000
    ensures |Compressed(n)| <= 5
  {
    var a, b, c, d := n / 128, n / 128 / 128, n / 128 / 128 / 128, n / 128 / 128 / 128 / 128;
    assert Small(d);
    ContinuedLength(d);
    ContinuedLength(c);
    ContinuedLength(b);
    ContinuedLength(a);
  }

  lemma ContinuedLength(n: int)
    ensures |Continued(n)| == if Small(n) then 1 else |Continued(n / 128)| + 1
  {
  }

  lemma {:induction false} GroupEndsAt(s: seq<byte>, p: nat, q: nat, e: nat)
    requires p <= q < e <= |s| && Complete(s) && !Continues(s[e - 1])
    requires forall i :: q <= i < e - 1 ==> Continues(s[i])
    ensures GroupEnd(s, q) == e
    decreases e - q
  {
    if q < e - 1 {
      GroupEndsAt(s, p, q + 1, e);
    }
  }

  /** A group that stands in a stream is read as its cell. */
  lemma GroupIsRead(s: seq<byte>, p: nat, g: seq<byte>)
    requires IsGroup(g) && p + |g| <= |s| && s[p..p + |g|] == g && Complete(s)
    ensures CellsFrom(s, p) == [CellOf(g)] + CellsFrom(s, p + |g|)
  {
    GroupStands(s, p, g);
  }

  lemma SignedCell(c: cell)
    ensures Signed(c) % WORD == c && -0x8000_0000 <= Signed(c) < 0x8000_0000
  {
  }

  lemma {:induction false} CompressedComplete(cells: seq<cell>)
    ensures Complete(CompressedAll(cells))
  {
    if cells != [] {
      CompressedIsGroup(Signed(cells[0]));
      CompressedComplete(cells[1..]);
    }
  }

  /** The compressed cells behind some bytes are read back. */
  lemma {:induction false} CellsBehind(before: seq<byte>, cells: seq<cell>)
    requires Complete(before)
    ensures Complete(before + CompressedAll(cells))
    ensures CellsFrom(before + CompressedAll(cells), |before|) == cells
    decreases |cells|
  {
    hide CellsFrom, Compressed, CompressedAll, ReadForward, Signed, IsGroup, Complete;
    var s := before + CompressedAll(cells);
    BothComplete(before, cells);
    if cells == [] {
      NothingCompressed();
      NoCells(s);
    } else {
      var g := Compressed(Signed(cells[0]));
      CompressedIsGroup(Signed(cells[0]));
      GroupIsComplete(before, g);
      CompressedReads(Signed(cells[0]));
      SignedCell(cells[0]);
      FirstCompressed(cells);
      assert s == before + g + CompressedAll(cells[1..]);
      CellsBehind(before + g, cells[1..]);
      assert s[|before|..|before| + |g|] == g;
      GroupIsRead(s, |before|, g);
    }
  }

  lemma NoCells(s: seq<byte>)
    requires Complete(s)
    ensures CellsFrom(s, |s|) == []
  {
  }

  lemma GroupIsComplete(before: seq<byte>, g: seq<byte>)
    requires IsGroup(g)
    ensures Complete(before + g) && g != []
  {
  }

  /** Expansion inverts compression: the cells of the compressed cells are these cells, and no group is too long. */
  lemma ExpandCompressed(cells: seq<cell>)
    ensures Complete(CompressedAll(cells)) && Cells(CompressedAll(cells)) == cells
    ensures WellFormedFrom(CompressedAll(cells), 0)
  {
    CellsBehind([], cells);
    assert [] + CompressedAll(cells) == CompressedAll(cells);
    forall i: nat ensures !LongRun(CompressedAll(cells), i) {
      NoLongRun(cells, i);
    }
  }

  lemma {:induction false} NoLongRun(cells: seq<cell>, i: nat)
    ensures !LongRun(CompressedAll(cells), i)
    decreases |cells|
  {
    if cells != [] {
      var g, rest := Compressed(Signed(cells[0])), CompressedAll(cells[1..]);
      CompressedIsGroup(Signed(cells[0]));
      SignedCell(cells[0]);
      CompressedFits(Signed(cells[0]));
      if i < |g| {
        assert (g + rest)[|g| - 1] == g[|g| - 1];
      } else {
        NoLongRun(cells[1..], i - |g|);
      }
    }
  }

  lemma SkipMore(s: seq<byte>, p: nat, k: nat)
    requires Complete(s) && p < |s| && k > 0
    ensures Skip(s, p, k) == Skip(s, GroupEnd(s, p), k - 1)
  {
  }

  lemma SkipNone(s: seq<byte>, p: nat)
    requires Complete(s) && p <= |s|
    ensures Skip(s, p, 0) == p
  {
  }

  lemma FirstCompressed(cells: seq<cell>)
    requires cells != []
    ensures CompressedAll(cells) == Compressed(Signed(cells[0])) + CompressedAll(cells[1..])
  {
  }

  /** k groups further behind some bytes stand the bytes of k cells. */
  lemma {:induction false} SkipsCells(before: seq<byte>, cells: seq<cell>, k: nat)
    requires Complete(before) && k <= |cells|
    ensures Complete(before + CompressedAll(cells))
    ensures Skip(before + CompressedAll(cells), |before|, k) == |before| + |CompressedAll(cells[..k])|
    decreases |cells|
  {
    hide Compressed, CompressedAll, ReadForward, Signed, IsGroup, Skip, GroupEnd, Complete;
    var s := before + CompressedAll(cells);
    BothComplete(before, cells);
    if k == 0 {
      SkipNone(s, |before|);
      NothingCompressed();
      assert cells[..k] == [];
    } else {
      var g, rest := Compressed(Signed(cells[0])), cells[1..];
      CompressedIsGroup(Signed(cells[0]));
      GroupIsComplete(before, g);
      FirstCompressed(cells);
      FirstCompressed(cells[..k]);
      assert s == before + g + CompressedAll(rest);
      assert cells[..k][1..] == rest[..k - 1];
      SkipsCells(before + g, rest, k - 1);
      assert s[|before|..|before| + |g|] == g;
      GroupStands(s, |before|, g);
      SkipMore(s, |before|, k);
    }
  }

  lemma BothComplete(before: seq<byte>, cells: seq<cell>)
    requires Complete(before)
    ensures Complete(before + CompressedAll(cells))
  {
    CompressedComplete(cells);
  }

  lemma NothingCompressed()
    ensures CompressedAll([]) == []
  {
  }

  lemma GroupStands(s: seq<byte>, p: nat, g: seq<byte>)
    requires IsGroup(g) && p + |g| <= |s| && s[p..p + |g|] == g && Complete(s)
    ensures GroupEnd(s, p) == p + |g|
  {
    forall i | 0 <= i < |g| ensures s[p + i] == g[i] {
      assert s[p + i] == s[p..p + |g|][i];
    }
    forall i | p <= i < p + |g| - 1 ensures Continues(s[i]) {
      assert s[p + (i - p)] == g[i - p];
    }
    assert s[p + (|g| - 1)] == g[|g| - 1];
    GroupEndsAt(s, p, p, p + |g|);
  }

  /** A compressed image is accepted for its own size exactly if no beginning of it, with more than 64 cells behind it,
      is 256 bytes longer than expanded. */
  lemma CompressedAccepted(cells: seq<cell>)
    ensures Accepts(CompressedAll(cells), 4 * |cells|) <==>
              forall k: nat {:trigger cells[..k]} :: k + 64 < |cells| ==> |CompressedAll(cells[..k])| < 4 * k + 256
  {
    hide Cells, CellsFrom, Skip, Complete;
    ExpandCompressed(cells);
    var s := CompressedAll(cells);
    forall k: nat | k <= |cells| ensures CompactSize(s, k) == |CompressedAll(cells[..k])| {
      NothingComplete();
      SkipsCells([], cells, k);
      assert [] + s == s;
    }
  }

  lemma NothingComplete()
    ensures Complete([])
  {
  }

  /** The expanded image has the bytes of each cell, the lowest first. */
  lemma SlotHasBytes(code: seq<byte>, i: nat, c: cell)
    requires 4 * i + 4 <= |code| && Slot(code, i) == c
    ensures code[4 * i] == c % 0x100 && code[4 * i + 1] == c / 0x100 % 0x100
    ensures code[4 * i + 2] == c / 0x1_0000 % 0x100 && code[4 * i + 3] == c / 0x100_0000
  {
    var b0, b1, b2, b3 := code[4 * i] as int, code[4 * i + 1] as int, code[4 * i + 2] as int, code[4 * i + 3] as int;
    LowByte(b0, b1 + 0x100 * (b2 + 0x100 * b3));
    LowByte(b1, b2 + 0x100 * b3);
    LowByte(b2, b3);
    HighParts(b0 + 0x100 * b1, b2 + 0x100 * b3);
    HighByte(b0 + 0x100 * b1 + 0x1_0000 * b2, b3);
  }

  lemma LowByte(low: nat, high: nat)
    requires low < 0x100
    ensures (low + 0x100 * high) % 0x100 == low && (low + 0x100 * high) / 0x100 == high
  {
  }

  lemma HighParts(low: nat, high: nat)
    requires low < 0x1_0000
    ensures (low + 0x1_0000 * high) / 0x1_0000 == high
  {
  }

  lemma HighByte(low: nat, high: nat)
    requires low < 0x100_0000
    ensures (low + 0x100_0000 * high) / 0x100_0000 == high
  {
  }
}
