/**
 In-place expansion of a compact Pawn image (amxmodx/amx.cpp, `expand`).

 A compact image stores each 32-bit cell as a group of bytes, seven bits a byte, the most
 significant byte first; every byte of a group but the last has its top bit set. The loader
 expands the image inside the buffer that holds it, from the end backwards, and postpones the
 stores that would hit unread input in a ring of COMPACTMARGIN spare entries.

 `code` is the byte buffer, cells are unsigned and little-endian. The source's assertions are
 modelled as a refusal (`ok == false`).
 */
module Expand {
  import opened Basics

  const COMPACTMARGIN: nat := 64

  /** One postponed store. */
  datatype Spare = Spare(memloc: int, c: cell)

  // ---------- The compact format, read forwards ----------

  predicate Continues(b: byte) {
    b >= 0x80
  }

  /** A stream whose last group is finished. */
  predicate Complete(s: seq<byte>) {
    s != [] ==> !Continues(s[|s| - 1])
  }

  /** The end of the group that starts at `p`. */
  function GroupEnd(s: seq<byte>, p: nat): (e: nat)
    requires p < |s| && Complete(s)
    ensures p < e <= |s|
    decreases |s| - p
  {
    if !Continues(s[p]) then p + 1 else GroupEnd(s, p + 1)
  }

  /** The number a group denotes when its bytes are shifted in one after the other; the first
      byte's bit 6 is the sign. */
  function ReadForward(g: seq<byte>): int
    requires g != []
  {
    if |g| == 1 then
      if g[0] % 128 >= 64 then g[0] % 128 - 128 else g[0] % 128
    else
      ReadForward(g[..|g| - 1]) * 128 + g[|g| - 1] % 128
  }

  function CellOf(g: seq<byte>): cell
    requires g != []
  {
    ReadForward(g) % WORD
  }

  /** The cells of the groups from position `p` on. */
  function CellsFrom(s: seq<byte>, p: nat): seq<cell>
    requires Complete(s) && p <= |s|
    decreases |s| - p
  {
    if p == |s| then [] else [CellOf(s[p..GroupEnd(s, p)])] + CellsFrom(s, GroupEnd(s, p))
  }

  /** All cells of a stream, from the first group to the last. */
  function Cells(s: seq<byte>): seq<cell>
    requires Complete(s)
  {
    CellsFrom(s, 0)
  }

  /** The five bytes from `i` on all continue, so that their group has at least six bytes. */
  predicate LongRun(s: seq<byte>, i: nat) {
    i + 5 <= |s| && Continues(s[i]) && Continues(s[i + 1]) && Continues(s[i + 2]) && Continues(s[i + 3])
      && Continues(s[i + 4])
  }

  /** The last group is finished, and no group that starts at `from` or later has more than five bytes. */
  ghost predicate WellFormedFrom(s: seq<byte>, from: nat) {
    Complete(s) && forall i: nat :: from <= i < |s| ==> !LongRun(s, i)
  }

  /** The position after `k` groups that start at `p`. */
  function Skip(s: seq<byte>, p: nat, k: nat): (e: nat)
    requires Complete(s) && p <= |s|
    ensures p <= e <= |s|
    decreases k
  {
    if k == 0 || p == |s| then p else Skip(s, GroupEnd(s, p), k - 1)
  }

  /** Number of bytes that hold the first `k` cells. */
  function CompactSize(s: seq<byte>, k: nat): nat
    requires Complete(s)
  {
    Skip(s, 0, k)
  }

  /** The spare ring suffices: whenever a full ring of later cells exists, the first `k` cells
      take fewer than 4 * COMPACTMARGIN bytes more than their expanded form. */
  predicate MarginHolds(s: seq<byte>)
    requires Complete(s)
  {
    forall k: nat :: k + COMPACTMARGIN < |Cells(s)| ==> CompactSize(s, k) - 4 * k < 4 * COMPACTMARGIN
  }

  ghost predicate Accepts(s: seq<byte>, memsize: nat) {
    WellFormedFrom(s, 0) && memsize == 4 * |Cells(s)| && MarginHolds(s)
  }

  /** `p` is the end of a group, or the start of the stream. */
  predicate Boundary(s: seq<byte>, p: nat)
    requires p <= |s|
  {
    p == 0 || !Continues(s[p - 1])
  }

  // ---------- Bytes and cells in the buffer ----------

  function CellAt(buf: seq<byte>, off: nat): int
    requires off + 4 <= |buf|
  {
    (buf[off] as int) + 0x100 * (buf[off + 1] as int) + 0x1_0000 * (buf[off + 2] as int)
      + 0x100_0000 * (buf[off + 3] as int)
  }

  /** The k-th byte of a cell, from the lowest on. */
  function ByteOf(c: cell, k: nat): byte
    requires k < 4
  {
    if k == 0 then c % 0x100
    else if k == 1 then c / 0x100 % 0x100
    else if k == 2 then c / 0x1_0000 % 0x100
    else c / 0x100_0000
  }

  lemma BytesMakeCell(c: cell)
    ensures ByteOf(c, 0) + 0x100 * ByteOf(c, 1) + 0x1_0000 * ByteOf(c, 2) + 0x100_0000 * ByteOf(c, 3) == c
  {
    Shift8(c, 0x100);
    Shift8(c, 0x1_0000);
  }

  lemma Shift8(c: nat, unit: nat)
    requires unit == 0x100 || unit == 0x1_0000
    ensures c / unit == 0x100 * (c / (0x100 * unit)) + c / unit % 0x100
  {
  }

  method StoreCell(code: array<byte>, off: nat, c: cell)
    requires off + 4 <= code.Length
    modifies code
    ensures CellAt(code[..], off) == c
    ensures code[..off] == old(code[..off]) && code[off + 4..] == old(code[off + 4..])
  {
    hide ByteOf;
    BytesMakeCell(c);
    code[off] := ByteOf(c, 0);
    code[off + 1] := ByteOf(c, 1);
    code[off + 2] := ByteOf(c, 2);
    code[off + 3] := ByteOf(c, 3);
  }

  // ---------- The value of a group, read backwards ----------

  function Pow2(n: nat): (r: nat)
    ensures r > 0
  {
    if n == 0 then 1 else 2 * Pow2(n - 1)
  }

  function Pow128(n: nat): (r: nat)
    ensures r > 0
  {
    if n == 0 then 1 else 128 * Pow128(n - 1)
  }

  /** The bits of a group without its sign, as the backward loop gathers them. */
  function Magnitude(g: seq<byte>): nat {
    if g == [] then 0 else g[0] % 128 * Pow128(|g| - 1) + Magnitude(g[1..])
  }

  lemma {:induction false} Pow2Is128(n: nat)
    ensures Pow2(7 * n) == Pow128(n)
  {
    if n > 0 {
      Pow2Is128(n - 1);
      Pow2Plus7(7 * (n - 1));
    }
  }

  lemma Pow2Plus7(n: nat)
    ensures Pow2(n + 7) == 128 * Pow2(n)
  {
    assert Pow2(n + 7) == 2 * Pow2(n + 6) == 4 * Pow2(n + 5) == 8 * Pow2(n + 4);
    assert Pow2(n + 4) == 2 * Pow2(n + 3) == 4 * Pow2(n + 2) == 8 * Pow2(n + 1) == 16 * Pow2(n);
  }

  lemma {:induction false} Pow2Plus8(n: nat)
    ensures Pow2(n + 8) == 256 * Pow2(n)
  {
    assert Pow2(n + 8) == 2 * Pow2(n + 7) == 4 * Pow2(n + 6) == 8 * Pow2(n + 5) == 16 * Pow2(n + 4);
    assert Pow2(n + 4) == 2 * Pow2(n + 3) == 4 * Pow2(n + 2) == 8 * Pow2(n + 1) == 16 * Pow2(n);
  }

  lemma {:induction false} Pow2Word(n: nat)
    requires n >= 32
    ensures Pow2(n) % WORD == 0
  {
    if n == 32 {
      Pow2Plus8(0); Pow2Plus8(8); Pow2Plus8(16); Pow2Plus8(24);
    } else {
      Pow2Word(n - 1);
    }
  }

  lemma Times128(x: nat, p: nat)
    ensures x * (128 * p) == x * p * 128
  {
  }

  lemma {:induction false} MagnitudeSnoc(g: seq<byte>, b: byte)
    ensures Magnitude(g + [b]) == Magnitude(g) * 128 + b % 128
  {
    if g == [] {
      assert [b][1..] == [];
      assert Magnitude([b]) == b % 128 * Pow128(0) + Magnitude([]);
    } else {
      assert (g + [b])[1..] == g[1..] + [b];
      MagnitudeSnoc(g[1..], b);
      var x, n := g[0] % 128, |g| - 1;
      assert Pow128(n + 1) == 128 * Pow128(n);
      Times128(x, Pow128(n));
    }
  }

  /** The forward reading is the gathered bits minus the weight of the sign. */
  lemma {:induction false} ForwardIsBackward(g: seq<byte>)
    requires g != []
    ensures ReadForward(g) == Magnitude(g) - (if g[0] % 128 >= 64 then Pow128(|g|) else 0)
  {
    if |g| == 1 {
      assert g[1..] == [];
      assert Pow128(0) == 1 && Pow128(1) == 128;
      assert Magnitude(g) == g[0] % 128 * Pow128(0) + Magnitude([]);
    } else {
      var h, b := g[..|g| - 1], g[|g| - 1];
      assert g == h + [b];
      MagnitudeSnoc(h, b);
      ForwardIsBackward(h);
      assert Pow128(|g|) == 128 * Pow128(|h|);
    }
  }

  /** s[start..p] is one group of the stream, of at most five bytes. */
  ghost predicate GroupAt(s: seq<byte>, start: nat, p: nat) {
    && start < p <= |s| && p <= start + 5 && Boundary(s, start)
    && !Continues(s[p - 1]) && forall i {:trigger Continues(s[i])} :: start <= i < p - 1 ==> Continues(s[i])
  }

  lemma NoBits()
    ensures Magnitude([]) == 0
  {
  }

  /** The cell of a group: its bits, and the weight of the sign if the sign bit is set. */
  lemma Gathered(g: seq<byte>)
    requires g != []
    ensures CellOf(g) == (Magnitude(g) - (if g[0] % 128 >= 64 then Pow128(|g|) else 0)) % WORD
  {
    ForwardIsBackward(g);
  }

  /** Reads the group that ends just before `codesize`, from its last byte to its first. */
  method ReadGroup(code: array<byte>, codesize: nat, ghost s: seq<byte>) returns (ok: bool, start: nat, c: cell)
    requires 0 < codesize <= code.Length && codesize <= |s| && code[..codesize] == s[..codesize]
    ensures ok ==> GroupAt(s, start, codesize) && c == CellOf(s[start..codesize])
    ensures !ok ==> Continues(s[codesize - 1]) || LongRun(s, start)
  {
    hide Magnitude, ReadForward, CellOf, Pow2, Pow128;
    assert forall i :: 0 <= i < codesize ==> code[i] == code[..codesize][i] == s[..codesize][i] == s[i];
    NoBits();
    assert s[codesize..codesize] == [];
    start, c := codesize, 0;
    var shift := 0;
    var more := true;
    while more
      invariant 0 <= start <= codesize <= start + 5
      invariant shift == 7 * (codesize - start)
      invariant c == Magnitude(s[start..codesize]) % WORD
      invariant start < codesize ==> !Continues(s[codesize - 1])
      invariant forall i {:trigger Continues(s[i])} :: start <= i < codesize - 1 ==> Continues(s[i])
      invariant more <==> start == codesize || (start > 0 && Continues(s[start - 1]))
      decreases start, more
    {
      start := start - 1;
      if shift >= 32 {
        return false, start, c;
      }
      if shift == 0 && Continues(code[start]) {
        return false, start, c;
      }
      c := AddSeptet(c, code[start], shift, s[start + 1..codesize]);
      assert s[start..codesize] == [s[start]] + s[start + 1..codesize];
      shift := shift + 7;
      more := start > 0 && Continues(code[start - 1]);
    }
    Gathered(s[start..codesize]);
    if code[start] % 128 >= 64 {
      c := SignExpand(c, shift, Magnitude(s[start..codesize]));
      Pow2Is128(codesize - start);
    }
    ok := true;
  }

  /** One more byte in front of the bits gathered so far. The new bits lie above the old ones,
      so that `|=` is an addition. */
  method AddSeptet(c0: cell, b: byte, shift: nat, ghost g: seq<byte>) returns (c: cell)
    requires shift == 7 * |g| && c0 == Magnitude(g) % WORD
    ensures c == Magnitude([b] + g) % WORD
  {
    Pow2Is128(|g|);
    ModAdd(Magnitude(g), b % 128 * Pow2(shift));
    assert ([b] + g)[1..] == g;
    c := (c0 + b % 128 * Pow2(shift)) % WORD;
  }

  lemma ModAdd(a: int, b: int)
    ensures (a % WORD + b) % WORD == (a + b) % WORD
  {
  }

  method SignExpand(c0: cell, shift0: nat, ghost value: nat) returns (c: cell)
    requires c0 == value % WORD
    ensures c == (value - Pow2(shift0)) % WORD
  {
    c := c0;
    var shift := shift0;
    while shift < 32
      invariant shift >= shift0
      invariant c == (value + Pow2(shift) - Pow2(shift0)) % WORD
    {
      Pow2Plus8(shift);
      ModAdd(value + Pow2(shift) - Pow2(shift0), 255 * Pow2(shift));
      c := (c + 255 * Pow2(shift)) % WORD;
      shift := shift + 8;
    }
    Pow2Word(shift);
    ModAdd(Pow2(shift), value - Pow2(shift0));
  }

  // ---------- Groups of a stream and their boundaries ----------

  function CellsBefore(s: seq<byte>, p: nat): nat
    requires p <= |s|
  {
    if p == 0 then 0 else CellsBefore(s, p - 1) + (if Continues(s[p - 1]) then 0 else 1)
  }

  /** A group adds one cell, and it ends where the next byte without continuation is. */
  lemma {:induction false} OneGroup(s: seq<byte>, start: nat, p: nat)
    requires start < p <= |s| && Complete(s)
    requires !Continues(s[p - 1]) && forall i {:trigger Continues(s[i])} :: start <= i < p - 1 ==> Continues(s[i])
    ensures GroupEnd(s, start) == p
    ensures CellsBefore(s, p) == CellsBefore(s, start) + 1
    decreases p - start
  {
    if start + 1 < p {
      assert Continues(s[start]);
      OneGroup(s, start + 1, p);
    }
  }

  lemma {:induction false} GroupEndIsFirst(s: seq<byte>, p: nat)
    requires p < |s| && Complete(s)
    ensures CellsBefore(s, GroupEnd(s, p)) == CellsBefore(s, p) + 1
    ensures Boundary(s, GroupEnd(s, p))
    ensures forall q {:trigger Boundary(s, q)} :: p < q <= |s| && Boundary(s, q) ==> GroupEnd(s, p) <= q
    decreases |s| - p
  {
    if Continues(s[p]) {
      GroupEndIsFirst(s, p + 1);
    }
  }

  lemma {:induction false} CellsCount(s: seq<byte>, p: nat)
    requires Complete(s) && p <= |s|
    ensures |CellsFrom(s, p)| == CellsBefore(s, |s|) - CellsBefore(s, p)
    decreases |s| - p
  {
    if p < |s| {
      GroupEndIsFirst(s, p);
      CellsCount(s, GroupEnd(s, p));
    }
  }

  lemma {:induction false} CellsBeforeMonotone(s: seq<byte>, p: nat, q: nat)
    requires p <= q <= |s|
    ensures CellsBefore(s, p) <= CellsBefore(s, q)
    ensures p < q && Boundary(s, q) ==> CellsBefore(s, p) < CellsBefore(s, q)
  {
    if p < q {
      CellsBeforeMonotone(s, p, q - 1);
    }
  }

  /** k groups from a boundary p lead to the boundary q that has k more cells before it. */
  lemma {:induction false} SkipToBoundary(s: seq<byte>, p: nat, q: nat)
    requires Complete(s) && p <= q <= |s| && Boundary(s, q)
    ensures CellsBefore(s, p) <= CellsBefore(s, q)
    ensures Skip(s, p, CellsBefore(s, q) - CellsBefore(s, p)) == q
    decreases q - p
  {
    CellsBeforeMonotone(s, p, q);
    if p < q {
      GroupEndIsFirst(s, p);
      SkipToBoundary(s, GroupEnd(s, p), q);
    }
  }

  // ---------- The backward loop ----------

  /** Index into the ring, modulo COMPACTMARGIN. */
  function Wrap(i: nat): (r: nat)
    ensures r < COMPACTMARGIN
  {
    i % 64
  }

  lemma WrapAgain(a: nat, b: nat)
    ensures Wrap(Wrap(a) + b) == Wrap(a + b) && (a < COMPACTMARGIN ==> Wrap(a) == a)
  {
  }

  lemma WrapApart(a: nat, b: nat)
    requires a < b < a + COMPACTMARGIN
    ensures Wrap(a) != Wrap(b)
  {
  }

  function Slot(buf: seq<byte>, i: nat): int
    requires 4 * i + 4 <= |buf|
  {
    CellAt(buf, 4 * i)
  }

  /** The pending store of cell `i`, in a ring whose head `sh` holds cell `top - 1`. */
  function Entry(ring: seq<Spare>, sh: nat, top: nat, i: nat): Spare
    requires |ring| == COMPACTMARGIN && i < top
  {
    ring[Wrap(sh + top - 1 - i)]
  }

  /** Cells base..top are pending, the highest at the head; `out` lists the cells from `base` on. */
  ghost predicate RingHolds(ring: seq<Spare>, sh: nat, base: nat, top: nat, out: seq<cell>) {
    && |ring| == COMPACTMARGIN && sh < COMPACTMARGIN && base <= top <= base + |out| && top <= base + COMPACTMARGIN
    && forall i {:trigger Entry(ring, sh, top, i)} :: base <= i < top ==>
         Entry(ring, sh, top, i) == Spare(4 * i, out[i - base])
  }

  /** Cells from `top` on are at their final place. */
  ghost predicate Stored(buf: seq<byte>, base: nat, top: nat, out: seq<cell>) {
    && 4 * (base + |out|) <= |buf| && base <= top <= base + |out|
    && forall i {:trigger Slot(buf, i)} :: top <= i < base + |out| ==> Slot(buf, i) == out[i - base]
  }

  /** A store at cell `top - 1` leaves the other cells alone. */
  lemma StoredBelow(buf: seq<byte>, buf': seq<byte>, base: nat, top: nat, out: seq<cell>)
    requires base < top <= base + |out| && |buf'| == |buf| && Stored(buf, base, top, out)
    requires Slot(buf', top - 1) == out[top - 1 - base]
    requires buf'[4 * top..] == buf[4 * top..]
    ensures Stored(buf', base, top - 1, out)
  {
    forall i {:trigger Slot(buf', i)} | top - 1 <= i < base + |out| ensures Slot(buf', i) == out[i - base] {
      if i >= top {
        assert Slot(buf, i) == out[i - base];
        var d := 4 * i - 4 * top;
        assert buf'[4 * top..][d] == buf[4 * top..][d] && buf'[4 * top..][d + 1] == buf[4 * top..][d + 1];
        assert buf'[4 * top..][d + 2] == buf[4 * top..][d + 2] && buf'[4 * top..][d + 3] == buf[4 * top..][d + 3];
      }
    }
  }

  lemma StoredInside(buf: seq<byte>, base: nat, top: nat, out: seq<cell>)
    requires Stored(buf, base, top, out)
    ensures 4 * (base + |out|) <= |buf| && base <= top <= base + |out|
  {
  }

  lemma RingPop(ring: seq<Spare>, sh: nat, base: nat, top: nat, out: seq<cell>)
    requires base < top && RingHolds(ring, sh, base, top, out)
    ensures ring[sh] == Spare(4 * (top - 1), out[top - 1 - base])
    ensures RingHolds(ring, Wrap(sh + 1), base, top - 1, out)
    ensures Wrap(Wrap(sh + 1) + (top - 1 - base)) == Wrap(sh + (top - base))
  {
    hide Wrap;
    WrapAgain(sh, 0);
    WrapAgain(sh + 1, top - 1 - base);
    assert Entry(ring, sh, top, top - 1) == ring[sh];
    forall i {:trigger Entry(ring, Wrap(sh + 1), top - 1, i)} | base <= i < top - 1
      ensures Entry(ring, Wrap(sh + 1), top - 1, i) == Spare(4 * i, out[i - base])
    {
      WrapAgain(sh + 1, top - 1 - 1 - i);
      assert Entry(ring, Wrap(sh + 1), top - 1, i) == Entry(ring, sh, top, i);
    }
  }

  lemma RingPush(ring: seq<Spare>, ring': seq<Spare>, sh: nat, base: nat, top: nat, out: seq<cell>, c: cell)
    requires base > 0 && top - base < COMPACTMARGIN && RingHolds(ring, sh, base, top, out)
    requires ring' == ring[Wrap(sh + (top - base)) := Spare(4 * (base - 1), c)]
    ensures RingHolds(ring', sh, base - 1, top, [c] + out)
  {
    hide Wrap;
    forall i {:trigger Entry(ring', sh, top, i)} | base - 1 <= i < top
      ensures Entry(ring', sh, top, i) == Spare(4 * i, ([c] + out)[i - (base - 1)])
    {
      if i >= base {
        WrapApart(sh + top - 1 - i, sh + (top - base));
        assert Entry(ring', sh, top, i) == Entry(ring, sh, top, i);
      }
    }
  }

  lemma StoredShift(buf: seq<byte>, base: nat, top: nat, out: seq<cell>, c: cell)
    requires base > 0 && Stored(buf, base, top, out)
    ensures Stored(buf, base - 1, top, [c] + out)
  {
  }

  /** Performs the postponed stores that lie above the unread input. */
  method FlushSpares(code: array<byte>, spare: array<Spare>, codesize: nat, sh0: nat, sc0: nat,
                     ghost base: nat, ghost out: seq<cell>)
    returns (sh: nat, sc: nat)
    requires RingHolds(spare[..], sh0, base, base + sc0, out) && Stored(code[..], base, base + sc0, out)
    requires codesize <= code.Length
    modifies code
    ensures sc <= sc0 && Wrap(sh + sc) == Wrap(sh0 + sc0)
    ensures RingHolds(spare[..], sh, base, base + sc, out) && Stored(code[..], base, base + sc, out)
    ensures sc > 0 ==> 4 * (base + sc - 1) <= codesize
    ensures sc < sc0 ==> 4 * (base + sc) > codesize
    ensures code[..codesize] == old(code[..codesize]) && code[4 * (base + |out|)..] == old(code[4 * (base + |out|)..])
  {
    hide Stored, CellAt, Entry, Wrap;
    StoredInside(code[..], base, base + sc0, out);
    sh, sc := sh0, sc0;
    while sc > 0 && spare[sh].memloc > codesize
      invariant sc <= sc0 && Wrap(sh + sc) == Wrap(sh0 + sc0)
      invariant RingHolds(spare[..], sh, base, base + sc, out)
      invariant Stored(code[..], base, base + sc, out)
      invariant sc < sc0 ==> 4 * (base + sc) > codesize
      invariant code[..codesize] == old(code[..codesize])
                && code[4 * (base + |out|)..] == old(code[4 * (base + |out|)..])
    {
      RingPop(spare[..], sh, base, base + sc, out);
      ghost var before := code[..];
      StoreCell(code, spare[sh].memloc, spare[sh].c);
      StoredBelow(before, code[..], base, base + sc, out);
      sh := Wrap(sh + 1);
      sc := sc - 1;
    }
    if sc > 0 {
      RingPop(spare[..], sh, base, base + sc, out);
    }
  }

  /** What has been read of the stream `s` when `p` bytes and `base` cells are still to do. */
  ghost predicate Progress(s: seq<byte>, p: nat, base: nat, out: seq<cell>)
    requires Complete(s)
  {
    && p <= |s| && Boundary(s, p)
    && WellFormedFrom(s, p) && out == CellsFrom(s, p)
    && (base + |out| == |Cells(s)| ==> MarginFrom(s, base))
  }

  ghost predicate MarginFrom(s: seq<byte>, from: nat)
    requires Complete(s)
  {
    forall k: nat :: from <= k && k + COMPACTMARGIN < |Cells(s)| ==> CompactSize(s, k) - 4 * k < 4 * COMPACTMARGIN
  }

  lemma MarginDown(s: seq<byte>, from: nat)
    requires Complete(s) && from < |Cells(s)|
    requires from + 1 + COMPACTMARGIN < |Cells(s)| ==> MarginFrom(s, from + 1)
    requires from + COMPACTMARGIN < |Cells(s)| ==> CompactSize(s, from) - 4 * from < 4 * COMPACTMARGIN
    ensures MarginFrom(s, from)
  {
  }

  /** Facts about the group s[start..p] that the loop has just read. */
  lemma GroupRead(s: seq<byte>, start: nat, p: nat, base: nat, out: seq<cell>)
    requires Complete(s) && GroupAt(s, start, p)
    requires out == CellsFrom(s, p)
    ensures CellsFrom(s, start) == [CellOf(s[start..p])] + out
    ensures |Cells(s)| == base + |out| ==> base >= 1 && CompactSize(s, base - 1) == start
  {
    OneGroup(s, start, p);
    CellsCount(s, 0);
    CellsCount(s, p);
    SkipToBoundary(s, 0, start);
  }

  lemma FailureIsRefusal(s: seq<byte>, start: nat, p: nat, memsize: nat)
    requires 0 < p <= |s| && (Complete(s) ==> Boundary(s, p)) && (!Complete(s) ==> p == |s|)
    requires Continues(s[p - 1]) || LongRun(s, start)
    ensures !Accepts(s, memsize)
  {
  }

  /** Stores the cell of the group that starts at `codesize`, at once if that spares the unread
      input and otherwise later. It fails if there is no room for the cell, or if 64 later cells
      are all still waiting for this input to be read. */
  method StoreGroup(code: array<byte>, spare: array<Spare>, codesize: nat, memsize0: nat, sh0: nat, st0: nat, sc0: nat,
                    c: cell, ghost base: nat, ghost out: seq<cell>)
    returns (ok: bool, memsize: nat, sh: nat, st: nat, sc: nat)
    requires memsize0 == 4 * base && codesize <= code.Length
    requires RingHolds(spare[..], sh0, base, base + sc0, out) && st0 == Wrap(sh0 + sc0)
             && Stored(code[..], base, base + sc0, out)
    requires sc0 < |out| ==> 4 * (base + sc0) > codesize
    modifies code, spare
    ensures ok ==> base >= 1 && memsize == 4 * (base - 1)
    ensures ok ==> RingHolds(spare[..], sh, base - 1, base - 1 + sc, [c] + out) && st == Wrap(sh + sc)
    ensures ok ==> Stored(code[..], base - 1, base - 1 + sc, [c] + out)
    ensures ok ==> sc < |out| + 1 ==> 4 * (base - 1 + sc) > codesize || codesize == 0
    ensures ok ==> COMPACTMARGIN <= |out| ==> codesize - 4 * (base - 1) < 4 * COMPACTMARGIN
    ensures ok && codesize == 0 ==> sc == 0
    ensures !ok ==> base == 0 || (COMPACTMARGIN <= |out| && codesize - 4 * (base - 1) >= 4 * COMPACTMARGIN)
    ensures code[..codesize] == old(code[..codesize])
    ensures 4 * (base + |out|) <= code.Length && code[4 * (base + |out|)..] == old(code[4 * (base + |out|)..])
  {
    memsize, st := memsize0, st0;
    sh, sc := FlushSpares(code, spare, codesize, sh0, sc0, base, out);
    if memsize < 4 {
      return false, memsize, sh, st, sc;
    }
    memsize := memsize - 4;
    StoredShift(code[..], base, base + sc, out, c);
    if memsize > codesize || (memsize == codesize && memsize == 0) {
      StoreNow(code, memsize, c, base - 1, out);
    } else {
      if sc >= COMPACTMARGIN {
        return false, memsize, sh, st, sc;
      }
      StoreLater(spare, memsize, sh, st, sc, c, base, out);
      st := Wrap(st + 1);
      sc := sc + 1;
    }
    ok := true;
  }

  method StoreNow(code: array<byte>, memsize: nat, c: cell, ghost base: nat, ghost out: seq<cell>)
    requires memsize == 4 * base && Stored(code[..], base, base + 1, [c] + out)
    modifies code
    ensures Stored(code[..], base, base, [c] + out)
    ensures code[..memsize] == old(code[..memsize]) && code[memsize + 4..] == old(code[memsize + 4..])
  {
    ghost var before := code[..];
    StoreCell(code, memsize, c);
    StoredBelow(before, code[..], base, base + 1, [c] + out);
  }

  method StoreLater(spare: array<Spare>, memsize: nat, sh: nat, st: nat, sc: nat, c: cell, ghost base: nat,
                    ghost out: seq<cell>)
    requires sc < COMPACTMARGIN && RingHolds(spare[..], sh, base, base + sc, out)
    requires st == Wrap(sh + sc) && base >= 1 && memsize == 4 * (base - 1)
    modifies spare
    ensures RingHolds(spare[..], sh, base - 1, base + sc, [c] + out)
    ensures Wrap(st + 1) == Wrap(sh + (sc + 1))
  {
    ghost var ring := spare[..];
    spare[st] := Spare(memsize, c);
    RingPush(ring, spare[..], sh, base, base + sc, out, c);
  }

  /** The whole loop's state advances by one group. */
  lemma Advance(s: seq<byte>, start: nat, p: nat, base: nat, out: seq<cell>)
    requires Complete(s) && GroupAt(s, start, p) && Progress(s, p, base, out) && base >= 1
    requires COMPACTMARGIN <= |out| ==> start - 4 * (base - 1) < 4 * COMPACTMARGIN
    ensures Progress(s, start, base - 1, [CellOf(s[start..p])] + out)
  {
    GroupRead(s, start, p, base, out);
    if |Cells(s)| == base + |out| {
      MarginDown(s, base - 1);
    }
    GroupFits(s, start, p);
  }

  lemma GroupFits(s: seq<byte>, start: nat, p: nat)
    requires GroupAt(s, start, p) && WellFormedFrom(s, p)
    ensures WellFormedFrom(s, start)
  {
  }

  lemma PrefixKept(before: seq<byte>, after: seq<byte>, s: seq<byte>, p: nat, start: nat)
    requires start <= p <= |before| && p <= |s| && |after| == |before|
    requires before[..p] == s[..p] && after[..start] == before[..start]
    ensures after[..start] == s[..start]
  {
  }

  lemma StoreRefused(s: seq<byte>, start: nat, p: nat, base: nat, out: seq<cell>, memsize0: nat)
    requires Complete(s) && GroupAt(s, start, p) && out == CellsFrom(s, p)
    requires base == 0 || (COMPACTMARGIN <= |out| && start - 4 * (base - 1) >= 4 * COMPACTMARGIN)
    requires memsize0 == 4 * (base + |out|)
    ensures !Accepts(s, memsize0)
  {
    if memsize0 == 4 * |Cells(s)| {
      assert !MarginHolds(s) by {
        GroupRead(s, start, p, base, out);
        assert CompactSize(s, base - 1) - 4 * (base - 1) >= 4 * COMPACTMARGIN;
      }
    }
  }

  /** The loop's state: `base` cells and `codesize` bytes are still to do, `out` is done. */
  ghost predicate Working(buf: seq<byte>, ring: seq<Spare>, s: seq<byte>, initial: seq<byte>, codesize: nat,
                          memsize0: nat,
                          sh: nat, st: nat, sc: nat, base: nat, out: seq<cell>) {
    && codesize <= |s| <= |buf| == |initial| && memsize0 == 4 * (base + |out|) <= |buf|
    && buf[..codesize] == s[..codesize] && buf[memsize0..] == initial[memsize0..]
    && (if Complete(s) then Progress(s, codesize, base, out) else codesize == |s|)
    && RingHolds(ring, sh, base, base + sc, out) && st == Wrap(sh + sc)
    && Stored(buf, base, base + sc, out)
    && (sc < |out| ==> 4 * (base + sc) > codesize || codesize == 0)
    && (codesize == 0 ==> sc == 0)
  }

  /** One round of the loop. */
  method ExpandGroup(code: array<byte>, spare: array<Spare>, codesize: nat, memsize: nat, sh0: nat, st0: nat, sc0: nat,
                     ghost s: seq<byte>, ghost initial: seq<byte>, ghost memsize0: nat, ghost base: nat,
                       ghost out: seq<cell>)
    returns (ok: bool, start: nat, memsize': nat, sh: nat, st: nat, sc: nat, ghost c: cell)
    requires Working(code[..], spare[..], s, initial, codesize, memsize0, sh0, st0, sc0, base, out)
    requires codesize > 0 && memsize == 4 * base
    modifies code, spare
    ensures ok ==> start < codesize && base >= 1 && memsize' == 4 * (base - 1)
    ensures ok ==> Working(code[..], spare[..], s, initial, start, memsize0, sh, st, sc, base - 1, [c] + out)
    ensures !ok ==> !Accepts(s, memsize0) && code[..][memsize0..] == initial[memsize0..]
  {
    memsize', sh, st, sc := memsize, sh0, st0, sc0;
    var c';
    ok, start, c' := ReadGroup(code, codesize, s);
    c := c';
    if !ok {
      FailureIsRefusal(s, start, codesize, memsize0);
      return;
    }
    ghost var before := code[..];
    ok, memsize', sh, st, sc := StoreGroup(code, spare, start, memsize, sh, st, sc, c', base, out);
    PrefixKept(before, code[..], s, codesize, start);
    assert code[..][memsize0..] == before[memsize0..];
    if !ok {
      StoreRefused(s, start, codesize, base, out, memsize0);
      return;
    }
    Advance(s, start, codesize, base, out);
  }

  lemma Started(buf: seq<byte>, ring: seq<Spare>, codesize0: nat, memsize0: nat, base: nat)
    requires codesize0 <= |buf| && memsize0 <= |buf| && memsize0 == 4 * base && |ring| == COMPACTMARGIN
    ensures Working(buf, ring, buf[..codesize0], buf, codesize0, memsize0, 0, 0, 0, base, [])
  {
  }

  lemma Finished(buf: seq<byte>, ring: seq<Spare>, s: seq<byte>, initial: seq<byte>, memsize0: nat,
                 sh: nat, st: nat, sc: nat, base: nat, out: seq<cell>)
    requires Working(buf, ring, s, initial, 0, memsize0, sh, st, sc, base, out)
    ensures base == 0 <==> Accepts(s, memsize0)
    ensures base == 0 ==> 4 * |Cells(s)| <= |buf| && forall i :: 0 <= i < |Cells(s)| ==> Slot(buf, i) == Cells(s)[i]
    ensures memsize0 <= |buf| && memsize0 <= |initial| && buf[memsize0..] == initial[memsize0..]
  {
  }

  lemma NotWhole(s: seq<byte>, memsize: nat)
    requires memsize % 4 != 0
    ensures !Accepts(s, memsize)
  {
  }

  /** The expansion. It succeeds exactly on the streams that Accepts describes, and then the
      buffer holds the cells that the forward reading gives. */
  method Expand(code: array<byte>, codesize0: nat, memsize0: nat) returns (ok: bool)
    requires codesize0 <= code.Length && memsize0 <= code.Length
    modifies code
    ensures ok <==> Accepts(old(code[..codesize0]), memsize0)
    ensures ok ==> forall i :: 0 <= i < |Cells(old(code[..codesize0]))| ==>
                     Slot(code[..], i) == Cells(old(code[..codesize0]))[i]
    ensures code[memsize0..] == old(code[memsize0..])
  {
    hide Working, Accepts, Slot;
    ghost var s, initial := code[..codesize0], code[..];
    var codesize: nat, memsize: nat := codesize0, memsize0;
    var spare := new Spare[COMPACTMARGIN](_ => Spare(0, 0));
    var sh: nat, st: nat, sc: nat := 0, 0, 0;
    if memsize % 4 != 0 {
      NotWhole(s, memsize);
      return false;
    }
    ghost var base: nat, out: seq<cell> := memsize / 4, [];
    Started(code[..], spare[..], codesize0, memsize0, base);
    while codesize > 0
      invariant memsize == 4 * base
      invariant Working(code[..], spare[..], s, initial, codesize, memsize0, sh, st, sc, base, out)
      decreases codesize
    {
      ghost var c;
      ok, codesize, memsize, sh, st, sc, c :=
        ExpandGroup(code, spare, codesize, memsize, sh, st, sc, s, initial, memsize0, base, out);
      if !ok {
        return;
      }
      base, out := base - 1, [c] + out;
    }
    assert codesize == 0;
    Finished(code[..], spare[..], s, initial, memsize0, sh, st, sc, base, out);
    ok := memsize == 0;
  }

  // ---------- The margin must not be asked of the last 64 cells ----------

  /** n cells of five bytes each. */
  function Fives(n: nat): seq<byte> {
    seq(5 * n, i => if i % 5 == 4 then 0 else 0x80)
  }

  lemma FivesGroup(n: nat, k: nat)
    requires k < n
    ensures Complete(Fives(n)) && GroupEnd(Fives(n), 5 * k) == 5 * (k + 1)
  {
    var s := Fives(n);
    var p := 5 * k;
    assert Continues(s[p]) && Continues(s[p + 1]) && Continues(s[p + 2]) && Continues(s[p + 3]) && !Continues(s[p + 4]);
    assert GroupEnd(s, p + 3) == GroupEnd(s, p + 4) == p + 5;
    assert GroupEnd(s, p) == GroupEnd(s, p + 1) == GroupEnd(s, p + 2);
  }

  lemma {:induction false} FivesSkip(n: nat, k: nat, j: nat)
    requires k + j <= n
    ensures Complete(Fives(n)) && Skip(Fives(n), 5 * k, j) == 5 * (k + j)
    decreases j
  {
    if j > 0 {
      FivesGroup(n, k);
      FivesSkip(n, k + 1, j - 1);
    }
  }

  lemma {:induction false} FivesCount(n: nat, k: nat)
    requires k <= n
    ensures Complete(Fives(n)) && |CellsFrom(Fives(n), 5 * k)| == n - k
    decreases n - k
  {
    if k < n {
      FivesGroup(n, k);
      FivesCount(n, k + 1);
    }
  }

  lemma FivesWellFormed(n: nat)
    ensures WellFormedFrom(Fives(n), 0)
  {
    var s := Fives(n);
    forall i: nat | i < |s| ensures !LongRun(s, i) {
    }
  }

  /** Cells of five bytes each expand as long as there are at most 320 of them, although the first
      256 of more than 256 cells take 4 * 64 bytes more than their expanded form: what counts is
      that fewer than 64 later cells wait for them. */
  lemma MarginIsExact(n: nat)
    ensures Complete(Fives(n)) && |Cells(Fives(n))| == n
    ensures forall k: nat :: k <= n ==> CompactSize(Fives(n), k) - 4 * k == k
    ensures Accepts(Fives(n), 4 * n) <==> n <= 256 + COMPACTMARGIN
  {
    var s := Fives(n);
    FivesCount(n, 0);
    FivesWellFormed(n);
    forall k: nat | k <= n ensures CompactSize(s, k) - 4 * k == k {
      FivesSkip(n, 0, k);
    }
    if n > 256 + COMPACTMARGIN {
      var k: nat := n - COMPACTMARGIN - 1;
      assert CompactSize(s, k) - 4 * k == k >= 4 * COMPACTMARGIN;
    }
  }
}
