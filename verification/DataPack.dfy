/**
 The typed byte stream of plugins (amxmodx/CDataPack.cpp), with sizes of four bytes. Cells and
 floating-point numbers are their 32 bits.
 */
module DataPack {
  import opened Basics

  const CELL: byte := 1
  const FLOAT: byte := 2
  const STRING: byte := 3

  /** What is packed: a string has no zero byte. */
  datatype Item = Cell(v: cell) | Float(v: cell) | Text(s: seq<byte>)

  predicate Packable(item: Item) {
    item.Text? ==> 0 !in item.s && |item.s| < WORD
  }

  function ToBytes(v: cell): (r: seq<byte>)
    ensures |r| == 4
  {
    var v1, v2, v3 := v as int / 256, v as int / 256 / 256, v as int / 256 / 256 / 256;
    [v % 256, v1 % 256, v2 % 256, v3]
  }

  /** The four bytes at a place, as a number. */
  function WordAt(data: seq<byte>, p: nat): cell
    requires p + 4 <= |data|
  {
    data[p] as int + 256 * (data[p + 1] as int + 256 * (data[p + 2] as int + 256 * data[p + 3] as int))
  }

  /** The bytes are found at a place. */
  predicate HasAt(data: seq<byte>, p: nat, e: seq<byte>) {
    p + |e| <= |data| && forall k {:trigger e[k]} :: 0 <= k < |e| ==> data[p + k] == e[k]
  }

  lemma WordBack(data: seq<byte>, p: nat, v: cell)
    requires HasAt(data, p, ToBytes(v))
    ensures WordAt(data, p) == v
  {
    var b := ToBytes(v);
    assert data[p + 0] == b[0] && data[p + 1] == b[1] && data[p + 2] == b[2] && data[p + 3] == b[3];
  }

  function Encode(item: Item): seq<byte>
    requires Packable(item)
  {
    match item
    case Cell(v) => [CELL] + ToBytes(4) + ToBytes(v)
    case Float(v) => [FLOAT] + ToBytes(4) + ToBytes(v)
    case Text(s) => [STRING] + ToBytes(|s|) + s + [0]
  }

  /** The first k codes, one after the other. */
  function Joined(codes: seq<seq<byte>>, k: nat): seq<byte>
    requires k <= |codes|
  {
    if k == 0 then [] else Joined(codes, k - 1) + codes[k - 1]
  }

  // ---------- Reading ----------

  /** A view of the pack: the memory, how much of it is used, and the position. */
  datatype View = View(data: seq<byte>, size: nat, pos: nat)

  predicate Readable(w: View, bytes: nat) {
    w.pos + bytes <= w.size
  }

  /** As far as the size lets bytes be read, they are in memory. */
  predicate InMemory(w: View, bytes: nat) {
    Readable(w, bytes) ==> w.pos + bytes <= |w.data|
  }

  predicate HasType(w: View, t: byte)
    requires InMemory(w, 5)
  {
    Readable(w, 5) && w.data[w.pos] == t
  }

  function Length(w: View): cell
    requires InMemory(w, 5) && Readable(w, 5)
  {
    WordAt(w.data, w.pos + 1)
  }

  /** CanReadCell and CanReadFloat. */
  predicate CanReadWord(w: View, t: byte)
    requires InMemory(w, 9)
  {
    Readable(w, 9) && HasType(w, t) && Length(w) == 4
  }

  /** The number of bytes before the next zero byte. */
  function StrLen(data: seq<byte>, from: nat): (r: nat)
    requires from <= |data|
    ensures from + r <= |data| && (forall i :: from <= i < from + r ==> data[i] != 0)
    ensures from + r < |data| ==> data[from + r] == 0
    decreases |data| - from
  {
    if from == |data| || data[from] == 0 then 0 else 1 + StrLen(data, from + 1)
  }

  /** A string begins in memory, and ends there before the memory does, or before the size. */
  predicate TextInMemory(w: View) {
    Readable(w, 5) ==> w.pos + 5 <= |w.data| && (w.size <= |w.data| || w.pos + 5 + StrLen(w.data, w.pos + 5) < |w.data|)
  }

  predicate CanReadText(w: View)
    requires TextInMemory(w)
  {
    HasType(w, STRING) && StrLen(w.data, w.pos + 5) == Length(w) && Readable(w, 5 + Length(w) + 1)
  }

  predicate CanRead(w: View, item: Item)
    requires w.size <= |w.data|
  {
    match item
    case Cell(_) => CanReadWord(w, CELL)
    case Float(_) => CanReadWord(w, FLOAT)
    case Text(_) => CanReadText(w)
  }

  function LengthOf(item: Item): cell
    requires Packable(item)
  {
    if item.Text? then |item.s| else 4
  }

  function TypeOf(item: Item): byte {
    match item case Cell(_) => CELL case Float(_) => FLOAT case Text(_) => STRING
  }

  lemma EncodeParts(data: seq<byte>, p: nat, item: Item)
    requires Packable(item) && HasAt(data, p, Encode(item))
    ensures |Encode(item)| == 5 + LengthOf(item) + (if item.Text? then 1 else 0)
    ensures data[p] == TypeOf(item) && HasAt(data, p + 1, ToBytes(LengthOf(item)))
    ensures if item.Text? then HasAt(data, p + 5, item.s) && data[p + 5 + |item.s|] == 0
            else HasAt(data, p + 5, ToBytes(item.v))
  {
    var e := Encode(item);
    assert data[p + 0] == e[0];
    assert data[p + 1] == e[1] && data[p + 2] == e[2] && data[p + 3] == e[3] && data[p + 4] == e[4];
    match item
    case Text(s) =>
      assert data[p + (5 + |s|)] == e[5 + |s|];
      forall k {:trigger s[k]} | 0 <= k < |s| ensures data[p + 5 + k] == s[k] {
        assert data[p + (5 + k)] == e[5 + k];
      }
    case _ =>
      assert data[p + 5] == e[5] && data[p + 6] == e[6] && data[p + 7] == e[7] && data[p + 8] == e[8];
  }

  /** At an encoded item, the type of the item can be read and no other, and it is the item. */
  lemma ReadsItem(w: View, item: Item, other: Item)
    requires w.size <= |w.data| && Packable(item) && w.pos + |Encode(item)| <= w.size
             && HasAt(w.data, w.pos, Encode(item))
    ensures CanRead(w, other) <==> TypeOf(other) == TypeOf(item)
    ensures if item.Text? then
              |Encode(item)| == 6 + |item.s| && Length(w) == |item.s|
                && w.data[w.pos + 5..w.pos + 5 + |item.s|] == item.s
            else |Encode(item)| == 9 && WordAt(w.data, w.pos + 5) == item.v
  {
    hide HasAt, Encode, WordAt, ToBytes;
    EncodeParts(w.data, w.pos, item);
    WordBack(w.data, w.pos + 1, LengthOf(item));
    if item.Text? {
      TextLength(w.data, w.pos + 5, item.s);
      TextThere(w.data, w.pos + 5, item.s);
    } else {
      WordBack(w.data, w.pos + 5, item.v);
    }
  }

  lemma TextThere(data: seq<byte>, from: nat, s: seq<byte>)
    requires HasAt(data, from, s)
    ensures data[from..from + |s|] == s
  {
  }

  lemma {:induction false} TextLength(data: seq<byte>, from: nat, s: seq<byte>)
    requires HasAt(data, from, s) && from + |s| < |data| && 0 !in s && data[from + |s|] == 0
    ensures StrLen(data, from) == |s|
    decreases |s|
  {
    if s != [] {
      assert data[from + 0] == s[0];
      forall k {:trigger s[1..][k]} | 0 <= k < |s| - 1 ensures data[from + 1 + k] == s[1..][k] {
        assert data[from + (k + 1)] == s[k + 1];
      }
      TextLength(data, from + 1, s[1..]);
    }
  }

  // ---------- The pack ----------

  class CDataPack {
    var base: array<byte>
    var pos: nat
    var size: nat

    constructor ()
      ensures Valid() && pos == 0 && size == 0 && fresh(base)
    {
      base := new byte[64](_ => 0);
      pos, size := 0, 0;
    }

    predicate Valid()
      reads this
    {
      pos <= base.Length && base.Length > 0
    }

    /** What counts as used is in memory. */
    predicate Sound()
      reads this
    {
      Valid() && size <= base.Length
    }

    function Look(): View
      reads this, base
    {
      View(base[..], size, pos)
    }

    /** Room for that many bytes; the memory may move, and keeps what is in it. */
    method CheckSize(bytes: nat)
      requires Valid()
      modifies this`base
      ensures Valid() && pos + bytes <= base.Length && (base == old(base) || fresh(base))
      ensures old(base.Length) <= base.Length && forall i :: 0 <= i < old(base.Length) ==> base[i] == old(base[i])
    {
      if pos + bytes <= base.Length {
        return;
      }
      var capacity := base.Length * 2;
      while pos + bytes > capacity
        invariant capacity > base.Length
        decreases pos + bytes - capacity
      {
        capacity := capacity * 2;
      }
      var memory := new byte[capacity](_ => 0);
      for i := 0 to base.Length
        invariant base == old(base) && forall k :: 0 <= k < i ==> memory[k] == base[k]
      {
        memory[i] := base[i];
      }
      base := memory;
    }

    /** The bytes are written at the position, which moves behind them. */
    method Write(bytes: seq<byte>)
      requires Valid() && pos + |bytes| <= base.Length
      modifies this`pos, base
      ensures Valid() && pos == old(pos) + |bytes| && HasAt(base[..], old(pos), bytes)
      ensures forall i :: 0 <= i < base.Length && !(old(pos) <= i < pos) ==> base[i] == old(base[i])
    {
      for i := 0 to |bytes|
        invariant pos == old(pos) && forall k {:trigger bytes[k]} :: 0 <= k < i ==> base[pos + k] == bytes[k]
        invariant forall k :: 0 <= k < base.Length && !(pos <= k < pos + i) ==> base[k] == old(base[k])
      {
        base[pos + i] := bytes[i];
      }
      pos := pos + |bytes|;
    }

    /** The bytes stand at the place where the position was, position and size are counted up, and all
        other bytes are as they were. */
    twostate predicate Put(bytes: seq<byte>)
      reads this, base
    {
      && Valid() && pos == old(pos) + |bytes| && size == old(size) + |bytes| && HasAt(base[..], old(pos), bytes)
      && old(base.Length) <= base.Length
      && forall i :: 0 <= i < old(base.Length) && !(old(pos) <= i < pos) ==> base[i] == old(base[i])
    }

    /** At the end of what is used, the bytes are packed behind it, and packing can go on at the end;
        elsewhere the size counts them although they replace others, and stays ahead of the position by as much. */
    twostate predicate Packed(bytes: seq<byte>)
      reads this, base
    {
      && (pos == size <==> old(pos) == old(size))
      && (old(Valid() && pos == size) ==> pos == size <= base.Length && base[..size] == old(base[..pos]) + bytes)
    }

    method PackCell(v: cell)
      requires Valid()
      modifies this, base
      ensures Put(Encode(Cell(v))) && Packed(Encode(Cell(v))) && (base == old(base) || fresh(base))
    {
      PackBytes(Encode(Cell(v)));
    }

    method PackFloat(v: cell)
      requires Valid()
      modifies this, base
      ensures Put(Encode(Float(v))) && Packed(Encode(Float(v))) && (base == old(base) || fresh(base))
    {
      PackBytes(Encode(Float(v)));
    }

    method PackString(s: seq<byte>)
      requires Valid() && Packable(Text(s))
      modifies this, base
      ensures Put(Encode(Text(s))) && Packed(Encode(Text(s))) && (base == old(base) || fresh(base))
    {
      PackBytes(Encode(Text(s)));
    }

    method PackBytes(bytes: seq<byte>)
      requires Valid()
      modifies this, base
      ensures Put(bytes) && Packed(bytes) && (base == old(base) || fresh(base))
    {
      CheckSize(|bytes|);
      Write(bytes);
      size := size + |bytes|;
      assert base[..pos] == old(base[..pos]) + bytes;
    }

    method Reset()
      requires Valid()
      modifies this`pos
      ensures Valid() && pos == 0
    {
      pos := 0;
    }

    method ReadWord(t: byte) returns (v: cell)
      requires Valid() && InMemory(Look(), 9)
      modifies this`pos
      ensures Valid()
      ensures if old(CanReadWord(Look(), t)) then v == WordAt(base[..], old(pos) + 5) && pos == old(pos) + 9
              else v == 0 && pos == old(pos)
    {
      if !CanReadWord(Look(), t) {
        return 0;
      }
      v := WordAt(base[..], pos + 5);
      pos := pos + 9;
    }

    method ReadString() returns (r: Option<seq<byte>>)
      requires Valid() && TextInMemory(Look())
      modifies this`pos
      ensures Valid()
      ensures if old(CanReadText(Look())) then
                r == Some(base[old(pos) + 5..old(pos) + 5 + old(Length(Look()))])
                  && pos == old(pos) + 6 + old(Length(Look()))
              else r == None && pos == old(pos)
    {
      if !CanReadText(Look()) {
        return None;
      }
      var length := Length(Look());
      r := Some(base[pos + 5..pos + 5 + length]);
      pos := pos + 6 + length;
    }

    /** Reading the item that stands at the position, by its type. */
    method ReadItem(t: byte, ghost item: Item) returns (r: Option<Item>)
      requires Sound() && Packable(item) && pos + |Encode(item)| <= size && HasAt(base[..], pos, Encode(item))
      requires t == TypeOf(item)
      modifies this`pos
      ensures Sound() && r == Some(item) && pos == old(pos) + |Encode(item)|
    {
      ReadsItem(Look(), item, item);
      if t == CELL {
        var v := ReadWord(CELL);
        r := Some(Cell(v));
      } else if t == FLOAT {
        var v := ReadWord(FLOAT);
        r := Some(Float(v));
      } else {
        var s := ReadString();
        r := Some(Text(s.value));
      }
    }
  }

  lemma {:induction false} JoinedAt(codes: seq<seq<byte>>, i: nat, n: nat, k: nat)
    requires i < n <= |codes| && k <= |codes[i]|
    ensures |Joined(codes, i)| + |codes[i]| <= |Joined(codes, n)|
    ensures k < |codes[i]| ==> Joined(codes, n)[|Joined(codes, i)| + k] == codes[i][k]
  {
    if i < n - 1 {
      JoinedAt(codes, i, n - 1, k);
    }
  }

  /** In a pack, each code stands behind those before it. */
  lemma StandsAt(data: seq<byte>, size: nat, codes: seq<seq<byte>>, i: nat)
    requires i < |codes| && size <= |data| && data[..size] == Joined(codes, |codes|)
    ensures |Joined(codes, i)| + |codes[i]| == |Joined(codes, i + 1)| <= size
    ensures HasAt(data, |Joined(codes, i)|, codes[i])
  {
    var p, e := |Joined(codes, i)|, codes[i];
    JoinedAt(codes, i, |codes|, |e|);
    forall k {:trigger e[k]} | 0 <= k < |e| ensures data[p + k] == e[k] {
      JoinedAt(codes, i, |codes|, k);
      assert data[..size][p + k] == data[p + k];
    }
  }

  /** The pack holds these codes and no more, and its position is at one of them. */
  ghost predicate Holds(pack: CDataPack, codes: seq<seq<byte>>, i: nat)
    reads pack, pack.base
  {
    pack.Sound() && i <= |codes| && pack.base[..pack.size] == Joined(codes, |codes|) && pack.pos == |Joined(codes, i)|
  }

  method PackOne(pack: CDataPack, item: Item)
    requires pack.Valid() && Packable(item)
    modifies pack, pack.base
    ensures pack.Put(Encode(item)) && pack.Packed(Encode(item)) && (pack.base == old(pack.base) || fresh(pack.base))
  {
    match item {
      case Cell(v) => pack.PackCell(v);
      case Float(v) => pack.PackFloat(v);
      case Text(s) => pack.PackString(s);
    }
  }

  method PackItem(pack: CDataPack, item: Item, ghost codes: seq<seq<byte>>)
    requires Holds(pack, codes, |codes|) && Packable(item)
    modifies pack, pack.base
    ensures Holds(pack, codes + [Encode(item)], |codes| + 1) && (pack.base == old(pack.base) || fresh(pack.base))
  {
    assert pack.pos == pack.size;
    JoinedMore(codes, Encode(item));
    PackOne(pack, item);
  }

  lemma JoinedMore(codes: seq<seq<byte>>, code: seq<byte>)
    ensures Joined(codes + [code], |codes| + 1) == Joined(codes, |codes|) + code
  {
    JoinedSame(codes, code, |codes|);
  }

  lemma {:induction false} JoinedSame(codes: seq<seq<byte>>, code: seq<byte>, k: nat)
    requires k <= |codes|
    ensures Joined(codes + [code], k) == Joined(codes, k)
  {
    if k > 0 {
      JoinedSame(codes, code, k - 1);
    }
  }

  method ReadNext(pack: CDataPack, t: byte, ghost item: Item, ghost codes: seq<seq<byte>>, ghost i: nat)
    returns (r: Option<Item>)
    requires i < |codes| && Holds(pack, codes, i) && Packable(item) && t == TypeOf(item) && codes[i] == Encode(item)
    modifies pack`pos
    ensures Holds(pack, codes, i + 1) && r == Some(item)
  {
    hide Joined, HasAt, Encode, TypeOf, Packable;
    StandsAt(pack.base[..], pack.size, codes, i);
    r := pack.ReadItem(t, item);
  }

  /** The codes and types of a list of items. */
  ghost predicate Coded(items: seq<Item>, codes: seq<seq<byte>>, types: seq<byte>) {
    && |items| == |codes| == |types|
    && forall k {:trigger items[k]} :: 0 <= k < |items| ==>
         Packable(items[k]) && codes[k] == Encode(items[k]) && types[k] == TypeOf(items[k])
  }

  lemma CodedMore(items: seq<Item>, codes: seq<seq<byte>>, types: seq<byte>, item: Item)
    requires Coded(items, codes, types) && Packable(item)
    ensures Coded(items + [item], codes + [Encode(item)], types + [TypeOf(item)])
  {
  }

  method PackAll(items: seq<Item>) returns (pack: CDataPack, types: seq<byte>, ghost codes: seq<seq<byte>>)
    requires forall i :: 0 <= i < |items| ==> Packable(items[i])
    ensures fresh(pack) && fresh(pack.base) && Holds(pack, codes, |codes|) && Coded(items, codes, types)
  {
    pack := new CDataPack();
    types, codes := [], [];
    for i := 0 to |items|
      invariant fresh(pack) && fresh(pack.base) && |codes| == i && Holds(pack, codes, i)
                && Coded(items[..i], codes, types)
    {
      CodedMore(items[..i], codes, types, items[i]);
      PackItem(pack, items[i], codes);
      types, codes := types + [TypeOf(items[i])], codes + [Encode(items[i])];
      assert items[..i + 1] == items[..i] + [items[i]];
    }
    assert items[..|items|] == items;
  }

  method Rewind(pack: CDataPack, ghost codes: seq<seq<byte>>)
    requires Holds(pack, codes, |codes|)
    modifies pack`pos
    ensures Holds(pack, codes, 0)
  {
    pack.Reset();
  }

  method ReadAll(pack: CDataPack, types: seq<byte>, ghost codes: seq<seq<byte>>, ghost items: seq<Item>)
    returns (back: seq<Item>)
    requires Holds(pack, codes, |codes|) && Coded(items, codes, types)
    modifies pack`pos
    ensures back == items && Holds(pack, codes, |codes|)
  {
    hide Holds, Encode, TypeOf, Packable;
    Rewind(pack, codes);
    back := [];
    for i := 0 to |types|
      invariant Holds(pack, codes, i) && back == items[..i]
    {
      ghost var item := items[i];
      var r := ReadNext(pack, types[i], item, codes, i);
      assert items[..i + 1] == items[..i] + [item];
      back := back + [r.value];
    }
  }

  /** Round trip: whatever is packed into a new pack, through any growth of its memory, is read back
      after Reset, item by item, from the types alone, and then nothing more can be read. */
  method PackAndRead(items: seq<Item>) returns (back: seq<Item>, more: bool)
    requires forall i :: 0 <= i < |items| ==> Packable(items[i])
    ensures back == items && !more
  {
    var pack, types, codes := PackAll(items);
    back := ReadAll(pack, types, codes, items);
    more := Readable(pack.Look(), 1);
  }

  // ---------- Packing after moving back ----------

  datatype Op = Pack(item: Item) | Rewound

  /** Position and size, and the end of what has been packed. */
  datatype Marks = Marks(pos: nat, size: nat, top: nat)

  ghost predicate AllPackable(ops: seq<Op>) {
    forall k {:trigger ops[k]} :: 0 <= k < |ops| && ops[k].Pack? ==> Packable(ops[k].item)
  }

  function Moved(m: Marks, op: Op): Marks
    requires op.Pack? ==> Packable(op.item)
  {
    match op
    case Rewound => m.(pos := 0)
    case Pack(item) =>
      var pos := m.pos + |Encode(item)|;
      Marks(pos, m.size + |Encode(item)|, if pos > m.top then pos else m.top)
  }

  ghost function MarksOf(ops: seq<Op>): Marks
    requires AllPackable(ops)
  {
    if ops == [] then Marks(0, 0, 0) else Moved(MarksOf(ops[..|ops| - 1]), ops[|ops| - 1])
  }

  /** Every pack began where what counts as used ends. */
  ghost predicate PackedAtEnd(ops: seq<Op>)
    requires AllPackable(ops)
  {
    forall k {:trigger ops[k]} :: 0 <= k < |ops| && ops[k].Pack? ==> MarksOf(ops[..k]).pos == MarksOf(ops[..k]).size
  }

  /** After any packs and resets, the size is the end of what has been packed if and only if every pack began
      at the size; otherwise it is beyond. */
  lemma {:induction false} SizeIsEndExactly(ops: seq<Op>)
    requires AllPackable(ops)
    ensures var m := MarksOf(ops); m.pos <= m.top <= m.size && (m.size == m.top <==> PackedAtEnd(ops))
  {
    hide PackedAtEnd, Moved;
    if ops == [] {
      NonePacked(ops);
    } else {
      var front, last := ops[..|ops| - 1], ops[|ops| - 1];
      SizeIsEndExactly(front);
      PackedMore(front, last);
      assert ops == front + [last];
      MovedMarks(MarksOf(front), last);
    }
  }

  lemma NonePacked(ops: seq<Op>)
    requires ops == []
    ensures PackedAtEnd(ops)
  {
  }

  lemma PackedMore(front: seq<Op>, last: Op)
    requires AllPackable(front) && AllPackable(front + [last])
    ensures PackedAtEnd(front + [last])
       <==> PackedAtEnd(front) && (last.Pack? ==> MarksOf(front).pos == MarksOf(front).size)
  {
    hide MarksOf, Packable;
    var ops := front + [last];
    assert ops[..|front|] == front && ops[|front|] == last;
    forall k {:trigger ops[k]} {:trigger front[k]} | 0 <= k < |front|
      ensures ops[k] == front[k] && ops[..k] == front[..k] {
    }
  }

  lemma MovedMarks(m: Marks, op: Op)
    requires m.pos <= m.top <= m.size && (op.Pack? ==> Packable(op.item))
    ensures var n := Moved(m, op);
            && n.pos <= n.top <= n.size
            && (n.size == n.top <==> m.size == m.top && (op.Pack? ==> m.pos == m.size))
  {
  }

  /** The pack itself: after the packs and resets, and with the position at the end of what has been packed,
      more can be read exactly if some pack did not begin at the size. */
  method Perform(ops: seq<Op>) returns (pack: CDataPack, more: bool)
    requires AllPackable(ops)
    ensures pack.Valid() && pack.pos == MarksOf(ops).pos && pack.size == MarksOf(ops).size
    ensures more == Readable(View(pack.base[..], pack.size, MarksOf(ops).top), 1)
    ensures more <==> !PackedAtEnd(ops)
  {
    hide Encode, PackedAtEnd;
    pack := new CDataPack();
    var top: nat := 0;
    for i := 0 to |ops|
      invariant fresh(pack) && fresh(pack.base) && pack.Valid()
      invariant MarksOf(ops[..i]) == Marks(pack.pos, pack.size, top)
    {
      assert ops[..i + 1][..i] == ops[..i];
      match ops[i] {
        case Rewound => pack.Reset();
        case Pack(item) => PackOne(pack, item);
      }
      top := if pack.pos > top then pack.pos else top;
      assert MarksOf(ops[..i + 1]) == Moved(MarksOf(ops[..i]), ops[i]);
    }
    assert ops[..|ops|] == ops;
    SizeIsEndExactly(ops);
    more := Readable(View(pack.base[..], pack.size, top), 1);
  }

  /** A cell, and another one packed over it: the second is read, and as many bytes again count as readable
      behind it. */
  method PackOver(v: cell, w: cell) returns (r: cell, left: int)
    ensures r == w && left == 9
  {
    hide Encode, HasAt, WordAt;
    var pack := new CDataPack();
    CellLength(v);
    CellLength(w);
    pack.PackCell(v);
    pack.Reset();
    pack.PackCell(w);
    pack.Reset();
    ReadsItem(View(pack.base[..], 9, 0), Cell(w), Cell(w));
    r := pack.ReadWord(CELL);
    left := pack.size - pack.pos;
  }

  lemma CellLength(v: cell)
    ensures |Encode(Cell(v))| == 9
  {
  }
}
