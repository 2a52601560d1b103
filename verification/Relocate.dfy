/**
 Relocation and execution of Pawn code (amxmodx/amx.cpp, `amx_BrowseRelocate` and `amx_Exec`).

 The loader sweeps the code once and adds the base address to every operand that is a code
 address, so that the interpreter may jump with `JUMPABS(base, ip) = *ip`. The file also holds the
 form that needs no sweep, `JUMPABS(base, ip) = base + *ip`. The two interpreters below differ in
 this macro only.

 The code is a sequence of 32-bit cells; addresses are counted in bytes, modulo 2^32. Control
 transfer is modelled opcode by opcode. An opcode that only changes registers and data is an
 arbitrary function `alu` of its operand and the data part of the machine, so that the results
 hold for every such function.
 */
module Relocate {
  import opened Basics

  function Add(a: int, b: int): cell {
    (a + b) % WORD
  }

  function Sub(a: int, b: int): cell {
    (a - b) % WORD
  }

  // ---------- Opcodes ----------

  const OP_LCTRL := 31
  const OP_SCTRL := 32
  const OP_RET := 47
  const OP_RETN := 48
  const OP_CALL := 49
  const OP_CALL_PRI := 50
  const OP_JUMP := 51
  const OP_JREL := 52
  const OP_JZER := 53
  const OP_JNZ := 54
  const OP_JEQ := 55
  const OP_JNEQ := 56
  const OP_JLESS := 57
  const OP_JLEQ := 58
  const OP_JGRTR := 59
  const OP_JGEQ := 60
  const OP_JSLESS := 61
  const OP_JSLEQ := 62
  const OP_JSGRTR := 63
  const OP_JSGEQ := 64
  const OP_FILE := 124
  const OP_LINE := 125
  const OP_SYMBOL := 126
  const OP_SRANGE := 127
  const OP_JUMP_PRI := 128
  const OP_SWITCH := 129
  const OP_CASETBL := 130
  const OP_SYMTAG := 136
  const OP_NUM_OPCODES := 145

  /** Conditional jumps, JZER to JSGEQ. */
  predicate IsConditional(op: int) {
    OP_JZER <= op <= OP_JSGEQ
  }

  predicate Taken(op: cell, pri: cell, alt: cell)
    requires IsConditional(op)
  {
    if op == OP_JZER then pri == 0
    else if op == OP_JNZ then pri != 0
    else if op == OP_JEQ then pri == alt
    else if op == OP_JNEQ then pri != alt
    else if op == OP_JLESS then pri < alt
    else if op == OP_JLEQ then pri <= alt
    else if op == OP_JGRTR then pri > alt
    else if op == OP_JGEQ then pri >= alt
    else if op == OP_JSLESS then Signed(pri) < Signed(alt)
    else if op == OP_JSLEQ then Signed(pri) <= Signed(alt)
    else if op == OP_JSGRTR then Signed(pri) > Signed(alt)
    else Signed(pri) >= Signed(alt)
  }

  // ---------- What the sweep knows of an instruction ----------

  /** Opcodes that the sweep lists with one operand that is not an address. */
  predicate SweepOneParam(op: int) {
    1 <= op <= 8 || 10 <= op <= 22 || op == 24 || op == 26 || 28 <= op <= 32 || 38 <= op <= 41 || 44 <= op <= 45
    || op == OP_JREL || 68 <= op <= 71 || 87 <= op <= 88 || 91 <= op <= 92 || 105 <= op <= 106 || 109 <= op <= 110
    || 114 <= op <= 115 || 117 <= op <= 121 || op == 123 || op == 133 || op == 135 || op == OP_SYMTAG
  }

  /** Opcodes with one operand that is a code address. */
  predicate SweepRelocates(op: int) {
    op == OP_CALL || op == OP_JUMP || IsConditional(op) || op == OP_SWITCH
  }

  predicate SweepKnows(op: int) {
    0 < op < OP_NUM_OPCODES
  }

  /** Number of cells of the instruction at `i`, as the sweep advances. */
  function SweepLen(code: seq<cell>, i: nat): (n: nat)
    requires i < |code|
    ensures n >= 1
  {
    var op := code[i];
    if SweepOneParam(op) || SweepRelocates(op) then 2
    else if op == OP_LINE || op == OP_SRANGE then 3
    else if op == OP_FILE || op == OP_SYMBOL then
      if i + 1 < |code| then 2 + (code[i + 1] as int) / 4 else 2
    else if op == OP_CASETBL then
      if i + 1 < |code| then 3 + 2 * (code[i + 1] as int) else 3
    else 1
  }

  /** The instruction at `i` lies inside the code; debug records are whole cells. */
  predicate Fits(code: seq<cell>, i: nat)
    requires i < |code|
  {
    && i + SweepLen(code, i) <= |code|
    && (code[i] == OP_FILE || code[i] == OP_SYMBOL ==> code[i + 1] % 4 == 0)
  }

  /** Cell `k` is an address that the sweep patches at the instruction `i`. */
  predicate PatchedAt(code: seq<cell>, i: nat, k: nat)
    requires i < |code|
  {
    if SweepRelocates(code[i]) then k == i + 1
    else code[i] == OP_CASETBL && i + 2 <= k < i + SweepLen(code, i) && (k - i) % 2 == 0
  }

  /** What the sweep from `i` on demands of the file: every instruction up to the end, or up to an
      unknown opcode, lies inside the code. */
  predicate Sweepable(code: seq<cell>, i: nat)
    requires i <= |code|
    decreases |code| - i
  {
    i == |code| || !SweepKnows(code[i]) || (Fits(code, i) && Sweepable(code, i + SweepLen(code, i)))
  }

  /** The sweep from `i` on meets known opcodes only. */
  predicate AllKnown(code: seq<cell>, i: nat)
    requires i <= |code| && Sweepable(code, i)
    decreases |code| - i
  {
    i == |code| || (SweepKnows(code[i]) && AllKnown(code, i + SweepLen(code, i)))
  }

  /** `b` is an instruction that the sweep from `i` on reaches. */
  predicate ReachedFrom(code: seq<cell>, i: nat, b: nat)
    requires i <= |code| && Sweepable(code, i)
    decreases |code| - i
  {
    i < |code| && SweepKnows(code[i]) && (b == i || ReachedFrom(code, i + SweepLen(code, i), b))
  }

  /** The sweep from `i` on patches cell `k`. */
  predicate PatchedFrom(code: seq<cell>, i: nat, k: nat)
    requires i <= |code| && Sweepable(code, i)
    decreases |code| - i
  {
    i < |code| && SweepKnows(code[i]) && (PatchedAt(code, i, k) || PatchedFrom(code, i + SweepLen(code, i), k))
  }

  /** The image after the sweep: exactly the addresses have the base added, once. */
  function Relocated(code: seq<cell>, base: cell): (r: seq<cell>)
    requires Sweepable(code, 0)
    ensures |r| == |code|
  {
    seq(|code|, k requires 0 <= k < |code| => if PatchedFrom(code, 0, k) then Add(code[k], base) else code[k])
  }

  // ---------- The sweep ----------

  datatype Status = ErrNone | ErrInvInstr

  lemma {:induction false} ReachedLies(code: seq<cell>, i: nat, b: nat)
    requires i <= |code| && Sweepable(code, i) && ReachedFrom(code, i, b)
    ensures i <= b < |code| && SweepKnows(code[b]) && Fits(code, b)
    ensures Sweepable(code, b) && Sweepable(code, b + SweepLen(code, b))
    decreases |code| - i
  {
    if b != i {
      ReachedLies(code, i + SweepLen(code, i), b);
    }
  }

  lemma {:induction false} NotPatchedBefore(code: seq<cell>, i: nat, k: nat)
    requires k < i <= |code| && Sweepable(code, i)
    ensures !PatchedFrom(code, i, k)
    decreases |code| - i
  {
    if i < |code| && SweepKnows(code[i]) {
      NotPatchedBefore(code, i + SweepLen(code, i), k);
    }
  }

  /** Inside an instruction that the sweep reaches, it patches exactly that instruction's addresses. */
  lemma {:induction false} PatchedInside(code: seq<cell>, i: nat, b: nat, k: nat)
    requires i <= |code| && Sweepable(code, i) && ReachedFrom(code, i, b)
    requires b < |code| && b <= k < b + SweepLen(code, b)
    ensures PatchedFrom(code, i, k) <==> PatchedAt(code, b, k)
    decreases |code| - i
  {
    var next := i + SweepLen(code, i);
    if b == i {
      NotPatchedBefore(code, next, k);
    } else {
      ReachedLies(code, next, b);
      PatchedInside(code, next, b, k);
    }
  }

  /** Where the sweep from `i` on can go after it has reached `b`. */
  lemma {:induction false} ReachedNext(code: seq<cell>, i: nat, b: nat)
    requires i <= |code| && Sweepable(code, i) && ReachedFrom(code, i, b)
    requires b < |code| && b + SweepLen(code, b) < |code| && SweepKnows(code[b + SweepLen(code, b)])
    ensures ReachedFrom(code, i, b + SweepLen(code, b))
    decreases |code| - i
  {
    if b == i {
      ReachedLies(code, i, b);
      assert ReachedFrom(code, b + SweepLen(code, b), b + SweepLen(code, b));
    } else {
      ReachedLies(code, i + SweepLen(code, i), b);
      ReachedNext(code, i + SweepLen(code, i), b);
    }
  }

  /** Patches of the sweep so far: it stands at `i`. */
  ghost predicate SweptTo(now: seq<cell>, code: seq<cell>, base: cell, i: nat)
    requires Sweepable(code, 0)
  {
    && |now| == |code| && i <= |code| && Sweepable(code, i)
    && (AllKnown(code, 0) <==> AllKnown(code, i))
    && (forall k {:trigger PatchedFrom(code, i, k)} :: i <= k < |code| ==>
          (PatchedFrom(code, 0, k) <==> PatchedFrom(code, i, k)))
    && (forall k {:trigger now[k]} :: 0 <= k < |code| ==>
          now[k] == if k < i && PatchedFrom(code, 0, k) then Add(code[k], base) else code[k])
  }

  lemma SweptNone(code: seq<cell>, base: cell)
    requires Sweepable(code, 0)
    ensures SweptTo(code, code, base, 0)
  {
  }

  lemma SweptHere(now: seq<cell>, code: seq<cell>, base: cell, i: nat)
    requires Sweepable(code, 0) && SweptTo(now, code, base, i)
    ensures |now| == |code| && i <= |code| && Sweepable(code, i)
    ensures i < |code| ==> Fits(code, i) && now[i] == code[i] && (i + 1 < |code| ==> now[i + 1] == code[i + 1])
  {
  }

  /** One instruction further. */
  lemma SweepOn(now: seq<cell>, now': seq<cell>, code: seq<cell>, base: cell, i: nat)
    requires Sweepable(code, 0) && SweptTo(now, code, base, i) && i < |code| && SweepKnows(code[i])
    requires |now'| == |now|
    requires forall k {:trigger now'[k]} :: 0 <= k < |code| ==>
               now'[k] == if PatchedAt(code, i, k) then Add(now[k], base) else now[k]
    ensures SweptTo(now', code, base, i + SweepLen(code, i))
  {
    var next := i + SweepLen(code, i);
    forall k {:trigger PatchedFrom(code, next, k)} | next <= k < |code|
      ensures PatchedFrom(code, 0, k) <==> PatchedFrom(code, next, k)
    {
      assert PatchedFrom(code, i, k) <==> PatchedFrom(code, next, k);
    }
    forall k {:trigger now'[k]} | 0 <= k < |code|
      ensures now'[k] == if k < next && PatchedFrom(code, 0, k) then Add(code[k], base) else code[k]
    {
      if i <= k < next {
        NotPatchedBefore(code, next, k);
        assert PatchedFrom(code, i, k) <==> PatchedAt(code, i, k);
      }
    }
  }

  lemma Swept(now: seq<cell>, code: seq<cell>, base: cell, i: nat)
    requires Sweepable(code, 0) && SweptTo(now, code, base, i) && (i == |code| || !SweepKnows(code[i]))
    ensures now == Relocated(code, base)
    ensures AllKnown(code, 0) <==> i == |code|
  {
    forall k | 0 <= k < |code| ensures now[k] == Relocated(code, base)[k] {
      if k >= i {
        assert !PatchedFrom(code, i, k);
      }
    }
  }

  /** Patches the default address and the addresses of a case table, from its record count on. */
  method RelocateCases(code: array<cell>, base: cell, at: nat, num: nat)
    requires at + 2 * num < code.Length
    modifies code
    ensures forall k :: 0 <= k < code.Length ==>
              code[k] == if at <= k <= at + 2 * num && (k - at) % 2 == 0 then Add(old(code[k]), base) else old(code[k])
  {
    for j := 0 to num + 1
      invariant forall k :: 0 <= k < code.Length ==>
                  code[k] == if at <= k < at + 2 * j && (k - at) % 2 == 0 then Add(old(code[k]), base) else old(code[k])
    {
      code[at + 2 * j] := Add(code[at + 2 * j], base);
    }
  }

  /** The sweep. It patches exactly the addresses, each once, and succeeds exactly if it meets
      known opcodes only; the image is patched up to the first unknown one. */
  method BrowseRelocate(code: array<cell>, base: cell) returns (status: Status)
    requires Sweepable(code[..], 0)
    modifies code
    ensures code[..] == Relocated(old(code[..]), base)
    ensures status == ErrNone <==> AllKnown(old(code[..]), 0)
  {
    hide SweptTo, Relocated, AllKnown, Sweepable, PatchedFrom;
    ghost var s := code[..];
    var cip := 0;
    SweptNone(s, base);
    while cip < code.Length
      invariant SweptTo(code[..], s, base, cip)
    {
      SweptHere(code[..], s, base, cip);
      var op := code[cip];
      assert op == code[..][cip] == s[cip];
      if !SweepKnows(op) {
        Swept(code[..], s, base, cip);
        return ErrInvInstr;
      }
      ghost var before, at := code[..], cip;
      assert Fits(s, cip);
      assert cip + 1 < code.Length ==> code[..][cip + 1] == s[cip + 1];
      cip := cip + 1;
      if SweepOneParam(op) {
        cip := cip + 1;
      } else if SweepRelocates(op) {
        code[cip] := Add(code[cip], base);
        cip := cip + 1;
      } else if op == OP_FILE || op == OP_SYMBOL {
        cip := cip + 1 + code[cip] as int / 4;
      } else if op == OP_LINE || op == OP_SRANGE {
        cip := cip + 2;
      } else if op == OP_CASETBL {
        var num := code[cip];
        cip := cip + 1;
        RelocateCases(code, base, cip, num);
        cip := cip + 2 * num as int + 1;
      }
      SweepOn(before, code[..], s, base, at);
    }
    SweptHere(code[..], s, base, cip);
    Swept(code[..], s, base, cip);
    status := ErrNone;
  }

  // ---------- The interpreter ----------

  /** Registers and data memory: all of the machine but the instruction pointer. */
  datatype Core = Core(pri: cell, alt: cell, stk: cell, frm: cell, hea: cell, data: map<cell, cell>)

  datatype State =
    | Running(cip: cell, core: Core)
    | Stopped(core: Core)

  /** Effect of a straight-line opcode on the core, given its operand (0 if it has none); None if
      it ends the run. */
  type Alu = (cell, cell, Core) -> Option<Core>

  function Load(m: Core, a: cell): cell {
    if a in m.data then m.data[a] else 0
  }

  function Push(m: Core, v: cell): Core {
    var stk := Sub(m.stk, 4);
    m.(stk := stk, data := m.data[stk := v])
  }

  function Popped(m: Core): Core {
    m.(stk := Add(m.stk, 4))
  }

  /** Opcodes without operand, as the interpreter executes them. */
  predicate ExecNoParam(op: int) {
    op == 9 || op == 23 || op == 25 || op == 27 || 33 <= op <= 37 || 42 <= op <= 43 || op == 46 || 65 <= op <= 67
    || 72 <= op <= 86 || 89 <= op <= 90 || 93 <= op <= 104 || 107 <= op <= 108 || 111 <= op <= 113 || op == 116
    || op == 122 || 131 <= op <= 132 || op == 134 || 137 <= op <= 144
  }

  /** Address of the code cell `i`. */
  function Address(base: cell, i: int): cell {
    Add(base, 4 * i)
  }

  /** The code cell at the address `cip`, if there is one. */
  function Index(code: seq<cell>, base: cell, cip: cell): Option<nat> {
    var off := Sub(cip, base);
    if off % 4 == 0 && off / 4 < |code| then Some(off / 4) else None
  }

  /** JUMPABS(code, ip) for the operand cell `v`, in the form that needs no sweep and in the other. */
  function JumpAbs(base: cell, relocated: bool, v: cell): cell {
    if relocated then v else Add(base, v)
  }

  /** The record of a case table from cell `i` on that matches, or None. */
  function FindCase(code: seq<cell>, i: nat, num: nat, pri: cell): (r: Option<nat>)
    ensures r.Some? ==> i <= r.value < i + 2 * num && r.value + 1 < |code|
    decreases num
  {
    if num == 0 || i + 1 >= |code| then None
    else if code[i] == pri then Some(i)
    else FindCase(code, i + 2, num - 1, pri)
  }

  /** The address that the case table at `t` gives for `pri`: of the first record that matches, or
      the default. */
  function CaseTarget(code: seq<cell>, t: nat, pri: cell): cell
    requires t + 2 < |code|
  {
    var num := if Signed(code[t + 1]) > 0 then code[t + 1] else 0;
    match FindCase(code, t + 3, num, pri)
    case Some(i) => code[i + 1]
    case None => code[t + 2]
  }

  /** OP_SWITCH with the operand `v`: the table lies behind the opcode at its address. */
  function Switch(code: seq<cell>, base: cell, relocated: bool, v: cell, m: Core): State {
    match Index(code, base, JumpAbs(base, relocated, v))
    case None => Stopped(m)
    case Some(t) =>
      if t + 2 >= |code| then Stopped(m)
      else Running(JumpAbs(base, relocated, CaseTarget(code, t, m.pri)), m)
  }

  /** Where an instruction sends the run: to the cell `i`, to the address operand `v` (directly or
      through a case table), to the offset `v` in the code, or `v` bytes beyond the cell `i`. */
  datatype Dest = Cell(i: nat) | Jump(v: cell) | Table(v: cell) | Offset(v: cell) | Beyond(i: nat, v: cell) | Halt

  datatype Outcome = Outcome(dest: Dest, core: Core)

  function Straight(m: Core, next: nat, r: Option<Core>): Outcome {
    match r
    case Some(m') => Outcome(Cell(next), m')
    case None => Outcome(Halt, m)
  }

  /** OP_RET and OP_RETN: frame and return offset come from the stack. */
  function Return(code: seq<cell>, withParams: bool, m: Core): Outcome {
    var m1 := Popped(m.(frm := Load(m, m.stk)));
    var offs := Load(m1, m1.stk);
    var m2 := Popped(m1);
    if offs >= 4 * |code| then Outcome(Halt, m2)
    else Outcome(Offset(offs), if withParams then m2.(stk := Add(m2.stk, Load(m2, m2.stk) + 4)) else m2)
  }

  /** One instruction at the code cell `i`; the pointer difference between cell `k` and the code is
      4 * k. */
  function Execute(code: seq<cell>, alu: Alu, i: nat, m: Core): Outcome
    requires i < |code|
  {
    var op := code[i];
    var v := if i + 1 < |code| then code[i + 1] else 0;
    if !(0 < op < OP_NUM_OPCODES) then Outcome(Halt, m)
    else if op == OP_JUMP then Outcome(Jump(v), m)
    else if IsConditional(op) then Outcome(if Taken(op, m.pri, m.alt) then Jump(v) else Cell(i + 2), m)
    else if op == OP_CALL then Outcome(Jump(v), Push(m, Add(0, 4 * (i + 2))))
    else if op == OP_CALL_PRI then Outcome(Offset(m.pri), Push(m, Add(0, 4 * (i + 1))))
    else if op == OP_JUMP_PRI then Outcome(Offset(m.pri), m)
    else if op == OP_JREL then Outcome(Beyond(i + 2, v), m)
    else if op == OP_RET || op == OP_RETN then Return(code, op == OP_RETN, m)
    else if op == OP_SWITCH then Outcome(Table(v), m)
    else if op == OP_LCTRL && v == 6 then Outcome(Cell(i + 2), m.(pri := Add(0, 4 * (i + 2))))
    else if op == OP_SCTRL && v == 6 then Outcome(Offset(m.pri), m)
    else if op == OP_LINE || op == OP_SRANGE then Outcome(Cell(i + 3), m)
    else if op == OP_SYMTAG then Outcome(Cell(i + 2), m)
    else if op == OP_SYMBOL then Outcome(Beyond(i + 2, v), m)
    else if op == OP_FILE || op == OP_CASETBL then Outcome(Halt, m)
    else if ExecNoParam(op) then Straight(m, i + 1, alu(op, 0, m))
    else Straight(m, i + 2, alu(op, v, m))
  }

  function Go(code: seq<cell>, base: cell, relocated: bool, dest: Dest, m: Core): State {
    match dest
    case Cell(i) => Running(Address(base, i), m)
    case Jump(v) => Running(JumpAbs(base, relocated, v), m)
    case Table(v) => Switch(code, base, relocated, v, m)
    case Offset(v) => Running(Add(base, v), m)
    case Beyond(i, v) => Running(Add(base, 4 * i + v), m)
    case Halt => Stopped(m)
  }

  function Step(code: seq<cell>, base: cell, relocated: bool, alu: Alu, s: State): State {
    match s
    case Stopped(_) => s
    case Running(cip, m) =>
      match Index(code, base, cip)
      case None => Stopped(m)
      case Some(i) =>
        var r := Execute(code, alu, i, m);
        Go(code, base, relocated, r.dest, r.core)
  }

  function Run(code: seq<cell>, base: cell, relocated: bool, alu: Alu, s: State, n: nat): State {
    if n == 0 then s else Step(code, base, relocated, alu, Run(code, base, relocated, alu, s, n - 1))
  }

  // ---------- The sweep and the interpreter agree ----------

  /** The instruction at `i` takes its destination from a register or from the stack. */
  predicate Computed(code: seq<cell>, i: nat)
    requires i < |code|
  {
    var op := code[i];
    op == OP_CALL_PRI || op == OP_JUMP_PRI || op == OP_RET || op == OP_RETN
    || (op == OP_SCTRL && i + 1 < |code| && code[i + 1] == 6)
  }

  /** What the destinations of the interpreter have to do with the sweep's view of an instruction.
      Every opcode occupies as many cells for one as for the other: unless it jumps, the run
      continues behind the cells that the sweep skips. */
  lemma SameLength(code: seq<cell>, alu: Alu, i: nat, m: Core)
    requires i < |code| && SweepKnows(code[i]) && Fits(code, i)
    ensures var dest := Execute(code, alu, i, m).dest;
            && (dest.Cell? ==> dest.i == i + SweepLen(code, i))
            && (dest.Beyond? && code[i] != OP_JREL ==> 4 * dest.i + dest.v as int == 4 * (i + SweepLen(code, i)))
            && (dest.Beyond? && code[i] == OP_JREL ==> dest == Beyond(i + 2, code[i + 1]))
            && (dest.Jump? ==> SweepRelocates(code[i]) && code[i] != OP_SWITCH && dest.v == code[i + 1])
            && (dest.Table? ==> code[i] == OP_SWITCH && dest.v == code[i + 1])
            && (dest.Offset? ==> Computed(code, i))
  {
  }

  /** `cip` stands at an instruction that the sweep has seen, or has left the code. */
  predicate AtInstruction(code: seq<cell>, base: cell, cip: cell)
    requires Sweepable(code, 0)
  {
    var i := Index(code, base, cip);
    i.Some? ==> ReachedFrom(code, 0, i.value)
  }

  /** A switch of a compiled file names a case table. */
  predicate SwitchNamesTable(code: seq<cell>, i: nat)
    requires Sweepable(code, 0) && i + 1 < |code|
  {
    var t := code[i + 1] as int / 4;
    code[i + 1] as int % 4 == 0 && IsTable(code, t)
  }

  ghost predicate SwitchesOk(code: seq<cell>)
    requires Sweepable(code, 0)
  {
    forall i {:trigger ReachedFrom(code, 0, i)} ::
      0 <= i && i + 1 < |code| && ReachedFrom(code, 0, i) && code[i] == OP_SWITCH ==>
      SwitchNamesTable(code, i)
  }

  lemma RelocatedAt(code: seq<cell>, base: cell, b: nat, k: nat)
    requires Sweepable(code, 0) && ReachedFrom(code, 0, b)
    requires b < |code| && b <= k < b + SweepLen(code, b)
    ensures k < |code| && Relocated(code, base)[k] == if PatchedAt(code, b, k) then Add(code[k], base) else code[k]
  {
    ReachedLies(code, 0, b);
    PatchedInside(code, 0, b, k);
  }

  predicate IsTable(code: seq<cell>, t: nat)
    requires Sweepable(code, 0)
  {
    t < |code| && ReachedFrom(code, 0, t) && code[t] == OP_CASETBL
  }

  lemma TableFits(code: seq<cell>, t: nat)
    requires Sweepable(code, 0) && IsTable(code, t)
    ensures t + 1 < |code| && SweepLen(code, t) == 3 + 2 * (code[t + 1] as int) && t + SweepLen(code, t) <= |code|
  {
    ReachedLies(code, 0, t);
  }

  /** The cells of a case table: count, default, and the records. */
  lemma TableHead(code: seq<cell>, base: cell, t: nat)
    requires Sweepable(code, 0) && IsTable(code, t)
    ensures t + 2 < |code|
    ensures t + 3 + 2 * (code[t + 1] as int) <= |code|
    ensures Relocated(code, base)[t + 1] == code[t + 1]
    ensures Relocated(code, base)[t + 2] == Add(code[t + 2], base)
  {
    TableFits(code, t);
    RelocatedAt(code, base, t, t + 1);
    RelocatedAt(code, base, t, t + 2);
  }

  lemma TableValue(code: seq<cell>, base: cell, t: nat, i: nat)
    requires Sweepable(code, 0) && IsTable(code, t) && t + 1 < |code|
    requires 3 <= i - t < 3 + 2 * (code[t + 1] as int) && (i - t) % 2 == 1
    ensures i < |code| && Relocated(code, base)[i] == code[i]
  {
    TableFits(code, t);
    RelocatedAt(code, base, t, i);
  }

  lemma TableAddress(code: seq<cell>, base: cell, t: nat, i: nat)
    requires Sweepable(code, 0) && IsTable(code, t) && t + 1 < |code|
    requires 3 <= i - t < 3 + 2 * (code[t + 1] as int) && (i - t) % 2 == 0
    ensures i < |code| && Relocated(code, base)[i] == Add(code[i], base)
  {
    TableFits(code, t);
    RelocatedAt(code, base, t, i);
  }

  /** The search through the records of the table at `t`, from cell `i` on. */
  lemma {:induction false} SameCase(code: seq<cell>, code': seq<cell>, base: cell, t: nat, i: nat, num: nat, pri: cell)
    requires Sweepable(code, 0) && code' == Relocated(code, base) && IsTable(code, t)
    requires t + 1 < |code| && 3 <= i - t && i - t + 2 * num <= 3 + 2 * (code[t + 1] as int) && (i - t) % 2 == 1
    ensures FindCase(code', i, num, pri) == FindCase(code, i, num, pri)
    ensures FindCase(code, i, num, pri).Some? ==>
              code'[FindCase(code, i, num, pri).value + 1] == Add(code[FindCase(code, i, num, pri).value + 1], base)
    decreases num
  {
    hide Sweepable, Relocated, IsTable, Add;
    if num != 0 {
      TableValue(code, base, t, i);
      TableAddress(code, base, t, i + 1);
      SameCase(code, code', base, t, i + 2, num - 1, pri);
    }
  }

  lemma SameCaseTarget(code: seq<cell>, base: cell, t: nat, pri: cell)
    requires Sweepable(code, 0) && IsTable(code, t)
    ensures t + 2 < |code|
    ensures CaseTarget(Relocated(code, base), t, pri) == Add(CaseTarget(code, t, pri), base)
  {
    hide Sweepable, Relocated, IsTable, Add, FindCase;
    TableHead(code, base, t);
    var num := if Signed(code[t + 1]) > 0 then code[t + 1] else 0;
    SameCase(code, Relocated(code, base), base, t, t + 3, num, pri);
  }

  lemma SameSwitch(code: seq<cell>, base: cell, i: nat, m: Core)
    requires Sweepable(code, 0) && ReachedFrom(code, 0, i) && i < |code| && code[i] == OP_SWITCH
    requires i + 1 < |code| && SwitchNamesTable(code, i)
    ensures Switch(Relocated(code, base), base, true, Add(code[i + 1], base), m)
         == Switch(code, base, false, code[i + 1], m)
  {
    var t := code[i + 1] as int / 4;
    ReachedLies(code, 0, t);
    OffsetIndex(code, base, code[i + 1]);
    SameCaseTarget(code, base, t, m.pri);
  }

  lemma OffsetIndex(code: seq<cell>, base: cell, off: cell)
    ensures Index(code, base, Add(base, off)) == if off as int % 4 == 0 && off as int / 4 < |code| then
              Some(off as int / 4) else None
  {
  }

  /** The operand that is an address goes through the base; nothing else of an outcome changes. */
  function Rebased(dest: Dest, base: cell): Dest {
    match dest
    case Jump(v) => Jump(Add(v, base))
    case Table(v) => Table(Add(v, base))
    case _ => dest
  }

  /** The swept image's instruction differs from the file's in its address operand only. */
  lemma SameOutcome(code: seq<cell>, code': seq<cell>, base: cell, alu: Alu, i: nat, m: Core)
    requires i < |code| == |code'| && SweepKnows(code[i]) && i + SweepLen(code, i) <= |code| && code'[i] == code[i]
    requires SweepLen(code, i) > 1 && code[i] != OP_CASETBL ==>
               code'[i + 1] == if SweepRelocates(code[i]) then Add(code[i + 1], base) else code[i + 1]
    ensures Execute(code', alu, i, m)
         == Outcome(Rebased(Execute(code, alu, i, m).dest, base), Execute(code, alu, i, m).core)
  {
  }

  lemma SameGo(code: seq<cell>, base: cell, i: nat, dest: Dest, m: Core)
    requires Sweepable(code, 0) && SwitchesOk(code) && ReachedFrom(code, 0, i)
    requires dest.Table? ==> i + 1 < |code| && code[i] == OP_SWITCH && dest.v == code[i + 1]
    ensures Go(Relocated(code, base), base, true, Rebased(dest, base), m) == Go(code, base, false, dest, m)
  {
    if dest.Table? {
      SameSwitch(code, base, i, m);
    }
  }

  /** One step of the two machines: the swept image with absolute jumps does what the file's
      image does with base-relative jumps. */
  lemma StepSame(code: seq<cell>, base: cell, alu: Alu, s: State)
    requires Sweepable(code, 0) && SwitchesOk(code)
    requires s.Running? ==> AtInstruction(code, base, s.cip)
    ensures Step(Relocated(code, base), base, true, alu, s) == Step(code, base, false, alu, s)
  {
    if s.Running? && Index(code, base, s.cip).Some? {
      var i := Index(code, base, s.cip).value;
      ReachedLies(code, 0, i);
      RelocatedAt(code, base, i, i);
      if SweepLen(code, i) > 1 {
        RelocatedAt(code, base, i, i + 1);
      }
      SameOutcome(code, Relocated(code, base), base, alu, i, s.core);
      SameLength(code, alu, i, s.core);
      SameGo(code, base, i, Execute(code, alu, i, s.core).dest, Execute(code, alu, i, s.core).core);
    }
  }

  /** Relocation preserves meaning: as long as the run of the file's image stays at instructions
      that the sweep has seen, the run of the swept image is the same, state by state. */
  lemma {:induction false} RelocationPreservesRuns(code: seq<cell>, base: cell, alu: Alu, s: State, n: nat)
    requires Sweepable(code, 0) && SwitchesOk(code)
    requires forall k: nat {:trigger Run(code, base, false, alu, s, k)} :: k < n ==>
               (var t := Run(code, base, false, alu, s, k); t.Running? ==> AtInstruction(code, base, t.cip))
    ensures Run(Relocated(code, base), base, true, alu, s, n) == Run(code, base, false, alu, s, n)
  {
    if n > 0 {
      RelocationPreservesRuns(code, base, alu, s, n - 1);
      StepSame(code, base, alu, Run(code, base, false, alu, s, n - 1));
    }
  }

  // ---------- Static jumps stay at instructions ----------

  /** The offset `v` is that of an instruction. */
  predicate Target(code: seq<cell>, v: cell)
    requires Sweepable(code, 0)
  {
    v as int % 4 == 0 && v as int / 4 < |code| && ReachedFrom(code, 0, v as int / 4)
  }

  /** The addresses in the code are those of instructions, as a compiler leaves them. */
  ghost predicate JumpsOk(code: seq<cell>)
    requires Sweepable(code, 0)
  {
    && (forall i {:trigger ReachedFrom(code, 0, i)} :: 0 <= i && i + 1 < |code| && ReachedFrom(code, 0, i) ==>
          && (SweepRelocates(code[i]) && code[i] != OP_SWITCH ==> Target(code, code[i + 1]))
          && (code[i] == OP_JREL ==> Target(code, Add(4 * (i + 2), code[i + 1]))))
    && (forall t {:trigger IsTable(code, t)} :: 0 <= t && IsTable(code, t) ==> TableOk(code, t))
  }

  /** So are the addresses in a case table. */
  ghost predicate TableOk(code: seq<cell>, t: nat)
    requires Sweepable(code, 0) && IsTable(code, t)
  {
    forall k {:trigger Target(code, code[k])} ::
      t + 2 <= k < t + SweepLen(code, t) && k < |code| && (k - t) % 2 == 0 ==>
      Target(code, code[k])
  }

  lemma AtTarget(code: seq<cell>, base: cell, v: cell)
    requires Sweepable(code, 0) && Target(code, v)
    ensures AtInstruction(code, base, Add(base, v))
  {
  }

  lemma AtNext(code: seq<cell>, base: cell, i: nat)
    requires Sweepable(code, 0) && AllKnown(code, 0) && 4 * |code| < WORD && i < |code| && ReachedFrom(code, 0, i)
    ensures i + SweepLen(code, i) <= |code|
    ensures AtInstruction(code, base, Address(base, i + SweepLen(code, i)))
  {
    ReachedLies(code, 0, i);
    var next := i + SweepLen(code, i);
    AddressIndex(code, base, next);
    if next < |code| {
      KnownThere(code, 0, i);
      ReachedNext(code, 0, i);
    }
  }

  lemma AddressIndex(code: seq<cell>, base: cell, i: nat)
    requires 4 * |code| < WORD && i <= |code|
    ensures Index(code, base, Address(base, i)) == if i < |code| then Some(i) else None
  {
  }

  lemma {:induction false} KnownThere(code: seq<cell>, i: nat, b: nat)
    requires i <= |code| && Sweepable(code, i) && AllKnown(code, i) && ReachedFrom(code, i, b) && b < |code|
    ensures b + SweepLen(code, b) <= |code|
            && (b + SweepLen(code, b) < |code| ==> SweepKnows(code[b + SweepLen(code, b)]))
    decreases |code| - i
  {
    ReachedLies(code, i, b);
    if b != i {
      KnownThere(code, i + SweepLen(code, i), b);
    }
  }

  lemma TableStays(code: seq<cell>, t: nat, pri: cell)
    requires Sweepable(code, 0) && IsTable(code, t) && TableOk(code, t)
    ensures t + 2 < |code| && Target(code, CaseTarget(code, t, pri))
  {
    TableFits(code, t);
    var num := if Signed(code[t + 1]) > 0 then code[t + 1] else 0;
    CaseIsRecord(code, t + 3, num, pri);
    var r := FindCase(code, t + 3, num, pri);
    var k := if r.Some? then r.value + 1 else t + 2;
    assert Target(code, code[k]);
  }

  lemma SwitchStays(code: seq<cell>, base: cell, i: nat, m: Core)
    requires Sweepable(code, 0) && i + 1 < |code| && SwitchNamesTable(code, i) && TableOk(code, code[i + 1] as int / 4)
    ensures var s := Switch(code, base, false, code[i + 1], m);
            s.Running? && AtInstruction(code, base, s.cip)
  {
    var t := code[i + 1] as int / 4;
    OffsetIndex(code, base, code[i + 1]);
    TableStays(code, t, m.pri);
    AtTarget(code, base, CaseTarget(code, t, m.pri));
  }

  lemma {:induction false} CaseIsRecord(code: seq<cell>, i: nat, num: nat, pri: cell)
    ensures var r := FindCase(code, i, num, pri); r.Some? ==> (r.value - i) % 2 == 0
    decreases num
  {
    if num != 0 && i + 1 < |code| {
      CaseIsRecord(code, i + 2, num - 1, pri);
    }
  }

  /** From instruction to instruction: only a computed transfer can leave them. */
  lemma StaysAtInstructions(code: seq<cell>, base: cell, alu: Alu, s: State)
    requires Sweepable(code, 0) && AllKnown(code, 0) && 4 * |code| < WORD && SwitchesOk(code) && JumpsOk(code)
    requires s.Running? && AtInstruction(code, base, s.cip)
    requires var i := Index(code, base, s.cip); i.Some? ==> !Computed(code, i.value)
    ensures var s' := Step(code, base, false, alu, s); s'.Running? ==> AtInstruction(code, base, s'.cip)
  {
    if Index(code, base, s.cip).Some? {
      var i := Index(code, base, s.cip).value;
      ReachedLies(code, 0, i);
      AtNext(code, base, i);
      SameLength(code, alu, i, s.core);
      if i + 1 < |code| {
        JumpTargets(code, i);
      }
      GoStays(code, base, i, Execute(code, alu, i, s.core).dest, Execute(code, alu, i, s.core).core);
    }
  }

  lemma JumpTargets(code: seq<cell>, i: nat)
    requires Sweepable(code, 0) && SwitchesOk(code) && JumpsOk(code) && i + 1 < |code| && ReachedFrom(code, 0, i)
    ensures SweepRelocates(code[i]) && code[i] != OP_SWITCH ==> Target(code, code[i + 1])
    ensures code[i] == OP_JREL ==> Target(code, Add(4 * (i + 2), code[i + 1]))
    ensures code[i] == OP_SWITCH ==> SwitchNamesTable(code, i) && TableOk(code, code[i + 1] as int / 4)
  {
  }

  lemma AddAdd(a: int, b: int, c: int)
    ensures Add(a, Add(b, c)) == Add(a, b + c)
  {
  }

  lemma GoStays(code: seq<cell>, base: cell, i: nat, dest: Dest, m: Core)
    requires Sweepable(code, 0) && i < |code|
    requires AtInstruction(code, base, Address(base, i + SweepLen(code, i)))
    requires dest.Cell? ==> dest.i == i + SweepLen(code, i)
    requires dest.Beyond? ==>
               4 * dest.i + dest.v as int == 4 * (i + SweepLen(code, i)) || Target(code, Add(4 * dest.i, dest.v))
    requires dest.Jump? ==> Target(code, dest.v)
    requires dest.Table? ==>
               i + 1 < |code| && dest.v == code[i + 1] && SwitchNamesTable(code, i)
                 && TableOk(code, code[i + 1] as int / 4)
    requires !dest.Offset?
    ensures var s := Go(code, base, false, dest, m);
            s.Running? ==> AtInstruction(code, base, s.cip)
  {
    match dest
    case Jump(v) => AtTarget(code, base, v);
    case Table(v) => SwitchStays(code, base, i, m);
    case Beyond(k, v) =>
      if Target(code, Add(4 * k, v)) {
        AtTarget(code, base, Add(4 * k, v));
        AddAdd(base, 4 * k, v);
      }
    case _ =>
  }

  /** The computed transfers among the first n steps of a run go to instructions. */
  ghost predicate ReturnsToInstructions(code: seq<cell>, base: cell, alu: Alu, s: State, n: nat)
    requires Sweepable(code, 0)
  {
    forall k: nat {:trigger Run(code, base, false, alu, s, k)} :: k < n ==>
      (var t, t' := Run(code, base, false, alu, s, k), Run(code, base, false, alu, s, k + 1);
       t.Running? && t'.Running? && Index(code, base, t.cip).Some? && Computed(code, Index(code, base, t.cip).value) ==>
         AtInstruction(code, base, t'.cip))
  }

  lemma {:induction false} RunStaysAtInstructions(code: seq<cell>, base: cell, alu: Alu, s: State, n: nat, k: nat)
    requires Sweepable(code, 0) && AllKnown(code, 0) && 4 * |code| < WORD && SwitchesOk(code) && JumpsOk(code)
    requires s.Running? ==> AtInstruction(code, base, s.cip)
    requires ReturnsToInstructions(code, base, alu, s, n) && k <= n
    ensures var t := Run(code, base, false, alu, s, k); t.Running? ==> AtInstruction(code, base, t.cip)
  {
    if k > 0 {
      RunStaysAtInstructions(code, base, alu, s, n, k - 1);
      var t := Run(code, base, false, alu, s, k - 1);
      assert Run(code, base, false, alu, s, (k - 1) + 1) == Step(code, base, false, alu, t);
      if t.Running? && !(Index(code, base, t.cip).Some? && Computed(code, Index(code, base, t.cip).value)) {
        StaysAtInstructions(code, base, alu, t);
      }
    }
  }

  /** A compiled image that the sweep accepts runs, once swept, like the file's image, provided
      that returns and register jumps go to instructions. */
  lemma SweptImageRunsAlike(code: seq<cell>, base: cell, alu: Alu, s: State, n: nat)
    requires Sweepable(code, 0) && AllKnown(code, 0) && 4 * |code| < WORD && SwitchesOk(code) && JumpsOk(code)
    requires s.Running? ==> AtInstruction(code, base, s.cip)
    requires ReturnsToInstructions(code, base, alu, s, n)
    ensures Run(Relocated(code, base), base, true, alu, s, n) == Run(code, base, false, alu, s, n)
  {
    forall k: nat {:trigger Run(code, base, false, alu, s, k)} | k < n
      ensures var t := Run(code, base, false, alu, s, k); t.Running? ==> AtInstruction(code, base, t.cip)
    {
      RunStaysAtInstructions(code, base, alu, s, n, k);
    }
    RelocationPreservesRuns(code, base, alu, s, n);
  }

  // ---------- Position independence ----------

  /** The same machine at two bases. */
  predicate Shifted(base1: cell, base2: cell, s1: State, s2: State) {
    s1.core == s2.core && s1.Running? == s2.Running?
    && (s1.Running? ==> Sub(s1.cip, base1) == Sub(s2.cip, base2))
  }

  lemma OffsetOf(base: cell, off: int)
    ensures Sub(Add(base, off), base) == off % WORD
  {
  }

  lemma GoShifted(code: seq<cell>, base1: cell, base2: cell, dest: Dest, m: Core)
    ensures Shifted(base1, base2, Go(code, base1, false, dest, m), Go(code, base2, false, dest, m))
  {
    match dest
    case Cell(i) => OffsetOf(base1, 4 * i); OffsetOf(base2, 4 * i);
    case Jump(v) => OffsetOf(base1, v); OffsetOf(base2, v);
    case Table(v) =>
      OffsetOf(base1, v); OffsetOf(base2, v);
      OffsetIndex(code, base1, v); OffsetIndex(code, base2, v);
      if v as int % 4 == 0 && v as int / 4 + 2 < |code| {
        var target := CaseTarget(code, v as int / 4, m.pri);
        OffsetOf(base1, target); OffsetOf(base2, target);
      }
    case Offset(v) => OffsetOf(base1, v); OffsetOf(base2, v);
    case Beyond(i, v) => OffsetOf(base1, 4 * i + v); OffsetOf(base2, 4 * i + v);
    case Halt =>
  }

  lemma {:induction false} RunShifted(code: seq<cell>, base1: cell, base2: cell, alu: Alu, s1: State, s2: State, n: nat)
    requires Shifted(base1, base2, s1, s2)
    ensures Shifted(base1, base2, Run(code, base1, false, alu, s1, n), Run(code, base2, false, alu, s2, n))
  {
    if n > 0 {
      RunShifted(code, base1, base2, alu, s1, s2, n - 1);
      var t1 := Run(code, base1, false, alu, s1, n - 1);
      if t1.Running? && Index(code, base1, t1.cip).Some? {
        var r := Execute(code, alu, Index(code, base1, t1.cip).value, t1.core);
        GoShifted(code, base1, base2, r.dest, r.core);
      }
    }
  }

  /** Loading at another base does not matter: the runs of the two swept images have the same
      registers and data after every number of steps, and stand at the same offset. */
  lemma BaseDoesNotMatter(code: seq<cell>, base1: cell, base2: cell, alu: Alu, s1: State, s2: State, n: nat)
    requires Sweepable(code, 0) && AllKnown(code, 0) && 4 * |code| < WORD && SwitchesOk(code) && JumpsOk(code)
    requires Shifted(base1, base2, s1, s2)
    requires s1.Running? ==> AtInstruction(code, base1, s1.cip)
    requires ReturnsToInstructions(code, base1, alu, s1, n)
    ensures Shifted(base1, base2, Run(Relocated(code, base1), base1, true, alu, s1, n),
                                  Run(Relocated(code, base2), base2, true, alu, s2, n))
  {
    SweptImageRunsAlike(code, base1, alu, s1, n);
    forall k: nat {:trigger Run(code, base2, false, alu, s2, k)} | k < n
      ensures var t := Run(code, base2, false, alu, s2, k); t.Running? ==> AtInstruction(code, base2, t.cip)
    {
      RunShifted(code, base1, base2, alu, s1, s2, k);
      RunStaysAtInstructions(code, base1, alu, s1, n, k);
    }
    RelocationPreservesRuns(code, base2, alu, s2, n);
    RunShifted(code, base1, base2, alu, s1, s2, n);
  }
}
