/**
 Where the interpreter goes (amxmodx/amx.cpp, `amx_Exec`): calls and what they push, returns that find it
 again, jumps and switches. A program whose functions leave their return cells alone stays at the
 instructions of the sweep, and so runs alike before and after it.
 */
module ControlFlow {
  import opened Basics
  import opened Relocate

  /** The run stands at the code cell i. */
  predicate StandsAt(code: seq<cell>, base: cell, s: State, i: nat) {
    s.Running? && Index(code, base, s.cip) == Some(i) && i < |code|
  }

  // ---------- Calls and returns ----------

  predicate IsCall(op: int) {
    op == OP_CALL || op == OP_CALL_PRI
  }

  predicate IsReturn(op: int) {
    op == OP_RET || op == OP_RETN
  }

  /** A call pushes the offset of the instruction behind it, and nothing else changes but where control is. */
  lemma CallPushes(code: seq<cell>, base: cell, relocated: bool, alu: Alu, s: State, i: nat)
    requires StandsAt(code, base, s, i) && IsCall(code[i]) && Fits(code, i) && 4 * |code| < WORD
    ensures var s' := Step(code, base, relocated, alu, s);
            && s'.Running?
            && s'.core == s.core.(stk := s'.core.stk, data := s'.core.data)
            && s'.core.stk == Sub(s.core.stk, 4)
            && Load(s'.core, s'.core.stk) == 4 * (i + SweepLen(code, i))
            && (forall a: cell {:trigger Load(s'.core, a)} :: a != s'.core.stk ==> Load(s'.core, a) == Load(s.core, a))
            && s'.cip == if code[i] == OP_CALL_PRI then Add(base, s.core.pri)
                         else if relocated then code[i + 1] else Add(base, code[i + 1])
  {
  }

  lemma TwicePopped(stk: cell)
    ensures Add(Add(stk, 4), 4) == Add(stk, 8)
  {
  }

  lemma ReturnIs(code: seq<cell>, withParams: bool, m: Core, to: nat)
    requires 4 * |code| < WORD && Load(m, Add(m.stk, 4)) == 4 * to
    ensures var r := Return(code, withParams, m);
            && r.core.frm == Load(m, m.stk) && r.core.data == m.data
            && r.dest == (if to < |code| then Offset(4 * to) else Halt)
            && r.core.stk == (if to >= |code| || !withParams then Add(m.stk, 8)
                              else Add(Add(m.stk, 8), Load(m, Add(m.stk, 8)) + 4))
  {
    TwicePopped(m.stk);
    hide Add;
  }

  /** A return takes the frame from the stack, and behind it the offset where it goes on. */
  lemma ReturnPops(code: seq<cell>, base: cell, relocated: bool, alu: Alu, s: State, i: nat, to: nat)
    requires StandsAt(code, base, s, i) && IsReturn(code[i]) && 4 * |code| < WORD
    requires Load(s.core, Add(s.core.stk, 4)) == 4 * to
    ensures var s', stk := Step(code, base, relocated, alu, s), Add(s.core.stk, 8);
            && s'.core.frm == Load(s.core, s.core.stk) && s'.core.data == s.core.data
            && (if to < |code| then s'.Running? && s'.cip == Address(base, to) else s'.Stopped?)
            && (to < |code| ==>
                  s'.core.stk == if code[i] == OP_RET then stk else Add(stk, Load(s.core, stk) + 4))
  {
    hide Return;
    ReturnIs(code, code[i] == OP_RETN, s.core, to);
  }

  // ---------- Whole runs ----------

  /** The state of the unswept image's run after k steps. */
  function After(code: seq<cell>, base: cell, alu: Alu, s: State, k: nat): State {
    Run(code, base, false, alu, s, k)
  }

  /** Step j of the run is a call at the code cell i, and the return at step k finds its return cell, below the frame,
      and in it what the call has put there. */
  ghost predicate ReturnsFrom(code: seq<cell>, base: cell, alu: Alu, s: State, i: nat, j: nat, k: nat) {
    && j < k
    && var call, ret := After(code, base, alu, s, j), After(code, base, alu, s, k);
       && StandsAt(code, base, call, i) && IsCall(code[i])
       && Add(ret.core.stk, 4) == Sub(call.core.stk, 4)
       && Load(ret.core, Sub(call.core.stk, 4)) == Load(After(code, base, alu, s, j + 1).core, Sub(call.core.stk, 4))
  }

  /** Every return among the first n steps is one from a call whose return cell is as the call has left it, or that of
      the function that the run began with, which goes to the start of the code. */
  ghost predicate LeavesReturnCells(code: seq<cell>, base: cell, alu: Alu, s: State, n: nat) {
    forall k: nat, r: nat {:trigger StandsAt(code, base, After(code, base, alu, s, k), r)} ::
      k < n && StandsAt(code, base, After(code, base, alu, s, k), r) && IsReturn(code[r]) ==>
        || (exists i: nat, j: nat :: ReturnsFrom(code, base, alu, s, i, j, k))
        || (var m := After(code, base, alu, s, k).core; Load(m, Add(m.stk, 4)) == 0)
  }

  /** The register jumps among the first n steps go to instructions. */
  ghost predicate RegisterJumpsOk(code: seq<cell>, base: cell, alu: Alu, s: State, n: nat)
    requires Sweepable(code, 0)
  {
    forall k: nat, i: nat {:trigger StandsAt(code, base, After(code, base, alu, s, k), i)} ::
      k < n && StandsAt(code, base, After(code, base, alu, s, k), i) && Computed(code, i) && !IsReturn(code[i]) ==>
        Target(code, After(code, base, alu, s, k).core.pri)
  }

  /** A return from a call goes on at the instruction behind the call, with the stack as it was there; RETN also takes
      the parameters off it, which lie there with their size. */
  lemma ReturnsBehindCall(code: seq<cell>, base: cell, alu: Alu, s: State, i: nat, j: nat, k: nat, r: nat)
    requires Sweepable(code, 0) && 4 * |code| < WORD && ReturnsFrom(code, base, alu, s, i, j, k)
    requires StandsAt(code, base, After(code, base, alu, s, k), r) && IsReturn(code[r]) && Fits(code, i)
    ensures var call, ret := After(code, base, alu, s, j), After(code, base, alu, s, k);
            var next, to := After(code, base, alu, s, k + 1), i + SweepLen(code, i);
            && (if to < |code| then next.Running? && next.cip == Address(base, to) else next.Stopped?)
            && next.core.frm == Load(ret.core, ret.core.stk)
            && (to < |code| ==>
                  next.core.stk == if code[r] == OP_RET then call.core.stk
                                   else Add(call.core.stk, Load(ret.core, call.core.stk) + 4))
  {
    hide Step, Add, Sub, Load, SweepLen, Sweepable;
    var call, ret := After(code, base, alu, s, j), After(code, base, alu, s, k);
    CallPushes(code, base, false, alu, call, i);
    ReturnPops(code, base, false, alu, ret, r, i + SweepLen(code, i));
    ReturnCells(ret.core.stk, call.core.stk);
  }

  lemma ReturnCells(stk: cell, caller: cell)
    requires Add(stk, 4) == Sub(caller, 4)
    ensures Add(stk, 8) == caller
  {
  }

  lemma ReturnToStart(code: seq<cell>, base: cell, alu: Alu, s: State, r: nat)
    requires Sweepable(code, 0) && AllKnown(code, 0) && 4 * |code| < WORD && StandsAt(code, base, s, r)
             && IsReturn(code[r])
    requires Load(s.core, Add(s.core.stk, 4)) == 0
    ensures var s' := Step(code, base, false, alu, s); s'.Running? ==> AtInstruction(code, base, s'.cip)
  {
    hide Step;
    ReturnPops(code, base, false, alu, s, r, 0);
    AddressIndex(code, base, 0);
  }

  lemma AtBehind(code: seq<cell>, base: cell, i: nat)
    requires Sweepable(code, 0) && AllKnown(code, 0) && 4 * |code| < WORD && i < |code| && ReachedFrom(code, 0, i)
    ensures Fits(code, i) && AtInstruction(code, base, Address(base, i + SweepLen(code, i)))
  {
    ReachedLies(code, 0, i);
    AtNext(code, base, i);
  }

  /** One computed transfer goes to an instruction, if the calls before it stood at instructions. */
  lemma ComputedStays(code: seq<cell>, base: cell, alu: Alu, s: State, n: nat, k: nat, r: nat)
    requires Sweepable(code, 0) && AllKnown(code, 0) && 4 * |code| < WORD && k < n
    requires RegisterJumpsOk(code, base, alu, s, n) && LeavesReturnCells(code, base, alu, s, n)
    requires StandsAt(code, base, After(code, base, alu, s, k), r) && Computed(code, r)
    requires forall j: nat {:trigger After(code, base, alu, s, j)} ::
             j <= k && After(code, base, alu, s, j).Running? ==>
               AtInstruction(code, base, After(code, base, alu, s, j).cip)
    ensures var t := After(code, base, alu, s, k + 1); t.Running? ==> AtInstruction(code, base, t.cip)
  {
    hide Step, Add, Sub, Load, SweepLen, Sweepable, AllKnown, Index, ReachedFrom, Execute;
    var t := After(code, base, alu, s, k);
    if !IsReturn(code[r]) {
      RegisterJump(code, base, alu, t, r);
    } else if i: nat, j: nat :| ReturnsFrom(code, base, alu, s, i, j, k) {
      assert StandsAt(code, base, After(code, base, alu, s, j), i);
      StandsThere(code, base, After(code, base, alu, s, j), i);
      AtBehind(code, base, i);
      ReturnsBehindCall(code, base, alu, s, i, j, k, r);
    } else {
      ReturnToStart(code, base, alu, t, r);
    }
  }

  lemma StandsThere(code: seq<cell>, base: cell, s: State, i: nat)
    requires Sweepable(code, 0) && StandsAt(code, base, s, i) && AtInstruction(code, base, s.cip)
    ensures ReachedFrom(code, 0, i)
  {
  }

  lemma RegisterJump(code: seq<cell>, base: cell, alu: Alu, s: State, i: nat)
    requires Sweepable(code, 0) && StandsAt(code, base, s, i) && Computed(code, i) && !IsReturn(code[i])
    requires Target(code, s.core.pri)
    ensures var s' := Step(code, base, false, alu, s);
            s'.Running? && s'.cip == Add(base, s.core.pri) && AtInstruction(code, base, s'.cip)
  {
    AtTarget(code, base, s.core.pri);
  }

  lemma OneStepMore(code: seq<cell>, base: cell, alu: Alu, s: State, k: nat, n: nat)
    requires Sweepable(code, 0) && AllKnown(code, 0) && 4 * |code| < WORD && n == k + 1
    requires RegisterJumpsOk(code, base, alu, s, n) && LeavesReturnCells(code, base, alu, s, n)
    requires ReturnsToInstructions(code, base, alu, s, k)
    requires forall j: nat {:trigger After(code, base, alu, s, j)} ::
             j <= k && After(code, base, alu, s, j).Running? ==>
               AtInstruction(code, base, After(code, base, alu, s, j).cip)
    ensures ReturnsToInstructions(code, base, alu, s, n)
  {
    hide Step, Sweepable, AllKnown, AtInstruction, Computed, Run, RegisterJumpsOk, LeavesReturnCells;
    var t := After(code, base, alu, s, k);
    if t.Running? && Index(code, base, t.cip).Some? && Computed(code, Index(code, base, t.cip).value) {
      ComputedStays(code, base, alu, s, n, k, Index(code, base, t.cip).value);
    }
  }

  /** In a program whose functions leave their return cells alone, and whose register jumps go to instructions, every
      return goes to an instruction. */
  lemma {:induction false} ReturnsGoBack(code: seq<cell>, base: cell, alu: Alu, s: State, n: nat)
    requires Sweepable(code, 0) && AllKnown(code, 0) && 4 * |code| < WORD && SwitchesOk(code) && JumpsOk(code)
    requires s.Running? ==> AtInstruction(code, base, s.cip)
    requires RegisterJumpsOk(code, base, alu, s, n) && LeavesReturnCells(code, base, alu, s, n)
    ensures ReturnsToInstructions(code, base, alu, s, n)
  {
    hide Step, Index, Sweepable, AllKnown, SwitchesOk, JumpsOk, AtInstruction, Computed;
    if n > 0 {
      ReturnsGoBack(code, base, alu, s, n - 1);
      forall j: nat {:trigger After(code, base, alu, s, j)} | j <= n - 1 && After(code, base, alu, s, j).Running?
        ensures AtInstruction(code, base, After(code, base, alu, s, j).cip)
      {
        RunStaysAtInstructions(code, base, alu, s, n - 1, j);
      }
      OneStepMore(code, base, alu, s, n - 1, n);
    }
  }

  /** Such a program runs alike before and after the sweep. */
  lemma CallsRunAlike(code: seq<cell>, base: cell, alu: Alu, s: State, n: nat)
    requires Sweepable(code, 0) && AllKnown(code, 0) && 4 * |code| < WORD && SwitchesOk(code) && JumpsOk(code)
    requires s.Running? ==> AtInstruction(code, base, s.cip)
    requires RegisterJumpsOk(code, base, alu, s, n) && LeavesReturnCells(code, base, alu, s, n)
    ensures Run(Relocated(code, base), base, true, alu, s, n) == Run(code, base, false, alu, s, n)
  {
    hide Step, Sweepable, AllKnown, SwitchesOk, JumpsOk, AtInstruction;
    ReturnsGoBack(code, base, alu, s, n);
    SweptImageRunsAlike(code, base, alu, s, n);
  }

  // ---------- Jumps and switches ----------

  /** The number that a cell stands for. */
  function Number(c: cell): int {
    if c < 0x8000_0000 then c else c - 0x1_0000_0000
  }

  /** When a conditional jump is taken: by the primary register alone, or compared with the alternate one, as cells or
      as numbers. */
  ghost predicate JumpsWhen(op: int, pri: cell, alt: cell) {
    match op - OP_JZER
    case 0 => pri == 0
    case 1 => pri != 0
    case 2 => pri == alt
    case 3 => pri != alt
    case 4 => pri < alt
    case 5 => pri <= alt
    case 6 => alt < pri
    case 7 => alt <= pri
    case 8 => Number(pri) < Number(alt)
    case 9 => Number(pri) <= Number(alt)
    case 10 => Number(alt) < Number(pri)
    case _ => Number(alt) <= Number(pri)
  }

  lemma TakenWhen(op: cell, pri: cell, alt: cell)
    requires IsConditional(op)
    ensures Taken(op, pri, alt) <==> JumpsWhen(op, pri, alt)
  {
  }

  /** Jumps go where their operand says: an address in the code for direct ones, and bytes beyond the next instruction
      for relative ones. Conditional ones go on behind the instruction when they are not taken. */
  lemma JumpsGo(code: seq<cell>, base: cell, relocated: bool, alu: Alu, s: State, i: nat)
    requires StandsAt(code, base, s, i) && i + 1 < |code|
    requires code[i] == OP_JUMP || code[i] == OP_JREL || IsConditional(code[i])
    ensures Step(code, base, relocated, alu, s)
         == Running(if code[i] == OP_JREL then Add(base, 4 * (i + SweepLen(code, i)) + code[i + 1])
                    else if code[i] != OP_JUMP && !JumpsWhen(code[i], s.core.pri, s.core.alt) then
                      Address(base, i + SweepLen(code, i))
                    else if relocated then code[i + 1]
                    else Add(base, code[i + 1]), s.core)
  {
    hide Taken, JumpsWhen;
    if IsConditional(code[i]) {
      TakenWhen(code[i], s.core.pri, s.core.alt);
    }
  }

  /** Debug records in the instructions change nothing. */
  predicate IsRecord(op: int) {
    op == OP_LINE || op == OP_SRANGE || op == OP_SYMTAG || op == OP_SYMBOL
  }

  /** Any other instruction goes on behind itself, with what it does to registers and data. */
  lemma StraightGoesOn(code: seq<cell>, base: cell, relocated: bool, alu: Alu, s: State, i: nat)
    requires StandsAt(code, base, s, i) && SweepKnows(code[i]) && Fits(code, i) && 4 * |code| < WORD
    requires !Computed(code, i) && !SweepRelocates(code[i])
    requires code[i] != OP_JREL && code[i] != OP_FILE && code[i] != OP_CASETBL
    ensures var next, v := i + SweepLen(code, i), if i + 1 < |code| && SweepLen(code, i) == 2 then code[i + 1] else 0;
            Step(code, base, relocated, alu, s) ==
              if IsRecord(code[i]) then Running(Address(base, next), s.core)
              else if code[i] == OP_LCTRL && v == 6 then Running(Address(base, next), s.core.(pri := 4 * next))
              else match alu(code[i], v, s.core)
                   case Some(m) => Running(Address(base, next), m)
                   case None => Stopped(s.core)
  {
  }

  /** The value of record q of the case table at t. */
  function ValueOf(code: seq<cell>, t: nat, q: nat): cell
    requires t + 3 + 2 * q < |code|
  {
    code[t + 3 + 2 * q]
  }

  /** The first record that has the value, or num if there is none. */
  ghost predicate IsRecordOf(code: seq<cell>, t: nat, num: nat, value: cell, r: nat) {
    && r <= num && t + 3 + 2 * num <= |code|
    && (forall q: nat {:trigger ValueOf(code, t, q)} :: q < r ==> ValueOf(code, t, q) != value)
    && (r < num ==> ValueOf(code, t, r) == value)
  }

  lemma {:induction false} FindsRecord(code: seq<cell>, t: nat, from: nat, num: nat, value: cell) returns (r: nat)
    requires from <= num && t + 3 + 2 * num <= |code|
    requires forall q: nat {:trigger ValueOf(code, t, q)} :: q < from ==> ValueOf(code, t, q) != value
    ensures IsRecordOf(code, t, num, value, r)
    ensures FindCase(code, t + 3 + 2 * from, num - from, value) == if r < num then Some(t + 3 + 2 * r) else None
    decreases num - from
  {
    r := from;
    if from < num && ValueOf(code, t, from) != value {
      r := FindsRecord(code, t, from + 1, num, value);
    }
  }

  lemma CaseIs(code: seq<cell>, t: nat, value: cell) returns (r: nat)
    requires t + 3 + 2 * (if t + 1 < |code| then code[t + 1] as int else 0) <= |code| && 4 * |code| < WORD
    ensures IsRecordOf(code, t, code[t + 1], value, r)
    ensures CaseTarget(code, t, value) == if r < code[t + 1] then code[t + 4 + 2 * r] else code[t + 2]
  {
    hide FindCase;
    r := FindsRecord(code, t, 0, code[t + 1], value);
  }

  lemma SwitchIs(code: seq<cell>, base: cell, alu: Alu, s: State, i: nat, t: nat)
    requires StandsAt(code, base, s, i) && code[i] == OP_SWITCH
    requires i + 1 < |code| && code[i + 1] == 4 * t && t + 2 < |code|
    ensures Step(code, base, false, alu, s) == Running(Add(base, CaseTarget(code, t, s.core.pri)), s.core)
  {
    hide CaseTarget;
    OffsetIndex(code, base, code[i + 1]);
  }

  /** A switch goes to the address of the first record with the value of the primary register, or to the default
      address of its table. */
  lemma SwitchGoes(code: seq<cell>, base: cell, alu: Alu, s: State, i: nat, t: nat) returns (r: nat)
    requires Sweepable(code, 0) && StandsAt(code, base, s, i) && code[i] == OP_SWITCH && 4 * |code| < WORD
    requires i + 1 < |code| && code[i + 1] == 4 * t && IsTable(code, t)
    ensures t + 1 < |code| && t + 3 + 2 * (code[t + 1] as int) <= |code|
            && IsRecordOf(code, t, code[t + 1], s.core.pri, r)
    ensures Step(code, base, false, alu, s)
         == Running(Add(base, if r < code[t + 1] then code[t + 4 + 2 * r] else code[t + 2]), s.core)
  {
    hide CaseTarget, IsTable, Sweepable, SweepLen, IsRecordOf, Step, StandsAt;
    TableFits(code, t);
    SwitchIs(code, base, alu, s, i, t);
    r := CaseIs(code, t, s.core.pri);
  }

  // ---------- How long instructions are ----------

  /** How many operands an opcode has, in the order of the instruction set; records of variable length apart. */
  function Operands(op: nat): nat {
    match op
    case 9 | 23 | 25 | 27 => 0
    case 33 | 34 | 35 | 36 | 37 => 0
    case 42 | 43 | 46 | 47 | 48 | 50 => 0
    case 65 | 66 | 67 => 0
    case 72 | 73 | 74 | 75 | 76 | 77 | 78 | 79 | 80 | 81 | 82 | 83 | 84 | 85 | 86 => 0
    case 89 | 90 => 0
    case 93 | 94 | 95 | 96 | 97 | 98 | 99 | 100 | 101 | 102 | 103 | 104 => 0
    case 107 | 108 | 111 | 112 | 113 | 116 | 122 => 0
    case 128 | 131 | 132 | 134 => 0
    case 137 | 138 | 139 | 140 | 141 | 142 | 143 | 144 => 0
    case 125 | 127 => 2
    case _ => 1
  }

  /** The sweep passes an instruction with its operands;
    a record of a file or a symbol with its size and that many bytes,
      and a case table with its count, its default and that many records. */
  lemma LengthsAre(code: seq<cell>, i: nat)
    requires i + 1 < |code| && SweepKnows(code[i])
    ensures SweepLen(code, i)
         == if code[i] == OP_FILE || code[i] == OP_SYMBOL then 2 + code[i + 1] as int / 4
            else if code[i] == OP_CASETBL then 3 + 2 * (code[i + 1] as int)
            else 1 + Operands(code[i])
  {
  }
}
