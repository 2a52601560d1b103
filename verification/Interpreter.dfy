/**
 The interpreter's loop (amxmodx/amx.cpp, `amx_Exec`) with its registers as fields: each method carries
 out one instruction in place, and is proved to do the step that the results about relocation speak of.
 */
module Interpreter {
  import opened Basics
  import opened Relocate

  class Amx {
    const code: seq<cell>
    const base: cell
    const relocated: bool
    const alu: Alu
    var running: bool
    var cip: cell
    var pri: cell
    var alt: cell
    var stk: cell
    var frm: cell
    var hea: cell
    var data: map<cell, cell>

    constructor (code: seq<cell>, base: cell, relocated: bool, alu: Alu, start: nat)
      ensures running && this.code == code && this.base == base && this.relocated == relocated && this.alu == alu
      ensures cip == Address(base, start) && data == map[]
    {
      this.code, this.base, this.relocated, this.alu := code, base, relocated, alu;
      running, cip, pri, alt, stk, frm, hea, data := true, Address(base, start), 0, 0, 0, 0, 0, map[];
    }

    function View(): Core
      reads this
    {
      Core(pri, alt, stk, frm, hea, data)
    }

    function Now(): State
      reads this
    {
      if running then Running(cip, View()) else Stopped(View())
    }

    method PushCell(v: cell)
      modifies this`stk, this`data
      ensures View() == Push(old(View()), v)
    {
      stk := Sub(stk, 4);
      data := data[stk := v];
    }

    method PopCell() returns (v: cell)
      modifies this`stk
      ensures v == Load(old(View()), old(stk)) && View() == Popped(old(View()))
    {
      v := Load(View(), stk);
      stk := Add(stk, 4);
    }

    /** An opcode that only changes registers and data. */
    method StraightLine(op: cell, v: cell, next: nat)
      requires running
      modifies this
      ensures Now() == (var r := Straight(old(View()), next, alu(op, v, old(View())));
                        Go(code, base, relocated, r.dest, r.core))
    {
      match alu(op, v, View()) {
        case Some(m) =>
          pri, alt, stk, frm, hea, data := m.pri, m.alt, m.stk, m.frm, m.hea, m.data;
          cip := Address(base, next);
        case None => running := false;
      }
    }

    /** OP_RET and OP_RETN. */
    method ReturnFromCall(withParams: bool)
      requires running
      modifies this
      ensures Now() == (var r := Return(code, withParams, old(View())); Go(code, base, relocated, r.dest, r.core))
    {
      frm := PopCell();
      var offs := PopCell();
      if offs >= 4 * |code| {
        running := false;
        return;
      }
      cip := Add(base, offs);
      if withParams {
        stk := Add(stk, Load(View(), stk) + 4);
      }
    }

    /** OP_SWITCH. */
    method SwitchTo(v: cell)
      requires running
      modifies this`cip, this`running
      ensures Now() == Switch(code, base, relocated, v, old(View()))
    {
      var t := Index(code, base, JumpAbs(base, relocated, v));
      if t.None? || t.value + 2 >= |code| {
        running := false;
        return;
      }
      var target := Lookup(t.value);
      cip := JumpAbs(base, relocated, target);
    }

    /** The loop over the records of a case table: the default stands before them. */
    method Lookup(at: nat) returns (target: cell)
      requires at + 2 < |code|
      ensures target == CaseTarget(code, at, pri)
    {
      target := code[at + 2];
      var num: nat := if Signed(code[at + 1]) > 0 then code[at + 1] else 0;
      var i: nat := at + 3;
      ghost var found := FindCase(code, i, num, pri);
      while num > 0 && i + 1 < |code| && code[i] != pri
        invariant FindCase(code, i, num, pri) == found
        decreases num
      {
        i := i + 2;
        num := num - 1;
      }
      if num > 0 && i + 1 < |code| {
        target := code[i + 1];
      }
    }

    /** Calls and jumps; `v` is the operand at the cell behind the opcode at i. */
    method Transfer(op: cell, i: nat, v: cell)
      requires running && i < |code| && op == code[i] && v == (if i + 1 < |code| then code[i + 1] else 0)
      requires op == OP_JUMP || IsConditional(op) || op == OP_CALL || op == OP_CALL_PRI || op == OP_JUMP_PRI
               || op == OP_JREL
      modifies this`cip, this`stk, this`data
      ensures Now() == (var r := Execute(code, alu, i, old(View())); Go(code, base, relocated, r.dest, r.core))
    {
      if op == OP_JUMP {
        cip := JumpAbs(base, relocated, v);
      } else if op == OP_CALL {
        PushCell(Add(0, 4 * (i + 2)));
        cip := JumpAbs(base, relocated, v);
      } else if op == OP_CALL_PRI {
        PushCell(Add(0, 4 * (i + 1)));
        cip := Add(base, pri);
      } else if op == OP_JUMP_PRI {
        cip := Add(base, pri);
      } else if op == OP_JREL {
        cip := Add(base, 4 * (i + 2) + v);
      } else if Taken(op, pri, alt) {
        cip := JumpAbs(base, relocated, v);
      } else {
        cip := Address(base, i + 2);
      }
    }

    /** One round of the interpreter's loop. */
    method Next()
      modifies this
      ensures Now() == Step(code, base, relocated, alu, old(Now()))
    {
      hide Execute, Go;
      if !running {
        return;
      }
      var at := Index(code, base, cip);
      if at.None? {
        running := false;
        return;
      }
      Dispatch(at.value);
    }

    /** The switch over the opcodes. */
    method Dispatch(i: nat)
      requires running && i < |code|
      modifies this
      ensures Now() == (var r := Execute(code, alu, i, old(View())); Go(code, base, relocated, r.dest, r.core))
    {
      hide Straight, Return, Switch, Taken, ExecNoParam;
      var op, v := code[i], if i + 1 < |code| then code[i + 1] else 0;
      if !(0 < op < OP_NUM_OPCODES) || op == OP_FILE || op == OP_CASETBL {
        running := false;
      } else if op == OP_JUMP || IsConditional(op) || op == OP_CALL || op == OP_CALL_PRI || op == OP_JUMP_PRI
        || op == OP_JREL {
        Transfer(op, i, v);
      } else if op == OP_RET || op == OP_RETN {
        ReturnFromCall(op == OP_RETN);
      } else if op == OP_SWITCH {
        SwitchTo(v);
      } else if op == OP_LCTRL && v == 6 {
        pri := Add(0, 4 * (i + 2));
        cip := Address(base, i + 2);
      } else if op == OP_SCTRL && v == 6 {
        cip := Add(base, pri);
      } else if op == OP_LINE || op == OP_SRANGE {
        cip := Address(base, i + 3);
      } else if op == OP_SYMTAG {
        cip := Address(base, i + 2);
      } else if op == OP_SYMBOL {
        cip := Add(base, 4 * (i + 2) + v);
      } else if ExecNoParam(op) {
        StraightLine(op, 0, i + 1);
      } else {
        StraightLine(op, v, i + 2);
      }
    }
  }

  /** Two machines that start alike, one on a swept image with absolute jumps and one on the unswept image,
      are alike after any number of rounds. */
  method RunBoth(swept: Amx, plain: Amx, n: nat)
    requires swept != plain && swept.relocated && !plain.relocated && swept.base == plain.base && swept.alu == plain.alu
    requires Sweepable(plain.code, 0) && swept.code == Relocated(plain.code, plain.base) && swept.Now() == plain.Now()
    requires AllKnown(plain.code, 0) && 4 * |plain.code| < WORD
    requires SwitchesOk(plain.code) && JumpsOk(plain.code)
    requires plain.running ==> AtInstruction(plain.code, plain.base, plain.cip)
    requires ReturnsToInstructions(plain.code, plain.base, plain.alu, plain.Now(), n)
    modifies swept, plain
    ensures swept.Now() == plain.Now() == Run(plain.code, plain.base, false, plain.alu, old(plain.Now()), n)
  {
    ghost var s := plain.Now();
    for k := 0 to n
      invariant plain.Now() == Run(plain.code, plain.base, false, plain.alu, s, k) == swept.Now()
    {
      RunStaysAtInstructions(plain.code, plain.base, plain.alu, s, n, k);
      StepSame(plain.code, plain.base, plain.alu, plain.Now());
      plain.Next();
      swept.Next();
    }
  }
}
