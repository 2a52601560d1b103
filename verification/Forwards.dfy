/**
 Single-plugin forward handles (amxmodx/CForward.cpp).

 Handles are shared by equal registrations, reference counted, recycled through a stack of free
 ids, and released late if they are executing. The first part states what every operation of
 CForwardMngr does to its state, the second runs these operations against the callers: holders
 of handles, and executions that may nest. The classes at the end carry the operations out in
 place.

 Parameter marshalling is not modelled: a callback is whatever steps come between the Enter and
 the Leave of an execution.
 */
module Forwards {
  import opened Basics

  /** A plugin, and its public functions in the order of its table. */
  type Amx = int
  type Publics = Amx -> seq<string>

  const NO_FUNC := 0x7fff_ffff

  /** Position of a public function; the names of a table are distinct. */
  function FindPublic(names: seq<string>, name: string): (r: Option<nat>)
    ensures r.Some? ==> r.value < |names| && names[r.value] == name
    ensures r.None? ==> name !in names
  {
    if names == [] then None
    else if names[0] == name then Some(0)
    else match FindPublic(names[1..], name)
      case Some(i) => Some(i + 1)
      case None => None
  }

  function PublicName(names: seq<string>, func: int): string {
    if 0 <= func < |names| then names[func] else ""
  }

  /** One forward: CSPForward. `sig` lists its parameter types. */
  datatype Slot = Slot(amx: Amx, func: int, hasFunc: bool, name: string, sig: seq<int>,
                       inExec: int, toDelete: bool, refCount: int, isFree: bool)

  /** CForwardMngr: the vector of forwards and the stack of free ids, its top last. */
  datatype Mngr = Mngr(slots: seq<Slot>, free: seq<int>)

  function IdOf(i: nat): int {
    2 * i + 1
  }

  predicate ValidId(m: Mngr, id: int) {
    id >= 0 && id % 2 == 1 && id / 2 < |m.slots|
  }

  function SlotOf(m: Mngr, id: int): Slot
    requires ValidId(m, id)
  {
    m.slots[id / 2]
  }

  function SetSlot(m: Mngr, id: int, slot: Slot): Mngr
    requires ValidId(m, id)
  {
    m.(slots := m.slots[id / 2 := slot])
  }

  // ---------- The operations ----------

  function NewByFunc(names: seq<string>, func: int, amx: Amx, sig: seq<int>): Slot {
    Slot(amx, func, true, PublicName(names, func), sig, 0, false, 1, false)
  }

  function NewByName(names: seq<string>, name: string, amx: Amx, sig: seq<int>): Slot {
    match FindPublic(names, name)
    case Some(f) => Slot(amx, f, true, name, sig, 0, false, 1, false)
    case None => Slot(amx, NO_FUNC, false, name, sig, 0, false, 1, false)
  }

  /** A registration: by function index, or by name. */
  datatype Key = ByFunc(func: int) | ByName(name: string)

  predicate Matches(slot: Slot, key: Key, amx: Amx, sig: seq<int>) {
    !slot.isFree && slot.amx == amx && slot.sig == sig
    && match key
       case ByFunc(func) => slot.func == func
       case ByName(name) => slot.name == name
  }

  function NewSlot(pub: Publics, key: Key, amx: Amx, sig: seq<int>): Slot {
    match key
    case ByFunc(func) => NewByFunc(pub(amx), func, amx, sig)
    case ByName(name) => NewByName(pub(amx), name, amx, sig)
  }

  /** First live forward that the registration can share. */
  function FindLive(slots: seq<Slot>, i: nat, key: Key, amx: Amx, sig: seq<int>): (r: Option<nat>)
    requires i <= |slots|
    ensures r.Some? ==> i <= r.value < |slots| && Matches(slots[r.value], key, amx, sig)
    ensures r.None? ==> forall j :: i <= j < |slots| ==> !Matches(slots[j], key, amx, sig)
    decreases |slots| - i
  {
    if i == |slots| then None
    else if Matches(slots[i], key, amx, sig) then Some(i)
    else FindLive(slots, i + 1, key, amx, sig)
  }

  function Share(slot: Slot): Slot {
    slot.(toDelete := false, refCount := slot.refCount + 1)
  }

  /** A forward that cannot be shared takes the id on top of the free stack, or a new one; if its
      function does not exist, it is given back at once. */
  function AddSlot(m: Mngr, slot: Slot): (Mngr, int)
    requires forall id :: id in m.free ==> ValidId(m, id)
  {
    if m.free != [] then
      var id := m.free[|m.free| - 1];
      if slot.hasFunc then (SetSlot(m, id, slot).(free := m.free[..|m.free| - 1]), id)
      else (SetSlot(m, id, slot.(isFree := true, refCount := 0)), -1)
    else if slot.hasFunc then (m.(slots := m.slots + [slot]), IdOf(|m.slots|))
    else (m, -1)
  }

  /** Both overloads of registerSPForward. */
  function Register(m: Mngr, pub: Publics, key: Key, amx: Amx, sig: seq<int>): (Mngr, int)
    requires forall id :: id in m.free ==> ValidId(m, id)
  {
    match FindLive(m.slots, 0, key, amx, sig)
    case Some(i) => (m.(slots := m.slots[i := Share(m.slots[i])]), IdOf(i))
    case None => AddSlot(m, NewSlot(pub, key, amx, sig))
  }

  function Freed(m: Mngr, id: int): Mngr
    requires ValidId(m, id)
  {
    SetSlot(m, id, SlotOf(m, id).(isFree := true)).(free := m.free + [id])
  }

  /** unregisterSPForward, on an id of the single-plugin kind. */
  function Unregister(m: Mngr, id: int): Mngr {
    if !ValidId(m, id) || SlotOf(m, id).isFree then m
    else
      var slot := SlotOf(m, id);
      if slot.refCount > 1 then SetSlot(m, id, slot.(refCount := slot.refCount - 1))
      else
        var m1 := SetSlot(m, id, slot.(refCount := 0));
        if slot.inExec != 0 then SetSlot(m1, id, SlotOf(m1, id).(toDelete := true)) else Freed(m1, id)
  }

  /** The guards of CSPForward::execute; `executable` says that the plugin runs. */
  predicate Runs(slot: Slot, executable: bool) {
    !slot.isFree && slot.hasFunc && !slot.toDelete && executable
  }

  function EnterExec(m: Mngr, id: int): Mngr
    requires ValidId(m, id)
  {
    SetSlot(m, id, SlotOf(m, id).(inExec := SlotOf(m, id).inExec + 1))
  }

  /** The end of executeForwards: the release that had been put off. */
  function FinishRelease(m: Mngr, id: int): Mngr
    requires ValidId(m, id)
  {
    var slot := SlotOf(m, id);
    if slot.toDelete && slot.inExec == 0 then Freed(SetSlot(m, id, slot.(toDelete := false)), id) else m
  }

  function LeaveExec(m: Mngr, id: int): Mngr
    requires ValidId(m, id)
  {
    FinishRelease(SetSlot(m, id, SlotOf(m, id).(inExec := SlotOf(m, id).inExec - 1)), id)
  }

  // ---------- Runs: holders and nested executions ----------

  /** `stack` lists the ids of the executions that have not ended, `held` counts for each id the
      registrations that have not been released. */
  datatype Sys = Sys(m: Mngr, stack: seq<int>, held: multiset<int>)

  datatype Step =
    | DoRegister(key: Key, amx: Amx, sig: seq<int>)
    | DoDuplicate(id: int)
    | DoRelease(id: int)
    | DoEnter(id: int, executable: bool)
    | DoLeave

  /** Holders release what they hold; executions end in the order of a stack. */
  predicate Enabled(s: Sys, step: Step) {
    match step
    case DoRelease(id) => s.held[id] > 0
    case DoLeave => s.stack != []
    case _ => true
  }

  function RegisterStep(s: Sys, pub: Publics, key: Key, amx: Amx, sig: seq<int>): Sys
    requires forall id :: id in s.m.free ==> ValidId(s.m, id)
  {
    Registered(s, Register(s.m, pub, key, amx, sig))
  }

  function Registered(s: Sys, r: (Mngr, int)): Sys {
    if r.1 == -1 then s.(m := r.0) else s.(m := r.0, held := s.held + multiset{r.1})
  }

  function Next(s: Sys, pub: Publics, step: Step): Sys
    requires Inv(s, pub) && Enabled(s, step)
  {
    match step
    case DoRegister(key, amx, sig) => RegisterStep(s, pub, key, amx, sig)
    case DoDuplicate(id) =>
      if !ValidId(s.m, id) || SlotOf(s.m, id).isFree then s
      else RegisterStep(s, pub, ByFunc(SlotOf(s.m, id).func), SlotOf(s.m, id).amx, SlotOf(s.m, id).sig)
    case DoRelease(id) => s.(m := Unregister(s.m, id), held := s.held - multiset{id})
    case DoEnter(id, executable) =>
      if !ValidId(s.m, id) then s
      else if Runs(SlotOf(s.m, id), executable) then s.(m := EnterExec(s.m, id), stack := s.stack + [id])
      else s.(m := FinishRelease(s.m, id))
    case DoLeave =>
      var id := s.stack[|s.stack| - 1];
      s.(m := LeaveExec(s.m, id), stack := s.stack[..|s.stack| - 1])
  }

  /** What holds of every forward: the counters count, a free id is on the free stack exactly once
      and a live one not at all, and a release is put off only while the forward executes. */
  predicate SlotOk(slot: Slot, id: int, free: multiset<int>, stack: multiset<int>, held: multiset<int>) {
    && slot.refCount == held[id]
    && slot.inExec == stack[id]
    && free[id] == (if slot.isFree then 1 else 0)
    && (slot.isFree ==> slot.refCount == 0 && slot.inExec == 0 && !slot.toDelete)
    && (slot.toDelete ==> slot.refCount == 0 && slot.inExec > 0)
    && (!slot.isFree ==> slot.hasFunc && (slot.refCount > 0 || slot.toDelete))
  }

  /** A live forward's function is the one its plugin publishes under its name. */
  predicate NameOk(slot: Slot, pub: Publics) {
    !slot.isFree ==> slot.name == PublicName(pub(slot.amx), slot.func)
  }

  ghost predicate Inv(s: Sys, pub: Publics) {
    && (forall id :: id in s.m.free ==> ValidId(s.m, id))
    && (forall id :: id in s.stack ==> ValidId(s.m, id))
    && (forall id :: id in s.held ==> ValidId(s.m, id))
    && (forall i {:trigger s.m.slots[i]} :: 0 <= i < |s.m.slots| ==>
          SlotOk(s.m.slots[i], IdOf(i), multiset(s.m.free), multiset(s.stack), s.held) && NameOk(s.m.slots[i], pub))
  }

  /** A step that touches the forward `id` only. */
  lemma UpdateKeepsInv(s: Sys, t: Sys, pub: Publics, id: int, slot: Slot)
    requires Inv(s, pub) && ValidId(s.m, id) && t.m.slots == s.m.slots[id / 2 := slot]
    requires forall x :: x in t.m.free || x in t.stack || x in t.held ==> ValidId(s.m, x)
    requires multiset(t.m.free)[id := 0] == multiset(s.m.free)[id := 0]
    requires multiset(t.stack)[id := 0] == multiset(s.stack)[id := 0] && t.held[id := 0] == s.held[id := 0]
    requires SlotOk(slot, id, multiset(t.m.free), multiset(t.stack), t.held) && NameOk(slot, pub)
    ensures Inv(t, pub)
  {
    forall i {:trigger t.m.slots[i]} | 0 <= i < |t.m.slots|
      ensures SlotOk(t.m.slots[i], IdOf(i), multiset(t.m.free), multiset(t.stack), t.held) && NameOk(t.m.slots[i], pub)
    {
      if i != id / 2 {
        assert t.m.slots[i] == s.m.slots[i];
        assert multiset(t.m.free)[id := 0][IdOf(i)] == multiset(t.m.free)[IdOf(i)];
        assert multiset(s.m.free)[id := 0][IdOf(i)] == multiset(s.m.free)[IdOf(i)];
        assert multiset(t.stack)[id := 0][IdOf(i)] == multiset(t.stack)[IdOf(i)];
        assert multiset(s.stack)[id := 0][IdOf(i)] == multiset(s.stack)[IdOf(i)];
        assert t.held[id := 0][IdOf(i)] == t.held[IdOf(i)];
        assert s.held[id := 0][IdOf(i)] == s.held[IdOf(i)];
      }
    }
  }

  lemma PopSplit(l: seq<int>)
    requires l != []
    ensures multiset(l) == multiset(l[..|l| - 1]) + multiset{l[|l| - 1]}
  {
    assert l == l[..|l| - 1] + [l[|l| - 1]];
  }

  lemma SlotAt(s: Sys, pub: Publics, id: int)
    requires Inv(s, pub) && ValidId(s.m, id)
    ensures SlotOk(SlotOf(s.m, id), id, multiset(s.m.free), multiset(s.stack), s.held) && NameOk(SlotOf(s.m, id), pub)
  {
  }

  lemma ShareKeepsInv(s: Sys, pub: Publics, i: nat)
    requires Inv(s, pub) && i < |s.m.slots| && !s.m.slots[i].isFree
    ensures Inv(Sys(s.m.(slots := s.m.slots[i := Share(s.m.slots[i])]), s.stack, s.held + multiset{IdOf(i)}), pub)
  {
  }

  /** The top of the free stack is reused. */
  lemma RecycleKeepsInv(s: Sys, pub: Publics, slot: Slot)
    requires Inv(s, pub) && s.m.free != [] && slot.hasFunc && slot.refCount == 1 && slot.inExec == 0
    requires !slot.isFree && !slot.toDelete && NameOk(slot, pub)
    ensures var id := s.m.free[|s.m.free| - 1];
            Inv(Sys(SetSlot(s.m, id, slot).(free := s.m.free[..|s.m.free| - 1]), s.stack, s.held + multiset{id}), pub)
  {
    var id := s.m.free[|s.m.free| - 1];
    var t := Sys(SetSlot(s.m, id, slot).(free := s.m.free[..|s.m.free| - 1]), s.stack, s.held + multiset{id});
    PopSplit(s.m.free);
    SlotAt(s, pub, id);
    UpdateKeepsInv(s, t, pub, id, slot);
  }

  lemma FailedKeepsInv(s: Sys, pub: Publics, slot: Slot)
    requires Inv(s, pub) && s.m.free != [] && slot.refCount == 0 && slot.inExec == 0 && slot.isFree && !slot.toDelete
    ensures var id := s.m.free[|s.m.free| - 1];
            Inv(Sys(SetSlot(s.m, id, slot), s.stack, s.held), pub)
  {
    var id := s.m.free[|s.m.free| - 1];
    PopSplit(s.m.free);
    SlotAt(s, pub, id);
    UpdateKeepsInv(s, Sys(SetSlot(s.m, id, slot), s.stack, s.held), pub, id, slot);
  }

  lemma AddKeepsInv(s: Sys, pub: Publics, slot: Slot)
    requires Inv(s, pub) && slot.refCount == 1 && slot.inExec == 0 && !slot.isFree && !slot.toDelete
    requires slot.hasFunc ==> NameOk(slot, pub)
    ensures Inv(Registered(s, AddSlot(s.m, slot)), pub)
  {
    if s.m.free != [] {
      if slot.hasFunc {
        RecycleKeepsInv(s, pub, slot);
      } else {
        FailedKeepsInv(s, pub, slot.(isFree := true, refCount := 0));
      }
    } else if slot.hasFunc {
      AppendKeepsInv(s, Registered(s, AddSlot(s.m, slot)), pub, slot);
    }
  }

  lemma RegisterKeepsInv(s: Sys, pub: Publics, key: Key, amx: Amx, sig: seq<int>)
    requires Inv(s, pub)
    ensures Inv(RegisterStep(s, pub, key, amx, sig), pub)
  {
    match FindLive(s.m.slots, 0, key, amx, sig)
    case Some(i) => ShareKeepsInv(s, pub, i);
    case None => AddKeepsInv(s, pub, NewSlot(pub, key, amx, sig));
  }

  lemma AppendKeepsInv(s: Sys, t: Sys, pub: Publics, slot: Slot)
    requires Inv(s, pub) && s.m.free == [] && slot.hasFunc && slot.refCount == 1 && slot.inExec == 0
    requires !slot.isFree && !slot.toDelete && NameOk(slot, pub)
    requires t == Sys(Mngr(s.m.slots + [slot], []), s.stack, s.held + multiset{IdOf(|s.m.slots|)})
    ensures Inv(t, pub)
  {
    var id := IdOf(|s.m.slots|);
    assert id !in s.stack && id !in s.held;
    forall i {:trigger t.m.slots[i]} | 0 <= i < |t.m.slots|
      ensures SlotOk(t.m.slots[i], IdOf(i), multiset(t.m.free), multiset(t.stack), t.held) && NameOk(t.m.slots[i], pub)
    {
      if i < |s.m.slots| {
        assert t.m.slots[i] == s.m.slots[i];
      }
    }
  }

  lemma ReleaseKeepsInv(s: Sys, pub: Publics, id: int)
    requires Inv(s, pub) && s.held[id] > 0
    ensures Inv(Next(s, pub, DoRelease(id)), pub)
  {
    var t := Next(s, pub, DoRelease(id));
    SlotAt(s, pub, id);
    UpdateKeepsInv(s, t, pub, id, SlotOf(t.m, id));
  }

  lemma EnterKeepsInv(s: Sys, pub: Publics, id: int, executable: bool)
    requires Inv(s, pub)
    ensures Inv(Next(s, pub, DoEnter(id, executable)), pub)
  {
    var t := Next(s, pub, DoEnter(id, executable));
    if ValidId(s.m, id) {
      SlotAt(s, pub, id);
      if Runs(SlotOf(s.m, id), executable) {
        UpdateKeepsInv(s, t, pub, id, SlotOf(t.m, id));
      }
    }
  }

  lemma LeaveKeepsInv(s: Sys, pub: Publics)
    requires Inv(s, pub) && s.stack != []
    ensures Inv(Next(s, pub, DoLeave), pub)
  {
    var t := Next(s, pub, DoLeave);
    var id := s.stack[|s.stack| - 1];
    PopSplit(s.stack);
    SlotAt(s, pub, id);
    UpdateKeepsInv(s, t, pub, id, SlotOf(t.m, id));
  }

  /** Every step keeps the invariant. */
  lemma StepKeepsInv(s: Sys, pub: Publics, step: Step)
    requires Inv(s, pub) && Enabled(s, step)
    ensures Inv(Next(s, pub, step), pub)
  {
    match step
    case DoRegister(key, amx, sig) => RegisterKeepsInv(s, pub, key, amx, sig);
    case DoDuplicate(id) =>
      if ValidId(s.m, id) && !SlotOf(s.m, id).isFree {
        RegisterKeepsInv(s, pub, ByFunc(SlotOf(s.m, id).func), SlotOf(s.m, id).amx, SlotOf(s.m, id).sig);
      }
    case DoRelease(id) => ReleaseKeepsInv(s, pub, id);
    case DoEnter(id, executable) => EnterKeepsInv(s, pub, id, executable);
    case DoLeave => LeaveKeepsInv(s, pub);
  }

  // ---------- Results about whole runs ----------

  /** `states` is a run: from one state to the next by a step that the callers may take. */
  ghost predicate IsRun(states: seq<Sys>, steps: seq<Step>, pub: Publics) {
    && |states| == |steps| + 1
    && forall k {:trigger steps[k]} :: 0 <= k < |steps| && Inv(states[k], pub) ==>
         Enabled(states[k], steps[k]) && states[k + 1] == Next(states[k], pub, steps[k])
  }

  const Empty := Sys(Mngr([], []), [], multiset{})

  lemma {:induction false} RunKeepsInv(states: seq<Sys>, steps: seq<Step>, pub: Publics, k: nat)
    requires IsRun(states, steps, pub) && Inv(states[0], pub) && k < |states|
    ensures Inv(states[k], pub)
  {
    if k > 0 {
      RunKeepsInv(states, steps, pub, k - 1);
      StepKeepsInv(states[k - 1], pub, steps[k - 1]);
    }
  }

  /** Somebody holds the id, or it executes. */
  predicate Pinned(s: Sys, id: int) {
    s.held[id] > 0 || id in s.stack
  }

  predicate SameTarget(a: Slot, b: Slot) {
    a.amx == b.amx && a.func == b.func && a.name == b.name && a.sig == b.sig
  }

  lemma PinnedIsLive(s: Sys, pub: Publics, id: int)
    requires Inv(s, pub) && Pinned(s, id)
    ensures ValidId(s.m, id) && !SlotOf(s.m, id).isFree && id !in s.m.free
  {
  }

  lemma AddLeavesOthers(m: Mngr, slot: Slot, id: int)
    requires (forall x :: x in m.free ==> ValidId(m, x)) && ValidId(m, id) && id !in m.free
    ensures ValidId(AddSlot(m, slot).0, id) && SlotOf(AddSlot(m, slot).0, id) == SlotOf(m, id)
  {
    if m.free != [] {
      var top := m.free[|m.free| - 1];
      assert top in m.free;
      assert id / 2 != top / 2;
    }
  }

  lemma RegisterKeepsTarget(s: Sys, pub: Publics, key: Key, amx: Amx, sig: seq<int>, id: int)
    requires Inv(s, pub) && ValidId(s.m, id) && id !in s.m.free
    ensures var t := RegisterStep(s, pub, key, amx, sig);
            ValidId(t.m, id) && SameTarget(SlotOf(t.m, id), SlotOf(s.m, id))
  {
    if FindLive(s.m.slots, 0, key, amx, sig).None? {
      AddLeavesOthers(s.m, NewSlot(pub, key, amx, sig), id);
    }
  }

  /** The operation changed counters and flags of one forward only, and did not revive it. */
  predicate OnlyMarks(m: Mngr, m': Mngr, id: int) {
    && ValidId(m, id) && ValidId(m', id) && m'.slots == m.slots[id / 2 := SlotOf(m', id)]
    && SameTarget(SlotOf(m', id), SlotOf(m, id)) && (SlotOf(m, id).isFree ==> SlotOf(m', id).isFree)
  }

  lemma ReleaseOnlyMarks(m: Mngr, id: int)
    requires ValidId(m, id)
    ensures OnlyMarks(m, Unregister(m, id), id)
  {
  }

  lemma ExecOnlyMarks(m: Mngr, id: int)
    requires ValidId(m, id)
    ensures OnlyMarks(m, EnterExec(m, id), id) && OnlyMarks(m, FinishRelease(m, id), id)
            && OnlyMarks(m, LeaveExec(m, id), id)
  {
  }

  /** Releases and executions change counters and flags, and free one forward at most. */
  lemma OthersKeepTargets(s: Sys, pub: Publics, step: Step)
    requires Inv(s, pub) && Enabled(s, step) && (step.DoRelease? || step.DoEnter? || step.DoLeave?)
    ensures Next(s, pub, step).m == s.m || exists id :: OnlyMarks(s.m, Next(s, pub, step).m, id)
  {
    match step
    case DoRelease(id) =>
      assert id in s.held;
      ReleaseOnlyMarks(s.m, id);
    case DoEnter(id, _) =>
      if ValidId(s.m, id) {
        ExecOnlyMarks(s.m, id);
      }
    case DoLeave =>
      var id := s.stack[|s.stack| - 1];
      assert id in s.stack;
      ExecOnlyMarks(s.m, id);
  }

  lemma StepKeepsTarget(s: Sys, pub: Publics, step: Step, id: int)
    requires Inv(s, pub) && Enabled(s, step) && Pinned(s, id)
    ensures ValidId(s.m, id)
    ensures var t := Next(s, pub, step); ValidId(t.m, id) && SameTarget(SlotOf(t.m, id), SlotOf(s.m, id))
  {
    hide Inv;
    PinnedIsLive(s, pub, id);
    match step
    case DoRegister(key, amx, sig) => RegisterKeepsTarget(s, pub, key, amx, sig, id);
    case DoDuplicate(d) =>
      if ValidId(s.m, d) && !SlotOf(s.m, d).isFree {
        RegisterKeepsTarget(s, pub, ByFunc(SlotOf(s.m, d).func), SlotOf(s.m, d).amx, SlotOf(s.m, d).sig, id);
      }
    case _ => OthersKeepTargets(s, pub, step);
  }

  /** No recycling under a holder: through every interleaving of registrations, releases by others
      and nested executions, a handle that is held or executes keeps its function. */
  lemma {:induction false} RunKeepsTarget(states: seq<Sys>, steps: seq<Step>, pub: Publics, id: int, k: nat)
    requires IsRun(states, steps, pub) && Inv(states[0], pub) && k < |states|
    requires forall j {:trigger states[j]} :: 0 <= j <= k ==> Pinned(states[j], id)
    ensures ValidId(states[0].m, id) && ValidId(states[k].m, id)
    ensures SameTarget(SlotOf(states[k].m, id), SlotOf(states[0].m, id)) && !SlotOf(states[k].m, id).isFree
  {
    RunKeepsInv(states, steps, pub, k);
    PinnedIsLive(states[k], pub, id);
    if k > 0 {
      RunKeepsTarget(states, steps, pub, id, k - 1);
      RunKeepsInv(states, steps, pub, k - 1);
      var step := steps[k - 1];
      StepKeepsTarget(states[k - 1], pub, step, id);
    }
  }

  /** When nobody holds a handle and nothing executes, every forward waits on the free stack, once. */
  lemma NothingHeldNothingLost(s: Sys, pub: Publics, i: nat)
    requires Inv(s, pub) && s.held == multiset{} && s.stack == [] && i < |s.m.slots|
    ensures s.m.slots[i].isFree && multiset(s.m.free)[IdOf(i)] == 1
  {
  }

  /** No two live forwards have the same plugin, function and signature. */
  ghost predicate Distinct(slots: seq<Slot>) {
    forall i, j :: 0 <= i < j < |slots| && !slots[i].isFree && !slots[j].isFree ==> !SameKey(slots[i], slots[j])
  }

  predicate SameKey(a: Slot, b: Slot) {
    a.amx == b.amx && a.func == b.func && a.sig == b.sig
  }

  lemma NewIsDistinct(s: Sys, pub: Publics, key: Key, amx: Amx, sig: seq<int>, j: nat)
    requires Inv(s, pub) && j < |s.m.slots| && !s.m.slots[j].isFree
    requires !Matches(s.m.slots[j], key, amx, sig)
    ensures var slot := NewSlot(pub, key, amx, sig); slot.hasFunc ==> !SameKey(s.m.slots[j], slot)
  {
  }

  lemma AddKeepsDistinct(m: Mngr, slot: Slot)
    requires (forall id :: id in m.free ==> ValidId(m, id)) && Distinct(m.slots)
    requires slot.hasFunc ==> forall j :: 0 <= j < |m.slots| && !m.slots[j].isFree ==> !SameKey(m.slots[j], slot)
    ensures Distinct(AddSlot(m, slot).0.slots)
  {
    if m.free != [] {
      assert m.free[|m.free| - 1] in m.free;
      SetKeepsDistinct(m.slots, m.free[|m.free| - 1] / 2, if slot.hasFunc then slot
                       else slot.(isFree := true, refCount := 0));
    }
  }

  lemma SetKeepsDistinct(slots: seq<Slot>, k: nat, slot: Slot)
    requires Distinct(slots) && k < |slots|
    requires !slot.isFree ==> forall j :: 0 <= j < |slots| && !slots[j].isFree ==> !SameKey(slots[j], slot)
    ensures Distinct(slots[k := slot])
  {
  }

  lemma RegisterKeepsDistinct(s: Sys, pub: Publics, key: Key, amx: Amx, sig: seq<int>)
    requires Inv(s, pub) && Distinct(s.m.slots)
    ensures Distinct(RegisterStep(s, pub, key, amx, sig).m.slots)
  {
    match FindLive(s.m.slots, 0, key, amx, sig)
    case Some(i) => ShareKeepsDistinct(s.m.slots, i);
    case None =>
      var slot := NewSlot(pub, key, amx, sig);
      forall j | 0 <= j < |s.m.slots| && !s.m.slots[j].isFree && slot.hasFunc ensures !SameKey(s.m.slots[j], slot) {
        NewIsDistinct(s, pub, key, amx, sig, j);
      }
      AddKeepsDistinct(s.m, slot);
  }

  lemma ShareKeepsDistinct(slots: seq<Slot>, i: nat)
    requires Distinct(slots) && i < |slots| && !slots[i].isFree
    ensures Distinct(slots[i := Share(slots[i])])
  {
  }

  lemma MarksKeepDistinct(m: Mngr, m': Mngr, id: int)
    requires Distinct(m.slots) && OnlyMarks(m, m', id)
    ensures Distinct(m'.slots)
  {
  }

  lemma StepKeepsDistinct(s: Sys, pub: Publics, step: Step)
    requires Inv(s, pub) && Enabled(s, step) && Distinct(s.m.slots)
    ensures Distinct(Next(s, pub, step).m.slots)
  {
    match step
    case DoRegister(key, amx, sig) => RegisterKeepsDistinct(s, pub, key, amx, sig);
    case DoDuplicate(id) =>
      if ValidId(s.m, id) && !SlotOf(s.m, id).isFree {
        RegisterKeepsDistinct(s, pub, ByFunc(SlotOf(s.m, id).func), SlotOf(s.m, id).amx, SlotOf(s.m, id).sig);
      }
    case _ =>
      OthersKeepTargets(s, pub, step);
      if Next(s, pub, step).m != s.m {
        var id :| OnlyMarks(s.m, Next(s, pub, step).m, id);
        MarksKeepDistinct(s.m, Next(s, pub, step).m, id);
      }
  }

  lemma {:induction false} RunKeepsDistinct(states: seq<Sys>, steps: seq<Step>, pub: Publics, k: nat)
    requires IsRun(states, steps, pub) && Inv(states[0], pub) && Distinct(states[0].m.slots) && k < |states|
    ensures Distinct(states[k].m.slots)
  {
    if k > 0 {
      RunKeepsDistinct(states, steps, pub, k - 1);
      RunKeepsInv(states, steps, pub, k - 1);
      StepKeepsDistinct(states[k - 1], pub, steps[k - 1]);
    }
  }

  /** A forward is entered if and only if its plugin runs and it is live and not released; only then does its depth
      rise, and it is the one that executes next to leave. */
  lemma EntersExactly(s: Sys, pub: Publics, id: int, executable: bool)
    requires Inv(s, pub)
    ensures var s' := Next(s, pub, DoEnter(id, executable));
            if ValidId(s.m, id) && !SlotOf(s.m, id).isFree && !SlotOf(s.m, id).toDelete && executable then
              && s'.stack == s.stack + [id] && s'.held == s.held && s'.m.free == s.m.free
              && s'.m.slots == s.m.slots[id / 2 := SlotOf(s.m, id).(inExec := SlotOf(s.m, id).inExec + 1)]
            else s' == s
  {
    if ValidId(s.m, id) {
      assert SlotOk(s.m.slots[id / 2], IdOf(id / 2), multiset(s.m.free), multiset(s.stack), s.held);
    }
  }

  /** A registration yields a live handle to the function that was asked for, and fails exactly
      if the name is not public. */
  lemma RegisterGivesFunction(s: Sys, pub: Publics, key: Key, amx: Amx, sig: seq<int>)
    requires Inv(s, pub) && (key.ByName? ==> key.name != "")
    ensures var (m, id) := Register(s.m, pub, key, amx, sig);
            && (id == -1 <==> key.ByName? && key.name !in pub(amx))
            && (id != -1 ==> ValidId(m, id) && !SlotOf(m, id).isFree && !SlotOf(m, id).toDelete
                             && SlotOf(m, id).amx == amx && SlotOf(m, id).sig == sig
                             && (match key
                                 case ByFunc(func) => SlotOf(m, id).func == func
                                 case ByName(name) =>
                                   0 <= SlotOf(m, id).func < |pub(amx)| && pub(amx)[SlotOf(m, id).func] == name))
  {
    match FindLive(s.m.slots, 0, key, amx, sig)
    case Some(i) =>
      assert NameOk(s.m.slots[i], pub);
      assert IdOf(i) / 2 == i;
    case None =>
      if s.m.free == [] {
        assert IdOf(|s.m.slots|) / 2 == |s.m.slots|;
      } else {
        assert s.m.free[|s.m.free| - 1] in s.m.free;
      }
  }

  /** A forward whose last holder let go while it executed, anywhere on the stack, is rescued by an equal
      registration: the caller gets the same id, and as long as somebody holds it, whatever ends or
      is released in any order, it stays live and leads to the same function. */
  lemma RescueWhileExecuting(s: Sys, pub: Publics, id: int, states: seq<Sys>, steps: seq<Step>, k: nat)
    requires Inv(s, pub) && Distinct(s.m.slots) && ValidId(s.m, id) && SlotOf(s.m, id).toDelete
    requires var slot := SlotOf(s.m, id);
             states != [] && states[0] == RegisterStep(s, pub, ByFunc(slot.func), slot.amx, slot.sig)
    requires IsRun(states, steps, pub) && k < |states|
    requires forall j {:trigger states[j]} :: 1 <= j <= k ==> states[j].held[id] > 0
    ensures var slot := SlotOf(s.m, id); Register(s.m, pub, ByFunc(slot.func), slot.amx, slot.sig).1 == id
    ensures states[0].held[id] == 1 && states[0].stack == s.stack && Inv(states[k], pub)
    ensures ValidId(states[k].m, id) && !SlotOf(states[k].m, id).isFree && !SlotOf(states[k].m, id).toDelete
    ensures SameTarget(SlotOf(states[k].m, id), SlotOf(s.m, id))
  {
    Rescued(s, pub, id);
    RunKeepsInv(states, steps, pub, k);
    RunKeepsTarget(states, steps, pub, id, k);
    SlotAt(states[k], pub, id);
    assert states[k].held[id] > 0;
  }

  lemma Rescued(s: Sys, pub: Publics, id: int)
    requires Inv(s, pub) && Distinct(s.m.slots) && ValidId(s.m, id) && SlotOf(s.m, id).toDelete
    ensures var slot := SlotOf(s.m, id);
            var t := RegisterStep(s, pub, ByFunc(slot.func), slot.amx, slot.sig);
            && Register(s.m, pub, ByFunc(slot.func), slot.amx, slot.sig).1 == id
            && Inv(t, pub) && t.stack == s.stack && t.held[id] == 1
            && ValidId(t.m, id) && SameTarget(SlotOf(t.m, id), slot)
  {
    var slot := SlotOf(s.m, id);
    SlotAt(s, pub, id);
    assert Matches(s.m.slots[id / 2], ByFunc(slot.func), slot.amx, slot.sig);
    RegisterKeepsInv(s, pub, ByFunc(slot.func), slot.amx, slot.sig);
  }

  // ---------- The operations in place ----------

  class CSPForward {
    var amx: Amx
    var func: int
    var hasFunc: bool
    var name: string
    var sig: seq<int>
    var inExec: int
    var toDelete: bool
    var refCount: int
    var isFree: bool

    function View(): Slot
      reads this
    {
      Slot(amx, func, hasFunc, name, sig, inExec, toDelete, refCount, isFree)
    }

    constructor ()
      ensures !hasFunc && refCount == 0
    {
      amx, func, hasFunc, name, sig := 0, 0, false, "", [];
      inExec, toDelete, refCount, isFree := 0, false, 0, false;
    }

    /** Both overloads of Set. */
    method Set(names: seq<string>, key: Key, amx: Amx, sig: seq<int>)
      modifies this
      ensures View() == match key
                        case ByFunc(f) => NewByFunc(names, f, amx, sig)
                        case ByName(n) => NewByName(names, n, amx, sig)
    {
      this.amx, this.sig := amx, sig;
      match key {
        case ByFunc(f) =>
          func := f;
          hasFunc := true;
          name := PublicName(names, f);
        case ByName(n) =>
          var found := FindPublic(names, n);
          hasFunc := found.Some?;
          func := if found.Some? then found.value else NO_FUNC;
          name := n;
      }
      isFree, toDelete, inExec, refCount := false, false, 0, 1;
    }
  }

  class CForwardMngr {
    var spForwards: seq<CSPForward>
    var freeSPForwards: seq<int>
    const pub: Publics

    constructor (pub: Publics)
      ensures Valid() && View() == Mngr([], []) && this.pub == pub
    {
      spForwards, freeSPForwards := [], [];
      this.pub := pub;
    }

    /** The slots are separate objects, and the free ids are ids. */
    ghost predicate Valid()
      reads this
    {
      && (forall i, j :: 0 <= i < j < |spForwards| ==> spForwards[i] != spForwards[j])
      && (forall id :: id in freeSPForwards ==> id >= 0 && id % 2 == 1 && id / 2 < |spForwards|)
    }

    ghost function Slots(): (r: seq<Slot>)
      reads this, spForwards
      ensures |r| == |spForwards| && forall i {:trigger r[i]} :: 0 <= i < |r| ==> r[i] == spForwards[i].View()
    {
      seq(|spForwards|, i requires 0 <= i < |spForwards| reads this, spForwards => spForwards[i].View())
    }

    ghost function View(): Mngr
      reads this, spForwards
    {
      Mngr(Slots(), freeSPForwards)
    }

    method RegisterSPForward(key: Key, amx: Amx, sig: seq<int>) returns (id: int)
      requires Valid()
      modifies this, spForwards
      ensures Valid() && (View(), id) == Register(old(View()), pub, key, amx, sig)
      ensures forall f :: f in spForwards && f !in old(spForwards) ==> fresh(f)
    {
      ghost var m := View();
      for i := 0 to |spForwards|
        invariant View() == m && FindLive(m.slots, 0, key, amx, sig) == FindLive(m.slots, i, key, amx, sig)
      {
        var fwd := spForwards[i];
        assert m.slots[i] == fwd.View();
        if Matches(fwd.View(), key, amx, sig) {
          fwd.toDelete := false;
          fwd.refCount := fwd.refCount + 1;
          id := 2 * i + 1;
          assert Slots() == m.slots[i := Share(m.slots[i])];
          return;
        }
      }
      assert Slots() == m.slots;
      id := AddSPForward(key, amx, sig);
    }

    /** The rest of a registration that cannot share a handle. */
    method AddSPForward(key: Key, amx: Amx, sig: seq<int>) returns (id: int)
      requires Valid()
      modifies this, spForwards
      ensures Valid() && (View(), id) == AddSlot(old(View()), NewSlot(pub, key, amx, sig))
      ensures forall f :: f in spForwards && f !in old(spForwards) ==> fresh(f)
    {
      if freeSPForwards != [] {
        id := RecycleSPForward(key, amx, sig);
      } else {
        ghost var slots := Slots();
        id := 2 * |spForwards| + 1;
        var fwd := new CSPForward();
        fwd.Set(pub(amx), key, amx, sig);
        if !fwd.hasFunc {
          assert Slots() == slots;
          return -1;
        }
        spForwards := spForwards + [fwd];
        assert Slots() == slots + [fwd.View()];
      }
    }

    method RecycleSPForward(key: Key, amx: Amx, sig: seq<int>) returns (id: int)
      requires Valid() && freeSPForwards != []
      modifies this, spForwards
      ensures Valid() && spForwards == old(spForwards)
              && (View(), id) == AddSlot(old(View()), NewSlot(pub, key, amx, sig))
    {
      ghost var slots, free := Slots(), freeSPForwards;
      var top := freeSPForwards[|freeSPForwards| - 1];
      assert free == free[..|free| - 1] + [top] && top in free;
      assert forall x :: x in free ==> x >= 0 && x % 2 == 1 && x / 2 < |spForwards|;
      freeSPForwards := freeSPForwards[..|freeSPForwards| - 1];
      var fwd := spForwards[top / 2];
      fwd.Set(pub(amx), key, amx, sig);
      id := top;
      if !fwd.hasFunc {
        fwd.isFree := true;
        fwd.refCount := 0;
        freeSPForwards := freeSPForwards + [top];
        assert freeSPForwards == free;
        id := -1;
      }
      assert forall x :: x in freeSPForwards ==> x in free;
      assert Slots() == slots[top / 2 := fwd.View()];
    }

    method UnregisterSPForward(id: int)
      requires Valid() && id % 2 == 1
      modifies this, spForwards
      ensures Valid() && spForwards == old(spForwards) && View() == Unregister(old(View()), id)
    {
      if !(id >= 0 && id / 2 < |spForwards|) || spForwards[id / 2].isFree {
        return;
      }
      ghost var m := View();
      var fwd := spForwards[id / 2];
      if fwd.refCount > 1 {
        fwd.refCount := fwd.refCount - 1;
        assert Slots() == m.slots[id / 2 := fwd.View()];
        return;
      }
      fwd.refCount := 0;
      if fwd.inExec != 0 {
        fwd.toDelete := true;
      } else {
        fwd.isFree := true;
        freeSPForwards := freeSPForwards + [id];
      }
      assert Slots() == m.slots[id / 2 := fwd.View()];
    }

    method DuplicateSPForward(id: int) returns (r: int)
      requires Valid() && id % 2 == 1
      modifies this, spForwards
      ensures Valid()
      ensures var m := old(View());
              if !ValidId(m, id) || SlotOf(m, id).isFree then r == -1 && View() == m
              else (View(), r) == Register(m, pub, ByFunc(SlotOf(m, id).func), SlotOf(m, id).amx, SlotOf(m, id).sig)
    {
      if !(id >= 0 && id / 2 < |spForwards|) || spForwards[id / 2].isFree {
        return -1;
      }
      var fwd := spForwards[id / 2];
      assert View().slots[id / 2] == fwd.View();
      r := RegisterSPForward(ByFunc(fwd.func), fwd.amx, fwd.sig);
    }

    /** The part of executeForwards before the callback; `entered` says that there is one. */
    method BeginExecute(id: int, executable: bool) returns (entered: bool)
      requires Valid() && ValidId(View(), id)
      modifies this, spForwards
      ensures Valid() && spForwards == old(spForwards) && entered == Runs(SlotOf(old(View()), id), executable)
      ensures View() == if entered then EnterExec(old(View()), id) else FinishRelease(old(View()), id)
    {
      ghost var m := View();
      var fwd := spForwards[id / 2];
      assert m.slots[id / 2] == fwd.View();
      if fwd.isFree || !fwd.hasFunc || fwd.toDelete || !executable {
        FinishExecute(id);
        return false;
      }
      fwd.inExec := fwd.inExec + 1;
      assert Slots() == m.slots[id / 2 := fwd.View()];
      entered := true;
    }

    /** The part after the callback. */
    method EndExecute(id: int)
      requires Valid() && ValidId(View(), id)
      modifies this, spForwards
      ensures Valid() && spForwards == old(spForwards) && View() == LeaveExec(old(View()), id)
    {
      ghost var m := View();
      var fwd := spForwards[id / 2];
      fwd.inExec := fwd.inExec - 1;
      assert Slots() == m.slots[id / 2 := fwd.View()];
      FinishExecute(id);
    }

    method FinishExecute(id: int)
      requires Valid() && ValidId(View(), id)
      modifies this, spForwards
      ensures Valid() && spForwards == old(spForwards) && View() == FinishRelease(old(View()), id)
    {
      ghost var m := View();
      var fwd := spForwards[id / 2];
      assert m.slots[id / 2] == fwd.View();
      if fwd.toDelete && fwd.inExec == 0 {
        fwd.toDelete := false;
        fwd.isFree := true;
        freeSPForwards := freeSPForwards + [id];
        assert Slots() == m.slots[id / 2 := fwd.View()];
      }
    }
  }
}
