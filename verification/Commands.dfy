/**
 The command lists (amxmodx/CCmd.cpp): commands are kept in order, and looked up by their number among
 those that a player may use. A lookup goes on from where the last one ended.
 */
module Commands {
  import opened Basics

  /** A registered command; `executable` tells whether its plugin and function run. */
  datatype Command = Command(id: int, command: string, argument: string, flags: nat, listable: bool, executable: bool)

  // ---------- The order of texts ----------

  predicate Less(a: string, b: string) {
    b != "" && (a == "" || a[0] < b[0] || (a[0] == b[0] && Less(a[1..], b[1..])))
  }

  lemma {:induction false} LessTotal(a: string, b: string)
    ensures Less(a, b) || Less(b, a) || a == b
    ensures !(Less(a, b) && Less(b, a)) && (Less(a, b) ==> a != b)
  {
    if a != "" && b != "" && a[0] == b[0] {
      LessTotal(a[1..], b[1..]);
      assert a == [a[0]] + a[1..] && b == [b[0]] + b[1..];
    }
  }

  lemma {:induction false} LessTransitive(a: string, b: string, c: string)
    requires Less(a, b) && Less(b, c)
    ensures Less(a, c)
  {
    if a != "" && a[0] == b[0] == c[0] {
      LessTransitive(a[1..], b[1..], c[1..]);
    }
  }

  /** By command first, then by argument. */
  predicate Before(a: Command, b: Command) {
    Less(a.command, b.command) || (a.command == b.command && Less(a.argument, b.argument))
  }

  lemma BeforeOrder(a: Command, b: Command, c: Command)
    ensures !Before(b, a) && !Before(c, b) ==> !Before(c, a)
    ensures Before(a, b) ==> !Before(b, a)
  {
    LessTotal(a.command, b.command);
    LessTotal(b.command, c.command);
    LessTotal(a.command, c.command);
    LessTotal(a.argument, b.argument);
    LessTotal(b.argument, c.argument);
    LessTotal(a.argument, c.argument);
    if Less(a.command, b.command) && Less(b.command, c.command) {
      LessTransitive(a.command, b.command, c.command);
    }
    if Less(a.argument, b.argument) && Less(b.argument, c.argument) {
      LessTransitive(a.argument, b.argument, c.argument);
    }
  }

  predicate Sorted(list: seq<Command>) {
    forall i, j :: 0 <= i < j < |list| ==> !Before(list[j], list[i])
  }

  /** Where a command belongs: before the first one that it precedes. */
  function PlaceOf(list: seq<Command>, c: Command, i: nat): (r: nat)
    requires i <= |list|
    ensures i <= r <= |list| && (forall k :: i <= k < r ==> !Before(c, list[k])) && (r < |list| ==> Before(c, list[r]))
    decreases |list| - i
  {
    if i == |list| || Before(c, list[i]) then i else PlaceOf(list, c, i + 1)
  }

  function Inserted(list: seq<Command>, c: Command): seq<Command> {
    var i := PlaceOf(list, c, 0);
    list[..i] + [c] + list[i..]
  }

  /** Insertion keeps a sorted list sorted. */
  lemma InsertKeepsSorted(list: seq<Command>, c: Command)
    requires Sorted(list)
    ensures Sorted(Inserted(list, c))
  {
    var n, r := PlaceOf(list, c, 0), Inserted(list, c);
    forall i, j | 0 <= i < j < |r| ensures !Before(r[j], r[i]) {
      var a, b := if i < n then list[i] else if i == n then c else list[i - 1], if j < n then list[j]
        else if j == n then c else list[j - 1];
      assert a == r[i] && b == r[j];
      if i == n {
        BeforeOrder(c, list[n], b);
      }
    }
  }

  // ---------- Lookup by number ----------

  /** The command counts for somebody with these access flags. */
  predicate Usable(c: Command, access: int) {
    (c.flags == 0 || CommonBit(c.flags, access, 32)) && c.executable && c.listable
  }

  /** Those of the first k commands that count. */
  function FilteredTo(list: seq<Command>, access: int, k: nat): (r: seq<Command>)
    requires k <= |list|
    ensures |r| <= k
  {
    if k == 0 then []
    else if Usable(list[k - 1], access) then FilteredTo(list, access, k - 1) + [list[k - 1]]
    else FilteredTo(list, access, k - 1)
  }

  lemma NoneBefore(list: seq<Command>, access: int)
    ensures FilteredTo(list, access, 0) == []
  {
  }

  lemma FilteredNext(list: seq<Command>, access: int, k: nat)
    requires k < |list|
    ensures |FilteredTo(list, access, k + 1)|
         == |FilteredTo(list, access, k)| + (if Usable(list[k], access) then 1 else 0)
  {
  }

  function Filtered(list: seq<Command>, access: int): seq<Command> {
    FilteredTo(list, access, |list|)
  }

  /** A command that counts has the number of those before it. */
  lemma {:induction false} FilteredAt(list: seq<Command>, access: int, p: nat, n: nat)
    requires p < n <= |list| && Usable(list[p], access)
    ensures var i := |FilteredTo(list, access, p)|;
            i < |FilteredTo(list, access, n)| && FilteredTo(list, access, n)[i] == list[p]
  {
    if p < n - 1 {
      FilteredAt(list, access, p, n - 1);
    }
  }

  /** How many commands that count stand before a place, after an insertion. */
  lemma {:induction false} InsertedCount(list: seq<Command>, r: seq<Command>, c: Command, i: nat, access: int, k: nat)
    requires i <= |list| && r == list[..i] + [c] + list[i..] && k <= |r|
    ensures |FilteredTo(r, access, k)|
         == if k <= i then |FilteredTo(list, access, k)|
            else |FilteredTo(list, access, k - 1)| + (if Usable(c, access) then 1 else 0)
  {
    if k > 0 {
      InsertedCount(list, r, c, i, access, k - 1);
      assert r[k - 1] == if k - 1 < i then list[k - 1] else if k - 1 == i then c else list[k - 2];
    }
  }

  /** The n-th command that counts. */
  function Nth(list: seq<Command>, access: int, n: int): Option<Command> {
    if 0 <= n < |Filtered(list, access)| then Some(Filtered(list, access)[n]) else None
  }

  /** A cursor stands at a command that counts, or at the end. */
  predicate Stands(list: seq<Command>, access: int, p: nat) {
    p <= |list| && (p < |list| ==> Usable(list[p], access))
  }

  /** A cursor with a number stands at the command of that number, or at the end if there is none. */
  predicate CursorAt(list: seq<Command>, access: int, id: int, p: nat) {
    id >= 0 && Stands(list, access, p)
    && if p == |list| then id >= |Filtered(list, access)| else id == |FilteredTo(list, access, p)|
  }

  /** The number that a lookup of `id` comes to when it goes on from a cursor at p with the number `from`. */
  function Reached(list: seq<Command>, access: int, from: int, p: nat, id: int): int
    requires p <= |list|
  {
    id - from + |FilteredTo(list, access, p)|
  }

  lemma CursorFinds(list: seq<Command>, access: int, n: int, p: nat)
    requires CursorAt(list, access, n, p)
    ensures n >= 0 && Stands(list, access, p) && Nth(list, access, n) == if p < |list| then Some(list[p]) else None
  {
    if p < |list| {
      FilteredAt(list, access, p, |list|);
    }
  }

  lemma StandsIn(list: seq<Command>, access: int, p: nat)
    requires Stands(list, access, p)
    ensures p <= |list|
  {
  }

  /** A lookup that goes on from a right cursor comes to its own number. */
  lemma StaysRight(list: seq<Command>, access: int, from: int, p: nat, id: int, q: nat)
    requires CursorAt(list, access, from, p) && id >= from
             && CursorAt(list, access, Reached(list, access, from, p, id), q)
    ensures CursorAt(list, access, id, q)
            && Nth(list, access, Reached(list, access, from, p, id)) == Nth(list, access, id)
  {
    if q < |list| {
      FilteredAt(list, access, q, |list|);
    }
  }

  ghost predicate Distinct(list: seq<Command>) {
    forall i, j :: 0 <= i < j < |list| ==> list[i] != list[j]
  }

  lemma {:induction false} FilteredFrom(list: seq<Command>, access: int, k: nat, n: nat) returns (p: nat)
    requires k <= |list| && n < |FilteredTo(list, access, k)|
    ensures p < k && Usable(list[p], access) && FilteredTo(list, access, k)[n] == list[p]
            && |FilteredTo(list, access, p)| == n
  {
    if Usable(list[k - 1], access) && n == |FilteredTo(list, access, k - 1)| {
      p := k - 1;
    } else {
      p := FilteredFrom(list, access, k - 1, n);
    }
  }

  /** Different numbers are different commands. */
  lemma NthDistinct(list: seq<Command>, access: int, m: int, n: int)
    requires Distinct(list) && Nth(list, access, m).Some? && Nth(list, access, m) == Nth(list, access, n)
    ensures m == n
  {
    var p := FilteredFrom(list, access, |list|, m);
    var q := FilteredFrom(list, access, |list|, n);
  }

  /** Lookups that go on from a cursor find what they should, if and only if the one of the cursor's own
      number does, and that is if and only if the cursor stands at the command of its number. */
  lemma LookupsRight(list: seq<Command>, access: int, from: nat, p: nat)
    requires Stands(list, access, p) && Distinct(list)
    ensures CursorAt(list, access, from, p)
       <==> forall id :: id >= from ==> Nth(list, access, Reached(list, access, from, p, id)) == Nth(list, access, id)
    ensures CursorAt(list, access, from, p)
       <==> Nth(list, access, Reached(list, access, from, p, from)) == Nth(list, access, from)
  {
    CursorFinds(list, access, |FilteredTo(list, access, p)|, p);
    if CursorAt(list, access, from, p) {
      forall id | id >= from
        ensures Nth(list, access, Reached(list, access, from, p, id)) == Nth(list, access, id)
      {
      }
    } else if Nth(list, access, Reached(list, access, from, p, from)) == Nth(list, access, from) {
      if p < |list| {
        NthDistinct(list, access, Reached(list, access, from, p, from), from);
      }
      assert false;
    } else {
      assert !(forall id :: id >= from ==>
                 Nth(list, access, Reached(list, access, from, p, id)) == Nth(list, access, id));
    }
  }

  /** A command is inserted into the list, and the cursor stays at its command. */
  lemma CursorAfterInsert(list: seq<Command>, r: seq<Command>, c: Command, access: int, id: int, p: nat, i: nat)
    requires Stands(list, access, p) && i <= |list| && r == list[..i] + [c] + list[i..]
    ensures var p' := if i <= p then p + 1 else p;
            var more := if i <= p && Usable(c, access) then 1 else 0;
            && Stands(r, access, p')
            && |FilteredTo(r, access, p')| == |FilteredTo(list, access, p)| + more
            && (CursorAt(list, access, id, p) ==>
                 (CursorAt(r, access, id, p') <==> more == 0 || (p == |list| && id > |Filtered(list, access)|)))
  {
    var p' := if i <= p then p + 1 else p;
    InsertedCount(list, r, c, i, access, |r|);
    InsertedCount(list, r, c, i, access, p');
    assert p < |list| ==> r[p'] == list[p];
  }

  /** After an insertion the lookups that go on from a cursor that was right find what they should, if and
      only if the new command does not count, or entered behind the cursor, or the cursor was beyond the
      end with a number that is still too great. */
  lemma LookupsAfterInsert(list: seq<Command>, c: Command, access: int, from: nat, p: nat)
    requires CursorAt(list, access, from, p) && Distinct(Inserted(list, c))
    ensures var i, r := PlaceOf(list, c, 0), Inserted(list, c);
            var p' := if i <= p then p + 1 else p;
            (forall id :: id >= from ==> Nth(r, access, Reached(r, access, from, p', id)) == Nth(r, access, id))
            <==> (!Usable(c, access) || p < i || (p == |list| && from > |Filtered(list, access)|))
  {
    var i, r := PlaceOf(list, c, 0), Inserted(list, c);
    CursorAfterInsert(list, r, c, access, from, p, i);
    LookupsRight(r, access, from, if i <= p then p + 1 else p);
  }

  class CmdMngr {
    var lists: seq<seq<Command>>
    var bufId: int
    var bufType: int
    var bufAccess: int
    var bufPtr: nat

    constructor ()
      ensures Valid() && lists == [[], [], []] && bufType == -1
    {
      lists := [[], [], []];
      bufId, bufType, bufAccess, bufPtr := -1, -1, 0, 0;
    }

    ghost predicate ListsOk()
      reads this
    {
      |lists| == 3 && forall t :: 0 <= t < 3 ==> Sorted(lists[t])
    }

    /** The lists are sorted, and the cursor stands at a command of its list that counts, or at the end. */
    ghost predicate Valid()
      reads this
    {
      ListsOk() && (bufType == -1 || (0 <= bufType < 3 && bufId >= 0 && Stands(lists[bufType], bufAccess, bufPtr)))
    }

    /** Moreover the cursor has the number of its command. */
    ghost predicate CursorOk()
      reads this
      requires Valid()
    {
      bufType == -1 || CursorAt(lists[bufType], bufAccess, bufId, bufPtr)
    }

    method ClearBufferedInfo()
      modifies this`bufId, this`bufType, this`bufAccess
      requires ListsOk()
      ensures Valid() && CursorOk() && bufType == -1
    {
      bufId, bufType, bufAccess := -1, -1, 0;
    }

    /** A command enters a list. The cursor is a pointer into its list and stays at its command, but
        its number is not counted up: one that was right stays right exactly if the command enters another
        list, or does not count, or enters behind the cursor, or the cursor is beyond the end with a
        number that is still too great. */
    method SetCmdLink(t: nat, c: Command)
      requires Valid() && t < 3
      modifies this`lists, this`bufPtr
      ensures lists == old(lists)[t := Inserted(old(lists)[t], c)] && Valid()
      ensures bufPtr == if bufType == t && PlaceOf(old(lists)[t], c, 0) <= old(bufPtr) then old(bufPtr) + 1
              else old(bufPtr)
      ensures old(CursorOk()) ==>
                var list := old(lists)[t];
                CursorOk() <==> (bufType != t || !Usable(c, bufAccess) || old(bufPtr) < PlaceOf(list, c, 0)
                                 || (old(bufPtr) == |list| && bufId > |Filtered(list, bufAccess)|))
    {
      hide FilteredTo, Filtered, Usable, Sorted, Before;
      var list, i := lists[t], 0;
      while i < |list| && !Before(c, list[i])
        invariant 0 <= i <= |list| && PlaceOf(list, c, 0) == PlaceOf(list, c, i)
      {
        i := i + 1;
      }
      InsertKeepsSorted(list, c);
      if bufType == t {
        CursorAfterInsert(list, list[..i] + [c] + list[i..], c, bufAccess, bufId, bufPtr, i);
        bufPtr := if i <= bufPtr then bufPtr + 1 else bufPtr;
      }
      lists := lists[t := list[..i] + [c] + list[i..]];
    }

    method GetCmdNum(t: nat, access: int) returns (n: nat)
      requires t < |lists|
      ensures n == |Filtered(lists[t], access)|
    {
      n := 0;
      for i := 0 to |lists[t]|
        invariant n == |FilteredTo(lists[t], access, i)|
      {
        if Usable(lists[t][i], access) {
          n := n + 1;
        }
      }
    }

    /** The lookup begins anew, or goes on from the cursor. */
    predicate GoesOn(id: nat, t: nat, access: int)
      reads this
    {
      t == bufType && access == bufAccess && id >= bufId
    }

    /** A lookup that begins anew, or goes on from a cursor that is right, finds the id-th command that
        counts, and leaves the cursor right; one that goes on from another cursor is as far off as it is. */
    method GetCmd(id: nat, t: nat, access: int) returns (r: Option<Command>)
      requires Valid() && t < 3
      modifies this`bufId, this`bufType, this`bufAccess, this`bufPtr
      ensures Valid() && bufId == id && bufType == t && bufAccess == access
      ensures var n := if old(GoesOn(id, t, access)) then Reached(lists[t], access, old(bufId), old(bufPtr), id)
              else id;
              r == Nth(lists[t], access, n) && CursorAt(lists[t], access, n, bufPtr)
      ensures old(CursorOk()) || !old(GoesOn(id, t, access)) ==> CursorOk() && r == Nth(lists[t], access, id)
    {
      hide FilteredTo, Filtered, Nth, Usable, Sorted, CursorAt, Stands;
      var list := lists[t];
      ghost var goesOn, from, p := GoesOn(id, t, access), bufId, bufPtr;
      if goesOn {
        StandsIn(list, access, p);
      }
      NoneBefore(list, access);
      ghost var n := if goesOn then Reached(list, access, from, p, id) else id;
      var left: int := id;
      if id < bufId || access != bufAccess || t != bufType {
        bufPtr, bufAccess, bufType, bufId := 0, access, t, id;
      } else {
        left := id - bufId;
        bufId := id;
      }
      bufPtr := Seek(list, access, bufPtr, left);
      CursorFinds(list, access, n, bufPtr);
      if goesOn && CursorAt(list, access, from, p) {
        StaysRight(list, access, from, p, id, bufPtr);
      }
      r := None;
      if bufPtr < |list| {
        r := Some(list[bufPtr]);
      }
    }

    /** From a place on, past `left` commands that count to the next one. */
    method Seek(list: seq<Command>, access: int, from: nat, left: int) returns (p: nat)
      requires from <= |list| && left >= 0
      ensures CursorAt(list, access, |FilteredTo(list, access, from)| + left, p)
    {
      hide FilteredTo, Usable;
      p := from;
      var n := left;
      while p < |list|
        invariant p <= |list| && n >= 0
        invariant |FilteredTo(list, access, p)| + n == |FilteredTo(list, access, from)| + left
               || (p == |list| && |FilteredTo(list, access, from)| + left >= |Filtered(list, access)|)
      {
        FilteredNext(list, access, p);
        if Usable(list[p], access) {
          if n == 0 {
            return;
          }
          n := n - 1;
        }
        p := p + 1;
      }
    }
  }

  lemma {:induction false} AllCount(list: seq<Command>, access: int, k: nat)
    requires k <= |list| && forall c :: c in list ==> Usable(c, access)
    ensures FilteredTo(list, access, k) == list[..k]
  {
    if k > 0 {
      AllCount(list, access, k - 1);
      assert list[..k] == list[..k - 1] + [list[k - 1]];
    }
  }

  lemma AllFound(list: seq<Command>, access: int, n: nat, p: nat)
    requires CursorAt(list, access, n, p) && forall c :: c in list ==> Usable(c, access)
    ensures p == if n < |list| then n else |list|
    ensures |FilteredTo(list, access, p)| == p
  {
    AllCount(list, access, p);
    AllCount(list, access, |list|);
  }

  lemma AllNth(list: seq<Command>, access: int, n: nat)
    requires forall c :: c in list ==> Usable(c, access)
    ensures Nth(list, access, n) == if n < |list| then Some(list[n]) else None
  {
    AllCount(list, access, |list|);
  }

  lemma EntersAt(list: seq<Command>, c: Command, i: nat)
    requires i <= |list| && (forall k :: 0 <= k < i ==> !Before(c, list[k])) && (i < |list| ==> Before(c, list[i]))
    ensures PlaceOf(list, c, 0) == i && Inserted(list, c) == list[..i] + [c] + list[i..]
  {
  }

  lemma ThreeEnter(a: Command, b: Command, c: Command)
    requires Before(a, b) && Before(b, c)
    ensures Inserted([], a) == [a] && Inserted([a], c) == [a, c] && Inserted([a, c], b) == [a, b, c]
    ensures PlaceOf([], a, 0) == 0 && PlaceOf([a], c, 0) == 1 && PlaceOf([a, c], b, 0) == 1
  {
    BeforeOrder(a, b, c);
    BeforeOrder(b, c, c);
    EntersAt([], a, 0);
    EntersAt([a], c, 1);
    EntersAt([a, c], b, 1);
  }

  /** Two commands, a lookup of the second, and a command that enters before it: looked up again, the same
      number still gives the one that has become the third, and going on finds none behind it. */
  method LookupMisled(a: Command, b: Command, c: Command, access: int)
    returns (first: Option<Command>, again: Option<Command>, behind: Option<Command>)
    requires Before(a, b) && Before(b, c) && Usable(a, access) && Usable(b, access) && Usable(c, access)
    ensures Nth([a, c], access, 1) == Some(c) == first
    ensures Nth([a, b, c], access, 1) == Some(b) && again == Some(c)
    ensures Nth([a, b, c], access, 2) == Some(c) && behind == None
  {
    hide PlaceOf, Inserted, FilteredTo, Filtered, Nth, Usable, Sorted, Before, CursorAt, Stands;
    ThreeEnter(a, b, c);
    var mngr := new CmdMngr();
    mngr.SetCmdLink(0, a);
    assert mngr.lists[0] == [a];
    mngr.SetCmdLink(0, c);
    assert mngr.lists[0] == [a, c];
    first := mngr.GetCmd(1, 0, access);
    AllFound([a, c], access, 1, mngr.bufPtr);
    mngr.SetCmdLink(0, b);
    assert mngr.lists[0] == [a, b, c];
    AllNth([a, c], access, 1);
    AllNth([a, b, c], access, 1);
    AllNth([a, b, c], access, 2);
    AllNth([a, b, c], access, 3);
    AllCount([a, b, c], access, 2);
    again := mngr.GetCmd(1, 0, access);
    AllFound([a, b, c], access, 2, mngr.bufPtr);
    behind := mngr.GetCmd(2, 0, access);
  }
}
