/**
 Message events (amxmodx/CEvent.cpp): the parameters of a message arrive one by one, each may rule
 events out, and what is left at the end fires.

 The message is one of a type whose events no nested message shares. Numbers that arrive as
 floating point are real numbers.
 */
module Events {
  import opened Basics

  datatype Value = IntValue(i: int) | FloatValue(f: real) | StringValue(s: string)

  /** A condition on one parameter, its operand read in each of the three ways. */
  datatype Cond = Cond(param: nat, op: char, text: string, i: int, f: real)

  datatype Player = NoPlayer | SomePlayer(bot: bool, alive: bool)

  predicate Holds(c: Cond, v: Value) {
    match v
    case IntValue(i) =>
      (c.op == '=' && i == c.i) || (c.op == '!' && i != c.i) || (c.op == '&' && CommonBit(i, c.i, 32))
      || (c.op == '<' && i < c.i) || (c.op == '>' && i > c.i)
    case FloatValue(f) =>
      (c.op == '=' && f == c.f) || (c.op == '!' && f != c.f) || (c.op == '<' && f < c.f) || (c.op == '>' && f > c.f)
    case StringValue(s) =>
      (c.op == '=' && s == c.text) || (c.op == '!' && s != c.text) || (c.op == '&' && Contains(s, c.text))
  }

  /** Whom an event is for. */
  datatype Flags = Flags(world: bool, client: bool, once: bool, alive: bool, dead: bool, player: bool, bot: bool)

  /** The flag letters of a registration, as bits: a world, b client, c once, d dead, e alive,
      f player, g bot. Without d and e both hold, without f and g both hold. */
  function FlagsOf(bits: nat): Flags {
    var client := bits / 2 % 2 == 1;
    var life, kind := bits / 8 % 4 != 0, bits / 32 % 4 != 0;
    Flags(bits % 2 == 1, client, bits / 4 % 2 == 1, !life || bits / 16 % 2 == 1, !life || bits / 8 % 2 == 1,
          client && (!kind || bits / 32 % 2 == 1), client && (!kind || bits / 64 % 2 == 1))
  }

  class ClEvent {
    const flags: Flags
    const conditions: seq<Cond>
    var stamp: real
    var done: bool
    var active: bool

    constructor (bits: nat, conditions: seq<Cond>)
      ensures !done && active && stamp == 0.0 && flags == FlagsOf(bits) && this.conditions == conditions
    {
      flags, this.conditions := FlagsOf(bits), conditions;
      stamp, done, active := 0.0, false, true;
    }

    /** The event may fire for this message at all. */
    predicate Eligible(player: Player, executable: bool, now: real)
      reads this
    {
      && executable
      && (match player
          case NoPlayer => flags.world
          case SomePlayer(bot, alive) =>
            flags.client && (if bot then flags.bot else flags.player) && (if alive then flags.alive else flags.dead))
      && !(flags.once && stamp == now)
    }

    /** There are conditions on the parameter, and none of them holds. */
    predicate Rejects(param: nat, v: Value) {
      (exists c :: c in conditions && c.param == param) && forall c :: c in conditions && c.param == param ==>
          !Holds(c, v)
    }

    /** The condition loop for one parameter. */
    method Test(param: nat, v: Value)
      modifies this`done
      ensures done == (old(done) || Rejects(param, v))
    {
      if done {
        return;
      }
      var anyConditions, execute := false, false;
      var i := 0;
      while i < |conditions| && !execute
        invariant 0 <= i <= |conditions|
        invariant anyConditions == exists k :: 0 <= k < i && conditions[k].param == param
        invariant execute == exists k :: 0 <= k < i && conditions[k].param == param && Holds(conditions[k], v)
      {
        if conditions[i].param == param {
          anyConditions := true;
          execute := Holds(conditions[i], v);
        }
        i := i + 1;
      }
      if anyConditions && !execute {
        done := true;
      }
    }
  }

  /** What decides whether an event fires, seen as a whole: the event is eligible, and every parameter
      that has conditions meets one of them. */
  predicate Fires(e: ClEvent, eligible: bool, values: seq<Value>) {
    eligible && forall p :: 1 <= p <= |values| ==> !RejectedAt(e, values, p)
  }

  predicate RejectedAt(e: ClEvent, values: seq<Value>, p: nat)
    requires 1 <= p <= |values|
  {
    e.Rejects(p, values[p - 1])
  }

  class EventsMngr {
    const events: seq<ClEvent>
    var vault: array<Value>
    var parsePos: nat
    var notDone: bool
    var parsing: bool

    constructor (events: seq<ClEvent>)
      requires forall i, j :: 0 <= i < j < |events| ==> events[i] != events[j]
      ensures Valid() && this.events == events && !notDone && !parsing
    {
      this.events := events;
      vault := new Value[0];
      parsePos, notDone, parsing := 0, false, false;
    }

    ghost predicate Valid() {
      forall i, j :: 0 <= i < j < |events| ==> events[i] != events[j]
    }

    /** There is room for the parameter at parsePos, and what was there before is still there. */
    method NextParam()
      modifies this`vault
      ensures parsePos < vault.Length && (vault == old(vault) || fresh(vault))
      ensures vault.Length >= old(vault.Length) && forall i :: 0 <= i < old(vault.Length) ==> vault[i] == old(vault[i])
    {
      if parsePos < vault.Length {
        return;
      }
      var size := if vault.Length > 0 then vault.Length else 32;
      while size <= parsePos
        invariant size >= vault.Length && size > 0
        decreases parsePos - size
      {
        size := size * 2;
      }
      var tmp := new Value[size];
      for i := 0 to vault.Length
        invariant vault == old(vault)
        invariant forall k :: 0 <= k < i ==> tmp[k] == vault[k]
      {
        tmp[i] := vault[i];
      }
      vault := tmp;
    }

    /** A message begins: events that are not for it are out of it. */
    method ParserInit(player: Player, executable: set<ClEvent>, now: real, index: int)
      requires Valid()
      modifies this, vault, events
      ensures forall e :: e in events ==>
                e.done == (old(e.done) || !old(e.Eligible(player, e in executable, now)))
                  && unchanged(e`stamp, e`active)
      ensures notDone == exists e :: e in events && !old(e.done) && old(e.Eligible(player, e in executable, now))
      ensures parsing == (events != [] || old(parsing))
      ensures notDone ==> parsePos == 0 && vault.Length > 0 && vault[0] == IntValue(index)
      ensures vault == old(vault) || fresh(vault)
    {
      notDone := false;
      if events == [] {
        return;
      }
      for i := 0 to |events|
        invariant forall k :: 0 <= k < i ==>
                    events[k].done == (old(events[k].done) || !events[k].Eligible(player, events[k] in executable, now))
        invariant forall k :: i <= k < |events| ==> events[k].done == old(events[k].done)
        invariant forall e :: e in events ==> unchanged(e`stamp, e`active)
        invariant notDone == exists k ::
                  0 <= k < i && !old(events[k].done) && events[k].Eligible(player, events[k] in executable, now)
        invariant unchanged(this`vault, this`parsePos, this`parsing)
      {
        if events[i].done {
          continue;
        }
        if !events[i].Eligible(player, events[i] in executable, now) {
          events[i].done := true;
        } else {
          notDone := true;
        }
      }
      if notDone {
        parsePos := 0;
        NextParam();
        vault[0] := IntValue(index);
      }
      parsing := true;
    }

    /** A parameter arrives: it is kept, and events that it rules out are out. */
    method ParseValue(v: Value)
      requires Valid()
      modifies this`vault, this`parsePos, vault, events`done
      ensures !(notDone && parsing) ==> unchanged(this) && forall e :: e in events ==> unchanged(e)
      ensures notDone && parsing ==>
                && parsePos == old(parsePos) + 1 < vault.Length && vault[parsePos] == v
                && old(vault.Length) <= vault.Length
                && (forall i :: 0 <= i < old(vault.Length) && i != parsePos ==> vault[i] == old(vault[i]))
                && (forall e :: e in events ==> e.done == (old(e.done) || e.Rejects(parsePos, v)))
      ensures vault == old(vault) || fresh(vault)
    {
      if !notDone || !parsing {
        return;
      }
      parsePos := parsePos + 1;
      NextParam();
      vault[parsePos] := v;
      ghost var kept, entries := vault, vault[..];
      for i := 0 to |events|
        invariant vault == kept && vault[..] == entries && parsePos == old(parsePos) + 1
        invariant forall k :: 0 <= k < i ==> events[k].done == (old(events[k].done) || events[k].Rejects(parsePos, v))
        invariant forall k :: i <= k < |events| ==> events[k].done == old(events[k].done)
      {
        events[i].Test(parsePos, v);
      }
    }

    /** The end of a message: the events that are left fire, and all are ready for the next one. */
    method ExecuteEvents(now: real) returns (fired: seq<ClEvent>)
      requires Valid()
      modifies this`parsing, events`done, events`stamp
      ensures !old(parsing) ==> fired == [] && forall e :: e in events ==> unchanged(e)
      ensures old(parsing) ==> forall e :: e in events ==> !e.done && e.stamp == if old(e.done) then old(e.stamp)
              else now
      ensures old(parsing) ==> fired == Among(events, set e | e in events && !old(e.done) && old(e.active))
      ensures !parsing
    {
      fired := [];
      if !parsing {
        return;
      }
      parsing := false;
      ghost var chosen := set e | e in events && !e.done && e.active;
      for i := 0 to |events|
        invariant !parsing && forall e :: e in events ==> unchanged(e`active)
        invariant fired == Among(events[..i], chosen)
        invariant forall k :: 0 <= k < i ==>
                    !events[k].done && events[k].stamp == if old(events[k].done) then old(events[k].stamp) else now
        invariant forall k :: i <= k < |events| ==>
                    events[k].done == old(events[k].done) && events[k].stamp == old(events[k].stamp)
      {
        assert events[..i + 1][..i] == events[..i];
        if events[i].done {
          events[i].done := false;
        } else {
          events[i].stamp := now;
          if events[i].active {
            fired := fired + [events[i]];
          }
        }
      }
      assert events[..|events|] == events;
      assert chosen == set e | e in events && !old(e.done) && old(e.active);
    }

    /** The parameters after the first i of them: the events not done are those that still fire, and the
        vault holds what has come. */
    ghost predicate Taken(eligible: set<ClEvent>, index: int, values: seq<Value>, i: nat)
      reads this, vault, events
      requires i <= |values|
    {
      && Valid() && notDone == (eligible != {}) && parsing == (events != [])
      && (forall e :: e in events ==> e.done == !Fires(e, e in eligible, values[..i]))
      && (notDone ==> parsePos == i < vault.Length && vault[0] == IntValue(index) && forall k :: 1 <= k <= i ==>
            vault[k] == values[k - 1])
    }

    method TakeParam(ghost eligible: set<ClEvent>, index: int, values: seq<Value>, i: nat)
      requires i < |values| && Taken(eligible, index, values, i) && eligible <= set e | e in events
      modifies this`vault, this`parsePos, vault, events`done
      ensures Taken(eligible, index, values, i + 1) && (vault == old(vault) || fresh(vault))
    {
      hide Fires, ClEvent.Rejects;
      ParseValue(values[i]);
      forall e | e in events
        ensures Fires(e, e in eligible, values[..i + 1])
             == (Fires(e, e in eligible, values[..i]) && !e.Rejects(i + 1, values[i]))
      {
        FiresMore(e, e in eligible, values, i);
      }
      if !notDone {
        forall e | e in events ensures !Fires(e, e in eligible, values[..i]) {
          FiresEligible(e, e in eligible, values[..i]);
        }
      }
    }

    method TakeParams(ghost eligible: set<ClEvent>, index: int, values: seq<Value>)
      requires Taken(eligible, index, values, 0) && eligible <= set e | e in events
      modifies this`vault, this`parsePos, vault, events`done
      ensures Taken(eligible, index, values, |values|) && (vault == old(vault) || fresh(vault))
    {
      hide Taken;
      for i := 0 to |values|
        invariant Taken(eligible, index, values, i) && (vault == old(vault) || fresh(vault))
      {
        TakeParam(eligible, index, values, i);
      }
    }

    method Begin(player: Player, executable: set<ClEvent>, now: real, index: int, ghost values: seq<Value>)
      returns (ghost eligible: set<ClEvent>)
      requires Valid() && !parsing && forall e :: e in events ==> !e.done
      modifies this, vault, events
      ensures eligible == set e | e in events && old(e.Eligible(player, e in executable, now))
      ensures Taken(eligible, index, values, 0) && (vault == old(vault) || fresh(vault))
      ensures forall e :: e in events ==> unchanged(e`stamp, e`active)
    {
      hide Fires, ClEvent.Eligible;
      eligible := set e | e in events && e.Eligible(player, e in executable, now);
      ParserInit(player, executable, now, index);
      forall e | e in events ensures Fires(e, e in eligible, values[..0]) == (e in eligible) {
        FiresFirst(e, e in eligible, values);
      }
    }

    lemma TakenKept(eligible: set<ClEvent>, index: int, values: seq<Value>)
      requires Taken(eligible, index, values, |values|)
      ensures eligible != {} ==>
                |values| < vault.Length && vault[0] == IntValue(index) && forall k :: 1 <= k <= |values| ==>
                    vault[k] == values[k - 1]
    {
    }

    method FireRest(now: real, ghost eligible: set<ClEvent>, index: int, ghost values: seq<Value>)
      returns (fired: seq<ClEvent>)
      requires Taken(eligible, index, values, |values|)
      modifies this`parsing, events`done, events`stamp
      ensures fired == Among(events, set e | e in events && old(e.active) && Fires(e, e in eligible, values))
      ensures forall e :: e in events ==> !e.done && e.stamp == if Fires(e, e in eligible, values) then now
              else old(e.stamp)
    {
      hide Fires;
      assert values[..|values|] == values;
      ghost var chosen := set e | e in events && !e.done && e.active;
      assert chosen == set e | e in events && old(e.active) && Fires(e, e in eligible, values);
      fired := ExecuteEvents(now);
    }

    /** A whole message: exactly the active events fire that fire by the whole of its parameters, in their
        order, and the vault holds all the parameters. */
    method Message(player: Player, executable: set<ClEvent>, now: real, index: int, values: seq<Value>)
      returns (fired: seq<ClEvent>)
      requires Valid() && !parsing && forall e :: e in events ==> !e.done
      modifies this, vault, events
      ensures fired == Among(events, set e | e in events && old(e.active)
                             && old(Fires(e, e.Eligible(player, e in executable, now), values)))
      ensures forall e :: e in events ==> !e.done
      ensures forall e :: e in events ==>
                e.stamp == if old(Fires(e, e.Eligible(player, e in executable, now), values)) then now else old(e.stamp)
      ensures (exists e :: e in events && old(e.Eligible(player, e in executable, now))) ==>
                |values| < vault.Length && vault[0] == IntValue(index) && forall i :: 1 <= i <= |values| ==>
                    vault[i] == values[i - 1]
    {
      hide Fires, Taken, ClEvent.Eligible;
      ghost var eligible := Begin(player, executable, now, index, values);
      TakeParams(eligible, index, values);
      TakenKept(eligible, index, values);
      ghost var chosen := set e | e in events && e.active && Fires(e, e in eligible, values);
      fired := FireRest(now, eligible, index, values);
      assert chosen == set e | e in events && old(e.active)
             && old(Fires(e, e.Eligible(player, e in executable, now), values));
    }
  }

  lemma FiresFirst(e: ClEvent, eligible: bool, values: seq<Value>)
    ensures Fires(e, eligible, values[..0]) == eligible
  {
  }

  lemma FiresEligible(e: ClEvent, eligible: bool, values: seq<Value>)
    ensures Fires(e, eligible, values) ==> eligible
  {
  }

  lemma FiresMore(e: ClEvent, eligible: bool, values: seq<Value>, i: nat)
    requires i < |values|
    ensures Fires(e, eligible, values[..i + 1]) == (Fires(e, eligible, values[..i]) && !e.Rejects(i + 1, values[i]))
  {
    var a, b := values[..i], values[..i + 1];
    assert RejectedAt(e, b, i + 1) == e.Rejects(i + 1, values[i]);
    forall p | 1 <= p <= i ensures RejectedAt(e, b, p) == RejectedAt(e, a, p) {
      assert b[p - 1] == a[p - 1];
    }
  }
}
