/**
 Log events (amxmodx/CLogEvent.cpp): plugins wait for lines of the server log whose arguments meet
 their filters. Equal filters share one comparator, which remembers its answer for the current line.

 Callbacks do not log, and the line counter is unbounded. How a line is cut into arguments is not
 part of this model.
 */
module LogEvents {
  import opened Basics

  const MAX_LOGARGS := 12

  /** A filter: an argument position, and a text that the argument equals or contains. */
  datatype Filter = Filter(pos: nat, contains: bool, text: string)

  predicate Matches(f: Filter, arg: string) {
    if f.contains then Contains(arg, f.text) else arg == f.text
  }

  /** A position that does not exist is read as the first one. */
  function PosOf(n: int): (r: nat)
    ensures r < MAX_LOGARGS
  {
    if 0 <= n < MAX_LOGARGS then n else 0
  }

  /** A log event runs with the stored arguments when every position that it filters has a filter that
      matches. Beyond the arguments of the line these are texts of earlier lines. */
  ghost predicate Runs(filters: set<Filter>, args: seq<string>) {
    forall f :: f in filters ==> PositionMatches(filters, args, f.pos)
  }

  ghost predicate PositionMatches(filters: set<Filter>, args: seq<string>, pos: nat) {
    pos < |args| && MatchedAt(filters, pos, args[pos])
  }

  ghost predicate MatchedAt(filters: set<Filter>, pos: nat, text: string) {
    exists g :: g in filters && g.pos == pos && Matches(g, text)
  }

  // ---------- What earlier lines leave behind ----------

  /** Whatever the text is, some filter of the position matches it. */
  ghost predicate Always(filters: set<Filter>, pos: nat) {
    forall text :: MatchedAt(filters, pos, text)
  }

  /** The positions that the line itself has are matched. */
  ghost predicate OwnMatch(filters: set<Filter>, line: seq<string>) {
    forall f :: f in filters && f.pos < |line| ==> MatchedAt(filters, f.pos, line[f.pos])
  }

  /** What is left behind the line from earlier ones is matched. */
  ghost predicate RestMatches(filters: set<Filter>, n: nat, rest: seq<string>) {
    forall f :: f in filters && f.pos >= n ==> f.pos < n + |rest| && MatchedAt(filters, f.pos, rest[f.pos - n])
  }

  lemma RunsOn(filters: set<Filter>, line: seq<string>, rest: seq<string>)
    ensures Runs(filters, line + rest) <==> OwnMatch(filters, line) && RestMatches(filters, |line|, rest)
  {
    hide MatchedAt;
    if Runs(filters, line + rest) {
      forall f | f in filters
        ensures f.pos < |line| + |rest|
        ensures MatchedAt(filters, f.pos, if f.pos < |line| then line[f.pos] else rest[f.pos - |line|])
      {
        assert PositionMatches(filters, line + rest, f.pos);
      }
    }
  }

  /** A text that a filter of the position matches, if there is one. */
  ghost function TextAt(filters: set<Filter>, pos: nat): (r: string)
    ensures forall f :: f in filters && f.pos == pos ==> MatchedAt(filters, pos, r)
  {
    if g :| g in filters && g.pos == pos then
      TextMatches(g);
      g.text
    else ""
  }

  lemma TextMatches(f: Filter)
    ensures Matches(f, f.text)
  {
  }

  ghost predicate SameVerdict(filters: set<Filter>, line: seq<string>, a: seq<string>, b: seq<string>) {
    Runs(filters, line + a) == Runs(filters, line + b)
  }

  /** For a line, the verdict is the same whatever earlier lines left, if and only if the line's own positions
      fail, or each filtered position beyond the line matches every text. */
  lemma VerdictFromLine(filters: set<Filter>, line: seq<string>)
    requires |line| <= MAX_LOGARGS && forall f :: f in filters ==> f.pos < MAX_LOGARGS
    ensures (forall a, b :: |a| == |b| == MAX_LOGARGS - |line| ==> SameVerdict(filters, line, a, b))
       <==> (OwnMatch(filters, line) ==> forall f :: f in filters && f.pos >= |line| ==> Always(filters, f.pos))
  {
    hide OwnMatch, MatchedAt, Runs, TextAt;
    if OwnMatch(filters, line) && exists f :: f in filters && f.pos >= |line| && !Always(filters, f.pos) {
      var f :| f in filters && f.pos >= |line| && !Always(filters, f.pos);
      var a, b := Leftovers(filters, line, f.pos);
      assert !SameVerdict(filters, line, a, b);
    } else {
      forall a, b | |a| == |b| == MAX_LOGARGS - |line| ensures SameVerdict(filters, line, a, b) {
        RunsOn(filters, line, a);
        RunsOn(filters, line, b);
      }
    }
  }

  /** Two leftovers with different verdicts. */
  lemma Leftovers(filters: set<Filter>, line: seq<string>, pos: nat) returns (a: seq<string>, b: seq<string>)
    requires |line| <= pos < MAX_LOGARGS && (forall f :: f in filters ==> f.pos < MAX_LOGARGS)
    requires OwnMatch(filters, line) && !Always(filters, pos) && exists f :: f in filters && f.pos == pos
    ensures |a| == |b| == MAX_LOGARGS - |line| && Runs(filters, line + a) && !Runs(filters, line + b)
  {
    hide OwnMatch, MatchedAt, Runs, TextAt;
    var text :| !MatchedAt(filters, pos, text);
    a := seq(MAX_LOGARGS - |line|, i requires 0 <= i < MAX_LOGARGS - |line| => TextAt(filters, |line| + i));
    b := a[pos - |line| := text];
    forall f | f in filters && f.pos >= |line| ensures MatchedAt(filters, f.pos, a[f.pos - |line|]) {
      assert a[f.pos - |line|] == TextAt(filters, |line| + (f.pos - |line|));
    }
    RunsOn(filters, line, a);
    RunsOn(filters, line, b);
  }

  /** For lines of n arguments, the verdict depends on the line alone if and only if each filtered position
      from n on matches every text; in particular if there is none. */
  lemma LineAloneDecides(filters: set<Filter>, n: nat)
    requires n <= MAX_LOGARGS && forall f :: f in filters ==> f.pos < MAX_LOGARGS
    ensures (forall line, a, b :: |line| == n && |a| == |b| == MAX_LOGARGS - n ==> SameVerdict(filters, line, a, b))
       <==> forall f :: f in filters && f.pos >= n ==> Always(filters, f.pos)
  {
    hide OwnMatch, MatchedAt, Runs, TextAt, SameVerdict, Always;
    if forall f :: f in filters && f.pos >= n ==> Always(filters, f.pos) {
      forall line: seq<string>, a, b | |line| == n && |a| == |b| == MAX_LOGARGS - n
        ensures SameVerdict(filters, line, a, b)
      {
        VerdictFromLine(filters, line);
      }
    } else {
      var line := MatchedLine(filters, n);
      VerdictFromLine(filters, line);
    }
  }

  lemma MatchedLine(filters: set<Filter>, n: nat) returns (line: seq<string>)
    ensures |line| == n && OwnMatch(filters, line)
  {
    hide MatchedAt, TextAt;
    line := seq(n, i requires 0 <= i < n => TextAt(filters, i));
  }

  class CLogCmp {
    const filter: Filter
    var logid: nat
    var result: bool

    constructor (filter: Filter)
      ensures this.filter == filter && logid == 0
    {
      this.filter, logid, result := filter, 0, true;
    }

    /** What it remembers of the current line is right. */
    predicate Sound(counter: nat, args: seq<string>)
      reads this
    {
      filter.pos < |args| && logid <= counter && (logid == counter ==> result == Matches(filter, args[filter.pos]))
    }

    method CompareCondition(counter: nat, arg: string) returns (r: bool)
      requires logid == counter ==> result == Matches(filter, arg)
      modifies this
      ensures r == Matches(filter, arg) && logid == counter && result == r
    {
      if logid == counter {
        return result;
      }
      logid := counter;
      result := Matches(filter, arg);
      r := result;
    }
  }

  /** The comparators of an event for one position. */
  datatype LogCond = LogCond(argnum: nat, list: seq<CLogCmp>)

  ghost predicate GroupMatches(b: LogCond, args: seq<string>) {
    b.argnum < |args| && exists c :: c in b.list && Matches(c.filter, args[b.argnum])
  }

  /** The groups hold exactly the registered filters, each in the group of its position. */
  ghost predicate GroupsOk(filters: seq<LogCond>, registered: set<Filter>, cmps: seq<CLogCmp>) {
    && (forall b, c :: b in filters && c in b.list ==> c in cmps && c.filter.pos == b.argnum && c.filter in registered)
    && (forall b :: b in filters ==> b.list != [])
    && Covered(filters, registered)
    && (forall i, j :: 0 <= i < j < |filters| ==> filters[i].argnum != filters[j].argnum)
  }

  ghost predicate Covered(filters: seq<LogCond>, registered: set<Filter>) {
    forall f :: f in registered ==> exists b, c :: b in filters && c in b.list && c.filter == f
  }

  lemma JoinCovers(filters: seq<LogCond>, after: seq<LogCond>, registered: set<Filter>, i: nat, cmp: CLogCmp)
    requires i < |filters| && after == filters[i := LogCond(filters[i].argnum, [cmp] + filters[i].list)]
    requires Covered(filters, registered)
    ensures Covered(after, registered + {cmp.filter})
  {
    assert after[i] in after && cmp in after[i].list;
    forall f | f in registered ensures exists b, c :: b in after && c in b.list && c.filter == f {
      var b, c :| b in filters && c in b.list && c.filter == f;
      var k :| 0 <= k < |filters| && filters[k] == b;
      assert after[k] in after && c in after[k].list;
    }
  }

  lemma JoinKeeps(filters: seq<LogCond>, after: seq<LogCond>, registered: set<Filter>, i: nat, cmp: CLogCmp,
                  cmps: seq<CLogCmp>)
    requires GroupsOk(filters, registered, cmps) && cmp in cmps && i < |filters| && filters[i].argnum == cmp.filter.pos
    requires after == filters[i := LogCond(filters[i].argnum, [cmp] + filters[i].list)]
    ensures GroupsOk(after, registered + {cmp.filter}, cmps)
  {
    hide Covered;
    JoinCovers(filters, after, registered, i, cmp);
    forall b, c | b in after && c in b.list
      ensures c in cmps && c.filter.pos == b.argnum && c.filter in registered + {cmp.filter}
    {
      var k :| 0 <= k < |after| && after[k] == b;
      assert filters[k] in filters && (c == cmp || c in filters[k].list);
    }
  }

  lemma NewCovers(filters: seq<LogCond>, registered: set<Filter>, group: LogCond, cmp: CLogCmp)
    requires Covered(filters, registered) && cmp in group.list
    ensures Covered([group] + filters, registered + {cmp.filter})
  {
    assert group in [group] + filters;
    forall f | f in registered ensures exists b, c :: b in [group] + filters && c in b.list && c.filter == f {
      var b, c :| b in filters && c in b.list && c.filter == f;
      assert b in [group] + filters;
    }
  }

  lemma NewKeeps(filters: seq<LogCond>, registered: set<Filter>, cmp: CLogCmp, cmps: seq<CLogCmp>)
    requires GroupsOk(filters, registered, cmps) && cmp in cmps
    requires forall k :: 0 <= k < |filters| ==> filters[k].argnum != cmp.filter.pos
    ensures GroupsOk([LogCond(cmp.filter.pos, [cmp])] + filters, registered + {cmp.filter}, cmps)
  {
    hide Covered;
    NewCovers(filters, registered, LogCond(cmp.filter.pos, [cmp]), cmp);
  }

  class CLogEvent {
    var filters: seq<LogCond>
    var active: bool
    ghost var registered: set<Filter>

    constructor ()
      ensures filters == [] && active && registered == {}
    {
      filters, active, registered := [], true, {};
    }

    ghost predicate Valid(cmps: seq<CLogCmp>)
      reads this
    {
      GroupsOk(filters, registered, cmps)
    }

    /** The second half of registerFilter: the comparator joins the group of its position. */
    method AddCondition(cmp: CLogCmp, ghost cmps: seq<CLogCmp>)
      requires Valid(cmps) && cmp in cmps
      modifies this`filters, this`registered
      ensures Valid(cmps) && registered == old(registered) + {cmp.filter}
    {
      for i := 0 to |filters|
        invariant unchanged(this) && forall k :: 0 <= k < i ==> filters[k].argnum != cmp.filter.pos
      {
        if filters[i].argnum == cmp.filter.pos {
          JoinGroup(cmp, i, cmps);
          return;
        }
      }
      NewGroup(cmp, cmps);
    }

    method JoinGroup(cmp: CLogCmp, i: nat, ghost cmps: seq<CLogCmp>)
      requires Valid(cmps) && cmp in cmps && i < |filters| && filters[i].argnum == cmp.filter.pos
      modifies this`filters, this`registered
      ensures Valid(cmps) && registered == old(registered) + {cmp.filter}
    {
      hide GroupsOk;
      JoinKeeps(filters, filters[i := LogCond(filters[i].argnum, [cmp] + filters[i].list)], registered, i, cmp, cmps);
      registered := registered + {cmp.filter};
      filters := filters[i := LogCond(filters[i].argnum, [cmp] + filters[i].list)];
    }

    method NewGroup(cmp: CLogCmp, ghost cmps: seq<CLogCmp>)
      requires Valid(cmps) && cmp in cmps && forall k :: 0 <= k < |filters| ==> filters[k].argnum != cmp.filter.pos
      modifies this`filters, this`registered
      ensures Valid(cmps) && registered == old(registered) + {cmp.filter}
    {
      hide GroupsOk;
      NewKeeps(filters, registered, cmp, cmps);
      registered := registered + {cmp.filter};
      filters := [LogCond(cmp.filter.pos, [cmp])] + filters;
    }

    lemma StaysValid(cmps: seq<CLogCmp>, c: CLogCmp)
      requires Valid(cmps)
      ensures Valid([c] + cmps)
    {
    }

    lemma GroupOf(cmps: seq<CLogCmp>, f: Filter) returns (b: LogCond)
      requires Valid(cmps) && f in registered
      ensures b in filters && b.argnum == f.pos && exists c :: c in b.list && c.filter == f
    {
      var b', c :| b' in filters && c in b'.list && c.filter == f;
      b := b';
    }

    lemma GroupsToPositions(cmps: seq<CLogCmp>, args: seq<string>)
      requires Valid(cmps) && forall b :: b in filters ==> GroupMatches(b, args)
      ensures Runs(registered, args)
    {
    }

    lemma PositionToGroup(cmps: seq<CLogCmp>, args: seq<string>, b: LogCond)
      requires Valid(cmps) && Runs(registered, args) && b in filters
      ensures GroupMatches(b, args)
    {
      var c := b.list[0];
      assert c in b.list && PositionMatches(registered, args, c.filter.pos);
      var g :| g in registered && g.pos == b.argnum && Matches(g, args[b.argnum]);
      var b' := GroupOf(cmps, g);
      OneGroup(b, b', cmps);
    }

    /** All groups match exactly if all filtered positions do. */
    lemma GroupsDecide(cmps: seq<CLogCmp>, args: seq<string>)
      requires Valid(cmps)
      ensures (forall b :: b in filters ==> GroupMatches(b, args)) <==> Runs(registered, args)
    {
      if forall b :: b in filters ==> GroupMatches(b, args) {
        GroupsToPositions(cmps, args);
      } else {
        var b :| b in filters && !GroupMatches(b, args);
        if Runs(registered, args) {
          PositionToGroup(cmps, args, b);
        }
      }
    }

    lemma OneGroup(b: LogCond, b': LogCond, cmps: seq<CLogCmp>)
      requires Valid(cmps) && b in filters && b' in filters && b.argnum == b'.argnum
      ensures b == b'
    {
    }
  }

  class LogEventsMngr {
    var cmps: seq<CLogCmp>
    var counter: nat
    var args: seq<string>
    var argc: nat
    var events: seq<seq<CLogEvent>>

    constructor ()
      ensures Valid() && cmps == [] && counter == 0 && forall i :: 0 <= i <= MAX_LOGARGS ==> events[i] == []
      ensures args == seq(MAX_LOGARGS, _ => "")
    {
      cmps, counter, argc := [], 0, 0;
      args := seq(MAX_LOGARGS, _ => "");
      events := seq(MAX_LOGARGS + 1, _ => []);
    }

    ghost function AllEvents(): set<CLogEvent>
      reads this
    {
      set i, e | 0 <= i < |events| && e in events[i] :: e
    }

    /** Once there is a line, every comparator is right about it or knows nothing of it. */
    ghost predicate Valid()
      reads this, cmps, AllEvents()
    {
      && |args| == MAX_LOGARGS && argc <= MAX_LOGARGS && |events| == MAX_LOGARGS + 1
      && (forall c :: c in cmps ==>
            c.filter.pos < MAX_LOGARGS && c.logid <= counter && (counter > 0 ==> c.Sound(counter, args)))
      && (forall e :: e in AllEvents() ==> e.Valid(cmps))
    }

    /** A line arrives. Arguments that it does not have keep the texts of earlier lines. */
    method SetLogLine(line: seq<string>)
      requires Valid() && |line| <= MAX_LOGARGS
      modifies this`counter, this`args, this`argc
      ensures Valid() && counter == old(counter) + 1 && argc == |line| && args == line + old(args)[|line|..]
    {
      counter := counter + 1;
      args := line + args[|line|..];
      argc := |line|;
    }

    method RegisterLogEvent(pos: int) returns (e: CLogEvent?)
      requires Valid()
      modifies this`events
      ensures Valid() && (e == null <==> !(1 <= pos <= MAX_LOGARGS))
      ensures e == null ==> events == old(events)
      ensures e != null ==>
                fresh(e) && events == old(events)[pos := old(events)[pos] + [e]] && e.registered == {} && e.active
    {
      if pos < 1 || pos > MAX_LOGARGS {
        return null;
      }
      var e' := new CLogEvent();
      ghost var before := AllEvents();
      events := events[pos := events[pos] + [e']];
      assert AllEvents() <= before + {e'};
      e := e';
    }

    /** The comparator for a filter: one that exists already, or a new one. */
    method RegisterCondition(n: int, contains: bool, text: string) returns (c: CLogCmp)
      requires Valid()
      modifies this`cmps
      ensures Valid() && c in cmps && c.filter == Filter(PosOf(n), contains, text)
      ensures cmps == old(cmps) || (fresh(c) && cmps == [c] + old(cmps))
    {
      var filter := Filter(PosOf(n), contains, text);
      for i := 0 to |cmps|
        invariant cmps == old(cmps)
      {
        if cmps[i].filter == filter {
          return cmps[i];
        }
      }
      c := new CLogCmp(filter);
      cmps := [c] + cmps;
      forall e | e in AllEvents() ensures e.Valid(cmps) {
        e.StaysValid(old(cmps), c);
      }
    }

    method RegisterFilter(e: CLogEvent, n: int, contains: bool, text: string)
      requires Valid() && e in AllEvents()
      modifies this`cmps, e`filters, e`registered
      ensures Valid() && e.registered == old(e.registered) + {Filter(PosOf(n), contains, text)}
      ensures forall c :: c in cmps ==> c in old(cmps) || fresh(c)
    {
      var c := RegisterCondition(n, contains, text);
      e.AddCondition(c, cmps);
    }

    /** One group of an event: does any of its comparators match? */
    method CheckCondition(b: LogCond) returns (valid: bool)
      requires Valid() && counter > 0 && b.argnum < MAX_LOGARGS && forall c :: c in b.list ==>
                 c in cmps && c.filter.pos == b.argnum
      modifies cmps
      ensures Valid() && valid == GroupMatches(b, args)
    {
      valid := false;
      for i := 0 to |b.list|
        invariant Valid() && !valid && forall k :: 0 <= k < i ==> !Matches(b.list[k].filter, args[b.argnum])
      {
        var c := b.list[i];
        assert c in cmps && c.Sound(counter, args);
        valid := c.CompareCondition(counter, args[b.argnum]);
        if valid {
          return;
        }
      }
    }

    lemma EventParts(e: CLogEvent)
      requires Valid() && e in AllEvents()
      ensures forall b :: b in e.filters ==> b.argnum < MAX_LOGARGS
      ensures forall b, c :: b in e.filters && c in b.list ==> c in cmps && c.filter.pos == b.argnum
      ensures (forall b :: b in e.filters ==> GroupMatches(b, args)) <==> Runs(e.registered, args)
    {
      assert e.Valid(cmps);
      forall b | b in e.filters ensures b.argnum < MAX_LOGARGS {
        assert b.list[0] in b.list && b.list[0] in cmps;
      }
      e.GroupsDecide(cmps, args);
    }

    method CheckEvent(e: CLogEvent) returns (valid: bool)
      requires Valid() && counter > 0 && e in AllEvents()
      modifies cmps
      ensures Valid() && valid == Runs(e.registered, args)
    {
      hide Valid, GroupsOk;
      EventParts(e);
      valid := CheckGroups(e.filters);
    }

    method CheckGroups(filters: seq<LogCond>) returns (valid: bool)
      requires Valid() && counter > 0 && forall b :: b in filters ==> b.argnum < MAX_LOGARGS
      requires forall b, c :: b in filters && c in b.list ==> c in cmps && c.filter.pos == b.argnum
      modifies cmps
      ensures Valid() && valid == forall b :: b in filters ==> GroupMatches(b, args)
    {
      valid := true;
      for i := 0 to |filters|
        invariant Valid() && valid && forall b :: b in filters[..i] ==> GroupMatches(b, args)
      {
        assert filters[i] in filters && filters[..i + 1] == filters[..i] + [filters[i]];
        valid := CheckCondition(filters[i]);
        if !valid {
          return;
        }
      }
      assert filters[..|filters|] == filters;
    }

    /** The current line: exactly those active events of its argument count run whose filtered positions
        all have a filter that matches, whatever the comparators remember. */
    method ExecuteLogEvents() returns (run: seq<CLogEvent>)
      requires Valid() && counter > 0
      modifies cmps
      ensures Valid() && run == Among(events[argc], set e | e in events[argc] && e.active && Runs(e.registered, args))
    {
      run := [];
      ghost var chosen := set e | e in events[argc] && e.active && Runs(e.registered, args);
      var list := events[argc];
      for i := 0 to |list|
        invariant Valid() && run == Among(list[..i], chosen)
      {
        assert list[..i + 1][..i] == list[..i];
        assert list[i] in events[argc] && list[i] in AllEvents();
        if list[i].active {
          var valid := CheckEvent(list[i]);
          if valid {
            run := run + [list[i]];
          }
        }
      }
      assert list[..|list|] == list;
      assert chosen == set e | e in events[argc] && e.active && Runs(e.registered, args);
    }
  }

  const Waited := Filter(5, false, "x")

  /** An event for lines of one argument that filters the sixth. */
  method Waiting() returns (mngr: LogEventsMngr, e: CLogEvent)
    ensures fresh(mngr) && mngr.Valid() && fresh(mngr.cmps) && mngr.args == seq(MAX_LOGARGS, _ => "")
    ensures mngr.events[1] == [e] && e.active && e.registered == {Waited}
  {
    mngr := new LogEventsMngr();
    var e' := mngr.RegisterLogEvent(1);
    e := e';
    assert e in mngr.AllEvents() by {
      assert e in mngr.events[1];
    }
    mngr.RegisterFilter(e, 5, false, "x");
    forall i | 0 <= i < |mngr.cmps| ensures fresh(mngr.cmps[i]) {
      assert mngr.cmps[i] in mngr.cmps;
    }
  }

  /** The line ["q"] does not have that argument. The event runs for it behind a line that had "x" there, and
      does not run without. */
  method EarlierLineDecides() returns (behind: nat, alone: nat)
    ensures behind == 1 && alone == 0
  {
    var mngr, e := Waiting();
    mngr.SetLogLine(["", "", "", "", "", "x"]);
    mngr.SetLogLine(["q"]);
    behind := RunCount(mngr, e);
    mngr, e := Waiting();
    mngr.SetLogLine(["q"]);
    alone := RunCount(mngr, e);
  }

  method RunCount(mngr: LogEventsMngr, e: CLogEvent) returns (n: nat)
    requires mngr.Valid() && mngr.counter > 0 && mngr.argc == 1
    requires mngr.events[1] == [e] && e.active && e.registered == {Waited}
    modifies mngr.cmps
    ensures n == if mngr.args[5] == "x" then 1 else 0
  {
    ghost var chosen := set e' | e' in mngr.events[1] && e'.active && Runs(e'.registered, mngr.args);
    assert Runs({Waited}, mngr.args) <==> mngr.args[5] == "x" by {
      assert Runs({Waited}, mngr.args) <==> PositionMatches({Waited}, mngr.args, 5);
      assert MatchedAt({Waited}, 5, mngr.args[5]) <==> Matches(Waited, mngr.args[5]);
    }
    assert [e][..0] == [];
    assert Among([e], chosen) == if e in chosen then [e] else [];
    var run := mngr.ExecuteLogEvents();
    n := |run|;
  }
}
