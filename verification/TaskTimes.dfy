/**
 When tasks are called (amxmodx/CTask.cpp).

 The frames that look at a task are steps of a run of the machine, each with a clock of its own. From the
 request alone follows at which of them the callback starts: this is what the laws here say, for every run.
 */
module TaskTimes {
  import opened Basics
  import opened Tasks
  import Forwards
  import NestedFrames

  // ---------- What a step does to one task ----------

  /** The loop of a frame looks at task i, which is pending and not in its callback. */
  predicate Visits(w: World, step: Step, i: nat) {
    && step.Continue? && w.frames != [] && Top(w.frames).Loop? && Top(w.frames).i == i && i < Top(w.frames).last
    && i < |w.tm.tasks| && !w.tm.tasks[i].free && !w.tm.tasks[i].inExec
  }

  /** The callback of task i returns. */
  predicate Returns(w: World, step: Step, i: nat) {
    step.Continue? && w.frames != [] && Top(w.frames).InTask? && Top(w.frames).i == i
  }

  /** The round of a task is over, and it goes on. */
  predicate NextRound(t: Task, t': Task) {
    && t' == t.(inExec := false, next := t.next + t.base, repeat := t'.repeat)
    && t.loop && t'.repeat == (if t.repeat == -1 then -1 else t.repeat - 1)
  }

  lemma RescheduledIs(t: Task)
    requires !t.free && !Returned(t).free
    ensures NextRound(t, Returned(t))
  {
  }

  lemma AddedBeside(tm: TaskMngr, t: Task, i: nat)
    requires i < |tm.tasks| && !tm.tasks[i].free
    ensures i < |AddTask(tm, t).tasks| && AddTask(tm, t).tasks[i] == tm.tasks[i]
  {
  }

  lemma AfterTaskAt(w: World, below: seq<Frame>, j: nat, last: nat, i: nat)
    requires j < |w.tm.tasks| && w.tm.depth > 0 && i < |AfterTask(w, below, j, last).tm.tasks|
    ensures i < |w.tm.tasks|
    ensures AfterTask(w, below, j, last).tm.tasks[i] == if i == j then Returned(w.tm.tasks[i]) else w.tm.tasks[i]
  {
    hide Returned;
  }

  lemma VisitAt(w: World, below: seq<Frame>, j: nat, last: nat, clock: Clock, executable: bool, i: nat)
    requires j < |w.tm.tasks| && w.tm.depth > 0 && i < |w.tm.tasks|
    requires i < |Visit(w, below, j, last, clock, executable).tm.tasks|
    ensures var t, t' := w.tm.tasks[i], Visit(w, below, j, last, clock, executable).tm.tasks[i];
            if i == j && !t.free && !t.inExec && Due(t, clock) then
              t' == (if WillCall(t) && Entered(w.fwd, t.func, executable).1 then t.(inExec := true) else Returned(t))
            else t' == t
  {
    hide AfterTask, Returned, Entered, Due, WillCall;
    var t := w.tm.tasks[j];
    if !t.free && !t.inExec && Due(t, clock) {
      if !WillCall(t) {
        AfterTaskAt(w, below, j, last, i);
      } else if !Entered(w.fwd, t.func, executable).1 {
        AfterTaskAt(w.(fwd := Entered(w.fwd, t.func, executable).0), below, j, last, i);
      }
    }
  }

  lemma Executing(w: World, pub: Forwards.Publics)
    requires WInv(w, pub) && w.frames != [] && Top(w.frames).InTask?
    ensures w.fwd.stack != [] && Forwards.ValidId(w.fwd.m, w.fwd.stack[|w.fwd.stack| - 1])
  {
    var n := |w.fwd.stack|;
    assert n > 0 && w.fwd.stack[n - 1] in w.fwd.stack;
  }

  /** Only a visit when it is due, its callback's return, and a change touch a task that stays. */
  lemma ContinueAt(w: World, pub: Forwards.Publics, clock: Clock, executable: bool, i: nat)
    requires WInv(w, pub) && Enabled(w, Continue(clock, executable)) && i < |w.tm.tasks|
    requires i < |AfterContinue(w, clock, executable).tm.tasks|
    ensures var t, t' := w.tm.tasks[i], AfterContinue(w, clock, executable).tm.tasks[i];
            if Returns(w, Continue(clock, executable), i) then t' == Returned(t)
            else if Visits(w, Continue(clock, executable), i) && Due(t, clock) then
              t' == (if WillCall(t) && Entered(w.fwd, t.func, executable).1 then t.(inExec := true) else Returned(t))
            else t' == t
  {
    hide Visit, AfterTask, Returned, Entered, Due, WillCall, NextAction, Left, FInv, Counts, HintOk;
    assert FrameOk(w.frames[|w.frames| - 1], true, |w.tm.tasks|);
    match Top(w.frames)
    case Loop(j, last) =>
      if j < last {
        VisitAt(w, Below(w.frames), j, last, clock, executable, i);
      }
    case InTask(j, last, fid) =>
      Executing(w, pub);
      AfterTaskAt(w.(fwd := Left(w.fwd)), Below(w.frames), j, last, i);
    case Acts(rest) =>
      if rest > 0 {
        ActsAt(w, rest, executable);
      }
    case InAction(rest, fid) =>
    case InOther(fid) =>
  }

  lemma ActsAt(w: World, rest: nat, executable: bool)
    requires w.frames != [] && rest > 0 && w.queue != []
    ensures NextAction(w, Below(w.frames), rest, executable).tm == w.tm
  {
  }

  lemma SetBeside(w: World, pub: Forwards.Publics, name: string, request: Request, now: real, i: nat)
    requires WInv(w, pub) && Enabled(w, SetTask(name, request, now)) && i < |w.tm.tasks| && !w.tm.tasks[i].free
    ensures i < |Next(w, pub, SetTask(name, request, now)).tm.tasks|
    ensures Next(w, pub, SetTask(name, request, now)).tm.tasks[i] == w.tm.tasks[i]
  {
    hide Forwards.Register, AddTask, NewTask, TInv, Ledger, TasksOk;
    var r := Forwards.Register(w.fwd.m, pub, Forwards.ByName(name), request.amx, SigOf(request.params));
    AddedBeside(w.tm, NewTask(r.1, request, now), i);
  }

  /** Another step leaves a task alone that is pending before and after it, unless it changes that task. */
  lemma OtherAt(w: World, pub: Forwards.Publics, step: Step, i: nat)
    requires WInv(w, pub) && Enabled(w, step) && !step.Continue?
    requires i < |w.tm.tasks| && !w.tm.tasks[i].free
    requires i < |Next(w, pub, step).tm.tasks| && !Next(w, pub, step).tm.tasks[i].free
    ensures Next(w, pub, step).tm.tasks[i]
         == if step.ChangeTasks? then ChangeOne(w.tm.tasks[i], step.id, step.amx, step.base, step.now)
           else w.tm.tasks[i]
  {
    hide WInv, Forwards.Register, AddTask, RemoveFirst, ChangeOne;
    match step
    case SetTask(name, request, now) => SetBeside(w, pub, name, request, now, i);
    case RemoveTasks(id, amx) => RemovedTask(w.tm, |w.tm.tasks|, id, amx, i);
    case _ =>
  }

  // ---------- A task from its request on ----------

  /** Step a has set the task in slot i. */
  ghost predicate SetAt(states: seq<World>, steps: seq<Step>, i: nat, a: nat) {
    && a < |steps| && |states| == |steps| + 1 && steps[a].SetTask?
    && i < |states[a + 1].tm.tasks| && !states[a + 1].tm.tasks[i].free
    && (i < |states[a].tm.tasks| ==> states[a].tm.tasks[i].free)
  }

  /** Since then the task has been pending, or in its callback. */
  ghost predicate Pending(states: seq<World>, i: nat, a: nat, k: nat)
    requires k < |states|
  {
    forall j {:trigger states[j]} :: a < j <= k ==> i < |states[j].tm.tasks| && !states[j].tm.tasks[i].free
  }

  /** No change of tasks has meant it. */
  ghost predicate Unchanged(steps: seq<Step>, a: nat, k: nat)
    requires a < k <= |steps| && steps[a].SetTask?
  {
    forall j {:trigger steps[j]} :: a < j < k && steps[j].ChangeTasks? ==>
      steps[j].id != steps[a].request.id || (steps[j].amx.Some? && steps[j].amx.value != steps[a].request.amx)
  }

  /** A run in which the task set by step a is still there, unchanged, before step k. */
  ghost predicate Follows(states: seq<World>, steps: seq<Step>, pub: Forwards.Publics, i: nat, a: nat, k: nat) {
    && IsRun(states, steps, pub) && WInv(states[0], pub) && SetAt(states, steps, i, a)
    && a < k < |states| && Pending(states, i, a, k) && Unchanged(steps, a, k)
  }

  /** The time that a request asks for after n rounds has come. */
  predicate Came(r: Request, setAt: real, n: nat, c: Clock) {
    if HasFlag(r.flags, 4) then c.now >= c.left + r.base - 1.0
    else if HasFlag(r.flags, 8) then c.limit != 0.0 && c.now >= c.left + c.limit * 60.0 - r.base - 1.0
    else c.now >= setAt + (n + 1) as real * r.base
  }

  /** The rounds of the task before step k: the visits at which its time had come. */
  ghost function Rounds(states: seq<World>, steps: seq<Step>, i: nat, a: nat, k: nat): nat
    requires a < k <= |steps| < |states| && steps[a].SetTask?
  {
    if k == a + 1 then 0
    else
      var n := Rounds(states, steps, i, a, k - 1);
      if Visits(states[k - 1], steps[k - 1], i)
         && Came(steps[a].request, steps[a].now, n, steps[k - 1].clock) then n + 1 else n
  }

  predicate Endless(r: Request) {
    HasFlag(r.flags, 2) || (HasFlag(r.flags, 1) && r.repeat == -1)
  }

  /** A pending task after n rounds, the last of which it may still be in. */
  predicate Timed(t: Task, r: Request, setAt: real, n: nat) {
    && !t.free && t.amx == r.amx && t.id == r.id && t.base == r.base
    && t.afterStart == HasFlag(r.flags, 4) && t.beforeEnd == HasFlag(r.flags, 8)
    && t.loop == (HasFlag(r.flags, 1) || HasFlag(r.flags, 2))
    && (t.inExec ==> n > 0)
    && var done := if t.inExec then n - 1 else n;
       && t.next == setAt + (done + 1) as real * r.base
       && (t.loop ==> t.repeat == if Endless(r) then -1 else r.repeat - done)
       && (done > 0 ==> t.loop && (Endless(r) || t.repeat > 0))
  }

  lemma TimedAtFirst(func: int, r: Request, now: real)
    ensures Timed(NewTask(func, r, now), r, now, 0)
  {
  }

  lemma DueWhenCame(t: Task, r: Request, setAt: real, n: nat, clock: Clock)
    requires Timed(t, r, setAt, n) && !t.inExec
    ensures Due(t, clock) <==> Came(r, setAt, n, clock)
    ensures !WillCall(t) ==> !Endless(r) && n == 0 && r.repeat == 0
  {
  }

  lemma TimedReturned(t: Task, r: Request, setAt: real, n: nat)
    requires Timed(t, r, setAt, n) && !Returned(t).free
    ensures Timed(Returned(t), r, setAt, if t.inExec then n else n + 1)
  {
    RescheduledIs(t);
    OneMore(setAt, r.base, if t.inExec then n else n + 1);
  }

  lemma ContinueTimed(w: World, pub: Forwards.Publics, clock: Clock, executable: bool, i: nat, r: Request, setAt: real,
                      n: nat)
    requires WInv(w, pub) && Enabled(w, Continue(clock, executable)) && i < |w.tm.tasks|
    requires i < |AfterContinue(w, clock, executable).tm.tasks|
    requires Timed(w.tm.tasks[i], r, setAt, n) && !AfterContinue(w, clock, executable).tm.tasks[i].free
    ensures Timed(AfterContinue(w, clock, executable).tm.tasks[i], r, setAt,
                  if Visits(w, Continue(clock, executable), i) && Came(r, setAt, n, clock) then n + 1 else n)
  {
    hide FInv, Counts, HintOk, AfterContinue, Returned, Due, WillCall, Entered, Came, Enabled, NewTask;
    var t := w.tm.tasks[i];
    ContinueAt(w, pub, clock, executable, i);
    if Returns(w, Continue(clock, executable), i) {
      MarkedTop(w.tm, w.frames);
      TimedReturned(t, r, setAt, n);
    } else if Visits(w, Continue(clock, executable), i) {
      DueWhenCame(t, r, setAt, n, clock);
      if Due(t, clock) && !(WillCall(t) && Entered(w.fwd, t.func, executable).1) {
        TimedReturned(t, r, setAt, n);
      }
    }
  }

  lemma ChangeMisses(t: Task, id: int, amx: Option<Forwards.Amx>, base: real, now: real)
    requires id != t.id || (amx.Some? && amx.value != t.amx)
    ensures ChangeOne(t, id, amx, base, now) == t
  {
  }

  lemma TimedStep(w: World, pub: Forwards.Publics, step: Step, i: nat, r: Request, setAt: real, n: nat)
    requires WInv(w, pub) && Enabled(w, step) && i < |w.tm.tasks| && i < |Next(w, pub, step).tm.tasks|
    requires Timed(w.tm.tasks[i], r, setAt, n) && !Next(w, pub, step).tm.tasks[i].free
    requires step.ChangeTasks? ==> step.id != r.id || (step.amx.Some? && step.amx.value != r.amx)
    ensures Timed(Next(w, pub, step).tm.tasks[i], r, setAt,
                  if Visits(w, step, i) && Came(r, setAt, n, step.clock) then n + 1 else n)
  {
    hide FInv, Counts, HintOk, AfterContinue, Returned, Due, WillCall, Entered, Came, Enabled, ChangeOne;
    if step.Continue? {
      ContinueTimed(w, pub, step.clock, step.executable, i, r, setAt, n);
    } else {
      OtherAt(w, pub, step, i);
      if step.ChangeTasks? {
        ChangeMisses(w.tm.tasks[i], step.id, step.amx, step.base, step.now);
      }
    }
  }

  lemma TimedSet(w: World, pub: Forwards.Publics, step: Step, i: nat)
    requires WInv(w, pub) && Enabled(w, step) && step.SetTask? && i < |Next(w, pub, step).tm.tasks|
    requires (i < |w.tm.tasks| ==> w.tm.tasks[i].free) && !Next(w, pub, step).tm.tasks[i].free
    ensures Timed(Next(w, pub, step).tm.tasks[i], step.request, step.now, 0)
  {
    hide FInv, Counts, HintOk, Forwards.Register, NewTask;
    var r := Registering(w, pub, step);
    TimedAtFirst(r.1, step.request, step.now);
  }

  lemma Registering(w: World, pub: Forwards.Publics, step: Step) returns (r: (Forwards.Mngr, int))
    requires WInv(w, pub) && Enabled(w, step) && step.SetTask?
    ensures Next(w, pub, step) == AfterSet(w, r, step.request, step.now)
  {
    r := Forwards.Register(w.fwd.m, pub, Forwards.ByName(step.name), step.request.amx, SigOf(step.request.params));
  }

  /** Along the run the task is the one of the request, after the rounds at which its time had come. */
  lemma {:induction false} RunKeepsTimed(states: seq<World>, steps: seq<Step>, pub: Forwards.Publics, i: nat, a: nat,
                                         k: nat)
    requires Follows(states, steps, pub, i, a, k)
    ensures Timed(states[k].tm.tasks[i], steps[a].request, steps[a].now, Rounds(states, steps, i, a, k))
  {
    hide WInv, Next, Enabled, Came, Timed, Visits;
    RunFromKeepsWInv(states, steps, pub, k - 1);
    var w, step := states[k - 1], steps[k - 1];
    assert Leads(w, states[k], pub, step) && i < |states[k].tm.tasks| && !states[k].tm.tasks[i].free;
    if k == a + 1 {
      TimedSet(w, pub, step, i);
    } else {
      assert i < |w.tm.tasks| && !w.tm.tasks[i].free;
      RunKeepsTimed(states, steps, pub, i, a, k - 1);
      TimedStep(w, pub, step, i, steps[a].request, steps[a].now, Rounds(states, steps, i, a, k - 1));
    }
  }

  // ---------- When the callback starts ----------

  /** Step j starts the callback of task i. */
  ghost predicate Calls(w: World, w': World, step: Step, i: nat) {
    && Visits(w, step, i)
    && w'.frames == Below(w.frames) + [InTask(i, Top(w.frames).last, w.tm.tasks[i].func)]
    && w'.fwd.stack == w.fwd.stack + [w.tm.tasks[i].func]
  }

  /** How often the callback has started since the task was set. */
  ghost function CallCount(states: seq<World>, steps: seq<Step>, i: nat, a: nat, k: nat): nat
    requires a < k <= |steps| < |states|
  {
    if k == a + 1 then 0
    else CallCount(states, steps, i, a, k - 1)
         + (if Calls(states[k - 1], states[k], steps[k - 1], i) then 1 else 0)
  }

  /** The plugin ran whenever a frame looked at the task. */
  ghost predicate PluginRan(states: seq<World>, steps: seq<Step>, i: nat, a: nat, k: nat)
    requires a < k <= |steps| < |states|
  {
    forall j {:trigger steps[j]} :: a < j < k && Visits(states[j], steps[j], i) ==> steps[j].executable
  }

  /** The request asks for a loop of no rounds. */
  predicate Never(r: Request) {
    HasFlag(r.flags, 1) && !HasFlag(r.flags, 2) && r.repeat == 0
  }

  lemma EnteredIff(w: World, pub: Forwards.Publics, i: nat, executable: bool)
    requires WInv(w, pub) && i < |w.tm.tasks| && !w.tm.tasks[i].free
    ensures Entered(w.fwd, w.tm.tasks[i].func, executable).1 <==> executable
    ensures Entered(w.fwd, w.tm.tasks[i].func, true).0.stack == w.fwd.stack + [w.tm.tasks[i].func]
  {
    NestedFrames.ForwardRuns(w, pub, i);
  }

  lemma AfterTaskFrames(w: World, below: seq<Frame>, i: nat, last: nat)
    requires i < |w.tm.tasks| && w.tm.depth > 0
    ensures AfterTask(w, below, i, last).frames in [below, below + [Loop(i + 1, last)]]
  {
  }

  lemma VisitCalls(w: World, below: seq<Frame>, i: nat, last: nat, clock: Clock, executable: bool)
    requires i < |w.tm.tasks| && w.tm.depth > 0 && !w.tm.tasks[i].free && !w.tm.tasks[i].inExec
    requires Entered(w.fwd, w.tm.tasks[i].func, executable).1 <==> executable
    ensures var t, w' := w.tm.tasks[i], Visit(w, below, i, last, clock, executable);
            if Due(t, clock) && WillCall(t) && executable then
              w'.frames == below + [InTask(i, last, t.func)] && w'.fwd == Entered(w.fwd, t.func, true).0
            else
              w'.frames in [below, below + [Loop(i + 1, last)]]
              && (!Due(t, clock) && !w.tm.deferred ==> w' == w.(frames := below + [Loop(i + 1, last)]))
  {
    hide AfterTask, Due, WillCall, Entered;
    var t := w.tm.tasks[i];
    if Due(t, clock) && !WillCall(t) {
      AfterTaskFrames(w, below, i, last);
    } else if Due(t, clock) && !executable {
      AfterTaskFrames(w.(fwd := Entered(w.fwd, t.func, executable).0), below, i, last);
    }
  }

  lemma StartsIff(w: World, pub: Forwards.Publics, step: Step, i: nat)
    requires WInv(w, pub) && Enabled(w, step) && Visits(w, step, i)
    ensures Calls(w, Next(w, pub, step), step, i)
       <==> Due(w.tm.tasks[i], step.clock) && WillCall(w.tm.tasks[i]) && step.executable
    ensures !Due(w.tm.tasks[i], step.clock) && !w.tm.deferred ==>
              Next(w, pub, step) == w.(frames := Below(w.frames) + [Loop(i + 1, Top(w.frames).last)])
  {
    hide Visit, FInv, Counts, HintOk, Due, WillCall, Entered;
    EnteredIff(w, pub, i, step.executable);
    VisitCalls(w, Below(w.frames), i, Top(w.frames).last, step.clock, step.executable);
    assert Next(w, pub, step) == Visit(w, Below(w.frames), i, Top(w.frames).last, step.clock, step.executable);
    var below, last := Below(w.frames), Top(w.frames).last;
    var called := below + [InTask(i, last, w.tm.tasks[i].func)];
    assert called != below && (below + [Loop(i + 1, last)])[|below|] != called[|below|];
  }

  /** A task of no rounds is freed when it is due. */
  lemma NeverEnds(w: World, pub: Forwards.Publics, step: Step, i: nat, r: Request, setAt: real, n: nat)
    requires WInv(w, pub) && Enabled(w, step) && Visits(w, step, i) && Timed(w.tm.tasks[i], r, setAt, n)
    requires Came(r, setAt, n, step.clock) && Never(r)
    ensures i < |Next(w, pub, step).tm.tasks| ==> Next(w, pub, step).tm.tasks[i].free
  {
    hide FInv, Counts, HintOk, AfterContinue, Due, Came, Entered, Enabled;
    if i < |Next(w, pub, step).tm.tasks| {
      ContinueAt(w, pub, step.clock, step.executable, i);
      DueWhenCame(w.tm.tasks[i], r, setAt, n, step.clock);
    }
  }

  lemma VisitIsStep(w: World, step: Step, i: nat)
    ensures Visits(w, step, i) ==> step.Continue?
  {
  }

  lemma NoVisitNoCall(w: World, w': World, step: Step, i: nat)
    ensures !Visits(w, step, i) ==> !Calls(w, w', step, i)
  {
  }

  lemma RoundCalls(w: World, pub: Forwards.Publics, step: Step, i: nat, r: Request, setAt: real, n: nat)
    requires WInv(w, pub) && Enabled(w, step) && Visits(w, step, i) && Timed(w.tm.tasks[i], r, setAt, n)
    ensures Calls(w, Next(w, pub, step), step, i) <==> Came(r, setAt, n, step.clock) && !Never(r) && step.executable
    ensures !Came(r, setAt, n, step.clock) && !w.tm.deferred ==>
              Next(w, pub, step) == w.(frames := Below(w.frames) + [Loop(i + 1, Top(w.frames).last)])
  {
    hide WInv, Next, Enabled, Came;
    StartsIff(w, pub, step, i);
    DueWhenCame(w.tm.tasks[i], r, setAt, n, step.clock);
  }

  lemma RoundIsCall(w: World, pub: Forwards.Publics, step: Step, i: nat, r: Request, setAt: real, n: nat)
    requires WInv(w, pub) && Enabled(w, step) && i < |w.tm.tasks| && Timed(w.tm.tasks[i], r, setAt, n)
    requires i < |Next(w, pub, step).tm.tasks| && !Next(w, pub, step).tm.tasks[i].free
    requires Visits(w, step, i) ==> step.executable
    ensures Visits(w, step, i) && Came(r, setAt, n, step.clock) <==> Calls(w, Next(w, pub, step), step, i)
  {
    hide WInv, Next, Enabled, Came, Timed, Visits, Calls;
    VisitIsStep(w, step, i);
    if Visits(w, step, i) {
      RoundCalls(w, pub, step, i, r, setAt, n);
      if Came(r, setAt, n, step.clock) && Never(r) {
        NeverEnds(w, pub, step, i, r, setAt, n);
      }
    } else {
      NoVisitNoCall(w, Next(w, pub, step), step, i);
    }
  }

  /** Every round starts the callback, if the plugin always runs. */
  lemma {:induction false} RoundsAreCalls(states: seq<World>, steps: seq<Step>, pub: Forwards.Publics, i: nat, a: nat,
                                          k: nat)
    requires Follows(states, steps, pub, i, a, k) && PluginRan(states, steps, i, a, k)
    ensures Rounds(states, steps, i, a, k) == CallCount(states, steps, i, a, k)
  {
    hide WInv, Next, Enabled, Came, Timed, Visits, Calls;
    if k > a + 1 {
      RoundsAreCalls(states, steps, pub, i, a, k - 1);
      RunFromKeepsWInv(states, steps, pub, k - 1);
      RunKeepsTimed(states, steps, pub, i, a, k - 1);
      assert Leads(states[k - 1], states[k], pub, steps[k - 1]);
      assert i < |states[k].tm.tasks| && !states[k].tm.tasks[i].free && i < |states[k - 1].tm.tasks|;
      RoundIsCall(states[k - 1], pub, steps[k - 1], i, steps[a].request, steps[a].now,
                  Rounds(states, steps, i, a, k - 1));
    }
  }


  /** A task set without a time flag: a frame that looks at it starts its callback if and only if the interval has
      passed once more than the callback has started before, counted from the time it was set. No call comes
      earlier, and the first frame at or past that time makes it. */
  lemma CalledAtIntervals(states: seq<World>, steps: seq<Step>, pub: Forwards.Publics, i: nat, a: nat, k: nat)
    requires Follows(states, steps, pub, i, a, k) && k < |steps| && PluginRan(states, steps, i, a, k)
    requires Visits(states[k], steps[k], i)
    requires !HasFlag(steps[a].request.flags, 4) && !HasFlag(steps[a].request.flags, 8)
    ensures var r, c := steps[a].request, steps[k].clock;
            var due := c.now >= steps[a].now + (CallCount(states, steps, i, a, k) + 1) as real * r.base;
            && (Calls(states[k], states[k + 1], steps[k], i) <==> due && steps[k].executable && !Never(r))
            && (!due && !states[k].tm.deferred ==> states[k + 1].tm == states[k].tm)
  {
    hide WInv, Next, Enabled, Timed, Visits, Calls;
    CalledWhenCame(states, steps, pub, i, a, k);
    RoundsAreCalls(states, steps, pub, i, a, k);
  }

  lemma CalledWhenCame(states: seq<World>, steps: seq<Step>, pub: Forwards.Publics, i: nat, a: nat, k: nat)
    requires Follows(states, steps, pub, i, a, k) && k < |steps| && Visits(states[k], steps[k], i)
    ensures var r, c := steps[a].request, steps[k].clock;
            var came := Came(r, steps[a].now, Rounds(states, steps, i, a, k), c);
            && (Calls(states[k], states[k + 1], steps[k], i) <==> came && steps[k].executable && !Never(r))
            && (!came && !states[k].tm.deferred ==> states[k + 1].tm == states[k].tm)
  {
    hide WInv, Next, Enabled, Came, Timed, Visits, Calls;
    RunFromKeepsWInv(states, steps, pub, k);
    RunKeepsTimed(states, steps, pub, i, a, k);
    assert Leads(states[k], states[k + 1], pub, steps[k]);
    RoundCalls(states[k], pub, steps[k], i, steps[a].request, steps[a].now, Rounds(states, steps, i, a, k));
  }

  /** A task for the time after the start of the map is called by every frame from one second before the interval
      on, counted from that start. */
  lemma CalledAfterStart(states: seq<World>, steps: seq<Step>, pub: Forwards.Publics, i: nat, a: nat, k: nat)
    requires Follows(states, steps, pub, i, a, k) && k < |steps| && Visits(states[k], steps[k], i)
    requires HasFlag(steps[a].request.flags, 4)
    ensures var r, c := steps[a].request, steps[k].clock;
            var due := c.now >= c.left + r.base - 1.0;
            && (Calls(states[k], states[k + 1], steps[k], i) <==> due && steps[k].executable && !Never(r))
            && (!due && !states[k].tm.deferred ==> states[k + 1].tm == states[k].tm)
  {
    hide WInv, Next, Enabled, Timed, Visits, Calls;
    CalledWhenCame(states, steps, pub, i, a, k);
  }

  /** A task for the time before the end of the map is called by every frame from one second and the interval before
      the limit on, which counts in minutes from the start; without a limit it is never called. */
  lemma CalledBeforeEnd(states: seq<World>, steps: seq<Step>, pub: Forwards.Publics, i: nat, a: nat, k: nat)
    requires Follows(states, steps, pub, i, a, k) && k < |steps| && Visits(states[k], steps[k], i)
    requires !HasFlag(steps[a].request.flags, 4) && HasFlag(steps[a].request.flags, 8)
    ensures var r, c := steps[a].request, steps[k].clock;
            var due := c.limit != 0.0 && c.now >= c.left + 60.0 * c.limit - r.base - 1.0;
            && (Calls(states[k], states[k + 1], steps[k], i) <==> due && steps[k].executable && !Never(r))
            && (!due && !states[k].tm.deferred ==> states[k + 1].tm == states[k].tm)
  {
    hide WInv, Next, Enabled, Timed, Visits, Calls;
    CalledWhenCame(states, steps, pub, i, a, k);
  }

  /** When its callback returns, a task is over if it was set for one call, or has had the calls it was set for. */
  lemma EndsAfterLastCall(states: seq<World>, steps: seq<Step>, pub: Forwards.Publics, i: nat, a: nat, k: nat)
    requires Follows(states, steps, pub, i, a, k) && k < |steps| && PluginRan(states, steps, i, a, k)
    requires Returns(states[k], steps[k], i)
    ensures var r := steps[a].request;
            && i < |states[k + 1].tm.tasks|
            && (states[k + 1].tm.tasks[i].free
                <==> !Endless(r) && (HasFlag(r.flags, 1) ==> CallCount(states, steps, i, a, k) >= r.repeat))
  {
    hide WInv, Next, Enabled, Timed, Visits, Calls;
    RunFromKeepsWInv(states, steps, pub, k);
    RunKeepsTimed(states, steps, pub, i, a, k);
    RoundsAreCalls(states, steps, pub, i, a, k);
    assert Leads(states[k], states[k + 1], pub, steps[k]);
    ReturnEnds(states[k], pub, steps[k], i, steps[a].request, steps[a].now, Rounds(states, steps, i, a, k));
  }

  lemma ReturnEnds(w: World, pub: Forwards.Publics, step: Step, i: nat, r: Request, setAt: real, n: nat)
    requires WInv(w, pub) && Enabled(w, step) && i < |w.tm.tasks| && Timed(w.tm.tasks[i], r, setAt, n)
    requires Returns(w, step, i)
    ensures i < |Next(w, pub, step).tm.tasks|
    ensures Next(w, pub, step).tm.tasks[i].free <==> !Endless(r) && (HasFlag(r.flags, 1) ==> n >= r.repeat)
  {
    hide FInv, HintOk, AfterTask, Returned;
    MarkedTop(w.tm, w.frames);
    Executing(w, pub);
    assert w.tm.tasks[i].inExec && !w.tm.deferred;
    StaysOpen(w.(fwd := Left(w.fwd)), Below(w.frames), i, Top(w.frames).last);
    AfterTaskAt(w.(fwd := Left(w.fwd)), Below(w.frames), i, Top(w.frames).last, i);
    ReturnedFree(w.tm.tasks[i], r, setAt, n);
  }

  lemma StaysOpen(w: World, below: seq<Frame>, i: nat, last: nat)
    requires i < |w.tm.tasks| && w.tm.depth > 0 && !w.tm.deferred
    ensures |AfterTask(w, below, i, last).tm.tasks| == |w.tm.tasks|
  {
  }

  lemma ReturnedFree(t: Task, r: Request, setAt: real, n: nat)
    requires Timed(t, r, setAt, n) && t.inExec
    ensures Returned(t).free <==> !Endless(r) && (HasFlag(r.flags, 1) ==> n >= r.repeat)
  {
  }

  // ---------- Every frame looks at every task ----------

  /** The loop of the frame at depth d is about to look at task x. */
  ghost predicate LooksAt(w: World, step: Step, d: nat, x: nat) {
    && step.Continue? && |w.frames| == d + 1 && w.frames[d].Loop? && w.frames[d].i == x && x < w.frames[d].last
  }

  /** What may stand in the place of the topmost frame f after it has gone on. */
  predicate Follower(f: Frame, g: Frame) {
    && (f.Loop? ==> f.i < f.last && (g == Loop(f.i + 1, f.last) || (g.InTask? && g.i == f.i && g.last == f.last)))
    && (f.InTask? ==> g == Loop(f.i + 1, f.last))
  }

  lemma VisitFollows(w: World, below: seq<Frame>, i: nat, last: nat, clock: Clock, executable: bool) returns (g: Frame)
    requires i < |w.tm.tasks| && w.tm.depth > 0 && i < last
    ensures Follower(Loop(i, last), g)
    ensures var frames := Visit(w, below, i, last, clock, executable).frames;
            frames == below + [g] || (frames == below && w.tm.deferred)
  {
    hide Due, WillCall, Entered, Returned;
    var t := w.tm.tasks[i];
    g := if !t.free && !t.inExec && Due(t, clock) && WillCall(t) && Entered(w.fwd, t.func, executable).1
         then InTask(i, last, t.func) else Loop(i + 1, last);
  }

  /** The control stack changes at its top only, and a loop goes on with its next task until it is through or a
      deferred clear ends it. */
  predicate Moves(w: World, step: Step, frames': seq<Frame>, g: Frame) {
    if !step.Continue? then frames' == w.frames || frames' == w.frames + [g]
    else
      && w.frames != []
      && var f := Top(w.frames);
         || (frames' == Below(w.frames) && (f.Loop? || f.InTask? ==> w.tm.deferred || (f.Loop? && f.i == f.last)))
         || (frames' == Below(w.frames) + [g] && Follower(f, g))
  }

  lemma ReturnFollows(w: World, below: seq<Frame>, i: nat, last: nat)
    requires i < |w.tm.tasks| && w.tm.depth > 0
    ensures AfterTask(w, below, i, last).frames == if w.tm.deferred then below else below + [Loop(i + 1, last)]
  {
  }

  lemma ContinueMoves(w: World, pub: Forwards.Publics, clock: Clock, executable: bool) returns (g: Frame)
    requires WInv(w, pub) && Enabled(w, Continue(clock, executable))
    ensures Moves(w, Continue(clock, executable), AfterContinue(w, clock, executable).frames, g)
  {
    hide Visit, AfterTask, NextAction, Left, FInv, Counts, HintOk;
    assert FrameOk(w.frames[|w.frames| - 1], true, |w.tm.tasks|);
    g := Top(w.frames);
    match Top(w.frames)
    case Loop(i, last) =>
      if i < last {
        g := VisitFollows(w, Below(w.frames), i, last, clock, executable);
      }
    case InTask(i, last, fid) =>
      Executing(w, pub);
      ReturnFollows(w.(fwd := Left(w.fwd)), Below(w.frames), i, last);
      g := Loop(i + 1, last);
    case Acts(rest) =>
      if rest > 0 {
        g := ActsFollows(w, rest, executable);
      }
    case InAction(rest, fid) => g := Acts(rest);
    case InOther(fid) =>
  }

  lemma ActsFollows(w: World, rest: nat, executable: bool) returns (g: Frame)
    requires w.frames != [] && Top(w.frames) == Acts(rest) && rest > 0 && w.queue != []
    ensures Follower(Top(w.frames), g)
            && NextAction(w, Below(w.frames), rest, executable).frames == Below(w.frames) + [g]
  {
    g := if Entered(w.fwd, w.queue[0], executable).1 then InAction(rest - 1, w.queue[0]) else Acts(rest - 1);
  }

  lemma StepMoves(w: World, pub: Forwards.Publics, step: Step) returns (g: Frame)
    requires WInv(w, pub) && Enabled(w, step)
    ensures Moves(w, step, Next(w, pub, step).frames, g)
  {
    hide WInv, AfterContinue, OtherStep, Forwards.Register, ReleaseAll, RemoveFirst, AddTask, Follower;
    g := Acts(|w.queue|);
    match step
    case Continue(clock, executable) => g := ContinueMoves(w, pub, clock, executable);
    case StartFrame => g := Loop(0, |w.tm.tasks|);
    case Other(other) => g := OtherMoves(w, pub, other);
    case _ =>
  }

  lemma OtherMoves(w: World, pub: Forwards.Publics, other: Forwards.Step) returns (g: Frame)
    requires WInv(w, pub) && Enabled(w, Other(other))
    ensures OtherStep(w, pub, other).frames in [w.frames, w.frames + [g]]
  {
    hide WInv, Forwards.Next, Entered;
    g := if other.DoEnter? then InOther(other.id) else Acts(0);
  }

  /** The loop of the frame at depth d, in its order, has come as far as its position says. */
  ghost predicate Advanced(states: seq<World>, steps: seq<Step>, d: nat, s: nat, j: nat, last: nat)
    requires s < j < |states| == |steps| + 1
  {
    && |states[j].frames| > d
    && var f := states[j].frames[d];
       && (f.Loop? || f.InTask?) && f.last == last
       && forall x: nat {:trigger Looked(states, steps, d, s, j, x)} :: x < f.i || (f.InTask? && x == f.i) ==>
            Looked(states, steps, d, s, j, x)
  }

  ghost predicate Looked(states: seq<World>, steps: seq<Step>, d: nat, s: nat, j: nat, x: nat)
    requires j < |states| == |steps| + 1
  {
    exists m {:trigger steps[m]} :: s < m < j && LooksAt(states[m], steps[m], d, x)
  }

  lemma {:induction false} LoopAdvances(states: seq<World>, steps: seq<Step>, pub: Forwards.Publics, d: nat, s: nat,
                                        j: nat,
                                        last: nat)
    requires IsRun(states, steps, pub) && WInv(states[0], pub) && s < j < |states|
    requires states[s + 1].frames == states[s].frames + [Loop(0, last)] && |states[s].frames| == d
    requires forall m {:trigger states[m]} :: s < m <= j ==> |states[m].frames| > d
    ensures Advanced(states, steps, d, s, j, last)
  {
    hide WInv, Next, Enabled, Looked;
    if j == s + 1 {
      FirstAdvance(states[j], states[s].frames, last, d);
    } else {
      LoopAdvances(states, steps, pub, d, s, j - 1, last);
      RunFromKeepsWInv(states, steps, pub, j - 1);
      assert Leads(states[j - 1], states[j], pub, steps[j - 1]);
      assert |states[j].frames| > d;
      var g := StepMoves(states[j - 1], pub, steps[j - 1]);
      forall x: nat {:trigger Looked(states, steps, d, s, j, x)}
        | x < states[j].frames[d].i || (states[j].frames[d].InTask? && x == states[j].frames[d].i)
        ensures Looked(states, steps, d, s, j, x)
      {
        LookedNow(states, steps, d, s, j - 1, j, x);
      }
    }
  }

  lemma LookedNow(states: seq<World>, steps: seq<Step>, d: nat, s: nat, j: nat, next: nat, x: nat)
    requires s < j && next == j + 1 && next < |states| == |steps| + 1
    requires Looked(states, steps, d, s, j, x) || LooksAt(states[j], steps[j], d, x)
    ensures Looked(states, steps, d, s, next, x)
  {
  }

  lemma FirstAdvance(w: World, below: seq<Frame>, last: nat, d: nat)
    requires w.frames == below + [Loop(0, last)] && |below| == d
    ensures |w.frames| > d && w.frames[d] == Loop(0, last)
  {
  }

  /** A frame looks at every task there was when it began, in order, unless a clear is deferred in it. */
  lemma FrameLooksAtAll(states: seq<World>, steps: seq<Step>, pub: Forwards.Publics, s: nat, e: nat, x: nat)
    requires IsRun(states, steps, pub) && WInv(states[0], pub) && s < e < |steps|
    requires steps[s].StartFrame? && states[s].tm.active > 0 && x < |states[s].tm.tasks|
    requires forall m {:trigger states[m]} :: s < m <= e ==> |states[m].frames| > |states[s].frames|
    requires |states[e + 1].frames| <= |states[s].frames| && !states[e].tm.deferred
    ensures exists m {:trigger steps[m]} :: s < m < e && LooksAt(states[m], steps[m], |states[s].frames|, x)
  {
    hide WInv, Enabled, AfterContinue;
    var d, last := |states[s].frames|, |states[s].tm.tasks|;
    RunFromKeepsWInv(states, steps, pub, s);
    assert Leads(states[s], states[s + 1], pub, steps[s]);
    LoopAdvances(states, steps, pub, d, s, e, last);
    RunFromKeepsWInv(states, steps, pub, e);
    assert Leads(states[e], states[e + 1], pub, steps[e]);
    var g := StepMoves(states[e], pub, steps[e]);
    assert Looked(states, steps, d, s, e, x);
  }

  // ---------- Setting, changing and removing ----------

  function Bit(b: bool): nat {
    if b then 1 else 0
  }

  lemma BitAt(low: nat, b: bool, high: nat)
    ensures (Bit(b) + 2 * high) % 2 == Bit(b) && (Bit(b) + 2 * high) / 2 == high
    ensures low < 2 ==> (low + 2 * high) / 2 == high
    ensures low < 4 ==> (low + 4 * high) / 4 == high
    ensures low < 8 ==> (low + 8 * high) / 8 == high
  {
  }

  /** A number of flags is the sum of their bits. */
  lemma FlagsAreBits(a: bool, b: bool, c: bool, d: bool, above: nat)
    ensures var flags := Bit(a) + 2 * Bit(b) + 4 * Bit(c) + 8 * Bit(d) + 16 * above;
            HasFlag(flags, 1) == a && HasFlag(flags, 2) == b && HasFlag(flags, 4) == c && HasFlag(flags, 8) == d
  {
    var d1 := Bit(d) + 2 * above;
    var c1 := Bit(c) + 2 * d1;
    var b1 := Bit(b) + 2 * c1;
    BitAt(Bit(a), a, b1);
    BitAt(Bit(a) + 2 * Bit(b), b, c1);
    BitAt(Bit(a) + 2 * Bit(b) + 4 * Bit(c), c, d1);
    BitAt(0, d, above);
  }

  /** The function of a plugin, as a forward that takes the parameters of a task. */
  ghost predicate CallsFunction(m: Forwards.Mngr, fid: int, pub: Forwards.Publics, name: string, r: Request) {
    && Forwards.ValidId(m, fid)
    && var slot := Forwards.SlotOf(m, fid);
       && slot.amx == r.amx && 0 <= slot.func < |pub(r.amx)| && pub(r.amx)[slot.func] == name
       && slot.sig == (if r.params == [] then [FP_CELL] else [FP_ARRAY, FP_CELL])
  }

  lemma RegisteringGives(w: World, pub: Forwards.Publics, name: string, request: Request, now: real)
    returns (r: (Forwards.Mngr, int))
    requires WInv(w, pub) && CanCall(w.frames) && name in pub(request.amx) && name != ""
    ensures Next(w, pub, SetTask(name, request, now)) == AfterSet(w, r, request, now)
    ensures r.1 != -1 && CallsFunction(r.0, r.1, pub, name, request)
  {
    hide TInv, Ledger, TasksOk;
    r := Forwards.Register(w.fwd.m, pub, Forwards.ByName(name), request.amx, SigOf(request.params));
    Forwards.RegisterGivesFunction(w.fwd, pub, Forwards.ByName(name), request.amx, SigOf(request.params));
  }

  /** A slot that neither holds a pending task nor one in its callback is the first of this kind. */
  ghost predicate FirstUnused(tasks: seq<Task>, i: nat) {
    && (forall j {:trigger tasks[j]} :: 0 <= j < i && j < |tasks| ==> !tasks[j].free || tasks[j].inExec)
    && i <= |tasks| && (i < |tasks| ==> tasks[i].free && !tasks[i].inExec)
  }

  lemma AddGives(tm: TaskMngr, t: Task) returns (i: nat)
    requires HintOk(tm)
    ensures FirstUnused(tm.tasks, i)
    ensures AddTask(tm, t).tasks == if i < |tm.tasks| then tm.tasks[i := t] else tm.tasks + [t]
  {
    i := FirstReusable(tm.tasks, 0);
    HintedScan(tm, 0);
  }

  /** A task set for a public function takes the first unused slot. It waits for its interval and calls that function
      of its plugin, with its parameters if it has any. */
  lemma SetTaskGives(w: World, pub: Forwards.Publics, name: string, request: Request, now: real)
    returns (i: nat, t: Task)
    requires WInv(w, pub) && CanCall(w.frames) && name in pub(request.amx) && name != ""
    ensures FirstUnused(w.tm.tasks, i) && Timed(t, request, now, 0) && !t.inExec
    ensures t.params == if request.params == [] then [] else request.params + [0]
    ensures var w' := Next(w, pub, SetTask(name, request, now));
            && w'.tm.tasks == (if i < |w.tm.tasks| then w.tm.tasks[i := t] else w.tm.tasks + [t])
            && CallsFunction(w'.fwd.m, t.func, pub, name, request)
  {
    hide FInv, Control, Counts, Next, FirstUnused, AddTask, CallsFunction;
    var r := RegisteringGives(w, pub, name, request, now);
    t := NewTask(r.1, request, now);
    i := AddGives(w.tm, t);
    TimedAtFirst(r.1, request, now);
  }

  /** A removal frees exactly the pending tasks of the id, and of the plugin if one is given. */
  lemma RemoveFreesExactly(w: World, pub: Forwards.Publics, id: int, amx: Option<Forwards.Amx>, i: nat)
    requires WInv(w, pub) && CanCall(w.frames) && i < |w.tm.tasks|
    ensures var t, tasks' := w.tm.tasks[i], Next(w, pub, RemoveTasks(id, amx)).tm.tasks;
            && |tasks'| == |w.tm.tasks|
            && (if !t.free && t.id == id && (amx.None? || amx.value == t.amx)
                then tasks'[i].free && tasks'[i].inExec == t.inExec && tasks'[i].func == -1 else tasks'[i] == t)
  {
    hide WInv;
    RemovedTask(w.tm, |w.tm.tasks|, id, amx, i);
  }

  /** A change gives exactly these tasks another interval. They wait for it from now on, apart from one in its
      callback, whose next time is counted from its last one. */
  lemma ChangeSetsExactly(w: World, pub: Forwards.Publics, id: int, amx: Option<Forwards.Amx>, base: real, now: real,
                          i: nat)
    requires WInv(w, pub) && CanCall(w.frames) && i < |w.tm.tasks|
    ensures var t, tasks' := w.tm.tasks[i], Next(w, pub, ChangeTasks(id, amx, base, now)).tm.tasks;
            && |tasks'| == |w.tm.tasks|
            && (if !t.free && t.id == id && (amx.None? || amx.value == t.amx)
                then tasks'[i] == t.(base := base, next := if t.inExec then t.next else now + base) else tasks'[i] == t)
  {
    hide WInv;
  }

  /** A clear leaves no task: at once outside of a frame, and inside one it frees them and has the slots dropped at
      the end of the frame. */
  lemma ClearLeavesNone(w: World, pub: Forwards.Publics)
    requires WInv(w, pub) && Enabled(w, ClearTasks)
    ensures var tm := Next(w, pub, ClearTasks).tm;
            && tm.active == 0
            && (forall i {:trigger tm.tasks[i]} :: 0 <= i < |tm.tasks| ==> tm.tasks[i].free)
            && (w.tm.depth == 0 ==> tm.tasks == [])
            && (w.tm.depth > 0 ==> tm.deferred && |tm.tasks| == |w.tm.tasks|)
  {
    hide WInv;
  }
}
