/**
 Frames of startFrame inside the callbacks of others, and clears below them (amxmodx/CTask.cpp). A clear
 inside a frame is put off to the end of a frame, but it is the end of the innermost one, and the tasks
 are destroyed that the outer ones still run.
 */
module NestedFrames {
  import opened Basics
  import opened Tasks
  import Forwards
  import FrameCallbacks

  /** A frame whose callback runs is on the stack, and no task is there for it to return to. */
  predicate Dangles(w: World) {
    w.tm.tasks == [] && exists k {:trigger w.frames[k]} :: 0 <= k < |w.frames| && w.frames[k].InTask?
  }

  lemma {:induction false} SomeRunning(frames: seq<Frame>)
    ensures RunningOf(frames) != [] <==> exists k {:trigger frames[k]} :: 0 <= k < |frames| && frames[k].InTask?
  {
    if frames != [] {
      var below, top := Below(frames), |frames| - 1;
      SomeRunning(below);
      forall k {:trigger frames[k]} | 0 <= k < top ensures frames[k] == below[k] {
      }
      assert forall k {:trigger below[k]} :: 0 <= k < top ==> below[k] == frames[k];
    }
  }

  lemma DanglesRunning(u: World)
    requires u.tm.tasks == []
    ensures Dangles(u) <==> RunningOf(u.frames) != []
  {
    SomeRunning(u.frames);
  }

  // ---------- A clear two frames deep ----------

  lemma ClearInTask(w: World, v: World, pub: Forwards.Publics)
    requires WInv(w, pub) && w.frames != [] && Top(w.frames).InTask? && v == AfterClear(w)
    ensures FInv(v, pub) && Control(v.tm, v.frames) && v.frames == w.frames && v.tm.deferred
    ensures v.fwd.stack == StackOf(v.frames) && forall id :: id in v.fwd.stack ==> Forwards.ValidId(v.fwd.m, id)
    ensures w.tm.depth == |RunningOf(Below(w.frames))| + 1
  {
    hide FInv;
    FreeAllKeeps(w, v, pub);
    Settled(v, pub);
    ControlKept(w.tm, v.tm, w.frames);
  }

  lemma ClearedReturn(v: World, clock: Clock, executable: bool)
    requires Control(v.tm, v.frames) && v.frames != [] && Top(v.frames).InTask? && v.tm.deferred
    requires v.fwd.stack == StackOf(v.frames) && forall id :: id in v.fwd.stack ==> Forwards.ValidId(v.fwd.m, id)
    ensures Dangles(AfterContinue(v, clock, executable)) <==> RunningOf(Below(v.frames)) != []
  {
    hide Left, Returned, Released, ReleaseAll, Dangles, RunningOf;
    var u := AfterContinue(v, clock, executable);
    assert u.tm.tasks == [] && u.frames == Below(v.frames);
    DanglesRunning(u);
  }

  /** A callback that clears the tasks: when it returns, a task is gone that still runs further down the
      stack, exactly if more than one frame of startFrame is open. */
  lemma ClearDangles(w: World, pub: Forwards.Publics, clock: Clock, executable: bool) returns (v: World)
    requires WInv(w, pub) && w.frames != [] && Top(w.frames).InTask?
    ensures FInv(v, pub) && Control(v.tm, v.frames) && v.frames == w.frames && v.fwd.stack == StackOf(v.frames)
    ensures forall id :: id in v.fwd.stack ==> Forwards.ValidId(v.fwd.m, id)
    ensures Dangles(AfterContinue(v, clock, executable)) <==> w.tm.depth > 1
    ensures v == AfterClear(w)
  {
    hide WInv, FInv, AfterClear, Control, Dangles, RunningOf, AfterContinue;
    v := AfterClear(w);
    ClearInTask(w, v, pub);
    ClearedReturn(v, clock, executable);
  }

  // ---------- A frame while a clear is deferred ----------

  /** A nested frame that is about to look at task k. */
  function Nested(w: World, k: nat): World {
    w.(tm := w.tm.(depth := w.tm.depth + 1), frames := w.frames + [Loop(k, |w.tm.tasks|)])
  }

  /** The machine can go on. */
  ghost predicate Ready(w: World) {
    && Control(w.tm, w.frames) && w.frames != [] && !Starved(w) && w.fwd.stack == StackOf(w.frames)
    && forall id :: id in w.fwd.stack ==> Forwards.ValidId(w.fwd.m, id)
  }

  /** A loop of startFrame goes on from v to v'. */
  ghost predicate Round(v: World, v': World, clock: Clock, executable: bool) {
    Ready(v) && Top(v.frames).Loop? && v' == AfterContinue(v, clock, executable)
  }

  lemma NestedReady(w: World, pub: Forwards.Publics, k: nat)
    requires WInv(w, pub) && CanCall(w.frames) && k <= |w.tm.tasks|
    ensures Ready(Nested(w, k))
  {
    hide FInv;
    Settled(w, pub);
    Pushed(w.frames, Loop(k, |w.tm.tasks|));
    FramesPush(w.frames, |w.tm.tasks|, Loop(k, |w.tm.tasks|));
  }

  lemma EndsDangling(w: World, below: seq<Frame>)
    requires w.tm.deferred && w.tm.depth > 0 && RunningOf(below) != []
    ensures Dangles(EndFrame(w, below))
  {
    DanglesRunning(EndFrame(w, below));
  }

  /** Whatever a callback of the nested frame has done: when it returns and the clear is still deferred, the
      frame ends. */
  lemma CallbackEndDangles(u: World, below: seq<Frame>, i: nat, last: nat)
    requires u.tm.deferred && u.tm.depth > 0 && i < |u.tm.tasks| && RunningOf(below) != []
    ensures Dangles(AfterTask(u, below, i, last))
  {
    hide Dangles, EndFrame, RunningOf;
    var w1 := AfterTaskIs(u, below, i, last);
    EndsDangling(w1, below);
  }

  lemma NestedSkips(w: World, k: nat, clock: Clock, executable: bool)
    requires Ready(Nested(w, k)) && k < |w.tm.tasks| && w.tm.tasks[k].free
    ensures AfterContinue(Nested(w, k), clock, executable) == Nested(w, k + 1)
  {
    NestedTop(w, k);
    assert Below(Nested(w, k).frames) == w.frames;
  }

  lemma NestedTop(w: World, k: nat)
    ensures Top(Nested(w, k).frames) == Loop(k, |w.tm.tasks|) && Below(Nested(w, k).frames) == w.frames
  {
  }

  /** At the first task that is not free the nested frame ends, or this task's callback runs. */
  lemma NestedStops(w: World, k: nat, clock: Clock, executable: bool)
    requires Ready(Nested(w, k)) && k < |w.tm.tasks| && !w.tm.tasks[k].free && w.tm.deferred
             && RunningOf(w.frames) != []
    ensures var u := AfterContinue(Nested(w, k), clock, executable);
            || Dangles(u)
            || (u.frames == w.frames + [InTask(k, |w.tm.tasks|, w.tm.tasks[k].func)]
                && u.tm.deferred && |u.tm.tasks| == |w.tm.tasks| && u.tm.depth == w.tm.depth + 1)
  {
    hide Dangles, EndFrame, RunningOf, AfterTask, Entered, Due, Control;
    var v := Nested(w, k);
    NestedTop(w, k);
    EndsDangling(v, w.frames);
    CallbackEndDangles(v, w.frames, k, |w.tm.tasks|);
    CallbackEndDangles(v.(fwd := Entered(v.fwd, w.tm.tasks[k].func, executable).0), w.frames, k, |w.tm.tasks|);
  }

  /** A frame that starts in a callback while a clear is deferred. It ends at once if no task has been set since
      the clear. Otherwise its rounds skip the free slots; at the first task it ends, before or behind the one
      callback that it runs, and the task under the outer callback is gone. */
  lemma NestedFrameDangles(w: World, pub: Forwards.Publics, clock: Clock, executable: bool)
    returns (rounds: seq<World>)
    requires WInv(w, pub) && CanCall(w.frames) && w.tm.deferred
    ensures if w.tm.active == 0 then AfterStart(w) == w
            else
              && 2 <= |rounds| <= |w.tm.tasks| + 1 && rounds[0] == AfterStart(w)
              && (forall k {:trigger rounds[k]} :: 0 <= k < |rounds| - 1 ==>
                    Round(rounds[k], rounds[k + 1], clock, executable))
              && var u, i := rounds[|rounds| - 1], |rounds| - 2;
                 || Dangles(u)
                 || (u.frames == w.frames + [InTask(i, |w.tm.tasks|, w.tm.tasks[i].func)] && u.tm.deferred
                     && forall u': World {:trigger AfterTask(u', w.frames, i, |w.tm.tasks|)} ::
                          u'.tm.deferred && u'.tm.depth > 0 && i < |u'.tm.tasks| ==>
                            Dangles(AfterTask(u', w.frames, i, |w.tm.tasks|)))
  {
    hide WInv, Round, Dangles, RunningOf, AfterTask;
    rounds := [];
    if w.tm.active > 0 {
      var i := FirstLive(w.tm.tasks, 0);
      DeferredRuns(w, pub, i);
      rounds := NestedRounds(w, pub, clock, executable, i);
      forall u': World {:trigger AfterTask(u', w.frames, i, |w.tm.tasks|)}
        | u'.tm.deferred && u'.tm.depth > 0 && i < |u'.tm.tasks|
        ensures Dangles(AfterTask(u', w.frames, i, |w.tm.tasks|))
      {
        CallbackEndDangles(u', w.frames, i, |w.tm.tasks|);
      }
    }
  }

  function FirstLive(tasks: seq<Task>, i: nat): (r: nat)
    requires i <= |tasks|
    ensures i <= r <= |tasks| && (forall j :: i <= j < r ==> tasks[j].free) && (r < |tasks| ==> !tasks[r].free)
    decreases |tasks| - i
  {
    if i == |tasks| || !tasks[i].free then i else FirstLive(tasks, i + 1)
  }

  /** While a clear is deferred, one callback runs, and the counter counts the tasks set since. */
  lemma DeferredRuns(w: World, pub: Forwards.Publics, i: nat)
    requires WInv(w, pub) && w.tm.deferred && w.tm.active > 0 && i == FirstLive(w.tm.tasks, 0)
    ensures RunningOf(w.frames) != [] && i < |w.tm.tasks|
  {
    hide FInv;
    if i == |w.tm.tasks| {
      NoneOf(w.tm.tasks, Live);
    }
  }

  lemma NestedRounds(w: World, pub: Forwards.Publics, clock: Clock, executable: bool, i: nat)
    returns (rounds: seq<World>)
    requires WInv(w, pub) && CanCall(w.frames) && w.tm.deferred && w.tm.active > 0
    requires i < |w.tm.tasks| && !w.tm.tasks[i].free && RunningOf(w.frames) != []
    requires forall j :: 0 <= j < i ==> w.tm.tasks[j].free
    ensures |rounds| == i + 2 && rounds[0] == AfterStart(w)
    ensures forall k {:trigger rounds[k]} :: 0 <= k < |rounds| - 1 ==>
              Round(rounds[k], rounds[k + 1], clock, executable)
    ensures var u := rounds[|rounds| - 1];
            || Dangles(u)
            || (u.frames == w.frames + [InTask(i, |w.tm.tasks|, w.tm.tasks[i].func)] && u.tm.deferred)
  {
    hide WInv, Round, Dangles, RunningOf, Nested;
    var last := NestedLast(w, pub, clock, executable, i);
    forall k | 0 <= k < i ensures Round(Nested(w, k), Nested(w, k + 1), clock, executable) {
      NestedRound(w, pub, clock, executable, k);
    }
    NestedFirst(w);
    rounds := seq(i + 1, k requires 0 <= k <= i => Nested(w, k)) + [last];
  }

  lemma NestedFirst(w: World)
    requires w.tm.active > 0
    ensures AfterStart(w) == Nested(w, 0)
  {
  }

  lemma NestedRound(w: World, pub: Forwards.Publics, clock: Clock, executable: bool, k: nat)
    requires WInv(w, pub) && CanCall(w.frames) && k < |w.tm.tasks| && w.tm.tasks[k].free
    ensures Round(Nested(w, k), Nested(w, k + 1), clock, executable)
  {
    hide WInv, Nested, AfterContinue, Control;
    NestedReady(w, pub, k);
    NestedTop(w, k);
    NestedSkips(w, k, clock, executable);
  }

  lemma NestedLast(w: World, pub: Forwards.Publics, clock: Clock, executable: bool, i: nat) returns (u: World)
    requires WInv(w, pub) && CanCall(w.frames) && w.tm.deferred && RunningOf(w.frames) != []
    requires i < |w.tm.tasks| && !w.tm.tasks[i].free
    ensures Round(Nested(w, i), u, clock, executable)
    ensures Dangles(u) || (u.frames == w.frames + [InTask(i, |w.tm.tasks|, w.tm.tasks[i].func)] && u.tm.deferred)
  {
    hide WInv, Nested, Dangles, RunningOf, Control;
    NestedReady(w, pub, i);
    NestedTop(w, i);
    NestedStops(w, i, clock, executable);
    u := AfterContinue(Nested(w, i), clock, executable);
  }

  // ---------- Runs that come there ----------

  /** A run from the start comes to w. */
  ghost predicate Reached(w: World, pub: Forwards.Publics) {
    && WInv(w, pub)
    && exists states: seq<World>, steps ::
       FrameCallbacks.Reaches(states, steps, pub, w) && states != [] && states[0] == Start
  }

  lemma StartReached(pub: Forwards.Publics)
    ensures Reached(Start, pub)
  {
    hide WInv;
    StartOk(pub);
    StartReaches(pub);
  }

  lemma StartReaches(pub: Forwards.Publics)
    ensures FrameCallbacks.Reaches([Start], [], pub, Start)
  {
  }

  lemma Goes(w: World, pub: Forwards.Publics, step: Step) returns (w': World)
    requires Reached(w, pub) && Enabled(w, step)
    ensures w' == Next(w, pub, step) && Reached(w', pub)
  {
    hide WInv, Next, FrameCallbacks.Reaches, Enabled;
    w' := Next(w, pub, step);
    StepKeepsWInv(w, pub, step);
    var states: seq<World>, steps :| FrameCallbacks.Reaches(states, steps, pub, w) && states != []
      && states[0] == Start;
    FrameCallbacks.ReachesNext(states, steps, pub, w, step);
    assert (states + [w'])[0] == Start;
  }

  /** A task that is due at once. */
  function Ask(plugin: Forwards.Amx): Request {
    Request(plugin, 0, 0.0, 0, 0, [])
  }

  const Now := Clock(0.0, 0.0, 0.0)

  predicate IsDue(t: Task) {
    !t.free && !t.inExec && Due(t, Now) && WillCall(t)
  }

  lemma AskedIsDue(func: int, plugin: Forwards.Amx)
    ensures IsDue(NewTask(func, Ask(plugin), 0.0))
  {
  }

  /** While no slot can be reused, a task that is set comes behind the others. */
  lemma SetBehind(w: World, pub: Forwards.Publics, name: string, plugin: Forwards.Amx) returns (w': World)
    requires WInv(w, pub) && CanCall(w.frames) && name in pub(plugin) && name != ""
    requires forall j {:trigger w.tm.tasks[j]} :: 0 <= j < |w.tm.tasks| ==> !Reusable(w.tm.tasks[j])
    ensures w' == Next(w, pub, SetTask(name, Ask(plugin), 0.0)) && w'.frames == w.frames && w'.tm.active > 0
    ensures w'.tm.depth == w.tm.depth && w'.tm.deferred == w.tm.deferred && |w'.tm.tasks| == |w.tm.tasks| + 1
    ensures w'.tm.tasks[..|w.tm.tasks|] == w.tm.tasks && IsDue(w'.tm.tasks[|w.tm.tasks|])
  {
    w' := Next(w, pub, SetTask(name, Ask(plugin), 0.0));
    Forwards.RegisterGivesFunction(w.fwd, pub, Forwards.ByName(name), plugin, SigOf([]));
    var func := Forwards.Register(w.fwd.m, pub, Forwards.ByName(name), plugin, SigOf([])).1;
    AskedIsDue(func, plugin);
    HintedScan(w.tm, 0);
    assert FirstReusable(w.tm.tasks, 0) == |w.tm.tasks|;
  }

  lemma TaskSet(w: World, pub: Forwards.Publics, name: string, plugin: Forwards.Amx) returns (w': World)
    requires Reached(w, pub) && CanCall(w.frames) && name in pub(plugin) && name != ""
    requires forall j {:trigger w.tm.tasks[j]} :: 0 <= j < |w.tm.tasks| ==> !Reusable(w.tm.tasks[j])
    ensures Reached(w', pub) && w'.frames == w.frames && w'.tm.active > 0
    ensures w'.tm.depth == w.tm.depth && w'.tm.deferred == w.tm.deferred && |w'.tm.tasks| == |w.tm.tasks| + 1
    ensures w'.tm.tasks[..|w.tm.tasks|] == w.tm.tasks && IsDue(w'.tm.tasks[|w.tm.tasks|])
  {
    hide WInv, Next;
    w' := SetBehind(w, pub, name, plugin);
    var w1 := Goes(w, pub, SetTask(name, Ask(plugin), 0.0));
  }

  lemma FrameBegins(w: World, pub: Forwards.Publics) returns (w': World)
    requires Reached(w, pub) && CanCall(w.frames) && w.tm.active > 0 && !w.tm.deferred
    ensures Reached(w', pub) && w'.frames == w.frames + [Loop(0, |w.tm.tasks|)]
    ensures w'.tm == w.tm.(depth := w.tm.depth + 1)
  {
    hide WInv;
    w' := Goes(w, pub, StartFrame);
  }

  /** The forward of a pending task is there to be called. */
  lemma ForwardRuns(w: World, pub: Forwards.Publics, i: nat)
    requires WInv(w, pub) && i < |w.tm.tasks| && !w.tm.tasks[i].free
    ensures Entered(w.fwd, w.tm.tasks[i].func, true).1
  {
    var t := w.tm.tasks[i];
    assert TaskOk(w.fwd.m, t);
    SomeOf(w.tm.tasks, HoldersOf(t.func), i);
    assert w.fwd.held[t.func] == Holders(w, t.func);
    assert t.func in w.fwd.held;
    Forwards.SlotAt(w.fwd, pub, t.func);
  }

  lemma TaskCalled(w: World, pub: Forwards.Publics, i: nat, last: nat) returns (w': World)
    requires Reached(w, pub) && w.frames != [] && Top(w.frames) == Loop(i, last) && i < last
    requires i < |w.tm.tasks| && IsDue(w.tm.tasks[i])
    ensures Reached(w', pub) && w'.frames == Below(w.frames) + [InTask(i, last, w.tm.tasks[i].func)]
    ensures w'.tm == w.tm.(tasks := w.tm.tasks[i := w.tm.tasks[i].(inExec := true)])
  {
    hide WInv, Due, Entered;
    ForwardRuns(w, pub, i);
    w' := Goes(w, pub, Continue(Now, true));
  }

  lemma TaskSkipped(w: World, pub: Forwards.Publics, i: nat, last: nat) returns (w': World)
    requires Reached(w, pub) && w.frames != [] && Top(w.frames) == Loop(i, last) && i < last
    requires i < |w.tm.tasks| && w.tm.tasks[i].inExec && !w.tm.deferred
    ensures Reached(w', pub) && w'.frames == Below(w.frames) + [Loop(i + 1, last)] && w'.tm == w.tm
  {
    hide WInv, Due, Entered;
    w' := Goes(w, pub, Continue(Now, true));
  }

  /** A state that a run from the start reaches, with nothing on the stack and no task. */
  ghost predicate Untouched(w: World, pub: Forwards.Publics) {
    Reached(w, pub) && w.frames == [] && w.tm.tasks == [] && w.tm.depth == 0 && !w.tm.deferred
  }

  lemma StartUntouched(pub: Forwards.Publics)
    ensures Untouched(Start, pub)
  {
    hide Reached;
    StartReached(pub);
  }

  /** Two tasks are due. The first one's callback starts a frame, which runs the second one: two frames are
      open, and a clear there is what ClearDangles speaks of. */
  lemma TwoFramesOpen(w: World, pub: Forwards.Publics, name: string, plugin: Forwards.Amx) returns (u: World)
    requires Untouched(w, pub) && name in pub(plugin) && name != ""
    ensures Reached(u, pub) && u.frames != [] && Top(u.frames).InTask? && u.tm.depth == 2
  {
    hide Reached, IsDue;
    u := TaskSet(w, pub, name, plugin);
    var t := u.tm.tasks[0];
    DueIsLive(t);
    u := TaskSet(u, pub, name, plugin);
    DueIsLive(u.tm.tasks[1]);
    assert u.tm.tasks[..1][0] == t;
    u := FrameBegins(u, pub);
    u := TaskCalled(u, pub, 0, 2);
    u := FrameBegins(u, pub);
    u := TaskSkipped(u, pub, 0, 2);
    u := TaskCalled(u, pub, 1, 2);
  }

  lemma DueIsLive(t: Task)
    requires IsDue(t)
    ensures !t.free && !t.inExec && !Reusable(t)
  {
  }

  /** A callback clears the tasks and sets one: a frame that starts now is what NestedFrameDangles speaks of. */
  lemma DeferredWithTask(w: World, pub: Forwards.Publics, name: string, plugin: Forwards.Amx) returns (u: World)
    requires Untouched(w, pub) && name in pub(plugin) && name != ""
    ensures Reached(u, pub) && CanCall(u.frames) && u.tm.deferred && u.tm.active > 0
  {
    hide Reached, IsDue;
    u := TaskSet(w, pub, name, plugin);
    u := FrameBegins(u, pub);
    u := TaskCalled(u, pub, 0, 1);
    u := TasksCleared(u, pub);
    u := TaskSet(u, pub, name, plugin);
  }

  lemma TasksCleared(w: World, pub: Forwards.Publics) returns (w': World)
    requires Reached(w, pub) && CanCall(w.frames) && w.tm.depth == 1
    ensures Reached(w', pub) && w'.frames == w.frames && w'.tm == TaskMngr(ClearAll(w.tm.tasks), 0, 0, 1, true)
  {
    hide WInv;
    w' := Goes(w, pub, ClearTasks);
  }

  /** Both happen in runs from the start, for every public function of every plugin. */
  lemma BothReached(pub: Forwards.Publics, name: string, plugin: Forwards.Amx) returns (u: World, v: World)
    requires name in pub(plugin) && name != ""
    ensures Reached(u, pub) && u.frames != [] && Top(u.frames).InTask? && u.tm.depth == 2
    ensures Reached(v, pub) && CanCall(v.frames) && v.tm.deferred && v.tm.active > 0
  {
    hide Reached, Untouched;
    StartUntouched(pub);
    u := TwoFramesOpen(Start, pub, name, plugin);
    v := DeferredWithTask(Start, pub, name, plugin);
  }

  /** So a run from the start, a clear and the return of the callback leave a running task destroyed. */
  lemma DanglingReached(pub: Forwards.Publics, name: string, plugin: Forwards.Amx, clock: Clock, executable: bool)
    returns (u: World, v: World)
    requires name in pub(plugin) && name != ""
    ensures Reached(u, pub) && CanCall(u.frames) && v == AfterClear(u)
    ensures Ready(v) && Dangles(AfterContinue(v, clock, executable))
  {
    hide WInv, Dangles, AfterClear, AfterContinue, Control;
    var other;
    u, other := BothReached(pub, name, plugin);
    v := ClearDangles(u, pub, clock, executable);
  }
}
