/**
 The loops of ExecuteFrameCallbacks (amxmodx/CFrameAction.h). A loop fixes at its start how many
 callbacks it will take, and takes them from the front of a queue that the callbacks themselves may
 lengthen, shorten or clear. When it is about to take one and there is none, it pops an empty queue.
 */
module FrameCallbacks {
  import opened Tasks
  import Forwards

  /** The callbacks that the loops on the control stack still have to take. */
  function Owed(frames: seq<Frame>): nat {
    if frames == [] then 0
    else if Top(frames).Acts? || Top(frames).InAction? then Owed(Below(frames)) + Top(frames).rest
    else Owed(Below(frames))
  }

  /** How many callbacks the loops will miss if no more are requested. */
  function Missing(w: World): int {
    Owed(w.frames) - |w.queue|
  }

  function RestOf(f: Frame): nat {
    if f.Acts? || f.InAction? then f.rest else 0
  }

  /** A bound on the steps until all that is on the control stack has ended. */
  function Work(frames: seq<Frame>): nat {
    if frames == [] then 0 else Work(Below(frames)) + WorkOf(Top(frames))
  }

  function WorkOf(f: Frame): nat {
    match f
    case Loop(i, last) => if i < last then 2 * (last - i) + 1 else 1
    case InTask(i, last, _) => if i < last then 2 * (last - i) else 1
    case Acts(rest) => 2 * rest + 1
    case InAction(rest, _) => 2 * rest + 2
    case InOther(_) => 1
  }

  lemma Pushed(frames: seq<Frame>, f: Frame)
    ensures Owed(frames + [f]) == Owed(frames) + RestOf(f) && Work(frames + [f]) == Work(frames) + WorkOf(f)
  {
    assert Below(frames + [f]) == frames;
  }

  // ---------- One step ----------

  /** What has become of the topmost frame f: it has ended, or another one stands in its place. */
  ghost predicate GoesOn(w: World, w': World) {
    w.frames != [] &&
    var below, f := Below(w.frames), Top(w.frames);
    || (w'.frames == below && RestOf(f) == 0 && w'.queue == w.queue)
    || exists g :: w'.frames == below + [g] && RestOf(f) - |w.queue| == RestOf(g) - |w'.queue| && WorkOf(g) < WorkOf(f)
  }

  lemma TaskGoesOn(w: World, v: World, i: nat, last: nat)
    requires w.frames != [] && v.queue == w.queue && i < |v.tm.tasks| && v.tm.depth > 0 && i < last
    requires Top(w.frames) == Loop(i, last)
             || (Top(w.frames).InTask? && Top(w.frames).i == i && Top(w.frames).last == last)
    ensures GoesOn(w, AfterTask(v, Below(w.frames), i, last))
  {
    assert WorkOf(Loop(i + 1, last)) < WorkOf(Top(w.frames));
  }

  lemma Replaced(w: World, w': World, g: Frame)
    requires w.frames != [] && w'.frames == Below(w.frames) + [g] && w'.queue == w.queue
    requires RestOf(g) == RestOf(Top(w.frames)) && WorkOf(g) < WorkOf(Top(w.frames))
    ensures GoesOn(w, w')
  {
  }

  lemma FrameGone(w: World, w': World)
    requires w.frames != [] && w'.frames == Below(w.frames) && w'.queue == w.queue && RestOf(Top(w.frames)) == 0
    ensures GoesOn(w, w')
  {
  }

  lemma VisitGoesOn(w: World, i: nat, last: nat, clock: Clock, executable: bool)
    requires w.frames != [] && Top(w.frames) == Loop(i, last) && i < last && i < |w.tm.tasks| && w.tm.depth > 0
    ensures GoesOn(w, Visit(w, Below(w.frames), i, last, clock, executable))
  {
    hide GoesOn, AfterTask, Entered, Due, WillCall;
    var t, below, w' := w.tm.tasks[i], Below(w.frames), Visit(w, Below(w.frames), i, last, clock, executable);
    if t.free || ((t.inExec || !Due(t, clock)) && !w.tm.deferred) {
      Replaced(w, w', Loop(i + 1, last));
    } else if t.inExec || !Due(t, clock) {
      FrameGone(w, w');
    } else if WillCall(t) && Entered(w.fwd, t.func, executable).1 {
      Replaced(w, w', InTask(i, last, t.func));
    } else {
      var v := if WillCall(t) then w.(fwd := Entered(w.fwd, t.func, executable).0) else w;
      TaskGoesOn(w, v, i, last);
    }
  }

  lemma ActionGoesOn(w: World, rest: nat, executable: bool)
    requires w.frames != [] && Top(w.frames) == Acts(rest) && rest > 0 && w.queue != []
    ensures GoesOn(w, NextAction(w, Below(w.frames), rest, executable))
  {
    assert WorkOf(Acts(rest - 1)) < WorkOf(Acts(rest)) && WorkOf(InAction(rest - 1, w.queue[0])) < WorkOf(Acts(rest));
  }

  lemma ContinueGoesOn(w: World, pub: Forwards.Publics, clock: Clock, executable: bool)
    requires WInv(w, pub) && Enabled(w, Continue(clock, executable))
    ensures GoesOn(w, AfterContinue(w, clock, executable))
  {
    assert FrameOk(w.frames[|w.frames| - 1], true, |w.tm.tasks|);
    match Top(w.frames)
    case Loop(i, last) =>
      if i < last {
        VisitGoesOn(w, i, last, clock, executable);
      }
    case InTask(i, last, fid) => TaskGoesOn(w, w.(fwd := Left(w.fwd)), i, last);
    case Acts(rest) =>
      if rest > 0 {
        ActionGoesOn(w, rest, executable);
      }
    case InAction(rest, fid) => assert WorkOf(Acts(rest)) < WorkOf(InAction(rest, fid));
    case InOther(fid) =>
  }

  /** A step that ends or goes on with the topmost frame leaves less to do, and misses as many callbacks. */
  lemma ContinueMissing(w: World, pub: Forwards.Publics, clock: Clock, executable: bool)
    requires WInv(w, pub) && Enabled(w, Continue(clock, executable))
    ensures var w' := Next(w, pub, Continue(clock, executable));
            Missing(w') == Missing(w) && Work(w'.frames) < Work(w.frames)
  {
    ContinueGoesOn(w, pub, clock, executable);
    GoneOn(w, AfterContinue(w, clock, executable));
  }

  lemma GoneOn(w: World, w': World)
    requires GoesOn(w, w')
    ensures Missing(w') == Missing(w) && Work(w'.frames) < Work(w.frames)
  {
    var below, f := Below(w.frames), Top(w.frames);
    if g :| w'.frames == below + [g] && RestOf(f) - |w.queue| == RestOf(g) - |w'.queue| && WorkOf(g) < WorkOf(f) {
      Pushed(below, g);
    }
  }

  lemma OtherMissing(w: World, pub: Forwards.Publics, step: Forwards.Step)
    requires WInv(w, pub) && Enabled(w, Other(step))
    ensures Missing(OtherStep(w, pub, step)) == Missing(w)
  {
    hide WInv, Forwards.Inv, Forwards.Next, Entered;
    if step.DoEnter? {
      Pushed(w.frames, InOther(step.id));
    }
  }

  /** The account of one step: a request gives one callback more, a loop that starts owes all that
      wait, and a clear takes them away; no other step changes the difference. */
  lemma StepMissing(w: World, pub: Forwards.Publics, step: Step)
    requires WInv(w, pub) && Enabled(w, step)
    ensures var w' := Next(w, pub, step);
            match step
            case RequestFrame(_, _) =>
              Missing(w') == Missing(w) - (|w'.queue| - |w.queue|) && |w.queue| <= |w'.queue| <= |w.queue| + 1
            case StartActions => Missing(w') == Owed(w.frames)
            case ClearFrames => Missing(w') == Owed(w.frames)
            case _ => Missing(w') == Missing(w)
  {
    hide WInv, AfterContinue, OtherStep, AddTask, ReleaseAll, RemoveFirst, LiveFuncs, Forwards.Register;
    match step
    case Continue(clock, executable) => ContinueMissing(w, pub, clock, executable);
    case StartFrame => Pushed(w.frames, Loop(0, |w.tm.tasks|));
    case StartActions => Pushed(w.frames, Acts(|w.queue|));
    case Other(s) => OtherMissing(w, pub, s);
    case _ =>
  }

  /** The queue still covers what the loops owe, exactly if no loop starts and no clear happens while
      another loop is not through. */
  lemma StepKeepsOwed(w: World, pub: Forwards.Publics, step: Step)
    requires WInv(w, pub) && Enabled(w, step) && Missing(w) <= 0
    ensures Missing(Next(w, pub, step)) <= 0 <==> (step.StartActions? || step.ClearFrames? ==> Owed(w.frames) == 0)
  {
    hide WInv, Next;
    StepMissing(w, pub, step);
  }

  // ---------- Whole runs ----------

  /** As long as frame callbacks are neither run nor cleared while some of a round are still due, there
      always is a callback to take when the loop takes one: those asked for meanwhile come behind. */
  lemma {:induction false} RoundNeverStarves(states: seq<World>, steps: seq<Step>, pub: Forwards.Publics, k: nat)
    requires IsRun(states, steps, pub) && states[0] == Start && k < |states|
    requires forall j {:trigger steps[j]} :: 0 <= j < k && (steps[j].StartActions? || steps[j].ClearFrames?) ==>
               Owed(states[j].frames) == 0
    ensures Owed(states[k].frames) <= |states[k].queue| && !Starved(states[k])
  {
    hide WInv, Next;
    if k > 0 {
      RoundNeverStarves(states, steps, pub, k - 1);
      RunKeepsWInv(states, steps, pub, k - 1);
      StepKeepsOwed(states[k - 1], pub, steps[k - 1]);
    }
  }

  /** From w on, no frame callback is requested, no loop starts and none is cleared. */
  ghost predicate Quiet(states: seq<World>, steps: seq<Step>, pub: Forwards.Publics, w: World) {
    && IsRun(states, steps, pub) && states[0] == w
    && forall j {:trigger steps[j]} :: 0 <= j < |steps| ==>
         !steps[j].RequestFrame? && !steps[j].StartActions? && !steps[j].ClearFrames?
  }

  lemma {:induction false} QuietKeepsMissing(states: seq<World>, steps: seq<Step>, pub: Forwards.Publics, w: World,
                                             k: nat)
    requires Quiet(states, steps, pub, w) && WInv(w, pub) && k < |states|
    ensures Missing(states[k]) == Missing(w)
  {
    hide WInv, Next;
    if k > 0 {
      QuietKeepsMissing(states, steps, pub, w, k - 1);
      RunFromKeepsWInv(states, steps, pub, k - 1);
      StepMissing(states[k - 1], pub, steps[k - 1]);
    }
  }

  /** Nothing is left to go on, or the topmost loop has no callback to take. */
  predicate AtEnd(w: World) {
    w.frames == [] || Starved(w)
  }

  /** From every state the callbacks that run can simply return, until all loops are through or one starves. */
  lemma {:induction false} LoopsEnd(w: World, pub: Forwards.Publics, clock: Clock, executable: bool)
    returns (states: seq<World>, steps: seq<Step>)
    requires WInv(w, pub)
    ensures Quiet(states, steps, pub, w) && AtEnd(states[|steps|]) && |steps| <= Work(w.frames)
    decreases Work(w.frames)
  {
    hide Next, Leads;
    if AtEnd(w) {
      return [w], [];
    }
    var step := Continue(clock, executable);
    var next := Next(w, pub, step);
    StepKeepsWInv(w, pub, step);
    ContinueMissing(w, pub, clock, executable);
    var rest, later := LoopsEnd(next, pub, clock, executable);
    states, steps := [w] + rest, [step] + later;
    Prepended(w, next, pub, step, rest, later);
  }

  lemma Prepended(w: World, next: World, pub: Forwards.Publics, step: Step, states: seq<World>, steps: seq<Step>)
    requires WInv(w, pub) && Enabled(w, step) && next == Next(w, pub, step) && Quiet(states, steps, pub, next)
             && step.Continue?
    ensures Quiet([w] + states, [step] + steps, pub, w)
  {
    hide WInv, Next, Enabled;
    var all, taken := [w] + states, [step] + steps;
    forall k {:trigger taken[k]} | 0 <= k < |taken| ensures Leads(all[k], all[k + 1], pub, taken[k])
    {
      if k > 0 {
        assert taken[k] == steps[k - 1];
      }
    }
    forall k {:trigger taken[k]} | 0 <= k < |taken|
      ensures !taken[k].RequestFrame? && !taken[k].StartActions? && !taken[k].ClearFrames?
    {
      if k > 0 {
        assert taken[k] == steps[k - 1];
      }
    }
  }

  /** Where a quiet run ends, a loop starves exactly if at its beginning the loops owed more than waited,
      whatever the callbacks do with tasks and forwards meanwhile. */
  lemma QuietEnd(states: seq<World>, steps: seq<Step>, pub: Forwards.Publics, w: World)
    requires Quiet(states, steps, pub, w) && WInv(w, pub)
    ensures Owed(w.frames) > |w.queue| ==> states[|steps|].frames != []
    ensures Owed(w.frames) <= |w.queue| ==> !Starved(states[|steps|])
  {
    hide WInv, Next;
    QuietKeepsMissing(states, steps, pub, w, |steps|);
  }

  /** Without further requests the loops starve exactly if they owe more callbacks than wait, and get
      through exactly if they do not. */
  lemma StarvesExactly(w: World, pub: Forwards.Publics)
    requires WInv(w, pub)
    ensures (exists states: seq<World>, steps :: Quiet(states, steps, pub, w) && Starved(states[|steps|]))
       <==> Owed(w.frames) > |w.queue|
    ensures (exists states: seq<World>, steps :: Quiet(states, steps, pub, w) && states[|steps|].frames == [])
       <==> Owed(w.frames) <= |w.queue|
  {
    var states, steps := LoopsEnd(w, pub, Clock(0.0, 0.0, 0.0), true);
    QuietEnd(states, steps, pub, w);
    forall states: seq<World>, steps | Quiet(states, steps, pub, w)
      ensures Owed(w.frames) > |w.queue| ==> states[|steps|].frames != []
      ensures Owed(w.frames) <= |w.queue| ==> !Starved(states[|steps|])
    {
      QuietEnd(states, steps, pub, w);
    }
  }

  // ---------- A clear while a round is not through ----------

  /** A callback that clears the queue while its loop has more to take: when it returns, the loop starves. */
  lemma ClearStarves(w: World, pub: Forwards.Publics, clock: Clock, executable: bool)
    requires WInv(w, pub) && w.frames != [] && Top(w.frames).InAction? && Top(w.frames).rest > 0
    ensures var w1 := Next(w, pub, ClearFrames);
            && WInv(w1, pub) && Enabled(w1, Continue(clock, executable))
            && var w2 := Next(w1, pub, Continue(clock, executable));
               WInv(w2, pub) && Starved(w2) && Top(w2.frames).rest == Top(w.frames).rest
  {
    hide WInv;
    var w1 := Next(w, pub, ClearFrames);
    StepKeepsWInv(w, pub, ClearFrames);
    StepKeepsWInv(w1, pub, Continue(clock, executable));
  }

  lemma Requested(w: World, pub: Forwards.Publics, name: string, plugin: Forwards.Amx)
    requires WInv(w, pub) && CanCall(w.frames) && name in pub(plugin) && name != ""
    ensures var w' := Next(w, pub, RequestFrame(name, plugin));
            WInv(w', pub) && w'.frames == w.frames && |w'.queue| == |w.queue| + 1
  {
    StepKeepsWInv(w, pub, RequestFrame(name, plugin));
    Forwards.RegisterGivesFunction(w.fwd, pub, Forwards.ByName(name), plugin, [FP_CELL]);
  }

  /** A callback that waits is called, if its plugin runs. */
  lemma TakesFront(w: World, pub: Forwards.Publics, clock: Clock) returns (w': World)
    requires WInv(w, pub) && w.frames != [] && Top(w.frames).Acts? && Top(w.frames).rest > 0 && w.queue != []
    ensures w' == Next(w, pub, Continue(clock, true)) && WInv(w', pub)
    ensures w'.frames == Below(w.frames) + [InAction(Top(w.frames).rest - 1, w.queue[0])]
  {
    w' := Next(w, pub, Continue(clock, true));
    StepKeepsWInv(w, pub, Continue(clock, true));
    PopCount(w.queue, w.queue[0]);
    assert w.fwd.held[w.queue[0]] == Holders(w, w.queue[0]);
    assert w.queue[0] in w.fwd.held;
    Forwards.SlotAt(w.fwd, pub, w.queue[0]);
  }

  lemma LoopStarts(w: World, pub: Forwards.Publics) returns (w': World)
    requires WInv(w, pub) && w.frames == []
    ensures w' == Next(w, pub, StartActions) && WInv(w', pub) && w'.queue == w.queue && w'.frames == [Acts(|w.queue|)]
  {
    w' := Next(w, pub, StartActions);
    StepKeepsWInv(w, pub, StartActions);
  }

  /** A run has come to w. */
  ghost predicate Reaches(states: seq<World>, steps: seq<Step>, pub: Forwards.Publics, w: World) {
    IsRun(states, steps, pub) && states[|steps|] == w
  }

  lemma ReachesNext(states: seq<World>, steps: seq<Step>, pub: Forwards.Publics, w: World, step: Step)
    requires Reaches(states, steps, pub, w) && WInv(w, pub) && Enabled(w, step)
    ensures Reaches(states + [Next(w, pub, step)], steps + [step], pub, Next(w, pub, step))
  {
    hide WInv, Next, Enabled;
    var all, taken := states + [Next(w, pub, step)], steps + [step];
    forall k {:trigger taken[k]} | 0 <= k < |taken| ensures Leads(all[k], all[k + 1], pub, taken[k])
    {
      if k < |steps| {
        assert taken[k] == steps[k];
      }
    }
  }

  /** A run has come to a state in which no callback runs and n of them wait. */
  ghost predicate ReachesWaiting(states: seq<World>, steps: seq<Step>, pub: Forwards.Publics, w: World, n: nat) {
    Reaches(states, steps, pub, w) && WInv(w, pub) && w.frames == [] && |w.queue| == n
  }

  lemma OneMoreWaits(states: seq<World>, steps: seq<Step>, pub: Forwards.Publics, w: World, n: nat,
                     name: string, plugin: Forwards.Amx)
    returns (w': World)
    requires ReachesWaiting(states, steps, pub, w, n) && name in pub(plugin) && name != ""
    ensures ReachesWaiting(states + [w'], steps + [RequestFrame(name, plugin)], pub, w', n + 1)
  {
    w' := Next(w, pub, RequestFrame(name, plugin));
    Requested(w, pub, name, plugin);
    ReachesNext(states, steps, pub, w, RequestFrame(name, plugin));
  }

  lemma FirstIsTaken(states: seq<World>, steps: seq<Step>, pub: Forwards.Publics, w: World, n: nat, clock: Clock)
    returns (w1: World, w2: World)
    requires ReachesWaiting(states, steps, pub, w, n) && n >= 2
    ensures Reaches(states + [w1] + [w2], steps + [StartActions] + [Continue(clock, true)], pub, w2) && WInv(w2, pub)
    ensures w2.frames != [] && Top(w2.frames).InAction? && Top(w2.frames).rest == n - 1
  {
    hide WInv, Next, Reaches;
    w1 := LoopStarts(w, pub);
    ReachesNext(states, steps, pub, w, StartActions);
    w2 := TakesFront(w1, pub, clock);
    ReachesNext(states + [w1], steps + [StartActions], pub, w1, Continue(clock, true));
  }

  lemma ClearReaches(states: seq<World>, steps: seq<Step>, pub: Forwards.Publics, w: World, clock: Clock)
    returns (w1: World, w2: World)
    requires Reaches(states, steps, pub, w) && WInv(w, pub)
    requires w.frames != [] && Top(w.frames).InAction? && Top(w.frames).rest > 0
    ensures Reaches(states + [w1] + [w2], steps + [ClearFrames] + [Continue(clock, true)], pub, w2) && Starved(w2)
  {
    ClearStarves(w, pub, clock, true);
    w1 := Next(w, pub, ClearFrames);
    ReachesNext(states, steps, pub, w, ClearFrames);
    w2 := Next(w1, pub, Continue(clock, true));
    ReachesNext(states + [w1], steps + [ClearFrames], pub, w1, Continue(clock, true));
  }

  /** Nothing waits or runs. */
  ghost predicate Idle(w: World, pub: Forwards.Publics) {
    WInv(w, pub) && w.frames == [] && w.queue == []
  }

  lemma StartIdle(pub: Forwards.Publics)
    ensures Idle(Start, pub)
  {
    StartOk(pub);
  }

  lemma TwoWait(w0: World, pub: Forwards.Publics, name: string, plugin: Forwards.Amx)
    returns (states: seq<World>, steps: seq<Step>, w: World)
    requires Idle(w0, pub) && name in pub(plugin) && name != ""
    ensures steps == [RequestFrame(name, plugin), RequestFrame(name, plugin)]
            && ReachesWaiting(states, steps, pub, w, 2)
    ensures states[0] == w0
  {
    var w1 := OneMoreWaits([w0], [], pub, w0, 0, name, plugin);
    w := OneMoreWaits([w0] + [w1], [] + [RequestFrame(name, plugin)], pub, w1, 1, name, plugin);
    states, steps := [w0] + [w1] + [w], [] + [RequestFrame(name, plugin)] + [RequestFrame(name, plugin)];
  }

  lemma FirstOfTwo(w0: World, pub: Forwards.Publics, name: string, plugin: Forwards.Amx, clock: Clock)
    returns (states: seq<World>, steps: seq<Step>, w: World)
    requires Idle(w0, pub) && name in pub(plugin) && name != ""
    ensures steps == [RequestFrame(name, plugin), RequestFrame(name, plugin), StartActions, Continue(clock, true)]
    ensures Reaches(states, steps, pub, w) && WInv(w, pub) && states[0] == w0
    ensures w.frames != [] && Top(w.frames).InAction? && Top(w.frames).rest == 1
  {
    var w2, w3;
    states, steps, w2 := TwoWait(w0, pub, name, plugin);
    w3, w := FirstIsTaken(states, steps, pub, w2, 2, clock);
    states, steps := states + [w3] + [w], steps + [StartActions] + [Continue(clock, true)];
  }

  /** Two callbacks are requested, and the first one clears the queue: for every public function of
      every plugin, and from every state in which nothing waits or runs, the loop comes to starve. */
  lemma ClearedByCallback(w0: World, pub: Forwards.Publics, name: string, plugin: Forwards.Amx, clock: Clock)
    returns (states: seq<World>, steps: seq<Step>)
    requires Idle(w0, pub) && name in pub(plugin) && name != ""
    ensures steps == [RequestFrame(name, plugin), RequestFrame(name, plugin), StartActions, Continue(clock, true),
                      ClearFrames, Continue(clock, true)]
    ensures IsRun(states, steps, pub) && states[0] == w0 && |states| == 7 && Starved(states[6])
  {
    var w4, w5, w6;
    states, steps, w4 := FirstOfTwo(w0, pub, name, plugin, clock);
    w5, w6 := ClearReaches(states, steps, pub, w4, clock);
    states, steps := states + [w5] + [w6], steps + [ClearFrames] + [Continue(clock, true)];
  }

  lemma StarvedIsReachable(pub: Forwards.Publics, name: string, plugin: Forwards.Amx)
    returns (states: seq<World>, steps: seq<Step>)
    requires name in pub(plugin) && name != ""
    ensures IsRun(states, steps, pub) && states[0] == Start && |states| == 7 && Starved(states[6])
  {
    StartIdle(pub);
    states, steps := ClearedByCallback(Start, pub, name, plugin, Clock(0.0, 0.0, 0.0));
  }
}
