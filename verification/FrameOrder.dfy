/**
 The order of frame callbacks (amxmodx/CFrameAction.h): they are called in the order in which they were asked
 for, each once, and each in the plugin and the function that were named.
 */
module FrameOrder {
  import opened Basics
  import opened Tasks
  import Forwards

  /** The forward is one of the function, with the one parameter of a frame callback. */
  ghost predicate LeadsTo(m: Forwards.Mngr, fid: int, pub: Forwards.Publics, plugin: Forwards.Amx, name: string) {
    && Forwards.ValidId(m, fid)
    && var slot := Forwards.SlotOf(m, fid);
       slot.amx == plugin && slot.sig == [FP_CELL] && 0 <= slot.func < |pub(plugin)| && pub(plugin)[slot.func] == name
  }

  /** What a step asks for: a callback that joins the queue at its end. */
  function AskedAt(w: World, w': World, step: Step): seq<int> {
    if step.RequestFrame? && |w'.queue| > |w.queue| then w'.queue[|w.queue|..] else []
  }

  /** What a step takes off the queue to be called: its first one. */
  function TakenAt(w: World, step: Step): seq<int> {
    if step.Continue? && w.frames != [] && Top(w.frames).Acts? && Top(w.frames).rest > 0 && w.queue != [] then
      [w.queue[0]]
    else []
  }

  /** A request for a public function puts its forward behind all others, and for no public function changes nothing. */
  lemma RequestJoins(w: World, pub: Forwards.Publics, name: string, plugin: Forwards.Amx) returns (fid: int)
    requires WInv(w, pub) && CanCall(w.frames) && name != ""
    ensures var w' := Next(w, pub, RequestFrame(name, plugin));
            if name in pub(plugin) then w'.queue == w.queue + [fid] && LeadsTo(w'.fwd.m, fid, pub, plugin, name)
            else w'.queue == w.queue
  {
    hide TInv, Ledger, TasksOk, Forwards.Register;
    Forwards.RegisterGivesFunction(w.fwd, pub, Forwards.ByName(name), plugin, [FP_CELL]);
    fid := Forwards.Register(w.fwd.m, pub, Forwards.ByName(name), plugin, [FP_CELL]).1;
  }

  /** A round of the loop over the callbacks takes the first one of the queue. It is called if its plugin runs. */
  lemma FrontIsCalled(w: World, pub: Forwards.Publics, clock: Clock, executable: bool)
    requires WInv(w, pub) && w.frames != [] && Top(w.frames).Acts? && Top(w.frames).rest > 0 && w.queue != []
    ensures var w', below, rest := Next(w, pub, Continue(clock, executable)), Below(w.frames), Top(w.frames).rest - 1;
            && w'.queue == w.queue[1..]
            && w'.frames == below + [if executable then InAction(rest, w.queue[0]) else Acts(rest)]
            && w'.fwd.stack == if executable then w.fwd.stack + [w.queue[0]] else w.fwd.stack
  {
    hide WInv, NextAction, Entered;
    FrontRuns(w, pub);
    NotCalled(w, Top(w.frames).rest, executable);
    ActsNext(w, pub, clock, executable);
  }

  lemma ActsNext(w: World, pub: Forwards.Publics, clock: Clock, executable: bool)
    requires WInv(w, pub) && w.frames != [] && Top(w.frames).Acts? && Top(w.frames).rest > 0 && w.queue != []
    ensures Next(w, pub, Continue(clock, executable)) == NextAction(w, Below(w.frames), Top(w.frames).rest, executable)
  {
    hide FInv, NextAction;
  }

  lemma FrontRuns(w: World, pub: Forwards.Publics)
    requires WInv(w, pub) && w.queue != []
    ensures Entered(w.fwd, w.queue[0], true).1
  {
    PopCount(w.queue, w.queue[0]);
    assert w.fwd.held[w.queue[0]] == Holders(w, w.queue[0]);
    assert w.queue[0] in w.fwd.held;
    Forwards.SlotAt(w.fwd, pub, w.queue[0]);
  }

  lemma NotCalled(w: World, rest: nat, executable: bool)
    requires w.frames != [] && Top(w.frames) == Acts(rest) && rest > 0 && w.queue != []
    ensures var w', fwd := NextAction(w, Below(w.frames), rest, executable), Entered(w.fwd, w.queue[0], executable);
            && w'.queue == w.queue[1..] && (!executable ==> !fwd.1)
            && w'.frames == Below(w.frames) + [if fwd.1 then InAction(rest - 1, w.queue[0]) else Acts(rest - 1)]
            && w'.fwd.stack == if fwd.1 then w.fwd.stack + [w.queue[0]] else w.fwd.stack
  {
  }

  /** Requests apart, the queue changes only where callbacks are taken and cleared. */
  lemma QueueMoves(w: World, pub: Forwards.Publics, step: Step)
    requires WInv(w, pub) && Enabled(w, step) && !step.ClearFrames?
    ensures var w' := Next(w, pub, step); TakenAt(w, step) + w'.queue == w.queue + AskedAt(w, w', step)
  {
    hide WInv, OtherStep, Forwards.Register, ReleaseAll, RemoveFirst, AddTask, AfterContinue;
    match step
    case Continue(clock, executable) => ContinueQueue(w, pub, clock, executable);
    case Other(other) => OtherQueue(w, pub, other);
    case _ =>
  }

  lemma OtherQueue(w: World, pub: Forwards.Publics, other: Forwards.Step)
    requires WInv(w, pub) && Enabled(w, Other(other))
    ensures OtherStep(w, pub, other).queue == w.queue
  {
    hide WInv, Forwards.Next, Entered;
  }

  lemma ContinueQueue(w: World, pub: Forwards.Publics, clock: Clock, executable: bool)
    requires WInv(w, pub) && Enabled(w, Continue(clock, executable))
    ensures TakenAt(w, Continue(clock, executable)) + AfterContinue(w, clock, executable).queue == w.queue
  {
    hide Visit, AfterTask, NextAction, Left, FInv, Counts, HintOk;
    assert FrameOk(w.frames[|w.frames| - 1], true, |w.tm.tasks|);
    match Top(w.frames)
    case Loop(i, last) =>
      if i < last {
        VisitQueue(w, Below(w.frames), i, last, clock, executable);
      }
    case InTask(i, last, fid) =>
      Executing(w, pub);
      ReturnQueue(w.(fwd := Left(w.fwd)), Below(w.frames), i, last);
    case Acts(rest) =>
      if rest > 0 {
        NotCalled(w, rest, executable);
      }
    case _ =>
  }

  lemma Executing(w: World, pub: Forwards.Publics)
    requires WInv(w, pub) && w.frames != [] && Top(w.frames).InTask?
    ensures w.fwd.stack != [] && Forwards.ValidId(w.fwd.m, w.fwd.stack[|w.fwd.stack| - 1])
  {
    var n := |w.fwd.stack|;
    assert n > 0 && w.fwd.stack[n - 1] in w.fwd.stack;
  }

  lemma ReturnQueue(w: World, below: seq<Frame>, i: nat, last: nat)
    requires i < |w.tm.tasks| && w.tm.depth > 0
    ensures AfterTask(w, below, i, last).queue == w.queue
  {
  }

  lemma VisitQueue(w: World, below: seq<Frame>, i: nat, last: nat, clock: Clock, executable: bool)
    requires i < |w.tm.tasks| && w.tm.depth > 0
    ensures Visit(w, below, i, last, clock, executable).queue == w.queue
  {
    hide Due, WillCall, Entered, Returned;
  }

  // ---------- Whole runs ----------

  function Asked(states: seq<World>, steps: seq<Step>, k: nat): seq<int>
    requires k <= |steps| < |states|
  {
    if k == 0 then [] else Asked(states, steps, k - 1) + AskedAt(states[k - 1], states[k], steps[k - 1])
  }

  function Taken(states: seq<World>, steps: seq<Step>, k: nat): seq<int>
    requires k <= |steps| < |states|
  {
    if k == 0 then [] else Taken(states, steps, k - 1) + TakenAt(states[k - 1], steps[k - 1])
  }

  /** First come, first served: along every run without a clear, the callbacks taken, in their order, and then
      those that
      wait are those asked for, in their order. */
  lemma {:induction false} FirstComeFirstServed(states: seq<World>, steps: seq<Step>, pub: Forwards.Publics, k: nat)
    requires IsRun(states, steps, pub) && states[0] == Start && k <= |steps|
    requires forall j {:trigger steps[j]} :: 0 <= j < k ==> !steps[j].ClearFrames?
    ensures Taken(states, steps, k) + states[k].queue == Asked(states, steps, k)
  {
    hide WInv, Next, Enabled, AskedAt, TakenAt;
    if k > 0 {
      FirstComeFirstServed(states, steps, pub, k - 1);
      RunKeepsWInv(states, steps, pub, k - 1);
      var w, w', step := states[k - 1], states[k], steps[k - 1];
      assert Leads(w, w', pub, step);
      QueueMoves(w, pub, step);
      var before, taken, asked := Taken(states, steps, k - 1), TakenAt(w, step), AskedAt(w, w', step);
      assert (before + taken) + w'.queue == before + (taken + w'.queue) == before + (w.queue + asked)
          == (before + w.queue) + asked;
    }
  }
}
