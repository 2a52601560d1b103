/**
 Timed tasks (amxmodx/CTask.cpp) and frame callbacks (amxmodx/CFrameAction.h), the two kinds of
 client that hold single-plugin forwards.

 A callback may do anything a plugin can: set and remove tasks, ask for frame callbacks, register
 and release other forwards, start a nested frame, clear everything. The system is therefore a
 machine whose control stack is explicit, and each of its steps runs from one point where plugin
 code can act to the next. Times are real numbers.
 */
module Tasks {
  import opened Basics
  import opened Forwards

  const FP_CELL := 0
  const FP_ARRAY := 4

  /** One task: CTask. The plugin is 0 when there is none. */
  datatype Task = Task(free: bool, inExec: bool, func: int, amx: Amx, id: int, base: real, repeat: int, loop: bool,
                       afterStart: bool, beforeEnd: bool, next: real, params: seq<int>)

  /** What a plugin asks for: the arguments of set_task. */
  datatype Request = Request(amx: Amx, id: int, base: real, repeat: int, flags: nat, params: seq<int>)

  /** CTaskMngr. `hint` is where the search for a free slot starts. */
  datatype TaskMngr = TaskMngr(tasks: seq<Task>, active: nat, hint: nat, depth: nat, deferred: bool)

  datatype Clock = Clock(now: real, limit: real, left: real)

  function Min(a: int, b: int): int {
    if a < b then a else b
  }

  predicate HasFlag(flags: nat, bit: nat)
    requires bit > 0
  {
    flags / bit % 2 == 1
  }

  function SigOf(params: seq<int>): seq<int> {
    if params == [] then [FP_CELL] else [FP_ARRAY, FP_CELL]
  }

  function NewTask(func: int, r: Request, now: real): Task {
    Task(false, false, func, r.amx, r.id, r.base,
         if HasFlag(r.flags, 2) then -1 else if HasFlag(r.flags, 1) then r.repeat else 0,
         HasFlag(r.flags, 1) || HasFlag(r.flags, 2), HasFlag(r.flags, 4), HasFlag(r.flags, 8),
         now + r.base, if r.params == [] then [] else r.params + [0])
  }

  /** CTask::clear, apart from the release of the forward. */
  function Cleared(t: Task): Task {
    Task(true, t.inExec, -1, 0, 0, 0.0, 0, false, false, false, 0.0, [])
  }

  predicate Reusable(t: Task) {
    t.free && !t.inExec
  }

  function FirstReusable(tasks: seq<Task>, i: nat): (r: nat)
    requires i <= |tasks|
    ensures i <= r <= |tasks| && forall j :: i <= j < r ==> !Reusable(tasks[j])
    ensures r < |tasks| ==> Reusable(tasks[r])
    decreases |tasks| - i
  {
    if i == |tasks| || Reusable(tasks[i]) then i else FirstReusable(tasks, i + 1)
  }

  /** registerTask, on a slot that holds no forward. */
  function AddTask(tm: TaskMngr, t: Task): TaskMngr {
    var i := FirstReusable(tm.tasks, Min(tm.hint, |tm.tasks|));
    if i < |tm.tasks| then tm.(tasks := tm.tasks[i := t], active := tm.active + 1, hint := i + 1)
    else tm.(tasks := tm.tasks + [t], active := tm.active + 1, hint := |tm.tasks| + 1)
  }

  predicate Matches(t: Task, id: int, amx: Option<Amx>) {
    !t.free && (amx.Some? ==> t.amx == amx.value) && t.id == id
  }

  /** One round of the loop of removeTasks. */
  function RemoveOne(tm: TaskMngr, i: nat, id: int, amx: Option<Amx>): TaskMngr
    requires i < |tm.tasks|
  {
    var t := tm.tasks[i];
    if !Matches(t, id, amx) then tm
    else tm.(tasks := tm.tasks[i := Cleared(t)],
             active := if !t.inExec && tm.active > 0 then tm.active - 1 else tm.active,
             hint := Min(tm.hint, i))
  }

  function RemoveFirst(tm: TaskMngr, k: nat, id: int, amx: Option<Amx>): (r: TaskMngr)
    requires k <= |tm.tasks|
    ensures |r.tasks| == |tm.tasks| && r.depth == tm.depth && r.deferred == tm.deferred
  {
    if k == 0 then tm else RemoveOne(RemoveFirst(tm, k - 1, id, amx), k - 1, id, amx)
  }

  /** The forwards that the first k rounds of removeTasks release, in order. */
  function RemovedFuncs(tasks: seq<Task>, k: nat, id: int, amx: Option<Amx>): seq<int>
    requires k <= |tasks|
  {
    if k == 0 then []
    else if Matches(tasks[k - 1], id, amx) then RemovedFuncs(tasks, k - 1, id, amx) + [tasks[k - 1].func]
    else RemovedFuncs(tasks, k - 1, id, amx)
  }

  function ChangeOne(t: Task, id: int, amx: Option<Amx>, base: real, now: real): Task {
    if !Matches(t, id, amx) then t else t.(base := base, next := if t.inExec then t.next else now + base)
  }

  function ChangeAll(tasks: seq<Task>, id: int, amx: Option<Amx>, base: real, now: real): (r: seq<Task>) {
    seq(|tasks|, i requires 0 <= i < |tasks| => ChangeOne(tasks[i], id, amx, base, now))
  }

  function ClearAll(tasks: seq<Task>): (r: seq<Task>) {
    seq(|tasks|, i requires 0 <= i < |tasks| => if tasks[i].free then tasks[i] else Cleared(tasks[i]))
  }

  /** The forwards of the tasks that are not free, in the order of the slots. */
  function LiveFuncs(tasks: seq<Task>): seq<int> {
    if tasks == [] then []
    else var t := tasks[|tasks| - 1];
         if t.free then LiveFuncs(tasks[..|tasks| - 1]) else LiveFuncs(tasks[..|tasks| - 1]) + [t.func]
  }

  /** What can be counted among tasks: those not free, those freed while still in their own callback,
      those that hold a forward. */
  datatype What = Live | Ending | HoldersOf(fid: int)

  function One(t: Task, what: What): nat {
    match what
    case Live => if t.free then 0 else 1
    case Ending => if t.free && t.inExec then 1 else 0
    case HoldersOf(fid) => if !t.free && t.func == fid then 1 else 0
  }

  function Number(tasks: seq<Task>, what: What): nat {
    if tasks == [] then 0 else Number(tasks[..|tasks| - 1], what) + One(tasks[|tasks| - 1], what)
  }

  /** How often x is in a list. */
  function Count(l: seq<int>, x: int): nat {
    if l == [] then 0 else Count(l[..|l| - 1], x) + (if l[|l| - 1] == x then 1 else 0)
  }

  function Released(s: Sys, id: int): Sys {
    s.(m := Unregister(s.m, id), held := s.held - multiset{id})
  }

  function ReleaseAll(s: Sys, ids: seq<int>): Sys {
    if ids == [] then s else Released(ReleaseAll(s, ids[..|ids| - 1]), ids[|ids| - 1])
  }

  /** The time test of executeIfRequired. */
  predicate Due(t: Task, c: Clock) {
    if t.afterStart then c.now - c.left + 1.0 >= t.base
    else if t.beforeEnd then c.limit != 0.0 && (c.left + c.limit * 60.0) - c.now - 1.0 <= t.base
    else t.next <= c.now
  }

  /** A task whose count is zero is not called when it is due. */
  predicate WillCall(t: Task) {
    !(t.loop && t.repeat == 0)
  }

  /** After the callback of a task that is not free: its next time, or its end. */
  function Rescheduled(t: Task): Task {
    if !t.loop then Cleared(t)
    else if t.repeat == -1 then t.(next := t.next + t.base)
    else if t.repeat - 1 <= 0 then Cleared(t)
    else t.(repeat := t.repeat - 1, next := t.next + t.base)
  }

  /** A task after its callback. */
  function Returned(t: Task): Task {
    if t.free then t.(inExec := false) else Rescheduled(t.(inExec := false))
  }

  // ---------- The machine ----------

  /** The control stack. Loop: startFrame is about to look at task i. InTask: the callback of task i
      runs. Acts: ExecuteFrameCallbacks has `rest` callbacks to go. InAction: a frame callback runs.
      InOther: some other forward executes. */
  datatype Frame =
    | Loop(i: nat, last: nat)
    | InTask(i: nat, last: nat, fid: int)
    | Acts(rest: nat)
    | InAction(rest: nat, fid: int)
    | InOther(fid: int)

  /** `fwd` is the forward manager with the executions and registrations it has seen, `queue` holds the
      forwards of the frame callbacks that wait, `other` the registrations held by anybody else. `lost`
      counts tasks that a deferred clear destroyed after they were counted. */
  datatype World = World(fwd: Sys, tm: TaskMngr, queue: seq<int>, frames: seq<Frame>, other: multiset<int>, lost: nat)

  datatype Step =
    | SetTask(name: string, request: Request, now: real)
    | RemoveTasks(id: int, amx: Option<Amx>)
    | ChangeTasks(id: int, amx: Option<Amx>, base: real, now: real)
    | RequestFrame(name: string, plugin: Amx)
    | ClearTasks
    | ClearFrames
    | StartFrame
    | StartActions
    | Other(step: Forwards.Step)
    | Continue(clock: Clock, executable: bool)

  function Top(frames: seq<Frame>): Frame
    requires frames != []
  {
    frames[|frames| - 1]
  }

  function Below(frames: seq<Frame>): seq<Frame>
    requires frames != []
  {
    frames[..|frames| - 1]
  }

  /** Plugin or engine code is in control. */
  predicate CanCall(frames: seq<Frame>) {
    frames == [] || !(Top(frames).Loop? || Top(frames).Acts?)
  }

  /** A loop of ExecuteFrameCallbacks is about to take a callback, and there is none. */
  predicate Starved(w: World) {
    w.frames != [] && Top(w.frames).Acts? && Top(w.frames).rest > 0 && w.queue == []
  }

  /** The tasks are cleared at most one frame deep, and no frame starts while a clear is deferred
      unless the counter ends it at once. */
  predicate Enabled(w: World, step: Step) {
    match step
    case Continue(_, _) => w.frames != [] && !Starved(w)
    case ClearTasks => CanCall(w.frames) && w.tm.depth <= 1
    case StartFrame => CanCall(w.frames) && (w.tm.deferred ==> w.tm.active == 0)
    case Other(s) => CanCall(w.frames) && !s.DoLeave? && (s.DoRelease? ==> w.other[s.id] > 0)
    case _ => CanCall(w.frames)
  }

  /** The executions on the control stack. */
  function StackOf(frames: seq<Frame>): seq<int> {
    if frames == [] then []
    else if Top(frames).Loop? || Top(frames).Acts? then StackOf(Below(frames))
    else StackOf(Below(frames)) + [Top(frames).fid]
  }

  /** The frame callbacks that run; each holds its forward until it returns. */
  function ActionsOf(frames: seq<Frame>): seq<int> {
    if frames == [] then []
    else if Top(frames).InAction? then ActionsOf(Below(frames)) + [Top(frames).fid]
    else ActionsOf(Below(frames))
  }

  /** The tasks whose callbacks run. */
  function RunningOf(frames: seq<Frame>): seq<int> {
    if frames == [] then []
    else if Top(frames).InTask? then RunningOf(Below(frames)) + [Top(frames).i]
    else RunningOf(Below(frames))
  }

  /** The number of those who hold a forward. */
  function Holders(w: World, id: int): nat {
    Number(w.tm.tasks, HoldersOf(id)) + Count(w.queue, id) + Count(ActionsOf(w.frames), id) + w.other[id]
  }

  function AfterSet(w: World, r: (Mngr, int), request: Request, now: real): World {
    if r.1 == -1 then w.(fwd := Registered(w.fwd, r))
    else w.(fwd := Registered(w.fwd, r), tm := AddTask(w.tm, NewTask(r.1, request, now)))
  }

  function AfterRequest(w: World, r: (Mngr, int)): World {
    if r.1 == -1 then w.(fwd := Registered(w.fwd, r)) else w.(fwd := Registered(w.fwd, r), queue := w.queue + [r.1])
  }

  function AfterRemove(w: World, id: int, amx: Option<Amx>): World {
    w.(fwd := ReleaseAll(w.fwd, RemovedFuncs(w.tm.tasks, |w.tm.tasks|, id, amx)),
       tm := RemoveFirst(w.tm, |w.tm.tasks|, id, amx))
  }

  /** CTaskMngr::clear: inside a frame the tasks are only freed, and destroyed when the frame ends. */
  function AfterClear(w: World): World {
    var fwd := ReleaseAll(w.fwd, LiveFuncs(w.tm.tasks));
    if w.tm.depth > 0 then w.(fwd := fwd, tm := TaskMngr(ClearAll(w.tm.tasks), 0, 0, w.tm.depth, true), lost := 0)
    else w.(fwd := fwd, tm := TaskMngr([], 0, 0, 0, w.tm.deferred), lost := 0)
  }

  function AfterStart(w: World): World {
    if w.tm.active == 0 then w
    else w.(tm := w.tm.(depth := w.tm.depth + 1), frames := w.frames + [Loop(0, |w.tm.tasks|)])
  }

  /** The end of startFrame. */
  function EndFrame(w: World, below: seq<Frame>): World
    requires w.tm.depth > 0
  {
    if w.tm.deferred then
      w.(fwd := ReleaseAll(w.fwd, LiveFuncs(w.tm.tasks)), frames := below, lost := w.lost + Number(w.tm.tasks, Live),
         tm := w.tm.(tasks := [], depth := w.tm.depth - 1, deferred := false))
    else w.(frames := below, tm := w.tm.(depth := w.tm.depth - 1))
  }

  /** What a round of startFrame leaves of the counters. */
  function RoundOf(tm: TaskMngr, i: nat, t': Task): TaskMngr
    requires i < |tm.tasks|
  {
    if t'.free then tm.(tasks := tm.tasks[i := t'], active := if tm.active > 0 then tm.active - 1
                        else 0, hint := Min(tm.hint, i))
    else tm.(tasks := tm.tasks[i := t'])
  }

  /** After the callback of task i: the rest of executeIfRequired, and of the round of startFrame. */
  function AfterTask(w: World, below: seq<Frame>, i: nat, last: nat): World
    requires i < |w.tm.tasks| && w.tm.depth > 0
  {
    var t, t' := w.tm.tasks[i], Returned(w.tm.tasks[i]);
    var fwd := if t'.free && !t.free then Released(w.fwd, t.func) else w.fwd;
    if w.tm.deferred then EndFrame(w.(fwd := fwd, tm := w.tm.(tasks := w.tm.tasks[i := t'])), below)
    else w.(fwd := fwd, frames := below + [Loop(i + 1, last)], tm := RoundOf(w.tm, i, t'))
  }

  /** What executeForwards does up to the callback, and whether there is one. */
  function Entered(s: Sys, id: int, executable: bool): (Sys, bool) {
    if !ValidId(s.m, id) then (s, false)
    else if Runs(SlotOf(s.m, id), executable) then (s.(m := EnterExec(s.m, id), stack := s.stack + [id]), true)
    else (s.(m := FinishRelease(s.m, id)), false)
  }

  function Left(s: Sys): Sys
    requires s.stack != [] && ValidId(s.m, s.stack[|s.stack| - 1])
  {
    s.(m := LeaveExec(s.m, s.stack[|s.stack| - 1]), stack := s.stack[..|s.stack| - 1])
  }

  /** One round of the loop of startFrame, up to the callback if there is one. */
  function Visit(w: World, below: seq<Frame>, i: nat, last: nat, clock: Clock, executable: bool): World
    requires i < |w.tm.tasks| && w.tm.depth > 0
  {
    var t := w.tm.tasks[i];
    if t.free then w.(frames := below + [Loop(i + 1, last)])
    else if t.inExec || !Due(t, clock) then
      (if w.tm.deferred then EndFrame(w, below) else w.(frames := below + [Loop(i + 1, last)]))
    else if !WillCall(t) then AfterTask(w, below, i, last)
    else
      var (fwd, entered) := Entered(w.fwd, t.func, executable);
      if !entered then AfterTask(w.(fwd := fwd), below, i, last)
      else w.(fwd := fwd, frames := below + [InTask(i, last, t.func)],
              tm := w.tm.(tasks := w.tm.tasks[i := t.(inExec := true)]))
  }

  /** The next frame callback, up to its call; if it does not run, it is gone at once. */
  function NextAction(w: World, below: seq<Frame>, rest: nat, executable: bool): World
    requires w.queue != [] && rest > 0
  {
    var (fwd, entered) := Entered(w.fwd, w.queue[0], executable);
    if entered then w.(fwd := fwd, queue := w.queue[1..], frames := below + [InAction(rest - 1, w.queue[0])])
    else w.(fwd := Released(fwd, w.queue[0]), queue := w.queue[1..], frames := below + [Acts(rest - 1)])
  }

  /** Every frame but the topmost is inside a callback, the depth counts the frames of startFrame, and
      a task is marked as executing exactly if its callback is on the stack. */
  ghost predicate Control(tm: TaskMngr, frames: seq<Frame>) {
    && tm.depth == |RunningOf(frames)| + (if frames != [] && Top(frames).Loop? then 1 else 0)
    && FramesOk(frames, |tm.tasks|)
    && MarksOk(tm.tasks, RunningOf(frames))
  }

  ghost predicate FramesOk(frames: seq<Frame>, size: nat) {
    forall k {:trigger frames[k]} :: 0 <= k < |frames| ==> FrameOk(frames[k], k == |frames| - 1, size)
  }

  ghost predicate MarksOk(tasks: seq<Task>, running: seq<int>) {
    forall i {:trigger tasks[i]} :: 0 <= i < |tasks| ==> Count(running, i) == if tasks[i].inExec then 1 else 0
  }

  predicate FrameOk(f: Frame, topmost: bool, size: nat) {
    match f
    case Loop(i, last) => topmost && i <= last <= size
    case InTask(i, last, _) => i < last <= size
    case Acts(_) => topmost
    case _ => true
  }

  /** A task that is not free has a live forward of its own plugin that takes its parameters. */
  predicate TaskOk(m: Mngr, t: Task) {
    if t.free then t.func == -1
    else ValidId(m, t.func) && SlotOf(m, t.func).amx == t.amx && SlotOf(m, t.func).sig == SigOf(t.params)
  }

  ghost predicate TasksOk(m: Mngr, tasks: seq<Task>) {
    forall i {:trigger tasks[i]} :: 0 <= i < |tasks| ==> TaskOk(m, tasks[i])
  }

  /** The counter counts. Between a deferred clear and the end of the frame, the tasks that execute
      are all free, and not counted. */
  ghost predicate Counts(tm: TaskMngr, lost: nat) {
    if tm.deferred then
      tm.active == Number(tm.tasks, Live) && lost == 0
      && forall i {:trigger tm.tasks[i]} :: 0 <= i < |tm.tasks| && tm.tasks[i].inExec ==> tm.tasks[i].free
    else tm.active == Number(tm.tasks, Live) + Number(tm.tasks, Ending) + lost
  }

  /** No slot below the hint is reusable. */
  ghost predicate HintOk(tm: TaskMngr) {
    forall i {:trigger tm.tasks[i]} :: 0 <= i < |tm.tasks| && i < tm.hint ==> !Reusable(tm.tasks[i])
  }

  /** What holds of the task manager alone. */
  ghost predicate TInv(tm: TaskMngr, frames: seq<Frame>, lost: nat) {
    && Control(tm, frames)
    && (tm.deferred ==> |RunningOf(frames)| == 1 && tm.depth == 1)
    && Counts(tm, lost)
    && HintOk(tm)
  }

  /** Every registration belongs to a holder, and every execution is on the control stack. */
  ghost predicate Ledger(w: World) {
    && w.fwd.stack == StackOf(w.frames)
    && forall id :: w.fwd.held[id] == Holders(w, id)
  }

  /** What holds of the forwards and those who hold them. */
  ghost predicate FInv(w: World, pub: Publics) {
    && Inv(w.fwd, pub)
    && Ledger(w)
    && TasksOk(w.fwd.m, w.tm.tasks)
  }

  ghost predicate WInv(w: World, pub: Publics) {
    FInv(w, pub) && TInv(w.tm, w.frames, w.lost)
  }

  /** Control goes on where the top of the control stack says. */
  function AfterContinue(w: World, clock: Clock, executable: bool): World
    requires Control(w.tm, w.frames) && Enabled(w, Continue(clock, executable)) && w.fwd.stack == StackOf(w.frames)
    requires forall id :: id in w.fwd.stack ==> ValidId(w.fwd.m, id)
  {
    var below := Below(w.frames);
    match Top(w.frames)
    case Loop(i, last) => if i < last then Visit(w, below, i, last, clock, executable) else EndFrame(w, below)
    case InTask(i, last, fid) => AfterTask(w.(fwd := Left(w.fwd)), below, i, last)
    case Acts(rest) => if rest > 0 then NextAction(w, below, rest, executable) else w.(frames := below)
    case InAction(rest, fid) => w.(fwd := Released(Left(w.fwd), fid), frames := below + [Acts(rest)])
    case InOther(fid) => w.(fwd := Left(w.fwd), frames := below)
  }

  /** What other code does with forwards. */
  function OtherStep(w: World, pub: Publics, step: Forwards.Step): World
    requires Inv(w.fwd, pub) && Ledger(w) && Enabled(w, Other(step))
  {
    assert step.DoRelease? ==> Holders(w, step.id) > 0;
    var fwd := Forwards.Next(w.fwd, pub, step);
    match step
    case DoEnter(id, executable) =>
      w.(fwd := fwd, frames := if Entered(w.fwd, id, executable).1 then w.frames + [InOther(id)] else w.frames)
    case DoRelease(id) => w.(fwd := fwd, other := w.other - multiset{id})
    case _ => w.(fwd := fwd, other := w.other + (fwd.held - w.fwd.held))
  }

  function Next(w: World, pub: Publics, step: Step): World
    requires WInv(w, pub) && Enabled(w, step)
  {
    match step
    case SetTask(name, request, now) =>
      AfterSet(w, Register(w.fwd.m, pub, ByName(name), request.amx, SigOf(request.params)), request, now)
    case RemoveTasks(id, amx) => AfterRemove(w, id, amx)
    case ChangeTasks(id, amx, base, now) => w.(tm := w.tm.(tasks := ChangeAll(w.tm.tasks, id, amx, base, now)))
    case RequestFrame(name, plugin) => AfterRequest(w, Register(w.fwd.m, pub, ByName(name), plugin, [FP_CELL]))
    case ClearTasks => AfterClear(w)
    case ClearFrames => w.(fwd := ReleaseAll(w.fwd, w.queue), queue := [])
    case StartFrame => AfterStart(w)
    case StartActions => w.(frames := w.frames + [Acts(|w.queue|)])
    case Other(s) => OtherStep(w, pub, s)
    case Continue(clock, executable) => AfterContinue(w, clock, executable)
  }

  // ---------- Counting ----------

  lemma {:induction false} SetNumber(tasks: seq<Task>, i: nat, t: Task, what: What)
    requires i < |tasks|
    ensures Number(tasks[i := t], what) == Number(tasks, what) + One(t, what) - One(tasks[i], what)
  {
    var n := |tasks| - 1;
    if i < n {
      assert tasks[i := t][..n] == tasks[..n][i := t];
      SetNumber(tasks[..n], i, t, what);
    } else {
      assert tasks[i := t][..n] == tasks[..n];
    }
  }

  lemma PushNumber(tasks: seq<Task>, t: Task, what: What)
    ensures Number(tasks + [t], what) == Number(tasks, what) + One(t, what)
  {
  }

  lemma {:induction false} SameNumber(tasks: seq<Task>, tasks': seq<Task>, what: What)
    requires |tasks| == |tasks'| && forall i {:trigger tasks'[i]} :: 0 <= i < |tasks| ==>
               One(tasks'[i], what) == One(tasks[i], what)
    ensures Number(tasks', what) == Number(tasks, what)
  {
    if tasks != [] {
      SameNumber(tasks[..|tasks| - 1], tasks'[..|tasks| - 1], what);
    }
  }

  lemma {:induction false} NoneOf(tasks: seq<Task>, what: What)
    requires forall i {:trigger tasks[i]} :: 0 <= i < |tasks| ==> One(tasks[i], what) == 0
    ensures Number(tasks, what) == 0
  {
    if tasks != [] {
      NoneOf(tasks[..|tasks| - 1], what);
    }
  }

  lemma {:induction false} SomeOf(tasks: seq<Task>, what: What, i: nat)
    requires i < |tasks| && One(tasks[i], what) > 0
    ensures Number(tasks, what) > 0
  {
    if i < |tasks| - 1 {
      SomeOf(tasks[..|tasks| - 1], what, i);
    }
  }

  lemma PushCount(l: seq<int>, y: int, x: int)
    ensures Count(l + [y], x) == Count(l, x) + (if y == x then 1 else 0)
  {
  }

  lemma {:induction false} PopCount(l: seq<int>, x: int)
    requires l != []
    ensures Count(l, x) == Count(l[1..], x) + (if l[0] == x then 1 else 0)
  {
    var n := |l| - 1;
    if n > 0 {
      assert l[..n][1..] == l[1..][..n - 1];
      PopCount(l[..n], x);
    }
  }

  lemma {:induction false} LiveCount(tasks: seq<Task>, id: int)
    ensures Count(LiveFuncs(tasks), id) == Number(tasks, HoldersOf(id))
  {
    if tasks != [] {
      var front, t := tasks[..|tasks| - 1], tasks[|tasks| - 1];
      LiveCount(front, id);
      if !t.free {
        PushCount(LiveFuncs(front), t.func, id);
      }
    }
  }

  // ---------- Releases ----------

  /** The forwards held in t are the same in both states. */
  ghost predicate Kept(s: Sys, t: Sys) {
    forall id :: t.held[id] > 0 ==> ValidId(s.m, id) && ValidId(t.m, id) && SameTarget(SlotOf(t.m, id), SlotOf(s.m, id))
  }

  lemma StepKeeps(s: Sys, t: Sys, pub: Publics, step: Forwards.Step)
    requires Inv(s, pub) && Forwards.Enabled(s, step) && t == Forwards.Next(s, pub, step)
    requires step.DoRelease? || step.DoEnter? || step.DoLeave?
    ensures Inv(t, pub) && Kept(s, t)
  {
    StepKeepsInv(s, pub, step);
    forall id | t.held[id] > 0
      ensures ValidId(s.m, id) && ValidId(t.m, id) && SameTarget(SlotOf(t.m, id), SlotOf(s.m, id))
    {
      StepKeepsTarget(s, pub, step, id);
    }
  }

  /** From s to t, some registrations were released. */
  ghost predicate Shrunk(s: Sys, t: Sys, pub: Publics) {
    Inv(t, pub) && Kept(s, t) && t.stack == s.stack
  }

  lemma ReleaseShrinks(s: Sys, t: Sys, pub: Publics, id: int)
    requires Shrunk(s, t, pub) && t.held[id] > 0
    ensures Shrunk(s, Released(t, id), pub)
  {
    StepKeeps(t, Released(t, id), pub, DoRelease(id));
    forall x | Released(t, id).held[x] > 0
      ensures ValidId(s.m, x) && ValidId(Released(t, id).m, x)
              && SameTarget(SlotOf(Released(t, id).m, x), SlotOf(s.m, x))
    {
      assert t.held[x] > 0;
    }
  }

  lemma SelfShrunk(s: Sys, pub: Publics)
    requires Inv(s, pub)
    ensures Shrunk(s, s, pub)
  {
  }

  lemma {:induction false} ReleaseAllHeld(s: Sys, ids: seq<int>, id: int)
    requires forall x :: Count(ids, x) <= s.held[x]
    ensures ReleaseAll(s, ids).held[id] == s.held[id] - Count(ids, id)
  {
    if ids != [] {
      var front := ids[..|ids| - 1];
      forall x ensures Count(front, x) <= s.held[x] {
        assert Count(ids, x) <= s.held[x];
      }
      ReleaseAllHeld(s, front, id);
      assert Count(ids, id) <= s.held[id];
    }
  }

  lemma {:induction false} ReleaseAllShrinks(s: Sys, pub: Publics, ids: seq<int>)
    requires Inv(s, pub) && forall id :: Count(ids, id) <= s.held[id]
    ensures Shrunk(s, ReleaseAll(s, ids), pub)
  {
    if ids == [] {
      SelfShrunk(s, pub);
    } else {
      var front, last := ids[..|ids| - 1], ids[|ids| - 1];
      forall id ensures Count(front, id) <= s.held[id] {
        assert Count(ids, id) <= s.held[id];
      }
      ReleaseAllShrinks(s, pub, front);
      ReleaseAllHeld(s, front, last);
      assert Count(ids, last) <= s.held[last];
      ReleaseShrinks(s, ReleaseAll(s, front), pub, last);
    }
  }

  lemma ReleaseAllKeeps(s: Sys, pub: Publics, ids: seq<int>)
    requires Inv(s, pub) && forall id :: Count(ids, id) <= s.held[id]
    ensures var t := ReleaseAll(s, ids);
            Inv(t, pub) && Kept(s, t) && t.stack == s.stack && forall id :: t.held[id] == s.held[id] - Count(ids, id)
  {
    ReleaseAllShrinks(s, pub, ids);
    forall id ensures ReleaseAll(s, ids).held[id] == s.held[id] - Count(ids, id) {
      ReleaseAllHeld(s, ids, id);
    }
  }

  /** The tasks keep their forwards, or are freed. */
  ghost predicate Carried(tasks: seq<Task>, tasks': seq<Task>) {
    && |tasks'| <= |tasks|
    && forall i {:trigger tasks'[i]} :: 0 <= i < |tasks'| ==>
         (tasks'[i].func == -1 && tasks'[i].free)
         || (!tasks'[i].free && !tasks[i].free && tasks'[i].func == tasks[i].func
             && tasks'[i].amx == tasks[i].amx && tasks'[i].params == tasks[i].params)
  }

  /** Tasks that keep their forwards stay bound to them. */
  lemma TasksKept(s: Sys, t: Sys, tasks: seq<Task>, tasks': seq<Task>)
    requires TasksOk(s.m, tasks) && Kept(s, t) && Carried(tasks, tasks')
    requires forall id :: Number(tasks', HoldersOf(id)) <= t.held[id]
    ensures TasksOk(t.m, tasks')
  {
    forall i {:trigger tasks'[i]} | 0 <= i < |tasks'| ensures TaskOk(t.m, tasks'[i]) {
      if !tasks'[i].free {
        var id := tasks'[i].func;
        SomeOf(tasks', HoldersOf(id), i);
        assert Number(tasks', HoldersOf(id)) <= t.held[id];
        assert TaskOk(s.m, tasks[i]);
      }
    }
  }

  // ---------- The task manager ----------

  /** The search from the hint finds the slot that a search from the start finds. */
  lemma {:induction false} HintedScan(tm: TaskMngr, i: nat)
    requires HintOk(tm) && i <= tm.hint && i <= |tm.tasks|
    ensures FirstReusable(tm.tasks, Min(tm.hint, |tm.tasks|)) == FirstReusable(tm.tasks, i)
    decreases |tm.tasks| - i
  {
  }

  /** The marks of executing tasks are unchanged, and new tasks do not execute. */
  ghost predicate SameExec(tasks: seq<Task>, tasks': seq<Task>) {
    && |tasks| <= |tasks'|
    && forall i {:trigger tasks'[i]} :: 0 <= i < |tasks'| ==> tasks'[i].inExec == (i < |tasks| && tasks[i].inExec)
  }

  lemma ControlKept(tm: TaskMngr, tm': TaskMngr, frames: seq<Frame>)
    requires Control(tm, frames) && SameExec(tm.tasks, tm'.tasks) && tm'.depth == tm.depth
    ensures Control(tm', frames)
  {
    forall i {:trigger tm'.tasks[i]} | 0 <= i < |tm'.tasks|
      ensures Count(RunningOf(frames), i) == if tm'.tasks[i].inExec then 1 else 0
    {
      if i < |tm.tasks| {
        assert tm.tasks[i].inExec == tm'.tasks[i].inExec;
      } else {
        RunningInRange(tm, frames, i);
      }
    }
  }

  lemma {:induction false} RunningInRange(tm: TaskMngr, frames: seq<Frame>, i: int)
    requires forall k :: 0 <= k < |frames| && frames[k].InTask? ==> frames[k].i < |tm.tasks|
    requires i >= |tm.tasks|
    ensures Count(RunningOf(frames), i) == 0
  {
    if frames != [] {
      RunningInRange(tm, Below(frames), i);
      assert forall k :: 0 <= k < |Below(frames)| && Below(frames)[k].InTask? ==> frames[k].i < |tm.tasks|;
      if Top(frames).InTask? {
        PushCount(RunningOf(Below(frames)), Top(frames).i, i);
      }
    }
  }

  lemma ReuseKeeps(tm: TaskMngr, tm': TaskMngr, frames: seq<Frame>, lost: nat, i: nat, t: Task)
    requires TInv(tm, frames, lost) && !t.free && !t.inExec && i < |tm.tasks| && Reusable(tm.tasks[i])
    requires forall j :: 0 <= j < i ==> !Reusable(tm.tasks[j])
    requires tm' == tm.(tasks := tm.tasks[i := t], active := tm.active + 1, hint := i + 1)
    ensures TInv(tm', frames, lost)
  {
    SetNumber(tm.tasks, i, t, Live);
    SetNumber(tm.tasks, i, t, Ending);
    ControlKept(tm, tm', frames);
  }

  lemma AppendKeeps(tm: TaskMngr, tm': TaskMngr, frames: seq<Frame>, lost: nat, t: Task)
    requires TInv(tm, frames, lost) && !t.free && !t.inExec
    requires forall j :: 0 <= j < |tm.tasks| ==> !Reusable(tm.tasks[j])
    requires tm' == tm.(tasks := tm.tasks + [t], active := tm.active + 1, hint := |tm.tasks| + 1)
    ensures TInv(tm', frames, lost)
  {
    PushNumber(tm.tasks, t, Live);
    PushNumber(tm.tasks, t, Ending);
    ControlKept(tm, tm', frames);
  }

  lemma AddTaskKeeps(tm: TaskMngr, frames: seq<Frame>, lost: nat, t: Task)
    requires TInv(tm, frames, lost) && !t.free && !t.inExec
    ensures TInv(AddTask(tm, t), frames, lost)
  {
    HintedScan(tm, 0);
    var i := FirstReusable(tm.tasks, 0);
    if i < |tm.tasks| {
      ReuseKeeps(tm, AddTask(tm, t), frames, lost, i, t);
    } else {
      AppendKeeps(tm, AddTask(tm, t), frames, lost, t);
    }
  }

  lemma AddTaskHolds(tm: TaskMngr, t: Task, id: int)
    requires HintOk(tm)
    ensures Number(AddTask(tm, t).tasks, HoldersOf(id)) == Number(tm.tasks, HoldersOf(id)) + One(t, HoldersOf(id))
  {
    var i := FirstReusable(tm.tasks, Min(tm.hint, |tm.tasks|));
    if i < |tm.tasks| {
      SetNumber(tm.tasks, i, t, HoldersOf(id));
    } else {
      PushNumber(tm.tasks, t, HoldersOf(id));
    }
  }

  lemma RemoveOneKeeps(tm: TaskMngr, frames: seq<Frame>, lost: nat, i: nat, id: int, amx: Option<Amx>)
    requires TInv(tm, frames, lost) && i < |tm.tasks|
    ensures TInv(RemoveOne(tm, i, id, amx), frames, lost)
  {
    SetNumber(tm.tasks, i, Cleared(tm.tasks[i]), Live);
    SetNumber(tm.tasks, i, Cleared(tm.tasks[i]), Ending);
    ControlKept(tm, RemoveOne(tm, i, id, amx), frames);
  }

  lemma {:induction false} RemoveKeeps(tm: TaskMngr, frames: seq<Frame>, lost: nat, k: nat, id: int, amx: Option<Amx>)
    requires TInv(tm, frames, lost) && k <= |tm.tasks|
    ensures TInv(RemoveFirst(tm, k, id, amx), frames, lost)
  {
    if k > 0 {
      RemoveKeeps(tm, frames, lost, k - 1, id, amx);
      RemoveOneKeeps(RemoveFirst(tm, k - 1, id, amx), frames, lost, k - 1, id, amx);
    }
  }

  /** What removal leaves of each task. */
  lemma {:induction false} RemovedTask(tm: TaskMngr, k: nat, id: int, amx: Option<Amx>, i: nat)
    requires k <= |tm.tasks| && i < |tm.tasks|
    ensures RemoveFirst(tm, k, id, amx).tasks[i]
         == if i < k && Matches(tm.tasks[i], id, amx) then Cleared(tm.tasks[i]) else tm.tasks[i]
  {
    if k > 0 {
      RemovedTask(tm, k - 1, id, amx, i);
      RemovedTask(tm, k - 1, id, amx, k - 1);
    }
  }

  lemma {:induction false} RemovedCount(tm: TaskMngr, k: nat, id: int, amx: Option<Amx>, fid: int)
    requires k <= |tm.tasks|
    ensures Number(RemoveFirst(tm, k, id, amx).tasks, HoldersOf(fid)) + Count(RemovedFuncs(tm.tasks, k, id, amx), fid)
         == Number(tm.tasks, HoldersOf(fid))
  {
    hide Number, One;
    if k > 0 {
      RemovedCount(tm, k - 1, id, amx, fid);
      RemovedTask(tm, k - 1, id, amx, k - 1);
      RemovedCountStep(RemoveFirst(tm, k - 1, id, amx), k - 1, id, amx, RemovedFuncs(tm.tasks, k - 1, id, amx), fid);
    }
  }

  lemma RemovedCountStep(tm: TaskMngr, i: nat, id: int, amx: Option<Amx>, ids: seq<int>, fid: int)
    requires i < |tm.tasks|
    ensures Number(RemoveOne(tm, i, id, amx).tasks, HoldersOf(fid))
          + Count(if Matches(tm.tasks[i], id, amx) then ids + [tm.tasks[i].func] else ids, fid)
         == Number(tm.tasks, HoldersOf(fid)) + Count(ids, fid)
  {
    SetNumber(tm.tasks, i, Cleared(tm.tasks[i]), HoldersOf(fid));
    PushCount(ids, tm.tasks[i].func, fid);
  }

  // ---------- Every step keeps the invariant ----------

  lemma RegisterTargets(m: Mngr, pub: Publics, key: Key, amx: Amx, sig: seq<int>)
    requires forall id :: id in m.free ==> ValidId(m, id)
    ensures var r := Register(m, pub, key, amx, sig);
            r.1 != -1 ==> ValidId(r.0, r.1) && SlotOf(r.0, r.1).amx == amx && SlotOf(r.0, r.1).sig == sig
  {
    match FindLive(m.slots, 0, key, amx, sig)
    case Some(i) => assert IdOf(i) / 2 == i;
    case None =>
      if m.free == [] {
        assert IdOf(|m.slots|) / 2 == |m.slots|;
      } else {
        assert m.free[|m.free| - 1] in m.free;
      }
  }

  lemma FreeValid(s: Sys, pub: Publics)
    requires Inv(s, pub)
    ensures forall id :: id in s.m.free ==> ValidId(s.m, id)
  {
  }

  lemma RegisterBinds(s: Sys, pub: Publics, key: Key, amx: Amx, sig: seq<int>)
    requires Inv(s, pub)
    ensures var r := Register(s.m, pub, key, amx, sig);
            var t := Registered(s, r);
            && Inv(t, pub) && t.stack == s.stack
            && (r.1 != -1 ==> ValidId(t.m, r.1) && SlotOf(t.m, r.1).amx == amx && SlotOf(t.m, r.1).sig == sig)
            && (r.1 == -1 ==> t.held == s.held) && (r.1 != -1 ==> t.held == s.held + multiset{r.1})
  {
    hide Inv, Register;
    FreeValid(s, pub);
    RegisterKeepsInv(s, pub, key, amx, sig);
    RegisterTargets(s.m, pub, key, amx, sig);
  }

  lemma RegisterKeepsTasks(s: Sys, pub: Publics, key: Key, amx: Amx, sig: seq<int>, tasks: seq<Task>)
    requires Inv(s, pub) && TasksOk(s.m, tasks)
    requires forall id :: Number(tasks, HoldersOf(id)) <= s.held[id]
    ensures TasksOk(Register(s.m, pub, key, amx, sig).0, tasks)
  {
    var m := Register(s.m, pub, key, amx, sig).0;
    forall i {:trigger tasks[i]} | 0 <= i < |tasks| ensures TaskOk(m, tasks[i]) {
      if !tasks[i].free {
        var id := tasks[i].func;
        SomeOf(tasks, HoldersOf(id), i);
        assert Number(tasks, HoldersOf(id)) <= s.held[id];
        PinnedIsLive(s, pub, id);
        RegisterKeepsTarget(s, pub, key, amx, sig, id);
      }
    }
  }

  lemma HeldTasks(w: World)
    requires Ledger(w)
    ensures forall id :: Number(w.tm.tasks, HoldersOf(id)) <= w.fwd.held[id]
  {
  }

  lemma AddTaskOk(m: Mngr, tm: TaskMngr, t: Task)
    requires TasksOk(m, tm.tasks) && TaskOk(m, t)
    ensures TasksOk(m, AddTask(tm, t).tasks)
  {
  }

  lemma SetTaskLedger(w: World, pub: Publics, request: Request, now: real, name: string)
    requires FInv(w, pub) && HintOk(w.tm)
    ensures Ledger(AfterSet(w, Register(w.fwd.m, pub, ByName(name), request.amx, SigOf(request.params)), request, now))
  {
    var r := Register(w.fwd.m, pub, ByName(name), request.amx, SigOf(request.params));
    var w' := AfterSet(w, r, request, now);
    forall id ensures w'.fwd.held[id] == Holders(w', id) {
      assert w.fwd.held[id] == Holders(w, id);
      AddTaskHolds(w.tm, NewTask(r.1, request, now), id);
    }
  }

  lemma SetTaskKeeps(w: World, pub: Publics, request: Request, now: real, name: string)
    requires FInv(w, pub) && HintOk(w.tm)
    ensures FInv(AfterSet(w, Register(w.fwd.m, pub, ByName(name), request.amx, SigOf(request.params)), request, now),
                 pub)
  {
    var sig := SigOf(request.params);
    var r := Register(w.fwd.m, pub, ByName(name), request.amx, sig);
    SetTaskLedger(w, pub, request, now, name);
    RegisterBinds(w.fwd, pub, ByName(name), request.amx, sig);
    HeldTasks(w);
    RegisterKeepsTasks(w.fwd, pub, ByName(name), request.amx, sig, w.tm.tasks);
    if r.1 != -1 {
      AddTaskOk(r.0, w.tm, NewTask(r.1, request, now));
    }
  }

  lemma RequestFrameKeeps(w: World, pub: Publics, name: string, plugin: Amx)
    requires FInv(w, pub)
    ensures FInv(AfterRequest(w, Register(w.fwd.m, pub, ByName(name), plugin, [FP_CELL])), pub)
  {
    var r := Register(w.fwd.m, pub, ByName(name), plugin, [FP_CELL]);
    var w' := AfterRequest(w, r);
    RegisterBinds(w.fwd, pub, ByName(name), plugin, [FP_CELL]);
    HeldTasks(w);
    RegisterKeepsTasks(w.fwd, pub, ByName(name), plugin, [FP_CELL], w.tm.tasks);
    forall id ensures w'.fwd.held[id] == Holders(w', id) {
      assert w.fwd.held[id] == Holders(w, id);
      PushCount(w.queue, r.1, id);
    }
  }

  /** The tasks that are left are as they were, and `ids` are the forwards of the others. */
  ghost predicate Freed(tasks: seq<Task>, tasks': seq<Task>, ids: seq<int>) {
    && |tasks'| <= |tasks|
    && (forall id :: Number(tasks', HoldersOf(id)) + Count(ids, id) == Number(tasks, HoldersOf(id)))
    && (forall i {:trigger tasks'[i]} :: 0 <= i < |tasks'| ==>
          (tasks'[i].func == -1 && tasks'[i].free) || tasks'[i] == tasks[i])
  }

  /** The forwards of the freed tasks are released. */
  lemma FreeingKeeps(w: World, w': World, pub: Publics, ids: seq<int>)
    requires FInv(w, pub) && w'.fwd == ReleaseAll(w.fwd, ids) && Freed(w.tm.tasks, w'.tm.tasks, ids)
    requires w'.queue == w.queue && w'.other == w.other && StackOf(w'.frames) == StackOf(w.frames)
    requires ActionsOf(w'.frames) == ActionsOf(w.frames)
    ensures FInv(w', pub)
  {
    forall id ensures Count(ids, id) <= w.fwd.held[id] {
      assert w.fwd.held[id] == Holders(w, id);
      assert Number(w'.tm.tasks, HoldersOf(id)) + Count(ids, id) == Number(w.tm.tasks, HoldersOf(id));
    }
    ReleaseAllKeeps(w.fwd, pub, ids);
    forall id ensures w'.fwd.held[id] == Holders(w', id) {
      assert w.fwd.held[id] == Holders(w, id);
      assert Number(w'.tm.tasks, HoldersOf(id)) + Count(ids, id) == Number(w.tm.tasks, HoldersOf(id));
    }
    HeldTasks(w');
    FreedTasksOk(w.fwd, w'.fwd, w.tm.tasks, w'.tm.tasks, ids);
  }

  lemma FreedTasksOk(s: Sys, t: Sys, tasks: seq<Task>, tasks': seq<Task>, ids: seq<int>)
    requires Freed(tasks, tasks', ids) && TasksOk(s.m, tasks) && Kept(s, t)
    requires forall id :: Number(tasks', HoldersOf(id)) <= t.held[id]
    ensures TasksOk(t.m, tasks')
  {
    forall i {:trigger tasks'[i]} | 0 <= i < |tasks'|
      ensures tasks'[i] == tasks[i] && tasks[i].free ==> tasks[i].func == -1
    {
      assert TaskOk(s.m, tasks[i]);
    }
    TasksKept(s, t, tasks, tasks');
  }

  lemma RemoveTasksKeeps(w: World, pub: Publics, id: int, amx: Option<Amx>)
    requires FInv(w, pub)
    ensures FInv(AfterRemove(w, id, amx), pub)
  {
    var n := |w.tm.tasks|;
    var tm' := RemoveFirst(w.tm, n, id, amx);
    var ids := RemovedFuncs(w.tm.tasks, n, id, amx);
    forall fid ensures Number(tm'.tasks, HoldersOf(fid)) + Count(ids, fid) == Number(w.tm.tasks, HoldersOf(fid)) {
      RemovedCount(w.tm, n, id, amx, fid);
    }
    forall i {:trigger tm'.tasks[i]} | 0 <= i < n
      ensures (tm'.tasks[i].func == -1 && tm'.tasks[i].free) || tm'.tasks[i] == w.tm.tasks[i]
    {
      RemovedTask(w.tm, n, id, amx, i);
    }
    FreeingKeeps(w, AfterRemove(w, id, amx), pub, ids);
  }

  lemma ChangeTasksKeeps(w: World, pub: Publics, id: int, amx: Option<Amx>, base: real, now: real)
    requires FInv(w, pub)
    ensures FInv(w.(tm := w.tm.(tasks := ChangeAll(w.tm.tasks, id, amx, base, now))), pub)
  {
    var w' := w.(tm := w.tm.(tasks := ChangeAll(w.tm.tasks, id, amx, base, now)));
    forall fid ensures w'.fwd.held[fid] == Holders(w', fid) {
      assert w.fwd.held[fid] == Holders(w, fid);
      SameNumber(w.tm.tasks, w'.tm.tasks, HoldersOf(fid));
    }
    forall i {:trigger w'.tm.tasks[i]} | 0 <= i < |w'.tm.tasks| ensures TaskOk(w'.fwd.m, w'.tm.tasks[i]) {
      assert TaskOk(w.fwd.m, w.tm.tasks[i]);
    }
  }

  lemma ChangeTInv(tm: TaskMngr, frames: seq<Frame>, lost: nat, id: int, amx: Option<Amx>, base: real, now: real)
    requires TInv(tm, frames, lost)
    ensures TInv(tm.(tasks := ChangeAll(tm.tasks, id, amx, base, now)), frames, lost)
  {
    var tm' := tm.(tasks := ChangeAll(tm.tasks, id, amx, base, now));
    SameNumber(tm.tasks, tm'.tasks, Live);
    SameNumber(tm.tasks, tm'.tasks, Ending);
    ControlKept(tm, tm', frames);
  }

  lemma NoneRunning(tm: TaskMngr, frames: seq<Frame>)
    requires Control(tm, frames) && RunningOf(frames) == []
    ensures forall i {:trigger tm.tasks[i]} :: 0 <= i < |tm.tasks| ==> !tm.tasks[i].inExec
    ensures forall k :: 0 <= k < |frames| ==> !frames[k].InTask?
  {
  }

  lemma {:induction false} RunningHas(frames: seq<Frame>, k: nat)
    requires k < |frames| && frames[k].InTask?
    ensures frames[k].i in RunningOf(frames)
  {
    if k < |frames| - 1 {
      RunningHas(Below(frames), k);
    }
  }

  lemma ClearInside(tm: TaskMngr, frames: seq<Frame>, lost: nat)
    requires TInv(tm, frames, lost) && tm.depth == 1 && CanCall(frames)
    ensures TInv(TaskMngr(ClearAll(tm.tasks), 0, 0, 1, true), frames, 0)
  {
    var tm' := TaskMngr(ClearAll(tm.tasks), 0, 0, 1, true);
    ControlKept(tm, tm', frames);
    NoneOf(tm'.tasks, Live);
  }

  lemma ClearOutside(tm: TaskMngr, frames: seq<Frame>, lost: nat)
    requires TInv(tm, frames, lost) && tm.depth == 0
    ensures TInv(TaskMngr([], 0, 0, 0, tm.deferred), frames, 0)
  {
    NoneRunning(tm, frames);
  }

  /** All tasks are freed, or destroyed. */
  lemma FreeAllKeeps(w: World, w': World, pub: Publics)
    requires FInv(w, pub) && w'.fwd == ReleaseAll(w.fwd, LiveFuncs(w.tm.tasks))
    requires w'.queue == w.queue && w'.other == w.other && StackOf(w'.frames) == StackOf(w.frames)
    requires ActionsOf(w'.frames) == ActionsOf(w.frames) && (w'.tm.tasks == [] || w'.tm.tasks == ClearAll(w.tm.tasks))
    ensures FInv(w', pub)
  {
    FreeAllFreed(w, w'.tm.tasks, pub);
    FreeingKeeps(w, w', pub, LiveFuncs(w.tm.tasks));
  }

  lemma FreeAllFreed(w: World, tasks': seq<Task>, pub: Publics)
    requires FInv(w, pub) && (tasks' == [] || tasks' == ClearAll(w.tm.tasks))
    ensures Freed(w.tm.tasks, tasks', LiveFuncs(w.tm.tasks))
  {
    hide Inv, Ledger, Number, Count, LiveFuncs;
    forall id ensures Number(tasks', HoldersOf(id)) + Count(LiveFuncs(w.tm.tasks), id)
      == Number(w.tm.tasks, HoldersOf(id)) {
      LiveCount(w.tm.tasks, id);
      NoneOf(tasks', HoldersOf(id));
    }
  }

  lemma ClearFramesKeeps(w: World, pub: Publics)
    requires FInv(w, pub)
    ensures FInv(w.(fwd := ReleaseAll(w.fwd, w.queue), queue := []), pub)
  {
    var w' := w.(fwd := ReleaseAll(w.fwd, w.queue), queue := []);
    forall id ensures Count(w.queue, id) <= w.fwd.held[id] {
      assert w.fwd.held[id] == Holders(w, id);
    }
    ReleaseAllKeeps(w.fwd, pub, w.queue);
    forall id ensures w'.fwd.held[id] == Holders(w', id) {
      assert w.fwd.held[id] == Holders(w, id);
    }
    HeldTasks(w');
    FreedTasksOk(w.fwd, w'.fwd, w.tm.tasks, w.tm.tasks, []);
  }

  // ---------- The control stack ----------

  lemma Pushed(frames: seq<Frame>, f: Frame)
    ensures Below(frames + [f]) == frames && Top(frames + [f]) == f
    ensures StackOf(frames + [f]) == if f.Loop? || f.Acts? then StackOf(frames) else StackOf(frames) + [f.fid]
    ensures ActionsOf(frames + [f]) == if f.InAction? then ActionsOf(frames) + [f.fid] else ActionsOf(frames)
    ensures RunningOf(frames + [f]) == if f.InTask? then RunningOf(frames) + [f.i] else RunningOf(frames)
  {
  }

  lemma FramesPush(frames: seq<Frame>, size: nat, f: Frame)
    requires FramesOk(frames, size) && CanCall(frames) && FrameOk(f, true, size)
    ensures FramesOk(frames + [f], size)
  {
  }

  lemma FramesBelow(frames: seq<Frame>, size: nat)
    requires FramesOk(frames, size) && frames != []
    ensures FramesOk(Below(frames), size) && CanCall(Below(frames))
  {
  }

  lemma PushTInv(tm: TaskMngr, frames: seq<Frame>, f: Frame, lost: nat)
    requires TInv(tm, frames, lost) && CanCall(frames) && !f.InTask? && FrameOk(f, true, |tm.tasks|)
    requires f.Loop? ==> !tm.deferred
    ensures TInv(tm.(depth := tm.depth + if f.Loop? then 1 else 0), frames + [f], lost)
  {
    hide FramesOk, MarksOk, RunningOf, Counts, HintOk;
    Pushed(frames, f);
    FramesPush(frames, |tm.tasks|, f);
    PushKeepsCounts(tm, tm.(depth := tm.depth + if f.Loop? then 1 else 0), lost);
  }

  lemma PushKeepsCounts(tm: TaskMngr, tm': TaskMngr, lost: nat)
    requires Counts(tm, lost) && HintOk(tm) && tm' == tm.(depth := tm'.depth)
    ensures Counts(tm', lost) && HintOk(tm')
  {
  }

  /** The topmost frame is replaced by another of its kind, or by none. */
  lemma SwapTop(tm: TaskMngr, frames: seq<Frame>, f: Frame, lost: nat)
    requires TInv(tm, frames, lost) && frames != [] && !Top(frames).InTask? && !f.InTask?
    requires f.Loop? == Top(frames).Loop? && FrameOk(f, true, |tm.tasks|)
    ensures TInv(tm, Below(frames) + [f], lost)
  {
  }

  lemma PopTop(tm: TaskMngr, frames: seq<Frame>, lost: nat)
    requires TInv(tm, frames, lost) && frames != [] && !Top(frames).InTask? && !Top(frames).Loop?
    ensures TInv(tm, Below(frames), lost)
  {
  }

  lemma PopLoop(tm: TaskMngr, frames: seq<Frame>, lost: nat)
    requires TInv(tm, frames, lost) && frames != [] && Top(frames).Loop?
    ensures !tm.deferred && tm.depth > 0 && TInv(tm.(depth := tm.depth - 1), Below(frames), lost)
  {
  }

  lemma MarksPush(tasks: seq<Task>, running: seq<int>, i: nat)
    requires MarksOk(tasks, running) && i < |tasks| && !tasks[i].inExec
    ensures MarksOk(tasks[i := tasks[i].(inExec := true)], running + [i])
  {
  }

  lemma MarksPop(tasks: seq<Task>, running: seq<int>, i: nat, t: Task)
    requires MarksOk(tasks, running + [i]) && i < |tasks| && !t.inExec
    ensures MarksOk(tasks[i := t], running)
  {
    var tasks' := tasks[i := t];
    forall j {:trigger tasks'[j]} | 0 <= j < |tasks'| ensures Count(running, j) == if tasks'[j].inExec then 1 else 0 {
      PushCount(running, i, j);
      assert Count(running + [i], j) == if tasks[j].inExec then 1 else 0;
    }
  }

  lemma MarksSet(tasks: seq<Task>, running: seq<int>, i: nat, t: Task)
    requires MarksOk(tasks, running) && i < |tasks| && t.inExec == tasks[i].inExec
    ensures MarksOk(tasks[i := t], running)
  {
  }

  /** The callback of task i begins. */
  lemma CallTInv(tm: TaskMngr, frames: seq<Frame>, lost: nat, i: nat, last: nat, fid: int)
    requires TInv(tm, frames, lost) && frames != [] && Top(frames) == Loop(i, last) && i < last
    requires i < |tm.tasks| && !tm.tasks[i].inExec && !tm.tasks[i].free
    ensures TInv(tm.(tasks := tm.tasks[i := tm.tasks[i].(inExec := true)]), Below(frames) + [InTask(i, last, fid)],
                 lost)
  {
    Pushed(Below(frames), InTask(i, last, fid));
    FramesBelow(frames, |tm.tasks|);
    FramesPush(Below(frames), |tm.tasks|, InTask(i, last, fid));
    MarksPush(tm.tasks, RunningOf(frames), i);
    SetNumber(tm.tasks, i, tm.tasks[i].(inExec := true), Live);
    SetNumber(tm.tasks, i, tm.tasks[i].(inExec := true), Ending);
  }

  lemma ReturnControl(tm: TaskMngr, tm': TaskMngr, frames: seq<Frame>, i: nat, last: nat, t': Task)
    requires Control(tm, frames) && frames != [] && !t'.inExec && i < last && i < |tm.tasks| && last <= |tm.tasks|
    requires if Top(frames).InTask? then Top(frames).i == i else Top(frames).Loop? && !tm.tasks[i].inExec
    requires tm'.tasks == tm.tasks[i := t'] && tm'.depth == tm.depth
    ensures Control(tm', Below(frames) + [Loop(i + 1, last)])
  {
    Pushed(Below(frames), Loop(i + 1, last));
    FramesBelow(frames, |tm.tasks|);
    FramesPush(Below(frames), |tm.tasks|, Loop(i + 1, last));
    if Top(frames).InTask? {
      MarksPop(tm.tasks, RunningOf(Below(frames)), i, t');
    } else {
      MarksSet(tm.tasks, RunningOf(frames), i, t');
    }
  }

  lemma MarkedTop(tm: TaskMngr, frames: seq<Frame>)
    requires Control(tm, frames) && frames != [] && Top(frames).InTask?
    ensures Top(frames).i < Top(frames).last <= |tm.tasks| && tm.tasks[Top(frames).i].inExec
  {
  }

  /** The end of a round of startFrame that looked at a task. */
  lemma ReturnTInv(tm: TaskMngr, frames: seq<Frame>, lost: nat, i: nat, last: nat, t': Task)
    requires TInv(tm, frames, lost) && frames != [] && !t'.inExec && i < last && i < |tm.tasks| && last <= |tm.tasks|
             && !tm.deferred
    requires if Top(frames).InTask? then Top(frames).i == i
             else Top(frames).Loop? && !tm.tasks[i].inExec && !tm.tasks[i].free
    requires tm.tasks[i].free ==> t'.free
    ensures TInv(RoundOf(tm, i, t'), Below(frames) + [Loop(i + 1, last)], lost)
  {
    if Top(frames).InTask? {
      MarkedTop(tm, frames);
    }
    ReturnControl(tm, RoundOf(tm, i, t'), frames, i, last, t');
    SetNumber(tm.tasks, i, t', Live);
    SetNumber(tm.tasks, i, t', Ending);
  }

  /** The frame ends in which a clear was deferred. */
  lemma DestroyTInv(tm: TaskMngr, frames: seq<Frame>, lost: nat, k: nat)
    requires TInv(tm, frames, lost) && tm.deferred && frames != [] && Top(frames).InTask? && k == Number(tm.tasks, Live)
    ensures tm.depth == 1 && TInv(tm.(tasks := [], depth := 0, deferred := false), Below(frames), lost + k)
  {
    FramesBelow(frames, |tm.tasks|);
    assert |RunningOf(Below(frames))| == 0;
    forall k {:trigger Below(frames)[k]} | 0 <= k < |Below(frames)|
      ensures FrameOk(Below(frames)[k], k == |Below(frames)| - 1, 0)
    {
      assert FrameOk(Below(frames)[k], k == |Below(frames)| - 1, |tm.tasks|);
      assert Below(frames)[k] == frames[k];
      if frames[k].InTask? {
        RunningHas(Below(frames), k);
      }
    }
  }

  // ---------- The forwards while control moves ----------

  lemma MoveKeeps(w: World, w': World, pub: Publics, step: Forwards.Step)
    requires FInv(w, pub) && Forwards.Enabled(w.fwd, step) && (step.DoRelease? || step.DoEnter? || step.DoLeave?)
    requires w'.fwd == Forwards.Next(w.fwd, pub, step) && Ledger(w') && Carried(w.tm.tasks, w'.tm.tasks)
    ensures FInv(w', pub)
  {
    StepKeeps(w.fwd, w'.fwd, pub, step);
    HeldTasks(w');
    TasksKept(w.fwd, w'.fwd, w.tm.tasks, w'.tm.tasks);
  }

  lemma LedgerMoved(w: World, w': World, x: int)
    requires Ledger(w) && w'.fwd.stack == StackOf(w'.frames)
    requires forall id {:trigger Holders(w', id)} :: Holders(w', id) + (if id == x then 1 else 0) == Holders(w, id)
    requires forall id :: w'.fwd.held[id] + (if id == x then 1 else 0) == w.fwd.held[id]
    ensures Ledger(w')
  {
  }

  lemma Settled(w: World, pub: Publics)
    requires FInv(w, pub)
    ensures Inv(w.fwd, pub) && w.fwd.stack == StackOf(w.frames) && forall id :: id in w.fwd.stack ==>
              ValidId(w.fwd.m, id)
  {
  }

  lemma FramesFInv(w: World, frames: seq<Frame>, pub: Publics)
    requires FInv(w, pub) && StackOf(frames) == StackOf(w.frames) && ActionsOf(frames) == ActionsOf(w.frames)
    ensures FInv(w.(frames := frames), pub)
  {
  }

  /** Executions begin and end, tasks are marked or unmarked. */
  lemma ExecFInv(w: World, w': World, pub: Publics, step: Forwards.Step)
    requires FInv(w, pub) && Forwards.Enabled(w.fwd, step) && (step.DoEnter? || step.DoLeave?)
    requires w'.fwd == Forwards.Next(w.fwd, pub, step) && w'.fwd.stack == StackOf(w'.frames)
    requires w'.queue == w.queue && w'.other == w.other && ActionsOf(w'.frames) == ActionsOf(w.frames)
    requires |w'.tm.tasks| == |w.tm.tasks|
    requires forall i {:trigger w'.tm.tasks[i]} :: 0 <= i < |w'.tm.tasks| ==>
               w'.tm.tasks[i] == w.tm.tasks[i].(inExec := w'.tm.tasks[i].inExec)
    ensures FInv(w', pub)
  {
    forall id ensures w'.fwd.held[id] == Holders(w', id) {
      assert w.fwd.held[id] == Holders(w, id);
      SameNumber(w.tm.tasks, w'.tm.tasks, HoldersOf(id));
    }
    FreeTasksHoldNothing(w.fwd.m, w.tm.tasks);
    MoveKeeps(w, w', pub, step);
  }

  lemma FreeTasksHoldNothing(m: Mngr, tasks: seq<Task>)
    requires TasksOk(m, tasks)
    ensures forall j {:trigger tasks[j]} :: 0 <= j < |tasks| && tasks[j].free ==> tasks[j].func == -1
  {
  }

  lemma CarriedOne(m: Mngr, tasks: seq<Task>, i: nat, t': Task)
    requires TasksOk(m, tasks) && i < |tasks|
    requires if t'.free then t'.func == -1
             else !tasks[i].free && t'.func == tasks[i].func && t'.amx == tasks[i].amx && t'.params == tasks[i].params
    ensures Carried(tasks, tasks[i := t'])
  {
  }

  /** Task i is freed. */
  lemma FreedFInv(w: World, w': World, pub: Publics, i: nat, t': Task)
    requires FInv(w, pub) && i < |w.tm.tasks| && !w.tm.tasks[i].free && t'.free && t'.func == -1
    requires w' == w.(tm := w.tm.(tasks := w.tm.tasks[i := t']), fwd := Released(w.fwd, w.tm.tasks[i].func))
    ensures FInv(w', pub)
  {
    var fid := w.tm.tasks[i].func;
    forall id {:trigger Holders(w', id)} ensures Holders(w', id) + (if id == fid then 1 else 0) == Holders(w, id) {
      SetNumber(w.tm.tasks, i, t', HoldersOf(id));
    }
    assert w.fwd.held[fid] == Holders(w, fid) && Holders(w', fid) + 1 == Holders(w, fid);
    LedgerMoved(w, w', fid);
    CarriedOne(w.fwd.m, w.tm.tasks, i, t');
    MoveKeeps(w, w', pub, DoRelease(fid));
  }

  /** Task i is rescheduled. */
  lemma RescheduledFInv(w: World, w': World, pub: Publics, i: nat, t': Task)
    requires FInv(w, pub) && i < |w.tm.tasks| && w' == w.(tm := w.tm.(tasks := w.tm.tasks[i := t']))
    requires var t := w.tm.tasks[i]; t'.free == t.free && t'.func == t.func && t'.amx == t.amx && t'.params == t.params
    ensures FInv(w', pub)
  {
    assert TaskOk(w.fwd.m, w.tm.tasks[i]);
    forall id ensures w'.fwd.held[id] == Holders(w', id) {
      assert w.fwd.held[id] == Holders(w, id);
      SetNumber(w.tm.tasks, i, t', HoldersOf(id));
    }
  }

  lemma RoundFInv(w: World, below: seq<Frame>, w1: World, i: nat, pub: Publics, t': Task)
    requires i < |w.tm.tasks| && FInv(w.(frames := below), pub)
    requires t' == Returned(w.tm.tasks[i])
    requires w1 == w.(frames := below, tm := w.tm.(tasks := w.tm.tasks[i := t']),
                      fwd := if t'.free && !w.tm.tasks[i].free then Released(w.fwd, w.tm.tasks[i].func) else w.fwd)
    ensures FInv(w1, pub)
  {
    if t'.free && !w.tm.tasks[i].free {
      FreedFInv(w.(frames := below), w1, pub, i, t');
    } else {
      RescheduledFInv(w.(frames := below), w1, pub, i, t');
    }
  }

  lemma AfterTaskIs(w: World, below: seq<Frame>, i: nat, last: nat) returns (w1: World)
    requires i < |w.tm.tasks| && w.tm.depth > 0
    ensures var t, t' := w.tm.tasks[i], Returned(w.tm.tasks[i]);
            w1 == w.(frames := below, tm := w.tm.(tasks := w.tm.tasks[i := t']),
                     fwd := if t'.free && !t.free then Released(w.fwd, t.func) else w.fwd)
    ensures AfterTask(w, below, i, last)
         == if w.tm.deferred then EndFrame(w1, below)
            else w1.(frames := below + [Loop(i + 1, last)], tm := RoundOf(w.tm, i, Returned(w.tm.tasks[i])))
  {
    hide Returned, Released, RoundOf;
    var t, t' := w.tm.tasks[i], Returned(w.tm.tasks[i]);
    w1 := w.(frames := below, tm := w.tm.(tasks := w.tm.tasks[i := t']),
             fwd := if t'.free && !t.free then Released(w.fwd, t.func) else w.fwd);
  }

  lemma AfterTaskFInv(w: World, below: seq<Frame>, i: nat, last: nat, pub: Publics)
    requires i < |w.tm.tasks| && w.tm.depth > 0 && FInv(w.(frames := below), pub)
    ensures FInv(AfterTask(w, below, i, last), pub)
  {
    hide FInv, Returned, Released, AfterTask, EndFrame;
    var w1 := AfterTaskIs(w, below, i, last);
    RoundFInv(w, below, w1, i, pub, Returned(w.tm.tasks[i]));
    if w.tm.deferred {
      EndFrameFInv(w1, pub);
    } else {
      var frames := below + [Loop(i + 1, last)];
      Pushed(below, Loop(i + 1, last));
      FramesFInv(w1, frames, pub);
      SameTasksFInv(w1.(frames := frames), AfterTask(w, below, i, last), pub);
    }
  }

  lemma SameTasksFInv(w: World, w': World, pub: Publics)
    requires FInv(w, pub) && w' == w.(tm := w'.tm, lost := w'.lost) && w'.tm.tasks == w.tm.tasks
    ensures FInv(w', pub)
  {
  }

  lemma EndFrameFInv(w: World, pub: Publics)
    requires FInv(w, pub) && w.tm.depth > 0
    ensures FInv(EndFrame(w, w.frames), pub)
  {
    var w' := EndFrame(w, w.frames);
    if w.tm.deferred {
      FreeAllKeeps(w, w', pub);
    } else {
      SameTasksFInv(w, w', pub);
    }
  }

  /** A frame callback is gone: its forward is released. */
  lemma DropFInv(w: World, w': World, pub: Publics, fid: int)
    requires FInv(w, pub) && w'.fwd == Released(w.fwd, fid) && w'.tm == w.tm && w'.other == w.other
    requires StackOf(w'.frames) == StackOf(w.frames)
    requires forall id {:trigger Holders(w', id)} :: Holders(w', id) + (if id == fid then 1 else 0) == Holders(w, id)
    ensures FInv(w', pub)
  {
    assert w.fwd.held[fid] == Holders(w, fid) && Holders(w', fid) + 1 == Holders(w, fid);
    LedgerMoved(w, w', fid);
    FreeTasksHoldNothing(w.fwd.m, w.tm.tasks);
    MoveKeeps(w, w', pub, DoRelease(fid));
  }

  // ---------- The steps of the machine ----------

  lemma EnteredIsStep(s: Sys, pub: Publics, id: int, executable: bool)
    requires Inv(s, pub)
    ensures Entered(s, id, executable).0 == Forwards.Next(s, pub, DoEnter(id, executable))
    ensures Entered(s, id, executable).0.stack == if Entered(s, id, executable).1 then s.stack + [id] else s.stack
  {
  }

  lemma EndOfFrame(w: World, below: seq<Frame>)
    requires w.tm.depth > 0
    ensures EndFrame(w, below) == EndFrame(w.(frames := below), below)
  {
  }

  lemma VisitFInv(w: World, pub: Publics, i: nat, last: nat, clock: Clock, executable: bool)
    requires FInv(w, pub) && w.frames != [] && Top(w.frames) == Loop(i, last) && i < |w.tm.tasks| && w.tm.depth > 0
    ensures FInv(Visit(w, Below(w.frames), i, last, clock, executable), pub)
  {
    hide FInv, Inv, AfterTask, EndFrame, Due, WillCall;
    Settled(w, pub);
    var t, below := w.tm.tasks[i], Below(w.frames);
    if t.free || ((t.inExec || !Due(t, clock)) && !w.tm.deferred) {
      Pushed(below, Loop(i + 1, last));
      FramesFInv(w, below + [Loop(i + 1, last)], pub);
    } else if t.inExec || !Due(t, clock) {
      FramesFInv(w, below, pub);
      EndFrameFInv(w.(frames := below), pub);
      EndOfFrame(w, below);
    } else if !WillCall(t) {
      FramesFInv(w, below, pub);
      AfterTaskFInv(w, below, i, last, pub);
    } else {
      var (fwd, entered) := Entered(w.fwd, t.func, executable);
      EnteredIsStep(w.fwd, pub, t.func, executable);
      if entered {
        Pushed(below, InTask(i, last, t.func));
        ExecFInv(w, Visit(w, below, i, last, clock, executable), pub, DoEnter(t.func, executable));
      } else {
        ExecFInv(w, w.(fwd := fwd, frames := below), pub, DoEnter(t.func, executable));
        AfterTaskFInv(w.(fwd := fwd), below, i, last, pub);
      }
    }
  }

  lemma VisitTInv(w: World, i: nat, last: nat, clock: Clock, executable: bool)
    requires TInv(w.tm, w.frames, w.lost) && w.frames != [] && Top(w.frames) == Loop(i, last) && i < last
    requires i < |w.tm.tasks| && w.tm.depth > 0 && last <= |w.tm.tasks|
    ensures var w' := Visit(w, Below(w.frames), i, last, clock, executable); TInv(w'.tm, w'.frames, w'.lost)
  {
    var t := w.tm.tasks[i];
    PopLoop(w.tm, w.frames, w.lost);
    if t.free || t.inExec || !Due(t, clock) {
      SwapTop(w.tm, w.frames, Loop(i + 1, last), w.lost);
    } else if WillCall(t) && Entered(w.fwd, t.func, executable).1 {
      CallTInv(w.tm, w.frames, w.lost, i, last, t.func);
    } else {
      ReturnTInv(w.tm, w.frames, w.lost, i, last, Returned(t));
    }
  }

  lemma LeftIsStep(s: Sys, pub: Publics)
    requires Inv(s, pub) && s.stack != []
    ensures ValidId(s.m, s.stack[|s.stack| - 1]) && Left(s) == Forwards.Next(s, pub, DoLeave)
  {
  }

  lemma TaskReturnFInv(w: World, pub: Publics, i: nat, last: nat)
    requires FInv(w, pub) && w.frames != [] && Top(w.frames).InTask? && i < |w.tm.tasks| && w.tm.depth > 0
    requires w.fwd.stack != [] && ValidId(w.fwd.m, w.fwd.stack[|w.fwd.stack| - 1])
    ensures FInv(AfterTask(w.(fwd := Left(w.fwd)), Below(w.frames), i, last), pub)
  {
    LeftIsStep(w.fwd, pub);
    ExecFInv(w, w.(fwd := Left(w.fwd), frames := Below(w.frames)), pub, DoLeave);
    AfterTaskFInv(w.(fwd := Left(w.fwd)), Below(w.frames), i, last, pub);
  }

  lemma TaskReturnTInv(w: World, fwd: Sys, i: nat, last: nat)
    requires TInv(w.tm, w.frames, w.lost) && w.frames != [] && Top(w.frames).InTask?
    requires Top(w.frames).i == i && Top(w.frames).last == last && i < |w.tm.tasks| && w.tm.depth > 0
    ensures var w' := AfterTask(w.(fwd := fwd), Below(w.frames), i, last); TInv(w'.tm, w'.frames, w'.lost)
  {
    MarkedTop(w.tm, w.frames);
    if w.tm.deferred {
      SetNumber(w.tm.tasks, i, Returned(w.tm.tasks[i]), Live);
      DestroyTInv(w.tm, w.frames, w.lost, Number(w.tm.tasks, Live));
    } else {
      ReturnTInv(w.tm, w.frames, w.lost, i, last, Returned(w.tm.tasks[i]));
    }
  }

  lemma ActionCalledFInv(w: World, fwd: Sys, pub: Publics, rest: nat, executable: bool)
    requires FInv(w, pub) && w.frames != [] && Top(w.frames) == Acts(rest) && rest > 0 && w.queue != []
    requires Entered(w.fwd, w.queue[0], executable) == (fwd, true)
    ensures FInv(w.(fwd := fwd, queue := w.queue[1..], frames := Below(w.frames) + [InAction(rest - 1, w.queue[0])]),
                 pub)
  {
    var fid, below := w.queue[0], Below(w.frames);
    var w' := w.(fwd := fwd, queue := w.queue[1..], frames := below + [InAction(rest - 1, fid)]);
    EnteredIsStep(w.fwd, pub, fid, executable);
    Pushed(below, InAction(rest - 1, fid));
    forall id ensures w'.fwd.held[id] == Holders(w', id) {
      PopCount(w.queue, id);
      PushCount(ActionsOf(below), fid, id);
      assert w.fwd.held[id] == Holders(w, id);
    }
    FreeTasksHoldNothing(w.fwd.m, w.tm.tasks);
    MoveKeeps(w, w', pub, DoEnter(fid, executable));
  }

  lemma ActionDroppedFInv(w: World, fwd: Sys, pub: Publics, rest: nat, executable: bool)
    requires FInv(w, pub) && w.frames != [] && Top(w.frames) == Acts(rest) && rest > 0 && w.queue != []
    requires Entered(w.fwd, w.queue[0], executable) == (fwd, false)
    ensures FInv(w.(fwd := Released(fwd, w.queue[0]), queue := w.queue[1..],
                    frames := Below(w.frames) + [Acts(rest - 1)]), pub)
  {
    var fid, below, w1 := w.queue[0], Below(w.frames), w.(fwd := fwd);
    var w' := w.(fwd := Released(fwd, fid), queue := w.queue[1..], frames := below + [Acts(rest - 1)]);
    EnteredIsStep(w.fwd, pub, fid, executable);
    Pushed(below, Acts(rest - 1));
    ExecFInv(w, w1, pub, DoEnter(fid, executable));
    forall id {:trigger Holders(w', id)} ensures Holders(w', id) + (if id == fid then 1 else 0) == Holders(w1, id) {
      PopCount(w.queue, id);
    }
    DropFInv(w1, w', pub, fid);
  }

  lemma ActionFInv(w: World, pub: Publics, rest: nat, executable: bool)
    requires FInv(w, pub) && w.frames != [] && Top(w.frames) == Acts(rest) && rest > 0 && w.queue != []
    ensures FInv(NextAction(w, Below(w.frames), rest, executable), pub)
  {
    var (fwd, entered) := Entered(w.fwd, w.queue[0], executable);
    if entered {
      ActionCalledFInv(w, fwd, pub, rest, executable);
    } else {
      ActionDroppedFInv(w, fwd, pub, rest, executable);
    }
  }

  /** The frame callback has returned and still holds its forward. */
  lemma ActionLeftFInv(w: World, w1: World, pub: Publics, rest: nat, fid: int)
    requires FInv(w, pub) && w.frames != [] && Top(w.frames) == InAction(rest, fid)
    requires w.fwd.stack != [] && ValidId(w.fwd.m, w.fwd.stack[|w.fwd.stack| - 1])
    requires w1 == w.(fwd := Left(w.fwd), frames := Below(w.frames), other := w.other + multiset{fid})
    ensures FInv(w1, pub)
  {
    LeftIsStep(w.fwd, pub);
    forall id ensures w1.fwd.held[id] == Holders(w1, id) {
      PushCount(ActionsOf(Below(w.frames)), fid, id);
      assert w.fwd.held[id] == Holders(w, id);
    }
    FreeTasksHoldNothing(w.fwd.m, w.tm.tasks);
    MoveKeeps(w, w1, pub, DoLeave);
  }

  lemma ActionReturnFInv(w: World, pub: Publics, rest: nat, fid: int)
    requires FInv(w, pub) && w.frames != [] && Top(w.frames) == InAction(rest, fid)
    requires w.fwd.stack != [] && ValidId(w.fwd.m, w.fwd.stack[|w.fwd.stack| - 1])
    ensures FInv(w.(fwd := Released(Left(w.fwd), fid), frames := Below(w.frames) + [Acts(rest)]), pub)
  {
    var w1 := w.(fwd := Left(w.fwd), frames := Below(w.frames), other := w.other + multiset{fid});
    ActionLeftFInv(w, w1, pub, rest, fid);
    Pushed(Below(w.frames), Acts(rest));
    HandOver(w1, w.(fwd := Released(Left(w.fwd), fid), frames := Below(w.frames) + [Acts(rest)]), pub, fid);
  }

  lemma HandOver(w: World, w': World, pub: Publics, fid: int)
    requires FInv(w, pub) && w.other[fid] > 0
             && w' == w.(fwd := Released(w.fwd, fid), frames := w'.frames, other := w'.other)
    requires w'.other + multiset{fid} == w.other
    requires StackOf(w'.frames) == StackOf(w.frames) && ActionsOf(w'.frames) == ActionsOf(w.frames)
    ensures FInv(w', pub)
  {
    forall id {:trigger Holders(w', id)} ensures Holders(w', id) + (if id == fid then 1 else 0) == Holders(w, id) {
      assert w.other[id] == w'.other[id] + multiset{fid}[id];
    }
    assert w.fwd.held[fid] == Holders(w, fid) && Holders(w', fid) + 1 == Holders(w, fid);
    LedgerMoved(w, w', fid);
    FreeTasksHoldNothing(w.fwd.m, w.tm.tasks);
    MoveKeeps(w, w', pub, DoRelease(fid));
  }

  lemma OtherReturnFInv(w: World, pub: Publics)
    requires FInv(w, pub) && w.frames != [] && Top(w.frames).InOther?
    requires w.fwd.stack != [] && ValidId(w.fwd.m, w.fwd.stack[|w.fwd.stack| - 1])
    ensures FInv(w.(fwd := Left(w.fwd), frames := Below(w.frames)), pub)
  {
    LeftIsStep(w.fwd, pub);
    ExecFInv(w, w.(fwd := Left(w.fwd), frames := Below(w.frames)), pub, DoLeave);
  }

  lemma LoopKeeps(w: World, pub: Publics, clock: Clock, executable: bool)
    requires WInv(w, pub) && Enabled(w, Continue(clock, executable)) && Top(w.frames).Loop?
    ensures WInv(AfterContinue(w, clock, executable), pub)
  {
    var f, below := Top(w.frames), Below(w.frames);
    if f.i < f.last {
      VisitFInv(w, pub, f.i, f.last, clock, executable);
      VisitTInv(w, f.i, f.last, clock, executable);
    } else {
      FramesFInv(w, below, pub);
      PopLoop(w.tm, w.frames, w.lost);
      EndFrameFInv(w.(frames := below), pub);
    }
  }

  lemma InTaskKeeps(w: World, pub: Publics, clock: Clock, executable: bool)
    requires WInv(w, pub) && Enabled(w, Continue(clock, executable)) && Top(w.frames).InTask?
    ensures WInv(AfterContinue(w, clock, executable), pub)
  {
    MarkedTop(w.tm, w.frames);
    LeftIsStep(w.fwd, pub);
    TaskReturnFInv(w, pub, Top(w.frames).i, Top(w.frames).last);
    TaskReturnTInv(w, Left(w.fwd), Top(w.frames).i, Top(w.frames).last);
  }

  lemma ActsKeeps(w: World, pub: Publics, clock: Clock, executable: bool)
    requires WInv(w, pub) && Enabled(w, Continue(clock, executable)) && Top(w.frames).Acts?
    ensures WInv(AfterContinue(w, clock, executable), pub)
  {
    var rest := Top(w.frames).rest;
    if rest > 0 {
      ActionFInv(w, pub, rest, executable);
      ActionTInv(w, rest, executable);
    } else {
      FramesFInv(w, Below(w.frames), pub);
      PopTop(w.tm, w.frames, w.lost);
    }
  }

  lemma InActionKeeps(w: World, pub: Publics, clock: Clock, executable: bool)
    requires WInv(w, pub) && Enabled(w, Continue(clock, executable)) && Top(w.frames).InAction?
    ensures WInv(AfterContinue(w, clock, executable), pub)
  {
    LeftIsStep(w.fwd, pub);
    ActionReturnFInv(w, pub, Top(w.frames).rest, Top(w.frames).fid);
    SwapTop(w.tm, w.frames, Acts(Top(w.frames).rest), w.lost);
  }

  lemma InOtherKeeps(w: World, pub: Publics, clock: Clock, executable: bool)
    requires WInv(w, pub) && Enabled(w, Continue(clock, executable)) && Top(w.frames).InOther?
    ensures WInv(AfterContinue(w, clock, executable), pub)
  {
    LeftIsStep(w.fwd, pub);
    OtherReturnFInv(w, pub);
    PopTop(w.tm, w.frames, w.lost);
  }

  lemma ContinueKeeps(w: World, pub: Publics, clock: Clock, executable: bool)
    requires WInv(w, pub) && Enabled(w, Continue(clock, executable))
    ensures WInv(AfterContinue(w, clock, executable), pub)
  {
    hide WInv, AfterContinue;
    match Top(w.frames)
    case Loop(_, _) => LoopKeeps(w, pub, clock, executable);
    case InTask(_, _, _) => InTaskKeeps(w, pub, clock, executable);
    case Acts(_) => ActsKeeps(w, pub, clock, executable);
    case InAction(_, _) => InActionKeeps(w, pub, clock, executable);
    case InOther(_) => InOtherKeeps(w, pub, clock, executable);
  }

  lemma ActionTInv(w: World, rest: nat, executable: bool)
    requires TInv(w.tm, w.frames, w.lost) && w.frames != [] && Top(w.frames) == Acts(rest) && rest > 0 && w.queue != []
    ensures var w' := NextAction(w, Below(w.frames), rest, executable); TInv(w'.tm, w'.frames, w'.lost)
  {
  }

  /** Registrations by other code. */
  lemma OtherRegisterFInv(w: World, pub: Publics, key: Key, amx: Amx, sig: seq<int>)
    requires FInv(w, pub)
    ensures var fwd := RegisterStep(w.fwd, pub, key, amx, sig);
            FInv(w.(fwd := fwd, other := w.other + (fwd.held - w.fwd.held)), pub)
  {
    var r := Register(w.fwd.m, pub, key, amx, sig);
    var fwd := Registered(w.fwd, r);
    var w' := w.(fwd := fwd, other := w.other + (fwd.held - w.fwd.held));
    RegisterBinds(w.fwd, pub, key, amx, sig);
    HeldTasks(w);
    RegisterKeepsTasks(w.fwd, pub, key, amx, sig, w.tm.tasks);
    forall id ensures w'.fwd.held[id] == Holders(w', id) {
      assert w.fwd.held[id] == Holders(w, id);
    }
  }

  lemma OtherDuplicateFInv(w: World, pub: Publics, id: int)
    requires FInv(w, pub)
    ensures var fwd := Forwards.Next(w.fwd, pub, DoDuplicate(id));
            FInv(w.(fwd := fwd, other := w.other + (fwd.held - w.fwd.held)), pub)
  {
    if !ValidId(w.fwd.m, id) || SlotOf(w.fwd.m, id).isFree {
      assert w.other + (w.fwd.held - w.fwd.held) == w.other;
    } else {
      OtherRegisterFInv(w, pub, ByFunc(SlotOf(w.fwd.m, id).func), SlotOf(w.fwd.m, id).amx, SlotOf(w.fwd.m, id).sig);
    }
  }

  lemma OtherEnterFInv(w: World, pub: Publics, id: int, executable: bool)
    requires FInv(w, pub)
    ensures var (fwd, entered) := Entered(w.fwd, id, executable);
            FInv(w.(fwd := fwd, frames := if entered then w.frames + [InOther(id)] else w.frames), pub)
  {
    var (fwd, entered) := Entered(w.fwd, id, executable);
    EnteredIsStep(w.fwd, pub, id, executable);
    Pushed(w.frames, InOther(id));
    ExecFInv(w, w.(fwd := fwd, frames := if entered then w.frames + [InOther(id)] else w.frames), pub,
             DoEnter(id, executable));
  }

  lemma OtherReleaseFInv(w: World, pub: Publics, id: int)
    requires FInv(w, pub) && w.other[id] > 0
    ensures FInv(w.(fwd := Released(w.fwd, id), other := w.other - multiset{id}), pub)
  {
    assert (w.other - multiset{id}) + multiset{id} == w.other;
    HandOver(w, w.(fwd := Released(w.fwd, id), other := w.other - multiset{id}), pub, id);
  }

  lemma OtherKeeps(w: World, pub: Publics, step: Forwards.Step)
    requires WInv(w, pub) && Enabled(w, Other(step))
    ensures FInv(Next(w, pub, Other(step)), pub)
  {
    match step
    case DoRegister(key, amx, sig) => OtherRegisterFInv(w, pub, key, amx, sig);
    case DoDuplicate(id) => OtherDuplicateFInv(w, pub, id);
    case DoRelease(id) => OtherReleaseFInv(w, pub, id);
    case DoEnter(id, executable) =>
      EnteredIsStep(w.fwd, pub, id, executable);
      OtherEnterFInv(w, pub, id, executable);
  }

  lemma OtherTInv(w: World, pub: Publics, step: Forwards.Step)
    requires WInv(w, pub) && Enabled(w, Other(step))
    ensures var w' := Next(w, pub, Other(step)); TInv(w'.tm, w'.frames, w'.lost)
  {
    if step.DoEnter? {
      PushTInv(w.tm, w.frames, InOther(step.id), w.lost);
    }
  }

  lemma StartKeeps(w: World, pub: Publics)
    requires WInv(w, pub) && Enabled(w, StartFrame)
    ensures WInv(AfterStart(w), pub)
  {
    hide FInv, TInv;
    StartFInv(w, pub);
    StartTInv(w, pub);
  }

  lemma StartFInv(w: World, pub: Publics)
    requires FInv(w, pub)
    ensures FInv(AfterStart(w), pub)
  {
    hide FInv;
    var frames := w.frames + [Loop(0, |w.tm.tasks|)];
    Pushed(w.frames, Loop(0, |w.tm.tasks|));
    FramesFInv(w, frames, pub);
    if w.tm.active > 0 {
      SameTasksFInv(w.(frames := frames), AfterStart(w), pub);
    }
  }

  lemma StartTInv(w: World, pub: Publics)
    requires WInv(w, pub) && Enabled(w, StartFrame)
    ensures TInv(AfterStart(w).tm, AfterStart(w).frames, AfterStart(w).lost)
  {
    hide FInv, TInv;
    if w.tm.active > 0 {
      PushTInv(w.tm, w.frames, Loop(0, |w.tm.tasks|), w.lost);
    }
  }

  lemma StartActionsKeeps(w: World, pub: Publics)
    requires WInv(w, pub) && Enabled(w, StartActions)
    ensures WInv(w.(frames := w.frames + [Acts(|w.queue|)]), pub)
  {
  }

  lemma ClearTasksKeeps(w: World, pub: Publics)
    requires WInv(w, pub) && Enabled(w, ClearTasks)
    ensures WInv(AfterClear(w), pub)
  {
    FreeAllKeeps(w, AfterClear(w), pub);
    if w.tm.depth > 0 {
      ClearInside(w.tm, w.frames, w.lost);
    } else {
      ClearOutside(w.tm, w.frames, w.lost);
    }
  }

  /** Every step of the machine keeps the invariant. */
  lemma StepKeepsWInv(w: World, pub: Publics, step: Step)
    requires WInv(w, pub) && Enabled(w, step)
    ensures WInv(Next(w, pub, step), pub)
  {
    match step
    case SetTask(name, request, now) =>
      SetTaskKeeps(w, pub, request, now, name);
      AddTaskKeeps(w.tm, w.frames, w.lost,
                   NewTask(Register(w.fwd.m, pub, ByName(name), request.amx, SigOf(request.params)).1, request, now));
    case RemoveTasks(id, amx) =>
      RemoveTasksKeeps(w, pub, id, amx);
      RemoveKeeps(w.tm, w.frames, w.lost, |w.tm.tasks|, id, amx);
    case ChangeTasks(id, amx, base, now) =>
      ChangeTasksKeeps(w, pub, id, amx, base, now);
      ChangeTInv(w.tm, w.frames, w.lost, id, amx, base, now);
    case RequestFrame(name, plugin) => RequestFrameKeeps(w, pub, name, plugin);
    case ClearTasks => ClearTasksKeeps(w, pub);
    case ClearFrames => ClearFramesKeeps(w, pub);
    case StartFrame => StartKeeps(w, pub);
    case StartActions => StartActionsKeeps(w, pub);
    case Other(s) =>
      OtherKeeps(w, pub, s);
      OtherTInv(w, pub, s);
    case Continue(clock, executable) => ContinueKeeps(w, pub, clock, executable);
  }

  // ---------- Results about whole runs ----------

  ghost predicate Leads(w: World, w': World, pub: Publics, step: Step) {
    WInv(w, pub) ==> Enabled(w, step) && w' == Next(w, pub, step)
  }

  ghost predicate IsRun(states: seq<World>, steps: seq<Step>, pub: Publics) {
    && |states| == |steps| + 1
    && forall k {:trigger steps[k]} :: 0 <= k < |steps| ==> Leads(states[k], states[k + 1], pub, steps[k])
  }

  const Start := World(Forwards.Empty, TaskMngr([], 0, 0, 0, false), [], [], multiset{}, 0)

  lemma StartOk(pub: Publics)
    ensures WInv(Start, pub)
  {
  }

  lemma {:induction false} RunFromKeepsWInv(states: seq<World>, steps: seq<Step>, pub: Publics, k: nat)
    requires IsRun(states, steps, pub) && WInv(states[0], pub) && k < |states|
    ensures WInv(states[k], pub)
  {
    if k > 0 {
      RunFromKeepsWInv(states, steps, pub, k - 1);
      StepKeepsWInv(states[k - 1], pub, steps[k - 1]);
    }
  }

  lemma RunKeepsWInv(states: seq<World>, steps: seq<Step>, pub: Publics, k: nat)
    requires IsRun(states, steps, pub) && states[0] == Start && k < |states|
    ensures WInv(states[k], pub)
  {
    StartOk(pub);
    RunFromKeepsWInv(states, steps, pub, k);
  }

  /** The ledger: at every point of every run, the reference count of a forward is the number of tasks
      that are not free and hold it, and of frame callbacks waiting or running that hold it, and of
      whatever else holds it; its nesting count is the number of its executions on the control stack. */
  lemma LedgerBalances(states: seq<World>, steps: seq<Step>, pub: Publics, k: nat, i: nat)
    requires IsRun(states, steps, pub) && states[0] == Start && k < |states| && i < |states[k].fwd.m.slots|
    ensures var w, id := states[k], IdOf(i);
            && w.fwd.m.slots[i].refCount
               == Number(w.tm.tasks, HoldersOf(id)) + Count(w.queue, id) + Count(ActionsOf(w.frames), id) + w.other[id]
            && w.fwd.m.slots[i].inExec == multiset(StackOf(w.frames))[id]
  {
    RunKeepsWInv(states, steps, pub, k);
    var w := states[k];
    assert w.fwd.held[IdOf(i)] == Holders(w, IdOf(i));
    assert SlotOk(w.fwd.m.slots[i], IdOf(i), multiset(w.fwd.m.free), multiset(w.fwd.stack), w.fwd.held);
  }

  /** Without tasks, frame callbacks, other holders and executions, every slot is on the free stack, once. */
  lemma NoHolderNoForward(states: seq<World>, steps: seq<Step>, pub: Publics, k: nat, i: nat)
    requires IsRun(states, steps, pub) && states[0] == Start && k < |states| && i < |states[k].fwd.m.slots|
    requires var w := states[k];
             w.frames == [] && w.queue == [] && w.other == multiset{} && Number(w.tm.tasks, Live) == 0
    ensures states[k].fwd.m.slots[i].isFree && multiset(states[k].fwd.m.free)[IdOf(i)] == 1
  {
    RunKeepsWInv(states, steps, pub, k);
    var w, id := states[k], IdOf(i);
    FewerHolders(w.tm.tasks, id);
    assert w.fwd.held[id] == Holders(w, id);
    assert SlotOk(w.fwd.m.slots[i], id, multiset(w.fwd.m.free), multiset(w.fwd.stack), w.fwd.held);
  }

  lemma {:induction false} FewerHolders(tasks: seq<Task>, id: int)
    ensures Number(tasks, HoldersOf(id)) <= Number(tasks, Live)
  {
    if tasks != [] {
      FewerHolders(tasks[..|tasks| - 1], id);
    }
  }

  /** startFrame returns at once only if no task is pending: the counter is never below their number. */
  lemma NothingIsSkipped(states: seq<World>, steps: seq<Step>, pub: Publics, k: nat)
    requires IsRun(states, steps, pub) && states[0] == Start && k < |states|
    ensures var tm := states[k].tm;
            && tm.active >= Number(tm.tasks, Live)
            && (tm.active == 0 ==> forall i {:trigger tm.tasks[i]} :: 0 <= i < |tm.tasks| ==> tm.tasks[i].free)
  {
    RunKeepsWInv(states, steps, pub, k);
    var tm := states[k].tm;
    forall i {:trigger tm.tasks[i]} | 0 <= i < |tm.tasks| && !tm.tasks[i].free ensures tm.active > 0 {
      SomeOf(tm.tasks, Live, i);
    }
  }

  /** While no clear happens inside a frame, the counter is exact. */
  lemma CounterIsExact(states: seq<World>, steps: seq<Step>, pub: Publics, k: nat)
    requires IsRun(states, steps, pub) && states[0] == Start && k < |states|
    requires forall j {:trigger steps[j]} :: 0 <= j < k && steps[j].ClearTasks? ==> states[j].tm.depth == 0
    ensures var tm := states[k].tm; tm.active == Number(tm.tasks, Live) + Number(tm.tasks, Ending)
  {
    NeverDeferred(states, steps, pub, k);
    RunKeepsWInv(states, steps, pub, k);
  }

  lemma {:induction false} NeverDeferred(states: seq<World>, steps: seq<Step>, pub: Publics, k: nat)
    requires IsRun(states, steps, pub) && states[0] == Start && k < |states|
    requires forall j {:trigger steps[j]} :: 0 <= j < k && steps[j].ClearTasks? ==> states[j].tm.depth == 0
    ensures !states[k].tm.deferred && states[k].lost == 0
  {
    if k > 0 {
      NeverDeferred(states, steps, pub, k - 1);
      RunKeepsWInv(states, steps, pub, k - 1);
      NotDeferredStep(states[k - 1], pub, steps[k - 1]);
    }
  }

  lemma NotDeferredContinue(w: World, pub: Publics, clock: Clock, executable: bool)
    requires WInv(w, pub) && Enabled(w, Continue(clock, executable)) && !w.tm.deferred
    ensures var w' := AfterContinue(w, clock, executable); !w'.tm.deferred && w'.lost == w.lost
  {
  }

  lemma NotDeferredStep(w: World, pub: Publics, step: Step)
    requires WInv(w, pub) && Enabled(w, step) && !w.tm.deferred && (step.ClearTasks? ==> w.tm.depth == 0)
    ensures var w' := Next(w, pub, step); !w'.tm.deferred && (w'.lost == w.lost || w'.lost == 0)
  {
    if step.Continue? {
      NotDeferredContinue(w, pub, step.clock, step.executable);
    }
  }

  /** A registration takes the first slot that can be reused, although its search starts at the hint. */
  lemma FirstSlotIsTaken(states: seq<World>, steps: seq<Step>, pub: Publics, k: nat, t: Task)
    requires IsRun(states, steps, pub) && states[0] == Start && k < |states|
    ensures var tm := states[k].tm;
            var i := FirstReusable(tm.tasks, 0);
            AddTask(tm, t).tasks == if i < |tm.tasks| then tm.tasks[i := t] else tm.tasks + [t]
  {
    RunKeepsWInv(states, steps, pub, k);
    HintedScan(states[k].tm, 0);
  }

  /** The callback of a task runs in its own plugin with the parameters it was set with. */
  lemma TaskCallsItsPlugin(states: seq<World>, steps: seq<Step>, pub: Publics, k: nat, i: nat)
    requires IsRun(states, steps, pub) && states[0] == Start && k < |states|
    requires i < |states[k].tm.tasks| && !states[k].tm.tasks[i].free
    ensures var m, t := states[k].fwd.m, states[k].tm.tasks[i];
            ValidId(m, t.func) && !SlotOf(m, t.func).isFree && !SlotOf(m, t.func).toDelete
            && SlotOf(m, t.func).amx == t.amx && SlotOf(m, t.func).sig == SigOf(t.params)
  {
    RunKeepsWInv(states, steps, pub, k);
    var w, t := states[k], states[k].tm.tasks[i];
    assert TaskOk(w.fwd.m, t);
    SomeOf(w.tm.tasks, HoldersOf(t.func), i);
    assert w.fwd.held[t.func] == Holders(w, t.func);
    SlotAt(w.fwd, pub, t.func);
  }

  // ---------- How often a task runs ----------

  /** A task after it has been due k more times. */
  function AfterRounds(t: Task, k: nat): Task {
    if k == 0 then t else Returned(AfterRounds(t, k - 1))
  }

  /** How often the callback of a requested task runs, or None if there is no end. */
  function Times(r: Request): Option<nat> {
    if HasFlag(r.flags, 2) || (HasFlag(r.flags, 1) && r.repeat == -1) then None
    else if HasFlag(r.flags, 1) && r.repeat >= 0 then Some(r.repeat)
    else Some(1)
  }

  /** The callback runs exactly that often, at distances of the interval; then the task is free. One that
      is to run zero times is freed when it is due. */
  lemma RunsAsOftenAsSet(func: int, r: Request, now: real, k: nat)
    ensures var t, n := AfterRounds(NewTask(func, r, now), k), Times(r);
            && (!t.free && WillCall(t) <==> n.None? || k < n.value)
            && (n.None? || k < n.value ==> t.next == now + r.base + k as real * r.base)
            && (n.Some? && k >= n.value && k > 0 ==> t.free)
  {
    var t := NewTask(func, r, now);
    if t.loop && t.repeat == -1 {
      Endless(t, k);
    } else if t.loop && t.repeat > k {
      CountsDown(t, k);
    } else if k > 0 {
      Ends(t, k);
    }
    assert 0 as real * r.base == 0.0;
  }

  lemma {:induction false} Endless(t: Task, k: nat)
    requires !t.free && !t.inExec && t.loop && t.repeat == -1
    ensures AfterRounds(t, k) == t.(next := t.next + k as real * t.base)
  {
    if k > 0 {
      Endless(t, k - 1);
      OneMore(t.next, t.base, k - 1);
    }
  }

  lemma {:induction false} CountsDown(t: Task, k: nat)
    requires !t.free && !t.inExec && t.loop && t.repeat > k
    ensures AfterRounds(t, k) == t.(next := t.next + k as real * t.base, repeat := t.repeat - k)
  {
    if k > 0 {
      CountsDown(t, k - 1);
      OneMore(t.next, t.base, k - 1);
    }
  }

  lemma {:induction false} Ends(t: Task, k: nat)
    requires !t.free && !t.inExec && k > 0 && (t.loop ==> t.repeat != -1 && t.repeat <= k)
    ensures AfterRounds(t, k).free && !AfterRounds(t, k).inExec
  {
    if k > 1 && t.loop && t.repeat == k {
      CountsDown(t, k - 1);
    } else if k > 1 {
      Ends(t, k - 1);
    }
  }

  lemma OneMore(next: real, base: real, k: nat)
    ensures next + k as real * base + base == next + (k + 1) as real * base
  {
  }
}
