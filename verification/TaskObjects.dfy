/**
 The task manager as the objects that it is made of (amxmodx/CTask.cpp): every method changes the
 fields in place and is proved to do what the machine of module Tasks does in one step.
 */
module TaskObjects {
  import opened Basics
  import opened Forwards
  import opened Tasks

  function UnregisterAll(m: Mngr, ids: seq<int>): Mngr {
    if ids == [] then m else Unregister(UnregisterAll(m, ids[..|ids| - 1]), ids[|ids| - 1])
  }

  lemma {:induction false} ReleaseAllUnregisters(s: Sys, ids: seq<int>)
    ensures ReleaseAll(s, ids).m == UnregisterAll(s.m, ids)
  {
    if ids != [] {
      ReleaseAllUnregisters(s, ids[..|ids| - 1]);
    }
  }

  lemma UnregisterNext(m: Mngr, ids: seq<int>, id: int)
    ensures UnregisterAll(m, ids + [id]) == Unregister(UnregisterAll(m, ids), id)
  {
  }

  lemma NoneRemoved(tm: TaskMngr, m: Mngr, id: int, amx: Option<Amx>)
    ensures RemoveFirst(tm, 0, id, amx) == tm && RemovedFuncs(tm.tasks, 0, id, amx) == [] && UnregisterAll(m, []) == m
  {
  }

  lemma ClearEnds(slots: seq<Task>)
    ensures ClearAll(slots[..0]) + slots[0..] == slots && LiveFuncs(slots[..0]) == []
    ensures ClearAll(slots[..|slots|]) + slots[|slots|..] == ClearAll(slots) && slots[..|slots|] == slots
  {
  }

  lemma ClearNext(slots: seq<Task>, i: nat)
    requires i < |slots|
    ensures ClearAll(slots[..i + 1]) + slots[i + 1..]
         == (ClearAll(slots[..i]) + slots[i..])[i := if slots[i].free then slots[i] else Cleared(slots[i])]
    ensures LiveFuncs(slots[..i + 1]) == if slots[i].free then LiveFuncs(slots[..i])
            else LiveFuncs(slots[..i]) + [slots[i].func]
  {
    assert slots[..i + 1][..i] == slots[..i];
  }

  class CTask {
    var plugin: Amx
    var id: int
    var func: int
    var repeat: int
    var inExecute: bool
    var loop: bool
    var afterStart: bool
    var beforeEnd: bool
    var base: real
    var params: seq<int>
    var free: bool
    var nextExecTime: real

    function View(): Task
      reads this
    {
      Task(free, inExecute, func, plugin, id, base, repeat, loop, afterStart, beforeEnd, nextExecTime, params)
    }

    constructor ()
      ensures View() == Cleared(View()) && !inExecute
    {
      free, plugin, func, id, base := true, 0, -1, 0, 0.0;
      repeat, loop, afterStart, beforeEnd, inExecute, nextExecTime, params := 0, false, false, false, false, 0.0, [];
    }

    /** An id that a task holds is one of the single-plugin kind. */
    predicate Holding()
      reads this
    {
      if free then func == -1 else func >= 0 && func % 2 == 1
    }

    method Reset()
      modifies this
      ensures View() == Cleared(old(View()))
    {
      free, func := true, -1;
      params, plugin, id, base := [], 0, 0, 0.0;
      ResetTimes();
    }

    method ResetTimes()
      modifies this`repeat, this`loop, this`afterStart, this`beforeEnd, this`nextExecTime
      ensures repeat == 0 && !loop && !afterStart && !beforeEnd && nextExecTime == 0.0
    {
      repeat, loop, afterStart, beforeEnd, nextExecTime := 0, false, false, false, 0.0;
    }

    method Clear(forwards: CForwardMngr)
      requires Holding() && forwards.Valid()
      modifies this, forwards, forwards.spForwards
      ensures View() == Cleared(old(View())) && Holding()
      ensures forwards.Valid() && forwards.spForwards == old(forwards.spForwards)
      ensures forwards.View() == if old(free) then old(forwards.View()) else Unregister(old(forwards.View()), old(func))
    {
      if func >= 0 {
        forwards.UnregisterSPForward(func);
      }
      Reset();
    }

    method Fill(func: int, r: Request, now: real)
      requires View() == Cleared(View())
      modifies this
      ensures View() == NewTask(func, r, now)
    {
      SetFlags(r);
      free, plugin, this.func, id, base, inExecute := false, r.amx, func, r.id, r.base, false;
      nextExecTime := now + base;
      params := if r.params == [] then [] else r.params + [0];
    }

    method SetFlags(r: Request)
      requires !loop && repeat == 0
      modifies this`loop, this`repeat, this`afterStart, this`beforeEnd
      ensures loop == (HasFlag(r.flags, 1) || HasFlag(r.flags, 2)) && afterStart == HasFlag(r.flags, 4)
              && beforeEnd == HasFlag(r.flags, 8)
      ensures repeat == if HasFlag(r.flags, 2) then -1 else if HasFlag(r.flags, 1) then r.repeat else 0
    {
      if HasFlag(r.flags, 2) {
        loop := true;
        repeat := -1;
      } else if HasFlag(r.flags, 1) {
        loop := true;
        repeat := r.repeat;
      }
      afterStart := HasFlag(r.flags, 4);
      beforeEnd := HasFlag(r.flags, 8);
    }

    method Set(forwards: CForwardMngr, func: int, r: Request, now: real)
      requires Holding() && free && forwards.Valid() && func >= 0 && func % 2 == 1
      modifies this, forwards, forwards.spForwards
      ensures View() == NewTask(func, r, now) && Holding()
      ensures forwards.Valid() && forwards.spForwards == old(forwards.spForwards)
              && forwards.View() == old(forwards.View())
    {
      Clear(forwards);
      Fill(func, r, now);
    }

    method Change(id: int, amx: Option<Amx>, base: real, now: real)
      modifies this`base, this`nextExecTime
      ensures View() == ChangeOne(old(View()), id, amx, base, now)
    {
      if Tasks.Matches(View(), id, amx) {
        this.base := base;
        if !inExecute {
          nextExecTime := now + base;
        }
      }
    }

    /** executeIfRequired after the callback, unless the task is free by then. */
    method Reschedule(forwards: CForwardMngr)
      requires Holding() && !free && forwards.Valid()
      modifies this, forwards, forwards.spForwards
      ensures View() == Rescheduled(old(View())) && Holding()
      ensures forwards.Valid() && forwards.spForwards == old(forwards.spForwards)
      ensures forwards.View() == if free then Unregister(old(forwards.View()), old(func)) else old(forwards.View())
    {
      var done := false;
      if loop {
        if repeat != -1 {
          repeat := repeat - 1;
          done := repeat <= 0;
        }
      } else {
        done := true;
      }
      if done {
        Clear(forwards);
      } else {
        nextExecTime := nextExecTime + base;
      }
    }
  }

  class CTaskMngr {
    var tasks: seq<CTask>
    var active: nat
    var hint: nat
    var depth: nat
    var deferred: bool
    const forwards: CForwardMngr

    constructor (forwards: CForwardMngr)
      ensures tasks == [] && View() == TaskMngr([], 0, 0, 0, false) && this.forwards == forwards
    {
      tasks, active, hint, depth, deferred := [], 0, 0, 0, false;
      this.forwards := forwards;
    }

    ghost predicate Valid()
      reads this, tasks, forwards
    {
      && forwards.Valid()
      && (forall i, j :: 0 <= i < j < |tasks| ==> tasks[i] != tasks[j])
      && (forall i :: 0 <= i < |tasks| ==> tasks[i].Holding())
    }

    ghost function TaskViews(): (r: seq<Task>)
      reads this, tasks
      ensures |r| == |tasks| && forall i {:trigger r[i]} :: 0 <= i < |r| ==> r[i] == tasks[i].View()
    {
      seq(|tasks|, i requires 0 <= i < |tasks| reads this, tasks => tasks[i].View())
    }

    ghost function View(): TaskMngr
      reads this, tasks
    {
      TaskMngr(TaskViews(), active, hint, depth, deferred)
    }

    /** The search for a free slot, from the hint. */
    method FindSlot() returns (idx: nat)
      requires Valid()
      ensures Min(hint, |tasks|) <= |TaskViews()| && idx == FirstReusable(TaskViews(), Min(hint, |tasks|))
    {
      ghost var slots := TaskViews();
      idx := hint;
      if idx > |tasks| {
        idx := |tasks|;
      }
      while idx < |tasks|
        invariant Min(hint, |tasks|) <= idx <= |tasks|
        invariant FirstReusable(slots, Min(hint, |tasks|)) == FirstReusable(slots, idx)
      {
        assert slots[idx] == tasks[idx].View();
        if tasks[idx].free && !tasks[idx].inExecute {
          return;
        }
        idx := idx + 1;
      }
    }

    method RegisterTask(func: int, r: Request, now: real)
      requires Valid() && func >= 0 && func % 2 == 1
      modifies this, tasks, forwards, forwards.spForwards
      ensures Valid() && View() == AddTask(old(View()), NewTask(func, r, now))
      ensures forwards.View() == old(forwards.View()) && forwards.spForwards == old(forwards.spForwards)
    {
      hide Valid, NewTask;
      var idx := FindSlot();
      if idx < |tasks| {
        Reuse(idx, func, r, now);
      } else {
        Append(func, r, now);
      }
    }

    method Reuse(idx: nat, func: int, r: Request, now: real)
      requires Valid() && func >= 0 && func % 2 == 1 && idx < |tasks| && tasks[idx].free
      modifies this, tasks, forwards, forwards.spForwards
      ensures Valid() && forwards.View() == old(forwards.View()) && forwards.spForwards == old(forwards.spForwards)
      ensures View() == old(View()).(tasks := old(TaskViews())[idx := NewTask(func, r, now)],
                                     active := old(active) + 1, hint := idx + 1)
    {
      ghost var slots := TaskViews();
      tasks[idx].Set(forwards, func, r, now);
      assert TaskViews() == slots[idx := NewTask(func, r, now)];
      active := active + 1;
      hint := idx + 1;
    }

    method NewEntry(func: int, r: Request, now: real) returns (task: CTask)
      requires forwards.Valid() && func >= 0 && func % 2 == 1
      modifies forwards, forwards.spForwards
      ensures fresh(task) && task.View() == NewTask(func, r, now) && task.Holding()
      ensures forwards.Valid() && forwards.View() == old(forwards.View())
              && forwards.spForwards == old(forwards.spForwards)
    {
      hide NewTask;
      task := new CTask();
      task.Set(forwards, func, r, now);
    }

    method Append(func: int, r: Request, now: real)
      requires Valid() && func >= 0 && func % 2 == 1
      modifies this, forwards, forwards.spForwards
      ensures Valid() && forwards.View() == old(forwards.View()) && forwards.spForwards == old(forwards.spForwards)
      ensures View() == old(View()).(tasks := old(TaskViews()) + [NewTask(func, r, now)], active := old(active) + 1,
                                     hint := |old(tasks)| + 1)
    {
      hide NewTask;
      ghost var slots := TaskViews();
      var task := NewEntry(func, r, now);
      tasks := tasks + [task];
      assert TaskViews() == slots + [NewTask(func, r, now)];
      active := active + 1;
      hint := |tasks|;
    }

    method RemoveTasks(id: int, amx: Option<Amx>) returns (removed: nat)
      requires Valid()
      modifies this, tasks, forwards, forwards.spForwards
      ensures Valid() && tasks == old(tasks) && forwards.spForwards == old(forwards.spForwards)
      ensures View() == RemoveFirst(old(View()), |tasks|, id, amx)
      ensures forwards.View() == UnregisterAll(old(forwards.View()), RemovedFuncs(old(TaskViews()), |tasks|, id, amx))
      ensures removed == |RemovedFuncs(old(TaskViews()), |tasks|, id, amx)|
    {
      hide Valid, RemoveFirst, RemovedFuncs, UnregisterAll;
      ghost var tm, m := View(), forwards.View();
      NoneRemoved(tm, m, id, amx);
      removed := 0;
      for i := 0 to |tasks|
        invariant Valid() && tasks == old(tasks) && forwards.spForwards == old(forwards.spForwards)
        invariant View() == RemoveFirst(tm, i, id, amx)
        invariant forwards.View() == UnregisterAll(m, RemovedFuncs(tm.tasks, i, id, amx))
        invariant removed == |RemovedFuncs(tm.tasks, i, id, amx)|
      {
        removed := RemoveRound(tm, m, i, id, amx, removed);
      }
    }

    method RemoveRound(ghost tm: TaskMngr, ghost m: Mngr, i: nat, id: int, amx: Option<Amx>, n: nat)
      returns (removed: nat)
      requires Valid() && i < |tasks| && |tm.tasks| == |tasks| && View() == RemoveFirst(tm, i, id, amx)
      requires forwards.View() == UnregisterAll(m, RemovedFuncs(tm.tasks, i, id, amx))
               && n == |RemovedFuncs(tm.tasks, i, id, amx)|
      modifies this, tasks, forwards, forwards.spForwards
      ensures Valid() && tasks == old(tasks) && forwards.spForwards == old(forwards.spForwards)
      ensures View() == RemoveFirst(tm, i + 1, id, amx) && removed == |RemovedFuncs(tm.tasks, i + 1, id, amx)|
      ensures forwards.View() == UnregisterAll(m, RemovedFuncs(tm.tasks, i + 1, id, amx))
    {
      RemovedTask(tm, i, id, amx, i);
      assert View().tasks[i] == tm.tasks[i];
      var matched := RemoveAt(i, id, amx);
      UnregisterNext(m, RemovedFuncs(tm.tasks, i, id, amx), tm.tasks[i].func);
      removed := if matched then n + 1 else n;
    }

    /** One round of the loop. */
    method RemoveAt(i: nat, id: int, amx: Option<Amx>) returns (matched: bool)
      requires Valid() && i < |tasks|
      modifies this, tasks, forwards, forwards.spForwards
      ensures Valid() && tasks == old(tasks) && forwards.spForwards == old(forwards.spForwards)
      ensures View() == RemoveOne(old(View()), i, id, amx)
      ensures matched == Tasks.Matches(old(TaskViews())[i], id, amx)
      ensures forwards.View() == if matched then Unregister(old(forwards.View()), old(TaskViews())[i].func)
              else old(forwards.View())
    {
      ghost var slots := TaskViews();
      var task := tasks[i];
      matched := Tasks.Matches(task.View(), id, amx);
      if matched {
        task.Clear(forwards);
        assert TaskViews() == slots[i := Cleared(slots[i])];
        Uncount(i, !task.inExecute);
      }
    }

    /** The counters after the end of task i. */
    method Uncount(i: nat, counted: bool)
      modifies this`active, this`hint
      ensures active == if counted && old(active) > 0 then old(active) - 1 else old(active)
      ensures hint == Min(old(hint), i)
    {
      if counted && active > 0 {
        active := active - 1;
      }
      if i < hint {
        hint := i;
      }
    }

    method ChangeTasks(id: int, amx: Option<Amx>, base: real, now: real)
      requires Valid()
      modifies this, tasks
      ensures Valid() && tasks == old(tasks) && forwards.View() == old(forwards.View())
      ensures View() == old(View()).(tasks := ChangeAll(old(TaskViews()), id, amx, base, now))
    {
      ghost var slots := TaskViews();
      for i := 0 to |tasks|
        invariant Valid() && unchanged(this) && unchanged(forwards) && forwards.View() == old(forwards.View())
        invariant forall j {:trigger slots[j]} :: 0 <= j < |tasks| ==>
                    tasks[j].View() == if j < i then ChangeOne(slots[j], id, amx, base, now) else slots[j]
      {
        assert tasks[i].View() == slots[i];
        tasks[i].Change(id, amx, base, now);
      }
      assert TaskViews() == ChangeAll(slots, id, amx, base, now);
    }

    /** The first tasks are freed, and their forwards released. */
    ghost predicate FreedTo(slots: seq<Task>, m: Mngr, i: nat)
      reads this, tasks, forwards, forwards.spForwards, forwards.spForwards[..]
      requires i <= |slots|
    {
      && Valid() && |slots| == |tasks| && TaskViews() == ClearAll(slots[..i]) + slots[i..]
      && forwards.View() == UnregisterAll(m, LiveFuncs(slots[..i]))
    }

    /** Frees the tasks that are not free. */
    method FreeAll()
      requires Valid()
      modifies tasks, forwards, forwards.spForwards
      ensures Valid() && forwards.spForwards == old(forwards.spForwards)
      ensures TaskViews() == ClearAll(old(TaskViews()))
      ensures forwards.View() == UnregisterAll(old(forwards.View()), LiveFuncs(old(TaskViews())))
    {
      hide FreedTo, Valid, ClearAll, LiveFuncs, UnregisterAll;
      ghost var slots, m := TaskViews(), forwards.View();
      NoneFreed(slots, m);
      for i := 0 to |tasks|
        invariant |slots| == |tasks| && FreedTo(slots, m, i) && forwards.spForwards == old(forwards.spForwards)
      {
        FreeAt(slots, m, i);
      }
      AllFreed(slots, m);
    }

    lemma NoneFreed(slots: seq<Task>, m: Mngr)
      requires Valid() && slots == TaskViews() && m == forwards.View()
      ensures FreedTo(slots, m, 0)
    {
      ClearEnds(slots);
    }

    lemma AllFreed(slots: seq<Task>, m: Mngr)
      requires |slots| == |tasks| && FreedTo(slots, m, |slots|)
      ensures Valid() && TaskViews() == ClearAll(slots) && forwards.View() == UnregisterAll(m, LiveFuncs(slots))
    {
      ClearEnds(slots);
    }

    method FreeAt(ghost slots: seq<Task>, ghost m: Mngr, i: nat)
      requires i < |tasks| == |slots| && FreedTo(slots, m, i)
      modifies tasks, forwards, forwards.spForwards
      ensures FreedTo(slots, m, i + 1) && forwards.spForwards == old(forwards.spForwards)
    {
      hide Valid, ClearAll, LiveFuncs, UnregisterAll, Unregister, Cleared;
      ClearNext(slots, i);
      UnregisterNext(m, LiveFuncs(slots[..i]), slots[i].func);
      assert tasks[i].View() == TaskViews()[i] == slots[i];
      if !tasks[i].free {
        FreeTask(i);
      }
    }

    method FreeTask(i: nat)
      requires Valid() && i < |tasks| && !tasks[i].free
      modifies tasks, forwards, forwards.spForwards
      ensures Valid() && forwards.spForwards == old(forwards.spForwards)
      ensures TaskViews() == old(TaskViews())[i := Cleared(old(TaskViews())[i])]
      ensures forwards.View() == Unregister(old(forwards.View()), old(TaskViews())[i].func)
    {
      hide Unregister, Cleared;
      ghost var before := TaskViews();
      assert tasks[i].View() == before[i];
      tasks[i].Clear(forwards);
      assert TaskViews() == before[i := Cleared(before[i])];
    }

    method Clear()
      requires Valid()
      modifies this, tasks, forwards, forwards.spForwards
      ensures Valid() && forwards.spForwards == old(forwards.spForwards)
      ensures View() == if old(depth) > 0 then TaskMngr(ClearAll(old(TaskViews())), 0, 0, old(depth), true)
                        else TaskMngr([], 0, 0, 0, old(deferred))
      ensures forwards.View() == UnregisterAll(old(forwards.View()), LiveFuncs(old(TaskViews())))
    {
      hide ClearAll, LiveFuncs, UnregisterAll;
      FreeAll();
      if depth > 0 {
        deferred := true;
      } else {
        tasks := [];
      }
      active := 0;
      hint := 0;
    }

    /** executeIfRequired up to the callback; the task is neither free nor executing, and due. */
    method CallTask(i: nat, executable: bool) returns (entered: bool)
      requires Valid() && i < |tasks| && !tasks[i].free && !tasks[i].inExecute
               && ValidId(forwards.View(), tasks[i].func)
      modifies tasks, forwards, forwards.spForwards
      ensures Valid() && forwards.spForwards == old(forwards.spForwards)
      ensures entered == Runs(SlotOf(old(forwards.View()), old(tasks[i].func)), executable)
      ensures TaskViews() == old(TaskViews())[i := old(TaskViews())[i].(inExec := true)]
      ensures forwards.View() == if entered then EnterExec(old(forwards.View()), old(tasks[i].func))
                                 else FinishRelease(old(forwards.View()), old(tasks[i].func))
    {
      ghost var slots := TaskViews();
      tasks[i].inExecute := true;
      assert TaskViews() == slots[i := slots[i].(inExec := true)];
      entered := forwards.BeginExecute(tasks[i].func, executable);
    }

    /** The rest of executeIfRequired, and of the round of startFrame unless a clear is deferred. */
    method FinishTask(i: nat)
      requires Valid() && i < |tasks|
      modifies this, tasks, forwards, forwards.spForwards
      ensures Valid() && tasks == old(tasks) && forwards.spForwards == old(forwards.spForwards)
      ensures var t, t' := old(TaskViews())[i], Returned(old(TaskViews())[i]);
              && View() == (if old(deferred) then old(View()).(tasks := old(TaskViews())[i := t'])
                            else RoundOf(old(View()), i, t'))
              && forwards.View() == AfterReturn(old(forwards.View()), t)
    {
      ReturnTask(i);
      ghost var slots := TaskViews();
      assert slots[i] == tasks[i].View();
      if !deferred && tasks[i].free {
        Uncount(i, true);
        assert TaskViews() == slots;
      }
    }

    method ReturnTask(i: nat)
      requires Valid() && i < |tasks|
      modifies tasks, forwards, forwards.spForwards
      ensures Valid() && forwards.spForwards == old(forwards.spForwards)
      ensures var t, t' := old(TaskViews())[i], Returned(old(TaskViews())[i]);
              && TaskViews() == old(TaskViews())[i := t']
              && forwards.View() == AfterReturn(old(forwards.View()), t)
    {
      ghost var slots := TaskViews();
      tasks[i].inExecute := false;
      assert tasks[i].View() == slots[i].(inExec := false);
      if !tasks[i].free {
        tasks[i].Reschedule(forwards);
      }
      assert TaskViews() == slots[i := tasks[i].View()];
    }

    /** One round of startFrame up to the callback, if there is one: the machine's Visit. */
    method VisitTask(ghost w: World, i: nat, ghost last: nat, clock: Clock, executable: bool) returns (called: bool)
      requires Valid() && i < |tasks| && depth > 0 && w.tm == View() && w.fwd.m == forwards.View()
      requires !tasks[i].free ==> ValidId(forwards.View(), tasks[i].func)
      modifies this, tasks, forwards, forwards.spForwards
      ensures Valid() && forwards.spForwards == old(forwards.spForwards)
      ensures var w' := Visit(w, [], i, last, clock, executable);
              View() == w'.tm && forwards.View() == w'.fwd.m && called == (w'.frames != [] && w'.frames[0].InTask?)
    {
      assert w.tm.tasks[i] == tasks[i].View();
      called := false;
      if tasks[i].free {
        return;
      }
      if tasks[i].inExecute || !Due(tasks[i].View(), clock) {
        if deferred {
          EndFrameMatches(w, []);
          EndFrame();
        }
        return;
      }
      if tasks[i].loop && tasks[i].repeat == 0 {
        FinishRound(w, i, last);
      } else {
        called := CallRound(w, i, last, executable);
      }
    }

    method CallRound(ghost w: World, i: nat, ghost last: nat, executable: bool) returns (called: bool)
      requires Valid() && i < |tasks| && depth > 0 && w.tm == View() && w.fwd.m == forwards.View()
      requires !tasks[i].free && !tasks[i].inExecute && ValidId(forwards.View(), tasks[i].func)
      modifies this, tasks, forwards, forwards.spForwards
      ensures Valid() && forwards.spForwards == old(forwards.spForwards)
      ensures var t := w.tm.tasks[i];
              var (fwd, entered) := Entered(w.fwd, t.func, executable);
              && called == entered
                 && forwards.View() == (if entered then fwd.m else AfterTask(w.(fwd := fwd), [], i, last).fwd.m)
              && View() == (if entered then w.tm.(tasks := w.tm.tasks[i := t.(inExec := true)])
                            else AfterTask(w.(fwd := fwd), [], i, last).tm)
    {
      hide AfterTask, EnterExec, FinishRelease;
      assert w.tm.tasks[i] == tasks[i].View();
      ghost var fwd := Entered(w.fwd, tasks[i].func, executable).0;
      called := CallTask(i, executable);
      if !called {
        MarkedAfterTask(w.(fwd := fwd), i, last);
        FinishRound(w.(fwd := fwd, tm := View()), i, last);
      }
    }

    /** A callback returns: the machine's step out of it. */
    method LeaveTask(ghost w: World, i: nat, ghost last: nat, fid: int)
      requires Valid() && i < |tasks| && depth > 0 && w.tm == View() && w.fwd.m == forwards.View()
               && ValidId(forwards.View(), fid)
      modifies this, tasks, forwards, forwards.spForwards
      ensures Valid() && forwards.spForwards == old(forwards.spForwards)
      ensures var w' := AfterTask(w.(fwd := w.fwd.(m := LeaveExec(w.fwd.m, fid))), [], i, last);
              View() == w'.tm && forwards.View() == w'.fwd.m
    {
      forwards.EndExecute(fid);
      FinishRound(w.(fwd := w.fwd.(m := LeaveExec(w.fwd.m, fid))), i, last);
    }

    method FinishRound(ghost w: World, i: nat, ghost last: nat)
      requires Valid() && i < |tasks| && depth > 0 && w.tm == View() && w.fwd.m == forwards.View()
      modifies this, tasks, forwards, forwards.spForwards
      ensures Valid() && forwards.spForwards == old(forwards.spForwards)
      ensures var w' := AfterTask(w, [], i, last); View() == w'.tm && forwards.View() == w'.fwd.m
    {
      AfterTaskMatches(w, i, last);
      FinishTask(i);
      if deferred {
        EndFrame();
      }
    }

    /** The end of startFrame. */
    method EndFrame()
      requires Valid() && depth > 0
      modifies this, tasks, forwards, forwards.spForwards
      ensures Valid() && forwards.spForwards == old(forwards.spForwards)
      ensures View() == if old(deferred) then TaskMngr([], old(active), old(hint), old(depth) - 1, false)
                        else old(View()).(depth := old(depth) - 1)
      ensures forwards.View() == if old(deferred) then UnregisterAll(old(forwards.View()), LiveFuncs(old(TaskViews())))
                                 else old(forwards.View())
    {
      if deferred {
        FreeAll();
        tasks := [];
      }
      deferred := false;
      depth := depth - 1;
    }
  }

  /** The frame callbacks that wait; one that leaves the queue releases its forward (CFrameAction.h). */
  class CFrameActionMngr {
    var requested: seq<int>
    const forwards: CForwardMngr

    constructor (forwards: CForwardMngr)
      ensures requested == [] && this.forwards == forwards
    {
      requested := [];
      this.forwards := forwards;
    }

    ghost predicate Valid()
      reads this, forwards
    {
      forwards.Valid() && forall i :: 0 <= i < |requested| ==> requested[i] % 2 == 1
    }

    method AddFrameAction(callback: int)
      requires Valid() && callback % 2 == 1
      modifies this
      ensures Valid() && requested == old(requested) + [callback]
    {
      requested := requested + [callback];
    }

    /** One round of ExecuteFrameCallbacks, up to the callback if there is one. */
    method BeginFront(executable: bool) returns (fid: int, entered: bool)
      requires Valid() && requested != [] && ValidId(forwards.View(), requested[0])
      modifies this, forwards, forwards.spForwards
      ensures Valid() && fid == old(requested[0]) && requested == old(requested)[1..]
      ensures entered == Runs(SlotOf(old(forwards.View()), fid), executable)
      ensures forwards.View() == if entered then EnterExec(old(forwards.View()), fid)
                                 else Unregister(FinishRelease(old(forwards.View()), fid), fid)
    {
      fid := requested[0];
      requested := requested[1..];
      entered := forwards.BeginExecute(fid, executable);
      if !entered {
        forwards.UnregisterSPForward(fid);
      }
    }

    /** The callback has returned, and the action is destroyed. */
    method FinishFront(fid: int)
      requires Valid() && ValidId(forwards.View(), fid)
      modifies forwards, forwards.spForwards
      ensures Valid() && forwards.View() == Unregister(LeaveExec(old(forwards.View()), fid), fid)
    {
      forwards.EndExecute(fid);
      forwards.UnregisterSPForward(fid);
    }

    method Clear()
      requires Valid()
      modifies this, forwards, forwards.spForwards
      ensures Valid() && requested == [] && forwards.View() == UnregisterAll(old(forwards.View()), old(requested))
    {
      ghost var queue, m := requested, forwards.View();
      var n := |requested|;
      for i := 0 to n
        invariant Valid() && requested == queue[i..] && forwards.spForwards == old(forwards.spForwards)
        invariant forwards.View() == UnregisterAll(m, queue[..i])
      {
        assert queue[..i + 1] == queue[..i] + [queue[i]];
        UnregisterNext(m, queue[..i], queue[i]);
        forwards.UnregisterSPForward(requested[0]);
        requested := requested[1..];
      }
      assert queue[..n] == queue;
    }
  }

  lemma EndFrameMatches(w: World, below: seq<Frame>)
    requires w.tm.depth > 0
    ensures var w' := Tasks.EndFrame(w, below);
            && w'.tm == (if w.tm.deferred then TaskMngr([], w.tm.active, w.tm.hint, w.tm.depth - 1, false)
                         else w.tm.(depth := w.tm.depth - 1))
            && w'.fwd.m == (if w.tm.deferred then UnregisterAll(w.fwd.m, LiveFuncs(w.tm.tasks)) else w.fwd.m)
  {
    ReleaseAllUnregisters(w.fwd, LiveFuncs(w.tm.tasks));
  }

  function AfterReturn(m: Mngr, t: Task): Mngr {
    if Returned(t).free && !t.free then Unregister(m, t.func) else m
  }

  /** The mark of the executing task does not matter for what comes after its callback. */
  lemma MarkedRound(tm: TaskMngr, m: Mngr, i: nat)
    requires i < |tm.tasks|
    ensures var t, t' := tm.tasks[i], tm.tasks[i].(inExec := true);
            RoundOf(tm.(tasks := tm.tasks[i := t']), i, Returned(t')) == RoundOf(tm, i, Returned(t))
            && AfterReturn(m, t') == AfterReturn(m, t)
  {
  }

  lemma MarkedAfterTask(w: World, i: nat, last: nat)
    requires i < |w.tm.tasks| && w.tm.depth > 0
    ensures var v := w.(tm := w.tm.(tasks := w.tm.tasks[i := w.tm.tasks[i].(inExec := true)]));
            AfterTask(v, [], i, last).tm == AfterTask(w, [], i, last).tm
            && AfterTask(v, [], i, last).fwd.m == AfterTask(w, [], i, last).fwd.m
  {
    hide AfterTask;
    var v := w.(tm := w.tm.(tasks := w.tm.tasks[i := w.tm.tasks[i].(inExec := true)]));
    MarkedRound(w.tm, w.fwd.m, i);
    AfterTaskMatches(v, i, last);
    AfterTaskMatches(w, i, last);
  }

  lemma AfterTaskMatches(w: World, i: nat, last: nat)
    requires i < |w.tm.tasks| && w.tm.depth > 0
    ensures var w' := AfterTask(w, [], i, last);
            var tasks', m := w.tm.tasks[i := Returned(w.tm.tasks[i])], AfterReturn(w.fwd.m, w.tm.tasks[i]);
            && w'.tm == (if w.tm.deferred then TaskMngr([], w.tm.active, w.tm.hint, w.tm.depth - 1, false)
                         else RoundOf(w.tm, i, Returned(w.tm.tasks[i])))
            && w'.fwd.m == (if w.tm.deferred then UnregisterAll(m, LiveFuncs(tasks')) else m)
  {
    var t, t' := w.tm.tasks[i], Returned(w.tm.tasks[i]);
    var fwd := if t'.free && !t.free then Released(w.fwd, t.func) else w.fwd;
    EndFrameMatches(w.(fwd := fwd, tm := w.tm.(tasks := w.tm.tasks[i := t'])), []);
  }
}
