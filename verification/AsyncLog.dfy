/**
 The asynchronous log writer (amxmodx/amxxlog.cpp).

 The first part is the ring of lines as the array that it is. The second is the system around it:
 threads that log, a writer thread that is started on demand, and a shutdown. Everything that
 happens under the lock, and every access to a flag outside it, is one step, and the steps of all
 threads interleave freely.
 */
module AsyncLog {
  import opened Basics

  datatype Line = Line(path: string, text: string)

  const PATH_SIZE := 260
  const TEXT_SIZE := 4096

  function Queued(path: string, text: string): Line {
    Line(Clip(path, PATH_SIZE), Clip(text, TEXT_SIZE))
  }

  // ---------- The ring ----------

  /** One slot of the 1024 stays empty. */
  const Capacity: nat := 1023

  class LogRing {
    const slots: array<Line>
    var head: nat
    var tail: nat

    constructor ()
      ensures Valid() && Contents() == [] && fresh(slots)
    {
      slots := new Line[1024];
      head, tail := 0, 0;
    }

    predicate Valid()
      reads this
    {
      slots.Length == 1024 && head < 1024 && tail < 1024
    }

    /** The lines from the tail up to the head, across the end of the array. */
    ghost function Contents(): (r: seq<Line>)
      requires Valid()
      reads this, slots
    {
      if tail <= head then slots[tail..head] else slots[tail..] + slots[..head]
    }

    /** A full ring refuses the line. */
    method Enqueue(path: string, text: string) returns (ok: bool)
      requires Valid()
      modifies this, slots
      ensures Valid() && ok == (|old(Contents())| < Capacity)
      ensures Contents() == if ok then old(Contents()) + [Queued(path, text)] else old(Contents())
    {
      var next := (head + 1) % 1024;
      if next == tail {
        return false;
      }
      slots[head] := Queued(path, text);
      head := next;
      ok := true;
    }

    method IsEmpty() returns (r: bool)
      requires Valid()
      ensures r == (Contents() == [])
    {
      r := head == tail;
    }

    method Take() returns (line: Line)
      requires Valid() && Contents() != []
      modifies this
      ensures Valid() && old(Contents()) == [line] + Contents()
    {
      ghost var before := Contents();
      line := slots[tail];
      tail := (tail + 1) % 1024;
      assert Contents() == before[1..];
    }
  }

  // ---------- The system ----------

  /** The writer's local state: the open file, the path it was opened under, the line in its hands. */
  datatype Writer = Writer(fp: Option<string>, cur: string, op: Option<Line>)

  /** A thread that logs a line has seen no writer and wants to start one, or has found one. */
  datatype Call = Wants(line: Line) | Granted(line: Line)

  /** The thread in AsyncShutdown. Passed: it saw a running writer. Joining: it raised the stop flag.
      Joined: the writer has ended. Cleared: the running flag is down, the stop flag not yet. */
  datatype Shutdown = Idle | Passed | Joining | Joined | Cleared

  /** What became of a line that left the ring. */
  datatype Fate = Fate(line: Line, written: bool)

  /** What has happened so far. `unmanned` lists the lines accepted since there was last a writer;
      `mark` and `manned` tell, for the last stop, how many lines had been accepted and whether a
      writer or an empty ring was found. `wraps` counts the overflows of the drop counter. */
  datatype History = History(accepted: seq<Line>, processed: seq<Fate>, rejected: nat, reported: nat, wraps: nat,
                             unmanned: seq<Line>, mark: nat, manned: bool)

  datatype Sys = Sys(ring: seq<Line>, running: bool, stop: bool, drops: nat, writers: seq<Writer>,
                     calls: map<int, Call>, shutdown: Shutdown, files: map<string, seq<string>>, h: History)

  datatype Step =
    | Log(thread: int, path: string, text: string)
    | Start(thread: int, created: bool)
    | Enqueue(thread: int)
    | Take(k: nat)
    | Write(k: nat, openOk: bool, putOk: bool)
    | Exit(k: nat)
    | BeginShutdown
    | RaiseStop
    | Join
    | ClearRunning
    | ClearStop
    | MapChange

  predicate Enabled(s: Sys, step: Step) {
    match step
    case Log(thread, _, _) => thread !in s.calls
    case Start(thread, _) => thread in s.calls && s.calls[thread].Wants?
    case Enqueue(thread) => thread in s.calls && s.calls[thread].Granted?
    case Take(k) => k < |s.writers| && s.writers[k].op.None? && s.ring != []
    case Write(k, _, _) => k < |s.writers| && s.writers[k].op.Some?
    case Exit(k) => k < |s.writers| && s.writers[k].op.None? && s.ring == [] && s.stop
    case BeginShutdown => s.shutdown.Idle?
    case RaiseStop => s.shutdown.Passed?
    case Join => s.shutdown.Joining? && s.writers == []
    case ClearRunning => s.shutdown.Joined?
    case ClearStop => s.shutdown.Cleared?
    case MapChange => true
  }

  const NewWriter := Writer(None, "", None)

  /** KTP_ALogEnsureThread under the lock. */
  function AfterStart(s: Sys, thread: int, created: bool): Sys
    requires thread in s.calls
  {
    if s.running then s.(calls := s.calls[thread := Granted(s.calls[thread].line)])
    else if !created then s.(calls := s.calls - {thread})
    else s.(calls := s.calls[thread := Granted(s.calls[thread].line)], writers := s.writers + [NewWriter],
            running := true)
  }

  function AfterEnqueue(s: Sys, thread: int): Sys
    requires thread in s.calls
  {
    var line := s.calls[thread].line;
    var s1 := s.(calls := s.calls - {thread});
    if |s.ring| >= Capacity then
      s1.(drops := (s.drops + 1) % WORD,
          h := s.h.(rejected := s.h.rejected + 1, wraps := s.h.wraps + (s.drops + 1) / WORD))
    else s1.(ring := s.ring + [line],
             h := s.h.(accepted := s.h.accepted + [line],
                       unmanned := if s.writers == [] then s.h.unmanned + [line] else s.h.unmanned))
  }

  /** The writer opens the file of the line if it is another one than before. */
  function Reopened(w: Writer, path: string, openOk: bool): Writer {
    if w.cur == path then w
    else if openOk then w.(fp := Some(path), cur := path)
    else w.(fp := None, cur := "")
  }

  function Appended(files: map<string, seq<string>>, path: string, text: string): map<string, seq<string>> {
    files[path := (if path in files then files[path] else []) + [text]]
  }

  /** The writer after a line, and whether it was written; a failed write gives up the file. */
  function WriteOut(w: Writer, line: Line, openOk: bool, putOk: bool): (Writer, bool) {
    var w' := Reopened(w, line.path, openOk).(op := None);
    if w'.fp.None? then (w', false) else if putOk then (w', true) else (NewWriter, false)
  }

  function AfterWrite(s: Sys, k: nat, openOk: bool, putOk: bool): Sys
    requires k < |s.writers| && s.writers[k].op.Some?
  {
    var line := s.writers[k].op.value;
    var (w, written) := WriteOut(s.writers[k], line, openOk, putOk);
    s.(writers := s.writers[k := w],
       files := if written then Appended(s.files, w.fp.value, line.text) else s.files,
       drops := if written then s.drops else (s.drops + 1) % WORD,
       h := s.h.(processed := s.h.processed + [Fate(line, written)],
                 wraps := if written then s.h.wraps else s.h.wraps + (s.drops + 1) / WORD))
  }

  function Next(s: Sys, step: Step): Sys
    requires Enabled(s, step)
  {
    match step
    case Log(thread, path, text) =>
      s.(calls := s.calls[thread := if s.running then Granted(Queued(path, text)) else Wants(Queued(path, text))])
    case Start(thread, created) => AfterStart(s, thread, created)
    case Enqueue(thread) => AfterEnqueue(s, thread)
    case Take(k) => s.(ring := s.ring[1..], writers := s.writers[k := s.writers[k].(op := Some(s.ring[0]))])
    case Write(k, openOk, putOk) => AfterWrite(s, k, openOk, putOk)
    case Exit(k) => s.(writers := s.writers[..k] + s.writers[k + 1..], h := s.h.(unmanned := []))
    case BeginShutdown => if s.running then s.(shutdown := Passed) else s
    case RaiseStop =>
      s.(stop := true, shutdown := Joining,
         h := s.h.(mark := |s.h.accepted|, manned := s.writers != [] || s.ring == []))
    case Join => s.(shutdown := Joined)
    case ClearRunning => s.(running := false, shutdown := Cleared)
    case ClearStop => s.(stop := false, shutdown := Idle)
    case MapChange => s.(drops := 0, h := s.h.(reported := s.h.reported + s.drops))
  }

  /** The writer's file handling in place. */
  class LogWriter {
    var fp: Option<string>
    var curPath: string

    constructor ()
      ensures fp == None && curPath == ""
    {
      fp, curPath := None, "";
    }

    /** What the writer does with a line outside of the lock. */
    method WriteLine(op: Line, openOk: bool, putOk: bool) returns (written: bool)
      modifies this
      ensures (Writer(fp, curPath, None), written)
           == WriteOut(Writer(old(fp), old(curPath), Some(op)), op, openOk, putOk)
    {
      if curPath != op.path {
        if openOk {
          fp, curPath := Some(op.path), op.path;
        } else {
          fp, curPath := None, "";
        }
      }
      written := false;
      if fp.Some? {
        written := putOk;
        if !putOk {
          fp, curPath := None, "";
        }
      }
    }
  }

  // ---------- The invariant ----------

  function Lines(processed: seq<Fate>): seq<Line> {
    if processed == [] then [] else Lines(processed[..|processed| - 1]) + [processed[|processed| - 1].line]
  }

  /** The texts written of the lines queued for a file, in order. */
  function WrittenTo(processed: seq<Fate>, path: string): seq<string> {
    if processed == [] then []
    else var f := processed[|processed| - 1];
         var before := WrittenTo(processed[..|processed| - 1], path);
         if f.written && f.line.path == path then before + [f.line.text] else before
  }

  function DroppedCount(processed: seq<Fate>): nat {
    if processed == [] then 0
    else DroppedCount(processed[..|processed| - 1]) + (if processed[|processed| - 1].written then 0 else 1)
  }

  function InFlight(writers: seq<Writer>): seq<Line> {
    if writers == [] then []
    else match writers[0].op
         case Some(line) => [line]
         case None => []
  }

  /** Every line accepted was processed, or is in the writer's hands, or in the ring, in this order. */
  ghost predicate Conserved(s: Sys) {
    s.h.accepted == Lines(s.h.processed) + InFlight(s.writers) + s.ring
  }

  ghost predicate FilesOk(s: Sys) {
    forall p: string {:trigger WrittenTo(s.h.processed, p)} ::
      (if p in s.files then s.files[p] else []) == WrittenTo(s.h.processed, p)
  }

  predicate CountsOk(s: Sys) {
    s.drops + s.h.reported + s.h.wraps * WORD == s.h.rejected + DroppedCount(s.h.processed)
  }

  /** The flags tell whether there is a writer, apart from the time between its end and the fall of
      the running flag. */
  predicate FlagsOk(s: Sys) {
    && |s.writers| <= 1
    && (s.writers != [] ==> s.running)
    && (s.shutdown.Passed? ==> s.running)
    && (s.shutdown.Joining? || s.shutdown.Joined? ==> s.running && s.stop)
    && (s.shutdown.Joined? ==> s.writers == [])
    && (s.shutdown.Cleared? ==> s.stop)
    && (s.stop ==> s.shutdown.Joining? || s.shutdown.Joined? || s.shutdown.Cleared?)
  }

  predicate WriterOk(s: Sys) {
    s.writers != [] ==> s.writers[0].cur == if s.writers[0].fp.Some? then s.writers[0].fp.value else ""
  }

  /** After a stop, the lines accepted before it are processed when the writer has ended, exactly if
      there was a writer, or nothing to do, when the flag was raised. */
  predicate DrainOk(s: Sys) {
    && (s.writers == [] ==> s.ring == s.h.unmanned)
    && s.h.mark <= |s.h.accepted|
    && (s.shutdown.Joining? && s.h.manned && s.writers == [] ==> |s.h.processed| >= s.h.mark)
    && (s.shutdown.Joined? && s.h.manned ==> |s.h.processed| >= s.h.mark)
    && (s.shutdown.Joining? || s.shutdown.Joined? ==> !s.h.manned ==> s.writers == [] && |s.h.processed| < s.h.mark)
  }

  ghost predicate Inv(s: Sys) {
    FlagsOk(s) && Conserved(s) && FilesOk(s) && CountsOk(s) && WriterOk(s) && DrainOk(s) && |s.ring| <= Capacity
  }

  // ---------- Every step keeps the invariant ----------

  lemma LinesPush(processed: seq<Fate>, f: Fate)
    ensures Lines(processed + [f]) == Lines(processed) + [f.line]
    ensures DroppedCount(processed + [f]) == DroppedCount(processed) + (if f.written then 0 else 1)
  {
  }

  function FateOf(s: Sys, k: nat, openOk: bool, putOk: bool): Fate
    requires k < |s.writers| && s.writers[k].op.Some?
  {
    Fate(s.writers[k].op.value, WriteOut(s.writers[k], s.writers[k].op.value, openOk, putOk).1)
  }

  lemma {:induction false} LinesLength(processed: seq<Fate>)
    ensures |Lines(processed)| == |processed|
  {
    if processed != [] {
      LinesLength(processed[..|processed| - 1]);
    }
  }

  lemma StepKeepsFlags(s: Sys, step: Step)
    requires FlagsOk(s) && Enabled(s, step)
    ensures FlagsOk(Next(s, step))
  {
  }

  lemma StepKeepsWriter(s: Sys, step: Step)
    requires FlagsOk(s) && WriterOk(s) && Enabled(s, step)
    ensures WriterOk(Next(s, step))
  {
  }

  lemma WriteKeepsConserved(s: Sys, k: nat, openOk: bool, putOk: bool)
    requires FlagsOk(s) && Conserved(s) && k < |s.writers| && s.writers[k].op.Some?
    ensures Conserved(AfterWrite(s, k, openOk, putOk))
  {
  }

  lemma TakeKeepsConserved(s: Sys, k: nat)
    requires FlagsOk(s) && Conserved(s) && Enabled(s, Take(k))
    ensures Conserved(Next(s, Take(k)))
  {
    hide Lines;
    var first, rest, before := s.ring[0], s.ring[1..], Lines(s.h.processed);
    assert InFlight(s.writers) == [] && InFlight(Next(s, Take(k)).writers) == [first];
    assert before + [] + s.ring == before + [first] + rest;
  }

  lemma ExitKeepsConserved(s: Sys, k: nat)
    requires FlagsOk(s) && Conserved(s) && Enabled(s, Exit(k))
    ensures Conserved(Next(s, Exit(k)))
  {
    assert k == 0 && s.writers[..k] + s.writers[k + 1..] == [];
  }

  lemma EnqueueKeepsConserved(s: Sys, thread: int)
    requires Conserved(s) && thread in s.calls
    ensures Conserved(AfterEnqueue(s, thread))
  {
    hide Lines, InFlight;
  }

  lemma StepKeepsConserved(s: Sys, step: Step)
    requires FlagsOk(s) && Conserved(s) && Enabled(s, step)
    ensures Conserved(Next(s, step))
  {
    match step
    case Write(k, openOk, putOk) => WriteKeepsConserved(s, k, openOk, putOk);
    case Take(k) => TakeKeepsConserved(s, k);
    case Start(thread, created) => assert InFlight(s.writers + [NewWriter]) == InFlight(s.writers);
    case Exit(k) => ExitKeepsConserved(s, k);
    case Enqueue(thread) => EnqueueKeepsConserved(s, thread);
    case _ =>
  }

  lemma WriteKeepsCounts(s: Sys, k: nat, openOk: bool, putOk: bool)
    requires CountsOk(s) && k < |s.writers| && s.writers[k].op.Some?
    ensures CountsOk(AfterWrite(s, k, openOk, putOk))
  {
    hide DroppedCount, WriteOut, Appended;
    Wrapped(s.drops, s.h.wraps);
    LinesPush(s.h.processed, FateOf(s, k, openOk, putOk));
  }

  lemma EnqueueKeepsCounts(s: Sys, thread: int)
    requires CountsOk(s) && thread in s.calls
    ensures CountsOk(AfterEnqueue(s, thread))
  {
    hide DroppedCount;
    Wrapped(s.drops, s.h.wraps);
  }

  lemma StepKeepsCounts(s: Sys, step: Step)
    requires CountsOk(s) && Enabled(s, step)
    ensures CountsOk(Next(s, step))
  {
    hide DroppedCount, AfterWrite, AfterEnqueue;
    match step
    case Write(k, openOk, putOk) => WriteKeepsCounts(s, k, openOk, putOk);
    case Enqueue(thread) => EnqueueKeepsCounts(s, thread);
    case _ =>
  }

  lemma Wrapped(drops: nat, wraps: nat)
    ensures (drops + 1) % WORD + (wraps + (drops + 1) / WORD) * WORD == drops + 1 + wraps * WORD
  {
  }

  lemma WriteKeepsFiles(s: Sys, k: nat, openOk: bool, putOk: bool)
    requires FlagsOk(s) && WriterOk(s) && FilesOk(s) && k < |s.writers| && s.writers[k].op.Some?
    ensures FilesOk(AfterWrite(s, k, openOk, putOk))
  {
  }

  lemma StepKeepsFiles(s: Sys, step: Step)
    requires FlagsOk(s) && WriterOk(s) && FilesOk(s) && Enabled(s, step)
    ensures FilesOk(Next(s, step))
  {
    if step.Write? {
      WriteKeepsFiles(s, step.k, step.openOk, step.putOk);
    }
  }

  lemma Account(s: Sys)
    requires Conserved(s)
    ensures |s.h.accepted| == |s.h.processed| + |InFlight(s.writers)| + |s.ring|
  {
    LinesLength(s.h.processed);
  }

  lemma LinesKeepDrain(s: Sys, step: Step)
    requires FlagsOk(s) && DrainOk(s) && Enabled(s, step) && (step.Write? || step.Take? || step.Enqueue?)
    requires |s.h.accepted| == |s.h.processed| + |InFlight(s.writers)| + |s.ring|
    ensures DrainOk(Next(s, step))
  {
    hide WriteOut, Appended;
  }

  lemma StepKeepsDrain(s: Sys, step: Step)
    requires Inv(s) && Enabled(s, step)
    ensures DrainOk(Next(s, step))
  {
    hide Conserved, CountsOk, FilesOk, WriterOk, AfterWrite, AfterEnqueue;
    Account(s);
    if step.Write? || step.Take? || step.Enqueue? {
      LinesKeepDrain(s, step);
    }
  }

  lemma StepKeepsInv(s: Sys, step: Step)
    requires Inv(s) && Enabled(s, step)
    ensures Inv(Next(s, step))
  {
    StepKeepsFlags(s, step);
    StepKeepsWriter(s, step);
    StepKeepsConserved(s, step);
    StepKeepsCounts(s, step);
    StepKeepsFiles(s, step);
    StepKeepsDrain(s, step);
  }

  // ---------- Results about whole runs ----------

  const Initial := Sys([], false, false, 0, [], map[], Idle, map[], History([], [], 0, 0, 0, [], 0, true))

  ghost predicate IsRun(states: seq<Sys>, steps: seq<Step>) {
    && |states| == |steps| + 1 && states[0] == Initial
    && forall k {:trigger steps[k]} :: 0 <= k < |steps| ==>
         Enabled(states[k], steps[k]) && states[k + 1] == Next(states[k], steps[k])
  }

  lemma {:induction false} RunKeepsInv(states: seq<Sys>, steps: seq<Step>, k: nat)
    requires IsRun(states, steps) && k < |states|
    ensures Inv(states[k])
  {
    if k > 0 {
      RunKeepsInv(states, steps, k - 1);
      StepKeepsInv(states[k - 1], steps[k - 1]);
    }
  }

  /** Conservation and order: in every interleaving, the accepted lines are those processed, then the
      one in the writer's hands, then the ring; and what was dropped is what was counted or reported. */
  lemma NoLineIsLost(states: seq<Sys>, steps: seq<Step>, k: nat)
    requires IsRun(states, steps) && k < |states|
    ensures var s := states[k];
            && |s.writers| <= 1 && |s.ring| <= Capacity
            && s.h.accepted == Lines(s.h.processed) + InFlight(s.writers) + s.ring
            && s.drops + s.h.reported + s.h.wraps * WORD == s.h.rejected + DroppedCount(s.h.processed)
  {
    RunKeepsInv(states, steps, k);
  }

  /** The written texts of the lines of one path, in the order of a list of lines. */
  lemma {:induction false} WrittenIsOwn(processed: seq<Fate>, path: string, i: nat)
    requires i < |WrittenTo(processed, path)|
    ensures exists j ::
            0 <= j < |processed| && processed[j].written
              && processed[j].line == Line(path, WrittenTo(processed, path)[i])
  {
    var n := |processed| - 1;
    if i < |WrittenTo(processed[..n], path)| {
      WrittenIsOwn(processed[..n], path, i);
      var j :| 0 <= j < n && processed[..n][j].written
        && processed[..n][j].line == Line(path, WrittenTo(processed[..n], path)[i]);
      assert processed[j] == processed[..n][j];
    } else {
      assert processed[n].line == Line(path, WrittenTo(processed, path)[i]);
    }
  }

  /** A file holds, in the order in which they were accepted, exactly the texts of the lines queued
      for its path that the writer could write. */
  lemma FilesGetTheirLines(states: seq<Sys>, steps: seq<Step>, k: nat, path: string)
    requires IsRun(states, steps) && k < |states|
    ensures var s := states[k];
            (if path in s.files then s.files[path] else []) == WrittenTo(s.h.processed, path)
            && Lines(s.h.processed) <= s.h.accepted
  {
    RunKeepsInv(states, steps, k);
    assert FilesOk(states[k]);
  }

  /** When the writer ends, every accepted line has been processed, in particular all that were
      accepted before the stop flag was raised. */
  lemma WriterEndsEmpty(states: seq<Sys>, steps: seq<Step>, k: nat)
    requires IsRun(states, steps) && k < |steps| && steps[k].Exit?
    ensures Lines(states[k].h.processed) == states[k].h.accepted && states[k].h.mark <= |states[k].h.processed|
    ensures states[k + 1].writers == [] && states[k + 1].ring == []
  {
    RunKeepsInv(states, steps, k);
    RunKeepsInv(states, steps, k + 1);
    LinesLength(states[k].h.processed);
    assert Enabled(states[k], steps[k]);
  }

  /** AsyncShutdown drains: when it has joined the writer, every line accepted before the stop flag was
      raised is processed, if and only if the flag was raised while a writer ran or with nothing queued. */
  lemma ShutdownDrains(states: seq<Sys>, steps: seq<Step>, k: nat)
    requires IsRun(states, steps) && k < |states| && states[k].shutdown.Joined?
    ensures |states[k].h.processed| >= states[k].h.mark <==> states[k].h.manned
  {
    RunKeepsInv(states, steps, k);
  }

  // ---------- What reaches the files ----------

  function FileOf(s: Sys, path: string): seq<string> {
    if path in s.files then s.files[path] else []
  }

  /** When a line reaches its file: the file is open already, or is opened now, and the write succeeds. (An
      empty path counts as the path of no file, and is not opened anew.) Then exactly this file gains exactly
      this text; otherwise no file changes, and the drop count rises by one. */
  lemma LineReachesFile(s: Sys, k: nat, openOk: bool, putOk: bool)
    requires Inv(s) && Enabled(s, Write(k, openOk, putOk))
    ensures var w, s' := s.writers[k], Next(s, Write(k, openOk, putOk));
            var line := w.op.value;
            var reached := putOk && (w.fp == Some(line.path) || (openOk && (w.fp.Some? || line.path != "")));
            && (forall p: string {:trigger FileOf(s', p)} ::
                  FileOf(s', p) == if reached && p == line.path then FileOf(s, p) + [line.text] else FileOf(s, p))
            && s'.drops == (if reached then s.drops else (s.drops + 1) % WORD)
            && (s'.writers[k].fp.Some? ==> s'.writers[k].fp == Some(line.path))
            && (reached <==> s'.writers[k].fp.Some?)
  {
  }

  /** The texts of the lines of one path, in order. */
  function TextsFor(lines: seq<Line>, path: string): seq<string> {
    if lines == [] then []
    else
      var before, line := TextsFor(lines[..|lines| - 1], path), lines[|lines| - 1];
      if line.path == path then before + [line.text] else before
  }

  /** All opens and writes succeed, of lines that have a path. */
  ghost predicate NoFailure(states: seq<Sys>, steps: seq<Step>, k: nat)
    requires IsRun(states, steps) && k <= |steps|
  {
    forall j {:trigger steps[j]} :: 0 <= j < k && steps[j].Write? && Enabled(states[j], steps[j]) ==>
      steps[j].openOk && steps[j].putOk && states[j].writers[steps[j].k].op.value.path != ""
  }

  lemma FatesPush(processed: seq<Fate>, f: Fate, path: string)
    requires DroppedCount(processed) == 0 && WrittenTo(processed, path) == TextsFor(Lines(processed), path) && f.written
    ensures DroppedCount(processed + [f]) == 0
    ensures WrittenTo(processed + [f], path) == TextsFor(Lines(processed + [f]), path)
  {
    LinesPush(processed, f);
  }

  lemma WriteAddsFate(s: Sys, step: Step)
    requires Inv(s) && Enabled(s, step) && step.Write?
    requires step.openOk && step.putOk && s.writers[step.k].op.value.path != ""
    ensures FateOf(s, step.k, step.openOk, step.putOk).written
    ensures Next(s, step).h.processed == s.h.processed + [FateOf(s, step.k, step.openOk, step.putOk)]
  {
    hide FilesOk, Conserved, CountsOk, DrainOk;
  }

  lemma OthersAddNone(s: Sys, step: Step)
    requires Enabled(s, step) && !step.Write?
    ensures Next(s, step).h.processed == s.h.processed
  {
  }

  lemma {:induction false} AllAreWritten(states: seq<Sys>, steps: seq<Step>, k: nat, path: string)
    requires IsRun(states, steps) && k <= |steps| && NoFailure(states, steps, k)
    ensures DroppedCount(states[k].h.processed) == 0
    ensures WrittenTo(states[k].h.processed, path) == TextsFor(Lines(states[k].h.processed), path)
  {
    hide Inv, Next, FateOf;
    if k > 0 {
      AllAreWritten(states, steps, k - 1, path);
      RunKeepsInv(states, steps, k - 1);
      var s, step := states[k - 1], steps[k - 1];
      assert Enabled(s, step) && states[k] == Next(s, step);
      if step.Write? {
        WriteAddsFate(s, step);
        FatesPush(s.h.processed, FateOf(s, step.k, step.openOk, step.putOk), path);
      } else {
        OthersAddNone(s, step);
      }
    }
  }

  /** If all opens and writes succeed, a file holds the texts of all lines processed for its path, in order, and
      the writer drops nothing: what is counted or reported as dropped was refused by a full ring. */
  lemma EverythingReachesItsFile(states: seq<Sys>, steps: seq<Step>, k: nat, path: string)
    requires IsRun(states, steps) && k <= |steps| && NoFailure(states, steps, k)
    ensures var s := states[k];
            && FileOf(s, path) == TextsFor(Lines(s.h.processed), path)
            && s.drops + s.h.reported + s.h.wraps * WORD == s.h.rejected
  {
    AllAreWritten(states, steps, k, path);
    FilesGetTheirLines(states, steps, k, path);
    NoLineIsLost(states, steps, k);
  }

  /** What a log call queues: path and text, each cut to its buffer. */
  lemma QueuedIsGiven(path: string, text: string)
    ensures Queued(path, text).path == if |path| < 260 then path else path[..259]
    ensures Queued(path, text).text == if |text| < 4096 then text else text[..4095]
  {
  }

  /** The queue takes a line while fewer than 1023 wait; otherwise the line is dropped and counted. */
  lemma RingRefusesWhenFull(s: Sys, thread: int)
    requires Enabled(s, Enqueue(thread))
    ensures var s' := Next(s, Enqueue(thread));
            && thread !in s'.calls
            && (|s.ring| < 1023 ==> s'.ring == s.ring + [s.calls[thread].line] && s'.drops == s.drops
                                    && s'.h.accepted == s.h.accepted + [s.calls[thread].line])
            && (|s.ring| >= 1023 ==> s'.ring == s.ring && s'.drops == (s.drops + 1) % 0x1_0000_0000
                                     && s'.h.accepted == s.h.accepted)
  {
  }

  /** The line is what one of the first k steps has logged. */
  ghost predicate Logged(steps: seq<Step>, k: nat, line: Line) {
    exists j {:trigger steps[j]} ::
      0 <= j < k <= |steps| && steps[j].Log? && line == Queued(steps[j].path, steps[j].text)
  }

  ghost predicate AllLogged(s: Sys, steps: seq<Step>, k: nat) {
    && (forall t :: t in s.calls ==> Logged(steps, k, s.calls[t].line))
    && (forall i :: 0 <= i < |s.h.accepted| ==> Logged(steps, k, s.h.accepted[i]))
  }

  lemma LoggedLonger(steps: seq<Step>, k: nat, next: nat, s: Sys)
    requires k < |steps| && next == k + 1 && AllLogged(s, steps, k)
    ensures AllLogged(s, steps, next)
  {
    forall t | t in s.calls ensures Logged(steps, next, s.calls[t].line) {
      assert Logged(steps, k, s.calls[t].line);
    }
    forall i | 0 <= i < |s.h.accepted| ensures Logged(steps, next, s.h.accepted[i]) {
      assert Logged(steps, k, s.h.accepted[i]);
    }
  }

  lemma NextAccepted(s: Sys, step: Step)
    requires Enabled(s, step)
    ensures || Next(s, step).h.accepted == s.h.accepted
            || (step.Enqueue? && step.thread in s.calls
                && Next(s, step).h.accepted == s.h.accepted + [s.calls[step.thread].line])
  {
    hide WriteOut, Appended;
  }

  lemma NextCalls(s: Sys, step: Step, t: int)
    requires Enabled(s, step) && t in Next(s, step).calls
    ensures || (t in s.calls && Next(s, step).calls[t].line == s.calls[t].line)
            || (step.Log? && Next(s, step).calls[t].line == Queued(step.path, step.text))
  {
    hide WriteOut, Appended, Queued;
  }

  lemma StepKeepsLogged(s: Sys, steps: seq<Step>, k: nat)
    requires 0 < k <= |steps| && AllLogged(s, steps, k) && Enabled(s, steps[k - 1])
    ensures AllLogged(Next(s, steps[k - 1]), steps, k)
  {
    hide Next, Queued, Enabled;
    var step, s' := steps[k - 1], Next(s, steps[k - 1]);
    NextAccepted(s, step);
    forall i | 0 <= i < |s'.h.accepted| ensures Logged(steps, k, s'.h.accepted[i]) {
      if i < |s.h.accepted| {
        assert s'.h.accepted[i] == s.h.accepted[i];
      }
    }
    forall t | t in s'.calls ensures Logged(steps, k, s'.calls[t].line) {
      NextCalls(s, step, t);
    }
  }

  lemma {:induction false} RunKeepsLogged(states: seq<Sys>, steps: seq<Step>, k: nat)
    requires IsRun(states, steps) && k <= |steps|
    ensures AllLogged(states[k], steps, k)
  {
    hide AllLogged, Next;
    if k == 0 {
      NothingLogged(steps);
    } else {
      RunKeepsLogged(states, steps, k - 1);
      LoggedLonger(steps, k - 1, k, states[k - 1]);
      StepKeepsLogged(states[k - 1], steps, k);
    }
  }

  lemma NothingLogged(steps: seq<Step>)
    ensures AllLogged(Initial, steps, 0)
  {
  }

  /** Every line accepted was logged: a step of the run gave its path and its text, each cut to the slot. */
  lemma AcceptedWasLogged(states: seq<Sys>, steps: seq<Step>, k: nat, i: nat)
    requires IsRun(states, steps) && k <= |steps| && i < |states[k].h.accepted|
    ensures exists j {:trigger steps[j]} :: 0 <= j < k && steps[j].Log? &&
              states[k].h.accepted[i].path == (if |steps[j].path| < 260 then steps[j].path else steps[j].path[..259]) &&
              states[k].h.accepted[i].text == (if |steps[j].text| < 4096 then steps[j].text else steps[j].text[..4095])
  {
    hide Queued;
    RunKeepsLogged(states, steps, k);
    var line := states[k].h.accepted[i];
    assert Logged(steps, k, line);
    var j {:trigger steps[j]} :| 0 <= j < k <= |steps| && steps[j].Log? && line == Queued(steps[j].path, steps[j].text);
    QueuedIsGiven(steps[j].path, steps[j].text);
  }

  // ---------- One thread that logs and shuts down ----------

  /** No thread logs while a shutdown is under way, and none is in the middle of it when one begins. */
  predicate Orderly(s: Sys, step: Step) {
    && (step.Log? || step.Start? || step.Enqueue? ==> s.shutdown.Idle?)
    && (step.BeginShutdown? ==> s.calls == map[])
  }

  /** Between shutdowns there is a writer whenever the running flag says so. */
  predicate Manned(s: Sys) {
    && (s.shutdown.Idle? || s.shutdown.Passed? ==> (s.running <==> s.writers != []))
    && (s.shutdown.Joining? || s.shutdown.Joined? ==> s.h.manned)
    && (s.shutdown.Cleared? ==> !s.running)
    && (s.writers == [] ==> s.ring == [])
    && (forall t :: t in s.calls && s.calls[t].Granted? ==> s.running && s.shutdown.Idle?)
    && (!s.shutdown.Idle? ==> s.calls == map[])
  }

  lemma StepKeepsManned(s: Sys, step: Step)
    requires Inv(s) && Manned(s) && Enabled(s, step) && Orderly(s, step)
    ensures Manned(Next(s, step))
  {
    hide Conserved, FilesOk, CountsOk, WriterOk, WriteOut, Appended, Queued;
  }

  lemma {:induction false} RunKeepsManned(states: seq<Sys>, steps: seq<Step>, k: nat)
    requires IsRun(states, steps) && k < |states|
    requires forall j {:trigger steps[j]} :: 0 <= j < k ==> Orderly(states[j], steps[j])
    ensures Manned(states[k])
  {
    if k > 0 {
      RunKeepsManned(states, steps, k - 1);
      RunKeepsInv(states, steps, k - 1);
      StepKeepsManned(states[k - 1], steps[k - 1]);
    }
  }

  /** With a single thread that logs and shuts down, a shutdown leaves nothing behind, and outside of
      one no line waits without a writer. */
  lemma OrderlyShutdownDrains(states: seq<Sys>, steps: seq<Step>, k: nat)
    requires IsRun(states, steps) && k < |states|
    requires forall j {:trigger steps[j]} :: 0 <= j < k ==> Orderly(states[j], steps[j])
    ensures states[k].ring != [] ==> states[k].writers != []
    ensures states[k].shutdown.Joined? || states[k].shutdown.Cleared? ==>
              states[k].ring == [] && Lines(states[k].h.processed) == states[k].h.accepted
  {
    RunKeepsManned(states, steps, k);
    RunKeepsInv(states, steps, k);
  }

  // ---------- A second thread can strand lines ----------

  ghost predicate Reachable(s: Sys) {
    exists states: seq<Sys>, steps: seq<Step> :: IsRun(states, steps) && states[|steps|] == s
  }

  lemma ReachNext(s: Sys, step: Step)
    requires Reachable(s) && Enabled(s, step)
    ensures Reachable(Next(s, step))
  {
    var states: seq<Sys>, steps: seq<Step> :| IsRun(states, steps) && states[|steps|] == s;
    var states', steps' := states + [Next(s, step)], steps + [step];
    forall k {:trigger steps'[k]} | 0 <= k < |steps'|
      ensures Enabled(states'[k], steps'[k]) && states'[k + 1] == Next(states'[k], steps'[k])
    {
      if k < |steps| {
        assert steps'[k] == steps[k] && states'[k] == states[k] && states'[k + 1] == states[k + 1];
      }
    }
    assert IsRun(states', steps') && states'[|steps'|] == Next(s, step);
  }

  /** The running flag is up and there is no writer. */
  predicate Unserved(s: Sys) {
    s.running && s.writers == []
  }

  lemma Started() returns (s: Sys)
    ensures Reachable(s) && s.running && !s.stop && s.shutdown.Idle? && s.writers == [NewWriter] && s.ring == []
            && 2 !in s.calls
  {
    var none: seq<Step> := [];
    assert IsRun([Initial], none) && [Initial][|none|] == Initial;
    s := Next(Initial, Log(1, "a", "x"));
    ReachNext(Initial, Log(1, "a", "x"));
    ReachNext(s, Start(1, true));
    s := Next(s, Start(1, true));
    assert s.writers == [NewWriter];
  }

  /** A line logged between the fall of the running flag and the fall of the stop flag starts a writer
      that ends at once: the flag then promises a writer that does not exist. */
  lemma WriterCanBeStranded()
    ensures exists s :: Reachable(s) && Unserved(s) && s.shutdown.Idle? && s.ring != []
  {
    var s2 := Started();
    var s3 := Next(s2, BeginShutdown);
    ReachNext(s2, BeginShutdown);
    var s4 := Next(s3, RaiseStop);
    ReachNext(s3, RaiseStop);
    var s5 := Next(s4, Exit(0));
    ReachNext(s4, Exit(0));
    assert s5.writers == [];
    var s6 := Next(s5, Join);
    ReachNext(s5, Join);
    var s7 := Next(s6, ClearRunning);
    ReachNext(s6, ClearRunning);
    StrandedFrom(s7);
  }

  lemma StrandedFrom(s7: Sys)
    requires Reachable(s7) && s7.shutdown.Cleared? && !s7.running && s7.stop && s7.writers == [] && s7.ring == []
             && 2 !in s7.calls
    ensures exists s :: Reachable(s) && Unserved(s) && s.shutdown.Idle? && s.ring != []
  {
    var s8 := Next(s7, Log(2, "a", "y"));
    ReachNext(s7, Log(2, "a", "y"));
    var s9 := Next(s8, Start(2, true));
    ReachNext(s8, Start(2, true));
    assert s9.writers == [NewWriter];
    var s10 := Next(s9, Exit(0));
    ReachNext(s9, Exit(0));
    assert s10.writers == [];
    var s11 := Next(s10, ClearStop);
    ReachNext(s10, ClearStop);
    var s12 := Next(s11, Enqueue(2));
    ReachNext(s11, Enqueue(2));
    assert Unserved(s12);
  }

  /** From then on nothing leaves the ring until another shutdown takes the flag down. */
  lemma StrandedLinesWait(s: Sys, step: Step)
    requires Unserved(s) && Enabled(s, step) && !step.ClearRunning?
    ensures Unserved(Next(s, step)) && s.ring <= Next(s, step).ring
  {
  }

  /** A writer has ended at step j, and the running flag has not fallen between then and state k. */
  predicate EndedAt(steps: seq<Step>, j: int, k: nat)
    requires k <= |steps|
  {
    0 <= j < k && steps[j].Exit? && forall m {:trigger steps[m]} :: j < m < k ==> !steps[m].ClearRunning?
  }

  lemma UnservedStep(s: Sys, step: Step)
    requires FlagsOk(s) && Enabled(s, step)
    ensures Unserved(Next(s, step)) <==> step.Exit? || (Unserved(s) && !step.ClearRunning?)
  {
    hide WriteOut, Appended;
  }

  lemma EndedNext(steps: seq<Step>, k: nat, next: nat)
    requires k < |steps| && next == k + 1
    ensures (exists j :: EndedAt(steps, j, next))
       <==> steps[k].Exit? || ((exists j :: EndedAt(steps, j, k)) && !steps[k].ClearRunning?)
  {
    if steps[k].Exit? {
      assert EndedAt(steps, k, next);
    } else if j :| EndedAt(steps, j, next) {
      assert EndedAt(steps, j, k);
    } else if j :| EndedAt(steps, j, k) {
      assert !EndedAt(steps, j, next);
    }
  }

  lemma UnservedFirst(steps: seq<Step>)
    ensures !Unserved(Initial) && !exists j :: EndedAt(steps, j, 0)
  {
  }

  lemma {:induction false} UnservedSince(states: seq<Sys>, steps: seq<Step>, k: nat)
    requires IsRun(states, steps) && k < |states|
    ensures Unserved(states[k]) <==> exists j :: EndedAt(steps, j, k)
  {
    hide Inv, Next, Enabled, EndedAt, Unserved;
    if k == 0 {
      UnservedFirst(steps);
    } else {
      UnservedSince(states, steps, k - 1);
      RunKeepsInv(states, steps, k - 1);
      UnservedStep(states[k - 1], steps[k - 1]);
      EndedNext(steps, k - 1, k);
    }
  }

  lemma ExitStops(s: Sys, step: Step)
    requires FlagsOk(s) && Enabled(s, step)
    ensures step.Exit? && !s.shutdown.Cleared? ==> Next(s, step).shutdown.Joining?
    ensures s.shutdown.Joining? && !step.ClearRunning? ==>
              Next(s, step).shutdown.Joining? || Next(s, step).shutdown.Joined?
    ensures s.shutdown.Joined? && !step.ClearRunning? ==> Next(s, step).shutdown.Joined?
  {
  }

  /** After the end of the writer that a shutdown waits for, the shutdown is not over before the flag falls. */
  lemma {:induction false} JoinsUntilFall(states: seq<Sys>, steps: seq<Step>, j: nat, k: nat)
    requires IsRun(states, steps) && k <= |steps| && EndedAt(steps, j, k) && !states[j].shutdown.Cleared?
    ensures states[k].shutdown.Joining? || states[k].shutdown.Joined?
    decreases k
  {
    hide Next, Enabled, Conserved, CountsOk, DrainOk, FilesOk;
    var step := steps[k - 1];
    RunKeepsInv(states, steps, k - 1);
    ExitStops(states[k - 1], step);
    if j < k - 1 {
      JoinsUntilFall(states, steps, j, k - 1);
    }
  }

  /** When the flag promises a writer that does not exist, outside of a shutdown: exactly if a writer has
      ended between the falls of the two flags, and the running flag has not fallen since. */
  lemma UnservedExactly(states: seq<Sys>, steps: seq<Step>, k: nat)
    requires IsRun(states, steps) && k < |states| && states[k].shutdown.Idle?
    ensures Unserved(states[k]) <==> exists j :: EndedAt(steps, j, k) && states[j].shutdown.Cleared?
  {
    hide Unserved;
    UnservedSince(states, steps, k);
    if j :| EndedAt(steps, j, k) && !states[j].shutdown.Cleared? {
      JoinsUntilFall(states, steps, j, k);
    }
  }
}
