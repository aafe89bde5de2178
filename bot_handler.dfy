/**
 * bot_handler.py's `BotHandler` (and its copy in checker_solid.py): the
 * Telegram commands and the polling loop they control.
 *
 * The handler keeps the `stop` flag and the task handle `check_loop_task`.
 * Every `check_loop` coroutine it has spawned is a `LoopTask` in `tasks`,
 * indexed by spawn order; `loopTask` is the index stored in
 * `check_loop_task` (None before the first `/start`). Time is the abstract
 * clock `now`, and every call of `get_numbers` made by a loop is logged.
 *
 * A loop runs by `Step`s. Its first step is the start of `check_loop`
 * (`self.stop = False`, then the first test of the `while`); each later step
 * is the end of its sleep and the next test of the `while`.
 */
module BotHandler {
  import opened Http
  import opened Outbox
  import opened Schedule
  import NumberChecker
  import SolidChecker

  /** The checker the handler drives: number_checker.py (from bot_handler.py) or the copy in checker_solid.py. */
  datatype Backend = Modular | Solid

  /** One call of the backend's `get_numbers`. */
  function CheckOf(b: Backend, f: Transport<Body>): Report {
    match b
    case Modular => NumberChecker.Numbers(f)
    case Solid => SolidChecker.Numbers(f)
  }

  /** What one call of the backend's `get_balance` sends. */
  function BalanceOf(b: Backend, f: Transport<string>): seq<Msg> {
    match b
    case Modular => NumberChecker.BalanceSent(f)
    case Solid => SolidChecker.BalanceSent(f)
  }

  /** An asyncio task's life: created, past its first step, returned or raised, cancelled. */
  datatype Status = Pending | Running | Finished | Cancelled

  /** `Task.done()`. */
  predicate Done(s: Status) {
    s == Finished || s == Cancelled
  }

  /** Which coroutine spawned a loop: `start_command`, which keeps the handle, or `on_startup`, which drops it. */
  datatype Origin = FromStart | FromStartup

  /** A `check_loop` task and the time at which it next wakes. */
  datatype LoopTask = LoopTask(status: Status, origin: Origin, wakeAt: nat)

  /** A loop after one check: an exception ends the task, a result puts it to sleep. */
  function AfterCheck(t: LoopTask, now: nat, exit: Exit): LoopTask {
    match exit
    case Raised => t.(status := Finished)
    case Returned(found) => t.(status := Running, wakeAt := now + Gap(found))
  }

  /** `Task.cancel()`: no effect on a task that is already done. */
  function Cancel(t: LoopTask): LoopTask {
    if Done(t.status) then t else t.(status := Cancelled)
  }

  /** The loops after `/stop`: the one the handle names is cancelled, the others are untouched. */
  function Stopped(handle: Option<nat>, tasks: seq<LoopTask>): seq<LoopTask> {
    if handle.Some? && handle.value < |tasks| then tasks[handle.value := Cancel(tasks[handle.value])] else tasks
  }

  /** The handle names a loop spawned by `/start`, and every other loop spawned by `/start` is done. */
  ghost predicate OneTracked(handle: Option<nat>, tasks: seq<LoopTask>) {
    && (handle.Some? ==> handle.value < |tasks| && tasks[handle.value].origin == FromStart)
    && (forall i :: 0 <= i < |tasks| && tasks[i].origin == FromStart && handle != Some(i) ==> Done(tasks[i].status))
  }

  /** The log refers to existing loops, lies in the past and is in clock order. */
  ghost predicate LogFits(tasks: seq<LoopTask>, now: nat, log: seq<Check>) {
    && (forall i :: 0 <= i < |log| ==> log[i].task < |tasks| && log[i].at <= now)
    && Chronological(log)
  }

  /**
   * A loop whose check returned sleeps at least the gap that result calls
   * for; a loop whose check raised is finished.
   */
  ghost predicate Sleeping(tasks: seq<LoopTask>, log: seq<Check>)
    requires forall i :: 0 <= i < |log| ==> log[i].task < |tasks|
  {
    && (forall i :: 0 <= i < |log| && log[i].exit.Returned? ==>
          log[i].at + Gap(log[i].exit.found) <= tasks[log[i].task].wakeAt)
    && (forall i :: 0 <= i < |log| && log[i].exit.Raised? ==> tasks[log[i].task].status == Finished)
  }

  /** The handler's invariant, on the values of its fields. */
  ghost predicate Consistent(handle: Option<nat>, tasks: seq<LoopTask>, now: nat, log: seq<Check>) {
    && OneTracked(handle, tasks)
    && LogFits(tasks, now, log)
    && Sleeping(tasks, log)
    && Spaced(log)
  }

  /** A handler with no loop and an empty log is consistent. */
  lemma InitiallyConsistent()
    ensures Consistent(None, [], 0, [])
  {
  }

  /** A new loop from `/start`, when the handle is free, keeps the invariant. */
  lemma StartKeeps(handle: Option<nat>, tasks: seq<LoopTask>, now: nat, log: seq<Check>)
    requires Consistent(handle, tasks, now, log)
    requires handle.None? || Done(tasks[handle.value].status)
    ensures Consistent(Some(|tasks|), tasks + [LoopTask(Pending, FromStart, now)], now, log)
  {
  }

  /**
   * After `/stop`, every loop spawned by `/start` is done, so none of them
   * steps, and none checks, again; loops from `on_startup` are not touched.
   */
  lemma StopEndsStartedLoops(handle: Option<nat>, tasks: seq<LoopTask>)
    requires OneTracked(handle, tasks)
    ensures |Stopped(handle, tasks)| == |tasks|
    ensures forall i :: 0 <= i < |tasks| && tasks[i].origin == FromStart ==> Done(Stopped(handle, tasks)[i].status)
    ensures forall i :: 0 <= i < |tasks| && tasks[i].origin == FromStartup ==> Stopped(handle, tasks)[i] == tasks[i]
  {
  }

  /** A new loop from `on_startup` keeps the invariant. */
  lemma StartupKeeps(handle: Option<nat>, tasks: seq<LoopTask>, now: nat, log: seq<Check>)
    requires Consistent(handle, tasks, now, log)
    ensures Consistent(handle, tasks + [LoopTask(Pending, FromStartup, now)], now, log)
  {
  }

  /** Cancelling the tracked loop keeps the invariant. */
  lemma CancelKeeps(handle: Option<nat>, tasks: seq<LoopTask>, now: nat, log: seq<Check>)
    requires Consistent(handle, tasks, now, log) && handle.Some?
    ensures Consistent(handle, tasks[handle.value := Cancel(tasks[handle.value])], now, log)
  {
  }

  /** The clock moving forward keeps the invariant. */
  lemma LaterKeeps(handle: Option<nat>, tasks: seq<LoopTask>, now: nat, later: nat, log: seq<Check>)
    requires Consistent(handle, tasks, now, log) && now <= later
    ensures Consistent(handle, tasks, later, log)
  {
  }

  /** A loop leaving its `while` keeps the invariant. */
  lemma FinishKeeps(handle: Option<nat>, tasks: seq<LoopTask>, now: nat, log: seq<Check>, id: nat)
    requires Consistent(handle, tasks, now, log) && id < |tasks|
    ensures Consistent(handle, tasks[id := tasks[id].(status := Finished)], now, log)
  {
  }

  /**
   * A check by a live loop whose sleep is over keeps the invariant; in
   * particular it keeps the log spaced.
   */
  lemma CheckKeeps(handle: Option<nat>, tasks: seq<LoopTask>, now: nat, log: seq<Check>, id: nat, exit: Exit)
    requires Consistent(handle, tasks, now, log)
    requires id < |tasks| && !Done(tasks[id].status) && tasks[id].wakeAt <= now
    ensures Consistent(handle, tasks[id := AfterCheck(tasks[id], now, exit)], now, log + [Check(id, now, exit)])
  {
    var log' := log + [Check(id, now, exit)];
    forall i, j | 0 <= i < j < |log'| && log'[i].task == log'[j].task
      ensures log'[i].exit.Returned? && log'[i].at + Gap(log'[i].exit.found) <= log'[j].at
    {
      if j == |log| {
        assert log'[i] == log[i];
      }
    }
  }

  class Handler {
    const backend: Backend
    const chat: Chat
    var stop: bool
    var loopTask: Option<nat>
    var tasks: seq<LoopTask>
    var now: nat
    var log: seq<Check>

    /** The invariant `Consistent` holds of the handler's fields. */
    ghost predicate Valid()
      reads this
    {
      Consistent(loopTask, tasks, now, log)
    }

    /** `__init__`: not stopped, no loop yet. */
    constructor (backend: Backend, chat: Chat)
      ensures Consistent(loopTask, tasks, now, log) && Valid()
      ensures this.backend == backend && this.chat == chat
      ensures !stop && loopTask == None && tasks == [] && now == 0 && log == []
    {
      this.backend := backend;
      this.chat := chat;
      stop := false;
      loopTask := None;
      tasks := [];
      now := 0;
      log := [];
      new;
      InitiallyConsistent();
    }

    /** Time passes with no loop waking. */
    method Elapse(d: nat)
      requires Valid()
      modifies this
      ensures Valid()
      ensures now == old(now) + d
      ensures stop == old(stop) && loopTask == old(loopTask) && tasks == old(tasks) && log == old(log)
    {
      LaterKeeps(loopTask, tasks, now, now + d, log);
      now := now + d;
    }

    /**
     * `/start`: spawns a loop only when there is no handle or its task is
     * done; afterwards the handle names a loop that is not done.
     */
    method StartCommand()
      requires Valid()
      modifies this
      ensures Valid()
      ensures var idle := old(loopTask).None? || Done(old(tasks)[old(loopTask).value].status);
        && (idle ==> tasks == old(tasks) + [LoopTask(Pending, FromStart, now)] && loopTask == Some(|old(tasks)|))
        && (!idle ==> tasks == old(tasks) && loopTask == old(loopTask))
      ensures loopTask.Some? && !Done(tasks[loopTask.value].status)
      ensures stop == old(stop) && now == old(now) && log == old(log)
    {
      if loopTask.None? || Done(tasks[loopTask.value].status) {
        StartKeeps(loopTask, tasks, now, log);
        loopTask := Some(|tasks|);
        tasks := tasks + [LoopTask(Pending, FromStart, now)];
      }
    }

    /**
     * `/stop`: sets the flag and cancels the loop the handle names, and no
     * other; afterwards no loop spawned by `/start` can step again.
     */
    method StopCommand()
      requires Valid()
      modifies this
      ensures Valid()
      ensures stop
      ensures tasks == Stopped(old(loopTask), old(tasks))
      ensures forall i :: 0 <= i < |tasks| && tasks[i].origin == FromStart ==> Done(tasks[i].status)
      ensures loopTask == old(loopTask) && now == old(now) && log == old(log)
    {
      StopEndsStartedLoops(loopTask, tasks);
      stop := true;
      if loopTask.Some? {
        CancelKeeps(loopTask, tasks, now, log);
        var id := loopTask.value;
        tasks := tasks[id := Cancel(tasks[id])];
      }
    }

    /** `on_startup`: spawns a loop and keeps no handle to it. */
    method OnStartup()
      requires Valid()
      modifies this
      ensures Valid()
      ensures tasks == old(tasks) + [LoopTask(Pending, FromStartup, now)]
      ensures stop == old(stop) && loopTask == old(loopTask) && now == old(now) && log == old(log)
    {
      StartupKeeps(loopTask, tasks, now, log);
      tasks := tasks + [LoopTask(Pending, FromStartup, now)];
    }

    /**
     * One step of loop `id`, once its sleep is over: a loop entering
     * `check_loop` clears the flag; then, if the flag is set, the loop ends
     * without checking; otherwise it calls `get_numbers` once, and either
     * sleeps the gap the result calls for or, when the call raised, ends.
     */
    method Step(id: nat, f: Transport<Body>)
      requires Valid() && id < |tasks| && !Done(tasks[id].status)
      modifies this, chat
      ensures Valid()
      ensures now == Max(old(now), old(tasks[id].wakeAt))
      ensures stop == (old(stop) && old(tasks[id].status) != Pending)
      ensures loopTask == old(loopTask)
      ensures stop ==>
                && tasks == old(tasks)[id := old(tasks[id]).(status := Finished)]
                && log == old(log) && chat.sent == old(chat.sent)
      ensures !stop ==>
                && log == old(log) + [Check(id, now, CheckOf(backend, f).exit)]
                && chat.sent == old(chat.sent) + CheckOf(backend, f).sent
                && tasks == old(tasks)[id := AfterCheck(old(tasks[id]), now, CheckOf(backend, f).exit)]
    {
      var t := tasks[id];
      LaterKeeps(loopTask, tasks, now, Max(now, t.wakeAt), log);
      now := Max(now, t.wakeAt);
      if t.status == Pending {
        stop := false;
      }
      if stop {
        FinishKeeps(loopTask, tasks, now, log, id);
        tasks := tasks[id := t.(status := Finished)];
      } else {
        var exit := Poll(f);
        CheckKeeps(loopTask, tasks, now, log, id, exit);
        log := log + [Check(id, now, exit)];
        tasks := tasks[id := AfterCheck(t, now, exit)];
      }
    }

    /** `self.number_checker.get_numbers(self.bot)`: one call of the backend's check. */
    method Poll(f: Transport<Body>) returns (exit: Exit)
      modifies chat
      ensures exit == CheckOf(backend, f).exit
      ensures chat.sent == old(chat.sent) + CheckOf(backend, f).sent
    {
      match backend {
        case Modular =>
          var found := NumberChecker.GetNumbers(f, chat);
          exit := Returned(found);
        case Solid =>
          exit := SolidChecker.GetNumbers(f, chat);
      }
    }

    /** `/check`: one call of `get_numbers`, outside any loop; the handler's state is untouched. */
    method CheckCommand(f: Transport<Body>)
      modifies chat
      ensures chat.sent == old(chat.sent) + CheckOf(backend, f).sent
    {
      var exit := Poll(f);
    }

    /** `/balance`: one call of `get_balance`; the handler's state is untouched. */
    method BalanceCommand(f: Transport<string>)
      modifies chat
      ensures chat.sent == old(chat.sent) + BalanceOf(backend, f)
    {
      match backend {
        case Modular => NumberChecker.GetBalance(f, chat);
        case Solid => SolidChecker.GetBalance(f, chat);
      }
    }
  }

  /** At most one loop spawned by `/start` is alive at any time. */
  lemma AtMostOneStartedLoop(h: Handler)
    requires h.Valid()
    ensures forall i, j :: 0 <= i < j < |h.tasks| && h.tasks[i].origin == FromStart && h.tasks[j].origin == FromStart ==>
              Done(h.tasks[i].status) || Done(h.tasks[j].status)
  {
  }

  /**
   * Checks by the same loop are at least 600 s apart, and at least 2400 s
   * after one that found numbers.
   */
  lemma ChecksOfOneLoopAreSpaced(h: Handler, i: int, j: int)
    requires h.Valid() && 0 <= i < j < |h.log| && h.log[i].task == h.log[j].task
    ensures h.log[i].exit.Returned?
    ensures h.log[i].at + Interval <= h.log[j].at
    ensures h.log[i].exit.found ==> h.log[i].at + Backoff + Interval <= h.log[j].at
  {
  }

  /**
   * The `on_startup` loop enters `check_loop` and checks before any command
   * arrives; then `/start` spawns a tracked loop and `/stop` sets the flag
   * and cancels only that one.
   */
  method StartupThenStartStop(chat: Chat, f: Transport<Body>) returns (h: Handler)
    modifies chat
    ensures fresh(h) && h.Valid() && h.backend == Modular && h.chat == chat
    ensures |h.tasks| == 2 && h.loopTask == Some(1)
    ensures h.tasks[0].origin == FromStartup && h.tasks[0].status == Running
    ensures h.tasks[1].status == Cancelled
    ensures h.stop && |h.log| == 1 && h.log[0].task == 0
  {
    h := new Handler(Modular, chat);
    h.OnStartup();
    h.Step(0, f);
    h.StartCommand();
    h.StopCommand();
  }

  /** `/stop` cannot cancel the `on_startup` loop, but the flag ends it at its next wake, with no further check. */
  method StopEndsStartupLoopAtWake(chat: Chat, f: Transport<Body>, g: Transport<Body>) returns (h: Handler)
    modifies chat
    ensures h.Valid() && |h.tasks| == 2
    ensures h.tasks[0].origin == FromStartup && h.tasks[0].status == Finished
    ensures h.tasks[1].status == Cancelled
    ensures h.stop && |h.log| == 1 && h.log[0].task == 0
  {
    h := StartupThenStartStop(chat, f);
    h.Step(0, g);
  }

  /**
   * When `/start` follows `/stop` before the `on_startup` loop wakes, the new
   * loop clears the flag, so the `on_startup` loop, which `/stop` could not
   * cancel, polls on beside it: two loops check.
   */
  method RestartRevivesStartupLoop(chat: Chat, f: Transport<Body>, g: Transport<Body>, k: Transport<Body>) returns (h: Handler)
    modifies chat
    ensures h.Valid() && |h.tasks| == 3 && h.loopTask == Some(2)
    ensures h.tasks[0].origin == FromStartup && !Done(h.tasks[0].status)
    ensures h.tasks[1].status == Cancelled && !Done(h.tasks[2].status)
    ensures !h.stop && |h.log| == 3
    ensures h.log[0].task == 0 && h.log[1].task == 2 && h.log[2].task == 0
  {
    h := StartupThenStartStop(chat, f);
    h.StartCommand();
    h.Step(2, g);
    h.Step(0, k);
  }

  /**
   * After `/stop` has ended the loop, `/start` spawns a new one, which clears
   * the flag and polls again.
   */
  method RestartAfterStop(chat: Chat, f: Transport<Body>, g: Transport<Body>) returns (h: Handler)
    modifies chat
    ensures h.Valid() && |h.tasks| == 2 && h.loopTask == Some(1)
    ensures h.tasks[0].status == Cancelled
    ensures !h.stop && |h.log| == 2 && h.log[0].task == 0 && h.log[1].task == 1
  {
    h := new Handler(Modular, chat);
    h.StartCommand();
    h.Step(0, f);
    h.StopCommand();
    h.StartCommand();
    h.Step(1, g);
  }

  /** A second `/start` while the loop is alive spawns nothing. */
  method StartTwiceKeepsOneLoop(chat: Chat) returns (h: Handler)
    ensures h.Valid() && |h.tasks| == 1 && h.loopTask == Some(0)
  {
    h := new Handler(Modular, chat);
    h.StartCommand();
    h.StartCommand();
  }
}
