/**
 * The backend's `PomodoroTimer`: one mutable timer whose methods update its
 * fields in place and append rows to the session store. Each method is tied to
 * the pure transition of the same name in `PomodoroSpec`, whose properties
 * are proved in `PomodoroProperties`.
 */
module TomatobarBackend {
  import opened PomodoroSpec
  import PomodoroProperties

  class PomodoroTimer {
    const config: Config

    var currentState: Phase
    var timeRemaining: nat
    var pomodorosCompleted: nat
    var sessionStart: Option<int>
    var pausedState: Option<Phase>
    var pausedTimeRemaining: nat

    /** The rows of the sessions table, oldest first. */
    var sessions: seq<SessionRecord>

    /** The timer's fields as a snapshot. */
    function Current(): Snapshot
      reads this
    {
      Snapshot(currentState, timeRemaining, pomodorosCompleted, sessionStart, pausedState, pausedTimeRemaining)
    }

    ghost predicate Valid()
      reads this
    {
      Inv(Current())
    }

    /** `__init__`, with the configuration given instead of loaded from disk. */
    constructor (workMin: nat, shortMin: nat, longMin: nat, pomodorosBeforeLongBreak: Positive)
      ensures config == Config(workMin, shortMin, longMin, pomodorosBeforeLongBreak)
      ensures Current() == Initial() && sessions == []
      ensures Valid()
    {
      config := Config(workMin, shortMin, longMin, pomodorosBeforeLongBreak);
      currentState := Idle;
      timeRemaining := 0;
      pomodorosCompleted := 0;
      sessionStart := None;
      pausedState := None;
      pausedTimeRemaining := 0;
      sessions := [];
    }

    /** `_log_session`: append the row for the current phase, if any. */
    method LogSession(completed: bool, now: int)
      modifies this`sessions
      ensures sessions == old(sessions) + PomodoroSpec.LogSession(Current(), now, completed)
    {
      if sessionStart.None? {
        return;
      }
      var state := if currentState == Paused then pausedState else Some(currentState);
      if state.Some? {
        var kind := SessionOf(state.value);
        if kind.Some? {
          var start := sessionStart.value;
          sessions := sessions + [SessionRecord(start, now, kind.value, completed, now - start, pomodorosCompleted)];
        }
      }
    }

    /** `_start_work_session`. */
    method StartWorkSession(now: int)
      modifies this`currentState, this`timeRemaining, this`sessionStart
      ensures Current() == PomodoroSpec.StartWorkSession(config, old(Current()), now)
    {
      currentState := Work;
      timeRemaining := config.workMin * 60;
      sessionStart := Some(now);
    }

    /** `_start_break(is_long_break)`. */
    method StartBreak(isLong: bool, now: int)
      modifies this`currentState, this`timeRemaining, this`sessionStart
      ensures Current() == PomodoroSpec.StartBreak(config, old(Current()), isLong, now)
    {
      if isLong {
        currentState := LongBreak;
        timeRemaining := config.longMin * 60;
      } else {
        currentState := ShortBreak;
        timeRemaining := config.shortMin * 60;
      }
      sessionStart := Some(now);
    }

    /** `_pause`. */
    method Pause(now: int)
      modifies this
      ensures var o := PomodoroSpec.Pause(old(Current()), now);
        Current() == o.next && sessions == old(sessions) + o.records
    {
      if currentState != Paused {
        pausedState := Some(currentState);
        pausedTimeRemaining := timeRemaining;
        currentState := Paused;
        LogSession(false, now);
      }
    }

    /** `_resume`. */
    method Resume(now: int)
      modifies this`currentState, this`timeRemaining, this`sessionStart
      ensures Current() == PomodoroSpec.Resume(old(Current()), now)
    {
      if currentState == Paused && pausedState.Some? {
        currentState := pausedState.value;
        timeRemaining := pausedTimeRemaining;
        sessionStart := Some(now);
      }
    }

    /** `_complete_work_session(was_skipped)`. */
    method CompleteWorkSession(wasSkipped: bool, now: int)
      modifies this
      ensures var o := PomodoroSpec.CompleteWorkSession(config, old(Current()), now, wasSkipped);
        Current() == o.next && sessions == old(sessions) + o.records
    {
      LogSession(!wasSkipped, now);
      pomodorosCompleted := pomodorosCompleted + 1;
      StartBreak(pomodorosCompleted % config.cycleLength == 0, now);
    }

    /** `_complete_break_session(was_skipped)`. */
    method CompleteBreakSession(wasSkipped: bool, now: int)
      modifies this
      ensures var o := PomodoroSpec.CompleteBreakSession(config, old(Current()), now, wasSkipped);
        Current() == o.next && sessions == old(sessions) + o.records
    {
      LogSession(!wasSkipped, now);
      StartWorkSession(now);
    }

    /** `_skip_current_phase`. */
    method SkipCurrentPhase(now: int)
      modifies this
      ensures var o := PomodoroSpec.SkipCurrentPhase(config, old(Current()), now);
        Current() == o.next && sessions == old(sessions) + o.records
    {
      LogSession(false, now);
      if currentState == Work {
        CompleteWorkSession(true, now);
      } else {
        StartWorkSession(now);
      }
    }

    /** `_reset`. */
    method Reset(now: int)
      modifies this
      ensures var o := PomodoroSpec.Reset(old(Current()), now);
        Current() == o.next && sessions == old(sessions) + o.records
    {
      if currentState != Idle {
        LogSession(false, now);
      }
      currentState := Idle;
      timeRemaining := 0;
      sessionStart := None;
    }

    /** `_restart_cycle`. */
    method RestartCycle(now: int)
      modifies this
      ensures var o := PomodoroSpec.RestartCycle(config, old(Current()), now);
        Current() == o.next && sessions == old(sessions) + o.records
    {
      if currentState != Idle {
        LogSession(false, now);
      }
      pomodorosCompleted := 0;
      StartWorkSession(now);
    }

    /** `_process_command`: one command word, applied atomically. */
    method ProcessCommand(command: string, now: int)
      requires Valid()
      modifies this
      ensures Valid()
      ensures var o := PomodoroSpec.ProcessCommand(config, old(Current()), command, now);
        Current() == o.next && sessions == old(sessions) + o.records
    {
      PomodoroProperties.StepPreservesInv(config, Current(), CommandAt(command, now));
      if command == "start" {
        if currentState == Idle {
          StartWorkSession(now);
        } else if currentState == Paused {
          Resume(now);
        }
      } else if command == "pause" {
        if Active(currentState) {
          Pause(now);
        }
      } else if command == "resume" {
        if currentState == Paused {
          Resume(now);
        }
      } else if command == "skip" {
        if Active(currentState) {
          SkipCurrentPhase(now);
        }
      } else if command == "reset" {
        Reset(now);
      } else if command == "restart_cycle" {
        RestartCycle(now);
      }
      // "get_status" republishes the status (see WriteStatus); other words are dropped
    }

    /** One pass of the body of `run`'s loop, one second after the last. */
    method Tick(now: int)
      requires Valid()
      modifies this
      ensures Valid()
      ensures var o := PomodoroSpec.Tick(config, old(Current()), now);
        Current() == o.next && sessions == old(sessions) + o.records
    {
      PomodoroProperties.StepPreservesInv(config, Current(), TickAt(now));
      if Active(currentState) {
        if timeRemaining > 0 {
          timeRemaining := timeRemaining - 1;
        } else if currentState == Work {
          CompleteWorkSession(false, now);
        } else {
          CompleteBreakSession(false, now);
        }
      }
    }

    /** The logging part of `_handle_exit`. */
    method HandleExit(now: int)
      modifies this`sessions
      ensures var o := PomodoroSpec.HandleExit(old(Current()), now);
        Current() == o.next && sessions == old(sessions) + o.records
    {
      if Active(currentState) {
        LogSession(false, now);
      }
    }

    /** The status object `_write_status` publishes; it changes nothing. */
    method WriteStatus() returns (status: Status)
      ensures status == StatusOf(config, Current())
      ensures status.state == StateName(currentState) && status.message == StatusMessage(Current())
      ensures status.timeRemaining == timeRemaining && status.pomodorosCompleted == pomodorosCompleted
      ensures status.totalForLongBreak == config.cycleLength
    {
      var message := StatusMessage(Current());
      status := Status(StateName(currentState), timeRemaining, pomodorosCompleted, config.cycleLength, message);
    }
  }
}
