# tomatobar timer core in Dafny

This project models the core of tomatobar, a Pomodoro timer daemon with a
status-bar widget. It covers two parts.

**The backend's `PomodoroTimer`.** One mutable timer holds five things:
- a phase: IDLE, WORK, SHORT_BREAK, LONG_BREAK or PAUSED;
- the seconds remaining;
- the pomodoros completed in the cycle;
- the session start timestamp;
- the paused phase and its frozen remaining time.

The timer changes in response to command words and to a one-second tick. Each
phase that ends appends a row to the session store. The status object it
publishes carries a human-readable message.

**The widget's `format_status_for_waybar`.** It turns that status object into
the widget's `text`, `alt` and `class` strings.

The model has five modules:
- `Digits` (`digits.dfy`): decimal text as Python's `str(n)` and `f"{n:02d}"` write it.
- `PomodoroSpec` (`pomodoro_spec.dfy`): the timer's fields as a `Snapshot` value. It has one pure function per transition of `PomodoroTimer`. Each function returns the next snapshot and the session rows appended, in the order the backend writes them. It also defines the status object and its message.
- `PomodoroProperties` (`pomodoro_properties.dfy`): lemmas about those transitions. Some cover one call, others runs of ticks and commands. One lemma states the invariant every reachable state keeps.
- `TomatobarBackend` (`pomodoro_timer.dfy`): the class `PomodoroTimer`. Its fields are updated in place by one method per backend method, and `sessions` is the session store as an appended sequence. Each method's `ensures` ties the new fields and the new rows to the matching `PomodoroSpec` transition of the old fields.
- `TomatobarModule` (`tomatobar_module.dfy`): the widget formatter, plus lemmas that link it to the status the backend publishes.

The clock (`int(time.time())`) is the parameter `now` of every operation that
reads it. The configuration is the constructor's parameters:
- the three durations in minutes;
- `pomodoros_before_long_break`, which must be positive because line 409 divides by it.

Each tick and each command is one method call that finishes before the next
begins, applied in arrival order. The daemon itself does not enforce this: its
command listener and its tick loop share the timer without a lock (see
"## Left out").

## Behaviour of the code worth knowing

Some of what `tomatobar_backend.py` does is easy to miss when reading it. Each
point below is stated by the lemma named after it.
- The cycle counter is never reset when a long break starts (lines 399-412). The break is long iff the incremented count is a multiple of `pomodoros_before_long_break`, so the counter grows past that value (`CycleEndKeepsCounter`, `RunCounterGrowsByOne`). Only `restart_cycle` zeroes it.
- `pause` writes an incomplete session row (line 299, `PauseThenResume`).
- `pause` keeps the session start. A `reset` from PAUSED therefore writes a second row that overlaps the first (lines 299 and 330, `PauseThenReset`).
- `skip` writes `completed = false` rows. From WORK it writes two rows for the same work session: one from `_skip_current_phase` (line 316) and one from `_complete_work_session(was_skipped=True)` (line 396). With one clock reading per command the two rows are identical (`SkipWork`).
- `restart_cycle` enters WORK with the full work duration, not IDLE (lines 341-346, `RestartCycleEffect`).
- `start` while PAUSED resumes the paused phase (lines 196-202, `PauseThenResume`).
- The tick that finds zero seconds remaining is the one that ends the phase. A 1500-second work session therefore ends on the 1501st tick after `start` (lines 465-478, `FirstPomodoro`).
- On shutdown only WORK, SHORT_BREAK and LONG_BREAK are logged. A PAUSED phase is not logged (line 451, `HandleExitEffect`).
- Durations are read from the configuration each time a phase starts (lines 272, 281 and 285). There is no per-phase copy of the configured duration. The configuration never changes after start-up, so a phase in progress cannot see a new duration.

## Model

| member | source | states |
|---|---|---|
| Digits.ZeroPad2 | tomatobar_backend.py:233 | `{n:02d}` is all digits, at least two of them (exactly two below 100), with no leading zero beyond the padding, and reads back as `n` |
| Digits.IntToString | tomatobar_module.py:71 | `str(i)` reads back as `i`: digits for `i >= 0`, otherwise a minus sign before the digits of `-i`, in both cases with no leading zero |
| PomodoroProperties.LogSessionRow | tomatobar_backend.py:348-392 | in every reachable state `_log_session` appends exactly one row outside IDLE and none in IDLE. The row runs from the session start to now, its duration is the wall time between them, it carries the current count and it is typed by the phase, or by the paused phase while PAUSED |
| PomodoroProperties.TickWhenStopped | tomatobar_backend.py:464-465 | a tick in IDLE or PAUSED changes no field and writes no row |
| PomodoroProperties.TickCountsDown | tomatobar_backend.py:465-468 | in an active phase with time left, a tick lowers the remaining time by exactly one second, changes nothing else and writes no row |
| PomodoroProperties.TickCompletesWork | tomatobar_backend.py:394-412 | a tick finding WORK at zero writes one completed work row with the count before the increment. It then increments the counter without resetting it, and enters LONG_BREAK (long minutes × 60) iff the new count is a multiple of the cycle length, else SHORT_BREAK (short minutes × 60), starting now. No other field changes |
| PomodoroProperties.TickCompletesBreak | tomatobar_backend.py:414-426 | a tick finding a break at zero writes one completed row of that break type, then enters WORK for the full work duration starting now, with the counter unchanged |
| PomodoroProperties.CycleEndKeepsCounter | tomatobar_backend.py:398-412 | when the count reaches the cycle length the timer enters LONG_BREAK with the counter still at that value, and the row carries the count before it |
| PomodoroProperties.InertCommandsChangeNothing | tomatobar_backend.py:194-219 | these leave the timer and the store unchanged: `get_status`, `start` in an active phase, `pause` or `skip` in IDLE or PAUSED, `resume` outside PAUSED, and any unknown word |
| PomodoroProperties.PauseThenResume | tomatobar_backend.py:291-311 | `pause` writes one incomplete row typed by the paused phase. A following `resume` or `start` restores that phase and the exact remaining time, with the session start set to the resume time |
| PomodoroProperties.PauseThenReset | tomatobar_backend.py:291-336 | after `pause`, `reset` writes a second incomplete row with the same session start as the first and enters IDLE |
| PomodoroProperties.SkipWork | tomatobar_backend.py:313-324 | `skip` in WORK writes the same incomplete work row twice (one clock reading), increments the counter and enters a break by the multiple-of-cycle-length rule, starting now; no other field changes |
| PomodoroProperties.SkipBreak | tomatobar_backend.py:313-324 | `skip` in a break writes exactly one incomplete row of that break and enters WORK for the full work duration |
| PomodoroProperties.ResetEffect | tomatobar_backend.py:326-336 | `reset` ends in IDLE with no time and no session start, keeps the counter, and writes one incomplete row iff the timer was not IDLE. From PAUSED that row is typed by the paused phase |
| PomodoroProperties.RestartCycleEffect | tomatobar_backend.py:338-346 | `restart_cycle` zeroes the counter and ends in WORK with the full work duration starting now. It writes one incomplete row iff the timer was not IDLE |
| PomodoroProperties.HandleExitEffect | tomatobar_backend.py:446-456 | on shutdown, a phase that is counting down gets one incomplete row. IDLE and PAUSED get none. No field changes |
| PomodoroProperties.InitialInv | tomatobar_backend.py:45-50 | the initial fields satisfy the invariant: there is no session start exactly in IDLE, and PAUSED remembers an active phase and its frozen time |
| PomodoroProperties.StepPreservesInv | tomatobar_backend.py:194-219 | every command and every tick keeps that invariant |
| PomodoroProperties.RunPreservesInv | tomatobar_backend.py:458-483 | any sequence of ticks and commands keeps that invariant |
| PomodoroProperties.RunRowsMeasureWallTime | tomatobar_backend.py:353-354 | every row ever written records as its duration its end time minus its start time |
| PomodoroProperties.RunCounterGrowsByOne | tomatobar_backend.py:394-399 | without `restart_cycle`, the counter never decreases and grows by at most one per tick or command |
| PomodoroProperties.TicksCountDown | tomatobar_backend.py:465-468 | as many ticks as there are seconds left only count down: the phase stays and no row is written |
| PomodoroProperties.FirstPomodoro | tomatobar_backend.py:462-478 | with a 25-minute session, 5-minute short breaks and 4 pomodoros per cycle, the run is `start`, 1500 ticks, then one more tick. It writes exactly one completed work row with count 0 and the wall time since `start`, and leaves a 300-second SHORT_BREAK with count 1 |
| PomodoroProperties.TimeStringRoundTrip | tomatobar_backend.py:232-233 | `MM:SS` has a colon before two digits of seconds below 60. Minutes × 60 + seconds read back as the remaining time |
| PomodoroProperties.TimeStringInjective | tomatobar_backend.py:232-233 | different remaining times never give the same clock text |
| PomodoroProperties.StatusMessageShowsClock | tomatobar_backend.py:235-250 | the message is "Ready" exactly in IDLE. Otherwise it ends with the clock text of the remaining time |
| PomodoroProperties.PausedMessage | tomatobar_backend.py:242-248 | pausing turns the message into "Paused " followed by the message of the phase that was paused |
| PomodoroProperties.StateNameInjective | tomatobar_backend.py:224-230 | `state_map` gives each phase a different name |
| PomodoroProperties.GetStatusRepublishes | tomatobar_backend.py:216-217 | `get_status` publishes the status the timer already had and writes no row |
| TomatobarBackend.PomodoroTimer.constructor | tomatobar_backend.py:40-50 | the timer starts IDLE with no time, count 0, no session start, no paused phase, an empty store and the given configuration |
| TomatobarBackend.PomodoroTimer.LogSession | tomatobar_backend.py:348-392 | appends exactly the row `_log_session` would insert, or none |
| TomatobarBackend.PomodoroTimer.StartWorkSession | tomatobar_backend.py:269-275 | enters WORK for work minutes × 60 seconds, starting now |
| TomatobarBackend.PomodoroTimer.StartBreak | tomatobar_backend.py:277-289 | enters LONG_BREAK or SHORT_BREAK for that break's minutes × 60 seconds, starting now |
| TomatobarBackend.PomodoroTimer.Pause | tomatobar_backend.py:291-302 | the fields and the new rows are those of `_pause`: see PauseThenResume |
| TomatobarBackend.PomodoroTimer.Resume | tomatobar_backend.py:304-311 | the fields are those of `_resume`: see PauseThenResume |
| TomatobarBackend.PomodoroTimer.CompleteWorkSession | tomatobar_backend.py:394-412 | the fields and the new rows are those of `_complete_work_session`: see TickCompletesWork and SkipWork |
| TomatobarBackend.PomodoroTimer.CompleteBreakSession | tomatobar_backend.py:414-426 | the fields and the new rows are those of `_complete_break_session`: see TickCompletesBreak |
| TomatobarBackend.PomodoroTimer.SkipCurrentPhase | tomatobar_backend.py:313-324 | the fields and the new rows are those of `_skip_current_phase`: see SkipWork and SkipBreak |
| TomatobarBackend.PomodoroTimer.Reset | tomatobar_backend.py:326-336 | the fields and the new rows are those of `_reset`: see ResetEffect |
| TomatobarBackend.PomodoroTimer.RestartCycle | tomatobar_backend.py:338-346 | the fields and the new rows are those of `_restart_cycle`: see RestartCycleEffect |
| TomatobarBackend.PomodoroTimer.ProcessCommand | tomatobar_backend.py:194-219 | applies one command word as `_process_command` does and keeps the invariant |
| TomatobarBackend.PomodoroTimer.Tick | tomatobar_backend.py:464-478 | applies one tick as the body of `run` does and keeps the invariant |
| TomatobarBackend.PomodoroTimer.HandleExit | tomatobar_backend.py:450-452 | appends the shutdown row of HandleExitEffect and changes no field |
| TomatobarBackend.PomodoroTimer.WriteStatus | tomatobar_backend.py:221-258 | the published state, remaining time, count, cycle length and message are those of the current fields. It changes nothing |
| TomatobarModule.Emoji | tomatobar_module.py:60-68 | the emoji is one of the four in the map, and the tomato for any state not in it |
| TomatobarModule.Capitalize | tomatobar_module.py:74 | keeps the length, upper-cases the first character and lower-cases the rest |
| TomatobarModule.CapitalizeMeetsSpec | tomatobar_module.py:74 | the result is a capitalization of the input: the same letters ignoring case, the first not lower-case, none after it upper-case |
| TomatobarModule.CapitalizationUnique | tomatobar_module.py:74 | a string has only one capitalization, so that description determines `str.capitalize()` |
| TomatobarModule.FormatStatusForWaybar | tomatobar_module.py:52-80 | `class` is the input state. `text` opens with the state's emoji, a space, the message and ` [`, and ends with `]`. `alt` is the emoji and a space followed by a capitalization of the state |
| TomatobarModule.CounterReadsBack | tomatobar_module.py:71 | whatever the message holds, the `[done/total]` bracket at the end of `text` reads back as the status's two counters, negative values included |
| TomatobarModule.UnknownStateFallsBack | tomatobar_module.py:68 | a state outside the map gets the tomato in `alt` and keeps its own class |
| TomatobarModule.CapitalizeIdempotent | tomatobar_module.py:74 | capitalizing twice is capitalizing once |
| TomatobarModule.CapitalizedStateName | tomatobar_module.py:74 | the five state names capitalize to Idle, Work, Short_break, Long_break and Paused |
| TomatobarModule.WidgetShowsBackendPhase | tomatobar_module.py:52-80 | for any status the backend publishes, the class is the phase's state name, `alt` is that phase's emoji and capitalized name, and `text` shows the backend's message and `[count/cycle length]` |
| TomatobarModule.WidgetClassIdentifiesPhase | tomatobar_module.py:76-79 | two backend states whose widget class is equal are in the same phase |

## Left out

- Configuration loading and default-file creation (`_load_config`, `load_config`, `get_config_path`): file and JSON input. The durations and the cycle length are constructor parameters instead.
- Configuration values are modelled as natural-number minutes and a positive cycle length. A negative or non-integer value, or a cycle length of 0, is not modelled. A cycle length of 0 would make line 409 raise inside the loop.
- SQLite setup and the INSERT of `_log_session`: the store is the sequence `sessions`, and a failed write, which the code only logs, is not modelled.
- The command FIFO, the `_command_listener` thread and its stripping of each line: I/O and concurrency. Each command is one atomic `ProcessCommand` call.
- Writing the status file in `_write_status`, and the tick's write every five seconds: output only. `WriteStatus` returns the object that would be written.
- `_send_notification` and `_play_sound`: the `notify-send` and `aplay` subprocesses (lines 431 and 441). They block the thread that completes a phase. While `aplay` plays, `run` makes no ticks, and that delay is not modelled.
- Clock readings within one command or tick: the code calls `int(time.time())` separately for each row's end (line 353) and for the next phase's start (lines 273 and 288), with the blocking notification and sound between them. The model reads the clock once per command or tick and uses that one instant for all of them. So it does not capture a next phase that starts after the logged row's end, or the two rows of a `skip` from WORK falling in different seconds.
- Interleaving of the command listener thread with the tick loop: the code takes no lock. A command that arrives while a phase completes, for example a `pause` during `aplay`, can be overwritten by `_start_break` (lines 278-289). The model applies each command and each tick as a whole, one after another.
- Signal registration, the `running` flag, closing the database, `sys.exit`, `time.sleep` and the scheduling of `run`'s loop. Only the loop body (`Tick`) and the logging part of `_handle_exit` (`HandleExit`) are modelled.
- `read_status`, `send_command` and `main` of the widget script, and its argument parsing: file, FIFO and command-line I/O.
- The Python `AttributeError` that `_resume` or `_log_session` would raise in PAUSED before any pause has set `paused_state`. The invariant proves this state unreachable. The model leaves the timer unchanged and writes no row there.
- TomatobarModule.Capitalize: models `str.capitalize` on ASCII letters only; Unicode case mapping is not modelled (the backend's state names are ASCII).
- TomatobarModule.FormatStatusForWaybar: takes the status fields as already-decoded strings and integers; other JSON value types and missing keys are not modelled.
