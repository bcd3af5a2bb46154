/** What the transitions of `PomodoroSpec` promise, one call at a time and over runs of events. */
module PomodoroProperties {
  import opened Digits
  import opened PomodoroSpec

  // ---- The session row ----

  /** `_log_session` appends at most one row; it runs from the session start to `now` and is typed by the (paused) phase. */
  lemma LogSessionRow(s: Snapshot, now: int, completed: bool)
    requires Inv(s)
    ensures var rows := LogSession(s, now, completed);
      && (|rows| == 1 <==> s.phase != Idle)
      && (|rows| == 1 ==>
            && rows[0].startTime == s.start.value && rows[0].endTime == now
            && rows[0].durationActual == now - s.start.value
            && rows[0].completed == completed && rows[0].countAtLog == s.count
            && Some(rows[0].kind) == SessionOf(LoggedPhase(s).value))
      && |rows| <= 1
  {
  }

  // ---- The tick ----

  /** A tick in IDLE or PAUSED changes nothing and logs nothing. */
  lemma TickWhenStopped(cfg: Config, s: Snapshot, now: int)
    requires s.phase == Idle || s.phase == Paused
    ensures Tick(cfg, s, now) == Outcome(s, [])
  {
  }

  /** A tick in an active phase with time left takes exactly one second off and logs nothing. */
  lemma TickCountsDown(cfg: Config, s: Snapshot, now: int)
    requires Active(s.phase) && s.remaining > 0
    ensures var o := Tick(cfg, s, now);
      o.next == s.(remaining := s.remaining - 1) && o.records == []
  {
  }

  /**
   * A tick that finds WORK at zero logs one completed work row carrying the
   * count before the increment, counts the pomodoro (never resetting the
   * counter) and starts a long break iff the new count is a multiple of
   * `pomodoros_before_long_break`, a short break otherwise.
   */
  lemma TickCompletesWork(cfg: Config, s: Snapshot, now: int)
    requires Inv(s) && s.phase == Work && s.remaining == 0
    ensures var o := Tick(cfg, s, now);
      var isLong := (s.count + 1) % cfg.cycleLength == 0;
      && o.records == [SessionRecord(s.start.value, now, WorkSession, true, now - s.start.value, s.count)]
      && o.next == s.(count := s.count + 1,
                      phase := if isLong then LongBreak else ShortBreak,
                      remaining := (if isLong then cfg.longMin else cfg.shortMin) * 60,
                      start := Some(now))
  {
  }

  /** A tick that finds a break at zero logs one completed row of that break and starts a full work session; the counter stays. */
  lemma TickCompletesBreak(cfg: Config, s: Snapshot, now: int)
    requires Inv(s) && (s.phase == ShortBreak || s.phase == LongBreak) && s.remaining == 0
    ensures var o := Tick(cfg, s, now);
      var kind := if s.phase == ShortBreak then ShortBreakSession else LongBreakSession;
      && o.records == [SessionRecord(s.start.value, now, kind, true, now - s.start.value, s.count)]
      && o.next == s.(phase := Work, remaining := cfg.workMin * 60, start := Some(now))
  {
  }

  /**
   * The counter reaching `pomodoros_before_long_break` leads to a long break
   * with the counter left at that value, and the row for that pomodoro
   * carries the count before it.
   */
  lemma CycleEndKeepsCounter(cfg: Config, s: Snapshot, now: int)
    requires Inv(s) && s.phase == Work && s.remaining == 0 && s.count + 1 == cfg.cycleLength
    ensures var o := Tick(cfg, s, now);
      && o.next.phase == LongBreak && o.next.count == cfg.cycleLength
      && o.records[0].countAtLog == cfg.cycleLength - 1
  {
    TickCompletesWork(cfg, s, now);
  }

  // ---- Commands ----

  /** The command words that `_process_command` answers by doing nothing, and the ones it ignores. */
  predicate Inert(s: Snapshot, command: string) {
    || command == "get_status"
    || (command == "start" && Active(s.phase))
    || ((command == "pause" || command == "skip") && !Active(s.phase))
    || (command == "resume" && s.phase != Paused)
    || command !in {"start", "pause", "resume", "skip", "reset", "restart_cycle", "get_status"}
  }

  /** `get_status`, a command invalid for the phase and an unknown word leave the timer and the store alone. */
  lemma InertCommandsChangeNothing(cfg: Config, s: Snapshot, command: string, now: int)
    requires Inert(s, command)
    ensures ProcessCommand(cfg, s, command, now) == Outcome(s, [])
  {
  }

  /**
   * `pause` logs one incomplete row typed by the phase it pauses, and a
   * following `resume` (or `start`) restores that phase and the exact
   * remaining time with a fresh session start.
   */
  lemma PauseThenResume(cfg: Config, s: Snapshot, t1: int, t2: int, resumeWord: string)
    requires Inv(s) && Active(s.phase)
    requires resumeWord == "resume" || resumeWord == "start"
    ensures var p := ProcessCommand(cfg, s, "pause", t1);
      var r := ProcessCommand(cfg, p.next, resumeWord, t2);
      && p.next.phase == Paused && p.next.remaining == s.remaining && p.next.count == s.count
      && p.records == [SessionRecord(s.start.value, t1, SessionOf(s.phase).value, false, t1 - s.start.value, s.count)]
      && r.records == []
      && r.next.phase == s.phase && r.next.remaining == s.remaining && r.next.count == s.count
      && r.next.start == Some(t2)
  {
  }

  /**
   * `skip` in WORK writes two identical incomplete work rows, counts the
   * pomodoro and enters a break by the same rule as a natural completion.
   */
  lemma SkipWork(cfg: Config, s: Snapshot, now: int)
    requires Inv(s) && s.phase == Work
    ensures var o := ProcessCommand(cfg, s, "skip", now);
      var row := SessionRecord(s.start.value, now, WorkSession, false, now - s.start.value, s.count);
      var isLong := (s.count + 1) % cfg.cycleLength == 0;
      && o.records == [row, row]
      && o.next == s.(count := s.count + 1,
                      phase := if isLong then LongBreak else ShortBreak,
                      remaining := (if isLong then cfg.longMin else cfg.shortMin) * 60,
                      start := Some(now))
  {
  }

  /** `skip` in a break writes one incomplete row of that break and starts a full work session. */
  lemma SkipBreak(cfg: Config, s: Snapshot, now: int)
    requires Inv(s) && (s.phase == ShortBreak || s.phase == LongBreak)
    ensures var o := ProcessCommand(cfg, s, "skip", now);
      var kind := if s.phase == ShortBreak then ShortBreakSession else LongBreakSession;
      && o.records == [SessionRecord(s.start.value, now, kind, false, now - s.start.value, s.count)]
      && o.next == s.(phase := Work, remaining := cfg.workMin * 60, start := Some(now))
  {
  }

  /** The one incomplete row `reset` and `restart_cycle` write outside IDLE: from PAUSED it is typed by the paused phase. */
  function InterruptedRow(s: Snapshot, now: int): seq<SessionRecord>
    requires Inv(s)
  {
    if s.phase == Idle then []
    else
      var p := LoggedPhase(s).value;
      [SessionRecord(s.start.value, now, SessionOf(p).value, false, now - s.start.value, s.count)]
  }

  /** `reset` ends in IDLE with no time and no session start, keeps the counter, and logs the interrupted phase. */
  lemma ResetEffect(cfg: Config, s: Snapshot, now: int)
    requires Inv(s)
    ensures var o := ProcessCommand(cfg, s, "reset", now);
      && o.next.phase == Idle && o.next.remaining == 0 && o.next.start == None
      && o.next.count == s.count
      && o.records == InterruptedRow(s, now)
      && (|o.records| == 1 <==> s.phase != Idle)
  {
  }

  /** `restart_cycle` zeroes the counter and starts a full work session (not IDLE), logging the interrupted phase. */
  lemma RestartCycleEffect(cfg: Config, s: Snapshot, now: int)
    requires Inv(s)
    ensures var o := ProcessCommand(cfg, s, "restart_cycle", now);
      && o.next.phase == Work && o.next.remaining == cfg.workMin * 60 && o.next.start == Some(now)
      && o.next.count == 0
      && o.records == InterruptedRow(s, now)
      && (|o.records| == 1 <==> s.phase != Idle)
  {
  }

  /**
   * `reset` after `pause` logs a second incomplete row with the same session
   * start as the one `pause` wrote, since pausing keeps the session start:
   * the two rows overlap from that start to the pause.
   */
  lemma PauseThenReset(cfg: Config, s: Snapshot, t1: int, t2: int)
    requires Inv(s) && Active(s.phase)
    ensures var p := ProcessCommand(cfg, s, "pause", t1);
      var r := ProcessCommand(cfg, p.next, "reset", t2);
      var kind := SessionOf(s.phase).value;
      && p.records == [SessionRecord(s.start.value, t1, kind, false, t1 - s.start.value, s.count)]
      && r.records == [SessionRecord(s.start.value, t2, kind, false, t2 - s.start.value, s.count)]
      && r.next.phase == Idle
  {
  }

  /** On shutdown a phase that is counting down is logged as incomplete; IDLE and PAUSED log nothing. */
  lemma HandleExitEffect(s: Snapshot, now: int)
    requires Inv(s)
    ensures var o := HandleExit(s, now);
      && o.next == s
      && (Active(s.phase) ==> o.records == InterruptedRow(s, now))
      && (!Active(s.phase) ==> o.records == [])
  {
  }

  // ---- Invariant and runs ----

  lemma InitialInv()
    ensures Inv(Initial())
  {
  }

  /** Every tick and every command keeps `Inv`. */
  lemma StepPreservesInv(cfg: Config, s: Snapshot, e: Event)
    requires Inv(s)
    ensures Inv(Step(cfg, s, e).next)
  {
  }

  /** Any run of ticks and commands from a state satisfying `Inv` ends in one. */
  lemma {:induction false} RunPreservesInv(cfg: Config, s: Snapshot, events: seq<Event>)
    requires Inv(s)
    ensures Inv(Run(cfg, s, events).next)
    decreases |events|
  {
    if events != [] {
      StepPreservesInv(cfg, s, events[0]);
      RunPreservesInv(cfg, Step(cfg, s, events[0]).next, events[1..]);
    }
  }

  /** Every row ever logged records as its duration the wall time between its start and its end. */
  lemma {:induction false} RunRowsMeasureWallTime(cfg: Config, s: Snapshot, events: seq<Event>)
    ensures forall r :: r in Run(cfg, s, events).records ==> r.durationActual == r.endTime - r.startTime
    decreases |events|
  {
    if events != [] {
      var first := Step(cfg, s, events[0]);
      RunRowsMeasureWallTime(cfg, first.next, events[1..]);
    }
  }

  /** Without `restart_cycle` the counter only goes up, and by at most one per event. */
  lemma {:induction false} RunCounterGrowsByOne(cfg: Config, s: Snapshot, events: seq<Event>)
    requires forall i :: 0 <= i < |events| ==> !(events[i].CommandAt? && events[i].command == "restart_cycle")
    ensures s.count <= Run(cfg, s, events).next.count <= s.count + |events|
    decreases |events|
  {
    if events != [] {
      var first := Step(cfg, s, events[0]);
      assert s.count <= first.next.count <= s.count + 1;
      RunCounterGrowsByOne(cfg, first.next, events[1..]);
    }
  }

  /** Running two lists of events one after the other is running their concatenation. */
  lemma {:induction false} RunAppend(cfg: Config, s: Snapshot, a: seq<Event>, b: seq<Event>)
    ensures var first := Run(cfg, s, a);
      var second := Run(cfg, first.next, b);
      Run(cfg, s, a + b) == Outcome(second.next, first.records + second.records)
    decreases |a|
  {
    if a == [] {
      assert a + b == b;
    } else {
      var e := Step(cfg, s, a[0]);
      assert (a + b)[0] == a[0];
      assert (a + b)[1..] == a[1..] + b;
      RunAppend(cfg, e.next, a[1..], b);
      var first := Run(cfg, e.next, a[1..]);
      var second := Run(cfg, first.next, b);
      assert e.records + (first.records + second.records) == (e.records + first.records) + second.records;
    }
  }

  /** As many ticks as there are seconds left only count down: no phase change, no row. */
  lemma {:induction false} TicksCountDown(cfg: Config, s: Snapshot, ticks: seq<Event>)
    requires Active(s.phase) && |ticks| <= s.remaining
    requires forall i :: 0 <= i < |ticks| ==> ticks[i].TickAt?
    ensures Run(cfg, s, ticks) == Outcome(s.(remaining := s.remaining - |ticks|), [])
    decreases |ticks|
  {
    if ticks != [] {
      TickCountsDown(cfg, s, ticks[0].now);
      TicksCountDown(cfg, s.(remaining := s.remaining - 1), ticks[1..]);
    }
  }

  /**
   * With 25-minute work sessions, 5-minute short breaks and four pomodoros
   * per cycle: `start`, 1500 ticks that count the session down to zero, and
   * the tick that finds it at zero log one completed work row of the wall
   * time since `start` with count 0, and leave a 300-second short break.
   */
  lemma FirstPomodoro(t0: int, ticks: seq<Event>, t1: int)
    requires |ticks| == 1500 && forall i :: 0 <= i < |ticks| ==> ticks[i].TickAt?
    ensures var cfg := Config(25, 5, 15, 4);
      var o := Run(cfg, Initial(), [CommandAt("start", t0)] + ticks + [TickAt(t1)]);
      && o.records == [SessionRecord(t0, t1, WorkSession, true, t1 - t0, 0)]
      && o.next.phase == ShortBreak && o.next.remaining == 300 && o.next.count == 1
  {
    var cfg := Config(25, 5, 15, 4);
    var started := Snapshot(Work, 1500, 0, Some(t0), None, 0);
    assert Run(cfg, Initial(), [CommandAt("start", t0)]) == Outcome(started, []);
    RunAppend(cfg, Initial(), [CommandAt("start", t0)], ticks);
    TicksCountDown(cfg, started, ticks);
    RunAppend(cfg, Initial(), [CommandAt("start", t0)] + ticks, [TickAt(t1)]);
    TickCompletesWork(cfg, started.(remaining := 0), t1);
  }

  // ---- Status ----

  /** Reads `MM:SS` back: the digits before the colon are minutes, the last two are seconds. */
  function ReadClock(t: string): nat
    requires 3 <= |t| && AllDigits(t[..|t| - 3]) && AllDigits(t[|t| - 2..])
  {
    DecimalValue(t[..|t| - 3]) * 60 + DecimalValue(t[|t| - 2..])
  }

  /** The clock text has the `MM:SS` shape, its seconds are below 60, and it reads back as the seconds it was made from. */
  lemma TimeStringRoundTrip(seconds: nat)
    ensures var t := TimeString(seconds);
      && 5 <= |t| && t[|t| - 3] == ':'
      && AllDigits(t[..|t| - 3]) && AllDigits(t[|t| - 2..])
      && DecimalValue(t[|t| - 2..]) < 60
      && ReadClock(t) == seconds
  {
    var t := TimeString(seconds);
    assert t[..|t| - 3] == ZeroPad2(seconds / 60);
    assert t[|t| - 2..] == ZeroPad2(seconds % 60);
  }

  /** Different remaining times never show the same clock text. */
  lemma TimeStringInjective(a: nat, b: nat)
    requires TimeString(a) == TimeString(b)
    ensures a == b
  {
    TimeStringRoundTrip(a);
    TimeStringRoundTrip(b);
  }

  /** The message is "Ready" exactly in IDLE; otherwise it ends with the clock text of the remaining time. */
  lemma StatusMessageShowsClock(s: Snapshot)
    requires Inv(s)
    ensures var m := StatusMessage(s);
      && (m == "Ready" <==> s.phase == Idle)
      && (s.phase != Idle ==>
            var t := TimeString(s.remaining);
            |t| < |m| && m[|m| - |t|..] == t)
  {
    TimeStringRoundTrip(s.remaining);
  }

  /** Pausing prefixes the message with "Paused " and keeps its clock. */
  lemma PausedMessage(s: Snapshot, now: int)
    requires Inv(s) && Active(s.phase)
    ensures StatusMessage(Pause(s, now).next) == "Paused " + StatusMessage(s)
  {
    var paused := s.(pausedPhase := Some(s.phase), pausedRemaining := s.remaining, phase := Paused);
    assert Pause(s, now).next == paused;
    PausedMessageOf(paused, s);
  }

  lemma PausedMessageOf(paused: Snapshot, s: Snapshot)
    requires Active(s.phase) && paused.phase == Paused && paused.pausedPhase == Some(s.phase)
    requires paused.remaining == s.remaining
    ensures StatusMessage(paused) == "Paused " + StatusMessage(s)
  {
    var name, clock := PhaseLabel(s.phase), TimeString(s.remaining);
    AppendAssoc("Paused " + name, "Paused ", name, ": ");
    AppendAssoc("Paused " + name + ": ", "Paused ", name + ": ", clock);
  }

  lemma AppendAssoc(whole: string, front: string, back: string, tail: string)
    requires whole == front + back
    ensures whole + tail == front + (back + tail)
  {
  }

  /** `state_map` names each phase differently, so the published state identifies the phase. */
  lemma StateNameInjective(p: Phase, q: Phase)
    requires StateName(p) == StateName(q)
    ensures p == q
  {
  }

  /** `get_status` republishes exactly the status the timer already had. */
  lemma GetStatusRepublishes(cfg: Config, s: Snapshot, now: int)
    ensures var o := ProcessCommand(cfg, s, "get_status", now);
      StatusOf(cfg, o.next) == StatusOf(cfg, s) && o.records == []
  {
  }
}
