/**
 * The Pomodoro timer of the tomatobar backend as values: a snapshot of the
 * timer's fields and one pure function per transition of `PomodoroTimer`.
 * Each transition yields the next snapshot and the session rows it appends to
 * the session store, in the order the backend writes them. The clock
 * (`int(time.time())`) is the parameter `now`; the configuration is a `Config`.
 */
module PomodoroSpec {
  import opened Digits

  datatype Option<T> = None | Some(value: T)

  /** `PomodoroState`. */
  datatype Phase = Idle | Work | ShortBreak | LongBreak | Paused

  /** A phase that counts down: the ones the tick decrements and `pause`/`skip` accept. */
  predicate Active(p: Phase) {
    p == Work || p == ShortBreak || p == LongBreak
  }

  /** The `type` column of the sessions table. */
  datatype SessionType = WorkSession | ShortBreakSession | LongBreakSession

  function TypeName(t: SessionType): string {
    match t
    case WorkSession => "work"
    case ShortBreakSession => "short_break"
    case LongBreakSession => "long_break"
  }

  /** One row of the sessions table (its surrogate `id` is the row's position in the log). */
  datatype SessionRecord = SessionRecord(
    startTime: int,
    endTime: int,
    kind: SessionType,
    completed: bool,
    durationActual: int,
    countAtLog: nat)

  type Positive = n: int | 0 < n witness 1

  /** The settings the timer reads: three durations in minutes and `pomodoros_before_long_break`. */
  datatype Config = Config(workMin: nat, shortMin: nat, longMin: nat, cycleLength: Positive)

  /**
   * The timer's fields: `current_state`, `time_remaining_seconds`,
   * `pomodoros_completed_in_cycle`, `session_start_timestamp` (None before the
   * first phase and after `reset`), `paused_state` (absent until the first
   * pause) and `paused_time_remaining`.
   */
  datatype Snapshot = Snapshot(
    phase: Phase,
    remaining: nat,
    count: nat,
    start: Option<int>,
    pausedPhase: Option<Phase>,
    pausedRemaining: nat)

  /** The result of a transition: the next snapshot and the rows appended to the store. */
  datatype Outcome = Outcome(next: Snapshot, records: seq<SessionRecord>)

  /** The fields as `__init__` sets them. */
  function Initial(): Snapshot {
    Snapshot(Idle, 0, 0, None, None, 0)
  }

  /**
   * What holds of every snapshot the timer reaches: a session start is set
   * exactly outside IDLE, and PAUSED remembers an active phase together with
   * the remaining time it froze.
   */
  ghost predicate Inv(s: Snapshot) {
    && (s.phase == Idle <==> s.start.None?)
    && (s.phase == Paused ==>
          s.pausedPhase.Some? && Active(s.pausedPhase.value) && s.remaining == s.pausedRemaining)
  }

  /** `type_map`: the session type of a phase, if it has one. */
  function SessionOf(p: Phase): Option<SessionType> {
    match p
    case Work => Some(WorkSession)
    case ShortBreak => Some(ShortBreakSession)
    case LongBreak => Some(LongBreakSession)
    case _ => None
  }

  /** The phase `_log_session` files a row under: the paused phase while PAUSED. */
  function LoggedPhase(s: Snapshot): Option<Phase> {
    if s.phase == Paused then s.pausedPhase else Some(s.phase)
  }

  /**
   * `_log_session(completed)`: nothing without a session start or for a phase
   * with no session type, otherwise one row from the session start to `now`
   * carrying the current cycle count.
   */
  function LogSession(s: Snapshot, now: int, completed: bool): seq<SessionRecord> {
    if s.start.None? then []
    else
      match LoggedPhase(s)
      case None => []
      case Some(p) =>
        match SessionOf(p)
        case None => []
        case Some(t) => [SessionRecord(s.start.value, now, t, completed, now - s.start.value, s.count)]
  }

  /** `_start_work_session`. */
  function StartWorkSession(cfg: Config, s: Snapshot, now: int): Snapshot {
    s.(phase := Work, remaining := cfg.workMin * 60, start := Some(now))
  }

  /** `_start_break(is_long_break)`. */
  function StartBreak(cfg: Config, s: Snapshot, isLong: bool, now: int): Snapshot {
    if isLong then s.(phase := LongBreak, remaining := cfg.longMin * 60, start := Some(now))
    else s.(phase := ShortBreak, remaining := cfg.shortMin * 60, start := Some(now))
  }

  /** `_pause`: remember the phase and remaining time, enter PAUSED, then log an incomplete row. */
  function Pause(s: Snapshot, now: int): Outcome {
    if s.phase != Paused then
      var p := s.(pausedPhase := Some(s.phase), pausedRemaining := s.remaining, phase := Paused);
      Outcome(p, LogSession(p, now, false))
    else
      Outcome(s, [])
  }

  /**
   * `_resume`: back to the paused phase with the frozen remaining time and a
   * fresh session start. A PAUSED timer without a remembered phase (which
   * `Inv` excludes) would make Python raise before any field changes.
   */
  function Resume(s: Snapshot, now: int): Snapshot {
    if s.phase == Paused then
      match s.pausedPhase
      case None => s
      case Some(p) => s.(phase := p, remaining := s.pausedRemaining, start := Some(now))
    else
      s
  }

  /** `_complete_work_session(was_skipped)`: log, count the pomodoro, then a long break iff the count is a multiple of the cycle length. */
  function CompleteWorkSession(cfg: Config, s: Snapshot, now: int, wasSkipped: bool): Outcome {
    var logged := LogSession(s, now, !wasSkipped);
    var counted := s.(count := s.count + 1);
    Outcome(StartBreak(cfg, counted, counted.count % cfg.cycleLength == 0, now), logged)
  }

  /** `_complete_break_session(was_skipped)`: log, then a new work session. */
  function CompleteBreakSession(cfg: Config, s: Snapshot, now: int, wasSkipped: bool): Outcome {
    Outcome(StartWorkSession(cfg, s, now), LogSession(s, now, !wasSkipped))
  }

  /** `_skip_current_phase`: log an incomplete row, then complete WORK as skipped or start WORK after a break. */
  function SkipCurrentPhase(cfg: Config, s: Snapshot, now: int): Outcome {
    var first := LogSession(s, now, false);
    if s.phase == Work then
      var o := CompleteWorkSession(cfg, s, now, true);
      Outcome(o.next, first + o.records)
    else
      Outcome(StartWorkSession(cfg, s, now), first)
  }

  /** `_reset`: log an incomplete row unless IDLE, then IDLE with no time and no session start. */
  function Reset(s: Snapshot, now: int): Outcome {
    var logged := if s.phase != Idle then LogSession(s, now, false) else [];
    Outcome(s.(phase := Idle, remaining := 0, start := None), logged)
  }

  /** `_restart_cycle`: log an incomplete row unless IDLE, zero the cycle count, then a new work session. */
  function RestartCycle(cfg: Config, s: Snapshot, now: int): Outcome {
    var logged := if s.phase != Idle then LogSession(s, now, false) else [];
    Outcome(StartWorkSession(cfg, s.(count := 0), now), logged)
  }

  /** One pass of the body of `run`'s loop. */
  function Tick(cfg: Config, s: Snapshot, now: int): Outcome {
    if !Active(s.phase) then Outcome(s, [])
    else if s.remaining > 0 then Outcome(s.(remaining := s.remaining - 1), [])
    else if s.phase == Work then CompleteWorkSession(cfg, s, now, false)
    else CompleteBreakSession(cfg, s, now, false)
  }

  /** The logging part of `_handle_exit`: an incomplete row for a phase still counting down. */
  function HandleExit(s: Snapshot, now: int): Outcome {
    Outcome(s, if Active(s.phase) then LogSession(s, now, false) else [])
  }

  /** `_process_command`: the seven command words; anything else leaves the timer alone. */
  function ProcessCommand(cfg: Config, s: Snapshot, command: string, now: int): Outcome {
    if command == "start" then
      if s.phase == Idle then Outcome(StartWorkSession(cfg, s, now), [])
      else if s.phase == Paused then Outcome(Resume(s, now), [])
      else Outcome(s, [])
    else if command == "pause" then
      if Active(s.phase) then Pause(s, now) else Outcome(s, [])
    else if command == "resume" then
      if s.phase == Paused then Outcome(Resume(s, now), []) else Outcome(s, [])
    else if command == "skip" then
      if Active(s.phase) then SkipCurrentPhase(cfg, s, now) else Outcome(s, [])
    else if command == "reset" then
      Reset(s, now)
    else if command == "restart_cycle" then
      RestartCycle(cfg, s, now)
    else
      // "get_status" only republishes the status; unknown words are logged and dropped
      Outcome(s, [])
  }

  /** What reaches the timer, one at a time: a tick or a command, each with the clock reading. */
  datatype Event = TickAt(now: int) | CommandAt(command: string, now: int)

  function Step(cfg: Config, s: Snapshot, e: Event): Outcome {
    match e
    case TickAt(now) => Tick(cfg, s, now)
    case CommandAt(command, now) => ProcessCommand(cfg, s, command, now)
  }

  /** A run of events applied in order, with every row they append. */
  function Run(cfg: Config, s: Snapshot, events: seq<Event>): Outcome
    decreases |events|
  {
    if events == [] then Outcome(s, [])
    else
      var first := Step(cfg, s, events[0]);
      var rest := Run(cfg, first.next, events[1..]);
      Outcome(rest.next, first.records + rest.records)
  }

  // ---- The status published by `_write_status` ----

  /** `state_map`. */
  function StateName(p: Phase): string {
    match p
    case Idle => "idle"
    case Work => "work"
    case ShortBreak => "short_break"
    case LongBreak => "long_break"
    case Paused => "paused"
  }

  /** `f"{minutes:02d}:{seconds:02d}"` with `minutes, seconds = divmod(remaining, 60)`. */
  function TimeString(seconds: nat): string {
    ZeroPad2(seconds / 60) + ":" + ZeroPad2(seconds % 60)
  }

  /** The name an active phase goes by in the message. */
  function PhaseLabel(p: Phase): string {
    match p
    case Work => "Work"
    case ShortBreak => "Break"
    case LongBreak => "Long Break"
    case _ => ""
  }

  /**
   * The `message` field: "Ready" in IDLE, otherwise the phase's label (after
   * "Paused " while PAUSED) and the remaining time.
   */
  function StatusMessage(s: Snapshot): string {
    var clock := TimeString(s.remaining);
    match s.phase
    case Idle => "Ready"
    case Paused =>
      (match s.pausedPhase
       case Some(p) => if Active(p) then "Paused " + PhaseLabel(p) + ": " + clock else ""
       case None => "")
    case _ => PhaseLabel(s.phase) + ": " + clock
  }

  /** The JSON object written to the status file. */
  datatype Status = Status(
    state: string,
    timeRemaining: int,
    pomodorosCompleted: int,
    totalForLongBreak: int,
    message: string)

  function StatusOf(cfg: Config, s: Snapshot): Status {
    Status(StateName(s.phase), s.remaining, s.count, cfg.cycleLength, StatusMessage(s))
  }
}
