/**
 * `format_status_for_waybar` of the widget script: turns the status object
 * the backend publishes into the widget's `text`, `alt` and `class` strings.
 */
module TomatobarModule {
  import opened Digits
  import opened PomodoroSpec
  import PomodoroProperties

  /** The JSON object the widget prints; `class` is a Dafny keyword, hence `cssClass`. */
  datatype WaybarOutput = WaybarOutput(text: string, alt: string, cssClass: string)

  const Tomato: string := "\U{1F345}"
  const HotBeverage: string := "\U{2615}"
  const PalmTree: string := "\U{1F334}"
  /** The pause symbol followed by the emoji variation selector. */
  const PauseButton: string := "\U{23F8}\U{FE0F}"

  /** `emoji_map`. */
  const EmojiMap: map<string, string> := map[
    "idle" := Tomato,
    "work" := Tomato,
    "short_break" := HotBeverage,
    "long_break" := PalmTree,
    "paused" := PauseButton]

  /** `emoji_map.get(state, "🍅")`. */
  function Emoji(state: string): (e: string)
    ensures e == Tomato || e == HotBeverage || e == PalmTree || e == PauseButton
    ensures state !in EmojiMap ==> e == Tomato
  {
    if state in EmojiMap then EmojiMap[state] else Tomato
  }

  function UpperAscii(c: char): char {
    if 'a' <= c <= 'z' then (c as int - 32) as char else c
  }

  function LowerAscii(c: char): char {
    if 'A' <= c <= 'Z' then (c as int + 32) as char else c
  }

  /**
   * What `str.capitalize()` promises on ASCII text: the same letters ignoring
   * case, the first one not lower-case and none after it upper-case.
   */
  predicate IsCapitalization(r: string, s: string) {
    && |r| == |s|
    && (forall i :: 0 <= i < |s| ==> LowerAscii(r[i]) == LowerAscii(s[i]))
    && (s != [] ==> !('a' <= r[0] <= 'z'))
    && (forall i :: 0 < i < |r| ==> !('A' <= r[i] <= 'Z'))
  }

  /** `str.capitalize()` on ASCII text: the first character upper-cased, the rest lower-cased. */
  function Capitalize(s: string): (r: string)
    ensures |r| == |s|
    ensures s != [] ==> r[0] == UpperAscii(s[0])
    ensures forall i :: 0 < i < |s| ==> r[i] == LowerAscii(s[i])
  {
    if s == [] then [] else [UpperAscii(s[0])] + seq(|s| - 1, i requires 0 <= i < |s| - 1 => LowerAscii(s[i + 1]))
  }

  /** `Capitalize` meets `IsCapitalization`. */
  lemma CapitalizeMeetsSpec(s: string)
    ensures IsCapitalization(Capitalize(s), s)
  {
    var r := Capitalize(s);
    forall i | 0 <= i < |s|
      ensures LowerAscii(r[i]) == LowerAscii(s[i])
    {
      if i == 0 {
        assert r[0] == UpperAscii(s[0]);
      } else {
        assert r[i] == LowerAscii(s[i]);
      }
    }
  }

  /** A string has exactly one capitalization, so `IsCapitalization` pins `Capitalize` down. */
  lemma CapitalizationUnique(r1: string, r2: string, s: string)
    requires IsCapitalization(r1, s) && IsCapitalization(r2, s)
    ensures r1 == r2
  {
    forall i | 0 <= i < |s|
      ensures r1[i] == r2[i]
    {
      assert LowerAscii(r1[i]) == LowerAscii(r2[i]);
    }
  }

  /**
   * `format_status_for_waybar`: the class is the state itself; the text opens
   * with the state's emoji and the message and ends with the `[done/total]`
   * counter (see CounterReadsBack); the short text is the emoji and the
   * capitalized state.
   */
  function FormatStatusForWaybar(status: Status): (out: WaybarOutput)
    ensures out.cssClass == status.state
    ensures Emoji(status.state) + " " + status.message + " [" <= out.text && out.text[|out.text| - 1] == ']'
    ensures Emoji(status.state) + " " <= out.alt
    ensures IsCapitalization(out.alt[|Emoji(status.state)| + 1..], status.state)
  {
    var emoji := Emoji(status.state);
    var text := emoji + " " + status.message
                + " [" + IntToString(status.pomodorosCompleted) + "/" + IntToString(status.totalForLongBreak) + "]";
    var alt := emoji + " " + Capitalize(status.state);
    CapitalizeMeetsSpec(status.state);
    assert alt[|emoji| + 1..] == Capitalize(status.state);
    WaybarOutput(text, alt, status.state)
  }

  // ---- Reading the widget text back ----

  /** How many digits end `s`. */
  function TrailingDigitCount(s: string): (n: nat)
    ensures n <= |s|
    ensures AllDigits(s[|s| - n..])
    decreases |s|
  {
    if s == [] || !IsDigit(s[|s| - 1]) then 0
    else
      var front := s[..|s| - 1];
      var n := TrailingDigitCount(front);
      assert s[|s| - (n + 1)..] == front[|front| - n..] + [s[|s| - 1]];
      n + 1
  }

  /** The integer `str` wrote at the end of `s`, with an optional minus sign, and the text before it. */
  function ReadIntAtEnd(s: string): Option<(int, string)> {
    var k := |s| - TrailingDigitCount(s);
    if k == |s| then None
    else
      var value: int := DecimalValue(s[k..]);
      if 0 < k && s[k - 1] == '-' then Some((-value, s[..k - 1]))
      else Some((value, s[..k]))
  }

  /** The two numbers of the `[done/total]` bracket that ends a widget text. */
  function ReadCounter(t: string): Option<(int, int)> {
    if t == [] || t[|t| - 1] != ']' then None else ReadFraction(t[..|t| - 1])
  }

  /** `done/total` at the end of `s`, after a `[`. */
  function ReadFraction(s: string): Option<(int, int)> {
    match ReadIntAtEnd(s)
    case None => None
    case Some((total, rest)) =>
      if rest == [] || rest[|rest| - 1] != '/' then None else ReadOpening(rest[..|rest| - 1], total)
  }

  /** `[done` at the end of `s`. */
  function ReadOpening(s: string, total: int): Option<(int, int)> {
    match ReadIntAtEnd(s)
    case None => None
    case Some((done, rest)) =>
      if rest == [] || rest[|rest| - 1] != '[' then None else Some((done, total))
  }

  lemma {:induction false} TrailingDigitCountOf(p: string, d: string)
    requires AllDigits(d) && (p == [] || !IsDigit(p[|p| - 1]))
    ensures TrailingDigitCount(p + d) == |d|
    decreases |d|
  {
    if d != [] {
      assert (p + d)[..|p + d| - 1] == p + d[..|d| - 1];
      TrailingDigitCountOf(p, d[..|d| - 1]);
    }
  }

  /** A non-negative integer written after a non-digit other than a minus sign reads back with the text before it. */
  lemma ReadNatAfter(p: string, i: int)
    requires p != [] && !IsDigit(p[|p| - 1]) && p[|p| - 1] != '-' && 0 <= i
    ensures ReadIntAtEnd(p + IntToString(i)) == Some((i, p))
  {
    var d := NatToString(i);
    assert IntToString(i) == d;
    var s := p + d;
    TrailingDigitCountOf(p, d);
    DecimalValueOfNatToString(i);
    assert s[|p|..] == d;
    assert s[..|p|] == p;
  }

  /** A negative integer written after a non-digit other than a minus sign reads back with the text before it. */
  lemma ReadNegativeAfter(p: string, i: int)
    requires p != [] && !IsDigit(p[|p| - 1]) && p[|p| - 1] != '-' && i < 0
    ensures ReadIntAtEnd(p + IntToString(i)) == Some((i, p))
  {
    var d := NatToString(-i);
    var q := p + "-";
    NegativeIntToString(i);
    AppendAssoc3(p, "-", d);
    var s := q + d;
    TrailingDigitCountOf(q, d);
    DecimalValueOfNatToString(-i);
    assert s[|q|..] == d;
    assert s[|q| - 1] == '-';
    assert s[..|q| - 1] == p;
  }

  /** Reading back the integer `str` wrote after a punctuation mark gives the integer and the text before it. */
  lemma ReadIntAtEndOf(p: string, i: int)
    requires p != [] && !IsDigit(p[|p| - 1]) && p[|p| - 1] != '-'
    ensures ReadIntAtEnd(p + IntToString(i)) == Some((i, p))
  {
    if i < 0 {
      ReadNegativeAfter(p, i);
    } else {
      ReadNatAfter(p, i);
    }
  }

  lemma NegativeIntToString(i: int)
    requires i < 0
    ensures IntToString(i) == "-" + NatToString(-i)
  {
  }

  lemma AppendAssoc3(a: string, b: string, c: string)
    ensures a + (b + c) == (a + b) + c
  {
  }

  /** An integer read after a `[` completes the bracket's opening. */
  lemma OpeningReadsBack(s: string, a: int, open: string, total: int)
    requires ReadIntAtEnd(s) == Some((a, open))
    requires open != [] && open[|open| - 1] == '['
    ensures ReadOpening(s, total) == Some((a, total))
  {
  }

  /** An integer read after a `/` whose front reads as the opening completes the fraction. */
  lemma FractionReadsBack(s: string, b: int, front: string, a: int)
    requires ReadIntAtEnd(s) == Some((b, front))
    requires front != [] && front[|front| - 1] == '/'
    requires ReadOpening(front[..|front| - 1], b) == Some((a, b))
    ensures ReadFraction(s) == Some((a, b))
  {
  }

  /** The bracket `[a/b]` after any text ending in `[` reads back as `a` and `b`. */
  lemma BracketReadsBack(open: string, a: int, b: int)
    requires open != [] && open[|open| - 1] == '['
    ensures ReadCounter(open + IntToString(a) + "/" + IntToString(b) + "]") == Some((a, b))
  {
    var front := open + IntToString(a) + "/";
    var body := front + IntToString(b);
    ReadIntAtEndOf(open, a);
    OpeningReadsBack(open + IntToString(a), a, open, b);
    assert front[..|front| - 1] == open + IntToString(a);
    ReadIntAtEndOf(front, b);
    FractionReadsBack(body, b, front, a);
    assert (body + "]")[..|body + "]"| - 1] == body;
  }

  /** The bracket at the end of the widget text reads back as the two counters of the status. */
  lemma CounterReadsBack(status: Status)
    ensures ReadCounter(FormatStatusForWaybar(status).text)
            == Some((status.pomodorosCompleted, status.totalForLongBreak))
  {
    BracketReadsBack(Emoji(status.state) + " " + status.message + " [", status.pomodorosCompleted, status.totalForLongBreak);
  }

  /** A state outside the five the backend publishes falls back to the tomato and keeps its own class. */
  lemma UnknownStateFallsBack(status: Status)
    requires status.state !in EmojiMap
    ensures var out := FormatStatusForWaybar(status);
      && out.cssClass == status.state
      && out.alt == Tomato + " " + Capitalize(status.state)
  {
  }

  /** Capitalizing twice is capitalizing once. */
  lemma CapitalizeIdempotent(s: string)
    ensures Capitalize(Capitalize(s)) == Capitalize(s)
  {
  }

  /** The emoji and short text the widget shows for each phase of the backend. */
  function PhaseEmoji(p: Phase): string {
    match p
    case Idle => Tomato
    case Work => Tomato
    case ShortBreak => HotBeverage
    case LongBreak => PalmTree
    case Paused => PauseButton
  }

  function PhaseAlt(p: Phase): string {
    match p
    case Idle => "Idle"
    case Work => "Work"
    case ShortBreak => "Short_break"
    case LongBreak => "Long_break"
    case Paused => "Paused"
  }

  /**
   * For any status the backend publishes, the widget's class is the phase's
   * state name, so it tells the phases apart; the emoji and the short text are
   * the phase's; and the bracket shows the cycle counter and the cycle length.
   */
  lemma WidgetShowsBackendPhase(cfg: Config, s: Snapshot)
    ensures var out := FormatStatusForWaybar(StatusOf(cfg, s));
      && out.cssClass == StateName(s.phase)
      && out.alt == PhaseEmoji(s.phase) + " " + PhaseAlt(s.phase)
      && out.text == PhaseEmoji(s.phase) + " " + StatusMessage(s)
                     + " [" + NatToString(s.count) + "/" + NatToString(cfg.cycleLength) + "]"
  {
    var status := StatusOf(cfg, s);
    EmojiOfStateName(s.phase);
    CapitalizedStateName(s.phase);
    assert IntToString(status.pomodorosCompleted) == NatToString(s.count);
    assert IntToString(status.totalForLongBreak) == NatToString(cfg.cycleLength);
  }

  lemma EmojiOfStateName(p: Phase)
    ensures Emoji(StateName(p)) == PhaseEmoji(p)
  {
  }

  lemma CapitalizedStateName(p: Phase)
    ensures Capitalize(StateName(p)) == PhaseAlt(p)
  {
    match p
    case Idle => CapitalizeWord("idle", 'I', "Idle");
    case Work => CapitalizeWord("work", 'W', "Work");
    case ShortBreak => CapitalizeWord("short_break", 'S', "Short_break");
    case LongBreak => CapitalizeWord("long_break", 'L', "Long_break");
    case Paused => CapitalizeWord("paused", 'P', "Paused");
  }

  /** A word with no upper-case letter after its first only has its first letter changed by capitalizing. */
  lemma CapitalizeWord(s: string, first: char, r: string)
    requires s != [] && forall i :: 0 < i < |s| ==> !('A' <= s[i] <= 'Z')
    requires UpperAscii(s[0]) == first && r == [first] + s[1..]
    ensures Capitalize(s) == r
  {
    assert Capitalize(s)[1..] == s[1..];
  }

  /** Two backend states the widget gives the same class are in the same phase. */
  lemma WidgetClassIdentifiesPhase(cfg: Config, s: Snapshot, t: Snapshot)
    requires FormatStatusForWaybar(StatusOf(cfg, s)).cssClass == FormatStatusForWaybar(StatusOf(cfg, t)).cssClass
    ensures s.phase == t.phase
  {
    PomodoroProperties.StateNameInjective(s.phase, t.phase);
  }
}
