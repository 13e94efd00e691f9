/**
 * The assessment screen (src/components/assessment/AssessmentInterface.tsx):
 * the question pointer, the selected answer, the per-index answer record and
 * the `HH:MM:SS` clock display. Each click handler is a `State -> State`
 * function; the question list itself is only present through its length.
 */
module Assessment {
  import opened Text

  /** The screen ships a fixed sample of two questions. */
  const SampleQuestionCount: nat := 2
  /** The navigation strip always shows the five tabs A to E. */
  const NavTabCount: nat := 5
  /** The clock starts at 60 minutes and is never decremented. */
  const InitialSeconds: nat := 3600

  datatype State = State(current: int, selected: string, answers: map<int, string>, timeRemaining: nat)

  function Init(): State {
    State(0, "", map[], InitialSeconds)
  }

  /** `answers[i] || ""`: the recorded answer for index `i`, or the empty selection. */
  function StoredAnswer(answers: map<int, string>, i: int): string {
    if i in answers then answers[i] else ""
  }

  /** The pointer designates one of the `count` questions. */
  predicate InBounds(s: State, count: nat) {
    0 <= s.current < count
  }

  /** The highlighted option is the one recorded for the current question. */
  predicate Synced(s: State) {
    s.selected == StoredAnswer(s.answers, s.current)
  }

  /** `handleAnswerSelect`: records `answer` for the current question and highlights it. */
  function SelectAnswer(s: State, answer: string): (r: State)
    ensures r.current == s.current && r.selected == answer && r.timeRemaining == s.timeRemaining
    ensures r.answers.Keys == s.answers.Keys + {s.current}
    ensures r.answers[s.current] == answer
    ensures forall i :: i in s.answers && i != s.current ==> r.answers[i] == s.answers[i]
  {
    s.(selected := answer, answers := s.answers[s.current := answer])
  }

  /** `handleNextQuestion`: moves forward only while a later question exists. */
  function Next(s: State, count: nat): (r: State)
    ensures s.current < count - 1 ==> r.current == s.current + 1
    ensures s.current < count - 1 ==> r.selected == StoredAnswer(s.answers, s.current + 1)
    ensures s.current >= count - 1 ==> r == s
    ensures r.answers == s.answers && r.timeRemaining == s.timeRemaining
  {
    if s.current < count - 1 then
      s.(current := s.current + 1, selected := StoredAnswer(s.answers, s.current + 1))
    else s
  }

  /** `handlePrevQuestion`: moves back only while the pointer is above zero. */
  function Prev(s: State): (r: State)
    ensures s.current > 0 ==> r.current == s.current - 1
    ensures s.current > 0 ==> r.selected == StoredAnswer(s.answers, s.current - 1)
    ensures s.current <= 0 ==> r == s
    ensures r.answers == s.answers && r.timeRemaining == s.timeRemaining
  {
    if s.current > 0 then
      s.(current := s.current - 1, selected := StoredAnswer(s.answers, s.current - 1))
    else s
  }

  /**
   * The navigation tab `index` as the screen wires it: the pointer jumps to
   * any of the five tab indices, whatever the number of questions, and the
   * highlighted answer is not refreshed.
   */
  function TabJump(s: State, index: nat): (r: State)
    requires index < NavTabCount
    ensures r.current == index
    ensures r.selected == s.selected && r.answers == s.answers && r.timeRemaining == s.timeRemaining
  {
    s.(current := index)
  }

  /**
   * The tab jump as the screen evidently intends it: only a tab that names an
   * existing question moves the pointer, and the highlight follows it like
   * Prev/Next.
   */
  function TabJumpChecked(s: State, count: nat, index: nat): (r: State)
    requires index < NavTabCount
    ensures index < count ==> r.current == index && r.selected == StoredAnswer(s.answers, index)
    ensures index >= count ==> r == s
    ensures r.answers == s.answers && r.timeRemaining == s.timeRemaining
  {
    if index < count then s.(current := index, selected := StoredAnswer(s.answers, index)) else s
  }

  /** Answering, Next and Prev keep the pointer on a question and the highlight in step with the answers. */
  lemma {:induction false} StepsKeepInvariant(s: State, count: nat, answer: string)
    requires InBounds(s, count) && Synced(s)
    ensures InBounds(Next(s, count), count) && Synced(Next(s, count))
    ensures InBounds(Prev(s), count) && Synced(Prev(s))
    ensures InBounds(SelectAnswer(s, answer), count) && Synced(SelectAnswer(s, answer))
  {
  }

  /** One click on the screen. */
  datatype Action = Answer(answer: string) | NextClick | PrevClick | TabClick(index: nat)

  predicate ValidAction(a: Action) {
    a.TabClick? ==> a.index < NavTabCount
  }

  /** The effect of one click, as the screen is written. */
  function Apply(s: State, count: nat, a: Action): State
    requires ValidAction(a)
  {
    match a
    case Answer(v) => SelectAnswer(s, v)
    case NextClick => Next(s, count)
    case PrevClick => Prev(s)
    case TabClick(i) => TabJump(s, i)
  }

  /** The effect of one click, with the tab jump corrected. */
  function ApplyChecked(s: State, count: nat, a: Action): State
    requires ValidAction(a)
  {
    match a
    case Answer(v) => SelectAnswer(s, v)
    case NextClick => Next(s, count)
    case PrevClick => Prev(s)
    case TabClick(i) => TabJumpChecked(s, count, i)
  }

  function Run(s: State, count: nat, actions: seq<Action>): State
    requires forall k :: 0 <= k < |actions| ==> ValidAction(actions[k])
    decreases |actions|
  {
    if |actions| == 0 then s else Run(Apply(s, count, actions[0]), count, actions[1..])
  }

  function RunChecked(s: State, count: nat, actions: seq<Action>): State
    requires forall k :: 0 <= k < |actions| ==> ValidAction(actions[k])
    decreases |actions|
  {
    if |actions| == 0 then s else RunChecked(ApplyChecked(s, count, actions[0]), count, actions[1..])
  }

  /** Answers are recorded and read back only through the clicks: the clock is never touched. */
  lemma {:induction false} RunKeepsClock(s: State, count: nat, actions: seq<Action>)
    requires forall k :: 0 <= k < |actions| ==> ValidAction(actions[k])
    ensures Run(s, count, actions).timeRemaining == s.timeRemaining
    decreases |actions|
  {
    if |actions| > 0 {
      RunKeepsClock(Apply(s, count, actions[0]), count, actions[1..]);
    }
  }

  /** Without tab clicks, every reachable state keeps the pointer on a question and the highlight in step. */
  lemma {:induction false} RunWithoutTabsKeepsInvariant(s: State, count: nat, actions: seq<Action>)
    requires InBounds(s, count) && Synced(s)
    requires forall k :: 0 <= k < |actions| ==> ValidAction(actions[k]) && !actions[k].TabClick?
    ensures InBounds(Run(s, count, actions), count) && Synced(Run(s, count, actions))
    decreases |actions|
  {
    if |actions| > 0 {
      StepsKeepInvariant(s, count, if actions[0].Answer? then actions[0].answer else "");
      RunWithoutTabsKeepsInvariant(Apply(s, count, actions[0]), count, actions[1..]);
    }
  }

  /** On the two-question sample, clicking tab C leaves the pointer past the last question. */
  lemma {:induction false} TabJumpLeavesQuestions()
    ensures !InBounds(Run(Init(), SampleQuestionCount, [TabClick(2)]), SampleQuestionCount)
  {
  }

  /** Answering the first question and clicking tab B leaves the first answer highlighted on the second question. */
  lemma {:induction false} TabJumpLeavesStaleHighlight()
    ensures var s := Run(Init(), SampleQuestionCount, [Answer("8%"), TabClick(1)]);
      InBounds(s, SampleQuestionCount) && !Synced(s) && s.selected == "8%"
  {
    var s1 := SelectAnswer(Init(), "8%");
    assert 1 !in s1.answers;
  }

  /** With the corrected tab jump, every reachable state keeps both invariants, whatever the clicks. */
  lemma {:induction false} RunCheckedKeepsInvariant(s: State, count: nat, actions: seq<Action>)
    requires InBounds(s, count) && Synced(s)
    requires forall k :: 0 <= k < |actions| ==> ValidAction(actions[k])
    ensures InBounds(RunChecked(s, count, actions), count) && Synced(RunChecked(s, count, actions))
    decreases |actions|
  {
    if |actions| > 0 {
      StepsKeepInvariant(s, count, if actions[0].Answer? then actions[0].answer else "");
      RunCheckedKeepsInvariant(ApplyChecked(s, count, actions[0]), count, actions[1..]);
    }
  }

  /** `n.toString().padStart(2, '0')`. */
  function Pad2(n: nat): string {
    PadStart(NatToString(n), 2, '0')
  }

  /** `formatTime`: hours, minutes and seconds, each padded to at least two digits, joined by colons. */
  function FormatTime(seconds: nat): string {
    Pad2(seconds / 3600) + ":" + Pad2((seconds % 3600) / 60) + ":" + Pad2(seconds % 60)
  }

  /** A number below 100 pads to exactly two decimal digits that read back as the number. */
  lemma {:induction false} Pad2Below100(n: nat)
    requires n < 100
    ensures |Pad2(n)| == 2 && AllDecimalDigits(Pad2(n)) && ValueOf(Pad2(n), 10) == n
  {
    var p := Pad2(n);
    if n < 10 {
      assert p == ['0', DigitChar(n)];
      assert p[..1] == ['0'];
    } else {
      assert NatToString(n) == [DigitChar(n / 10)] + [DigitChar(n % 10)];
      assert p == [DigitChar(n / 10), DigitChar(n % 10)];
      assert p[..1] == [DigitChar(n / 10)];
      assert ValueOf(p[..1], 10) == n / 10;
    }
  }

  /** Below 100 hours the clock is `HH:MM:SS`: eight characters whose fields recompose the seconds. */
  lemma {:induction false} FormatTimeClock(seconds: nat)
    requires seconds < 360000
    ensures var r := FormatTime(seconds);
      && |r| == 8 && r[2] == ':' && r[5] == ':'
      && AllDecimalDigits(r[0..2]) && AllDecimalDigits(r[3..5]) && AllDecimalDigits(r[6..8])
      && ValueOf(r[3..5], 10) < 60 && ValueOf(r[6..8], 10) < 60
      && 3600 * ValueOf(r[0..2], 10) + 60 * ValueOf(r[3..5], 10) + ValueOf(r[6..8], 10) == seconds
  {
    var h, m, sec := seconds / 3600, (seconds % 3600) / 60, seconds % 60;
    Pad2Below100(h);
    Pad2Below100(m);
    Pad2Below100(sec);
    JoinFields(Pad2(h), Pad2(m), Pad2(sec));
    SplitSeconds(seconds);
  }

  /** Three two-character fields joined by colons sit at positions 0, 3 and 6. */
  lemma {:induction false} JoinFields(a: string, b: string, c: string)
    requires |a| == 2 && |b| == 2 && |c| == 2
    ensures var r := a + ":" + b + ":" + c;
      |r| == 8 && r[2] == ':' && r[5] == ':' && r[0..2] == a && r[3..5] == b && r[6..8] == c
  {
  }

  /** Hours, minutes and seconds recompose the seconds they were taken from. */
  lemma {:induction false} SplitSeconds(seconds: nat)
    ensures (seconds % 3600) / 60 < 60 && seconds % 60 < 60
    ensures 3600 * (seconds / 3600) + 60 * ((seconds % 3600) / 60) + seconds % 60 == seconds
  {
    var r := seconds % 3600;
    assert seconds == 3600 * (seconds / 3600) + r;
    assert r == 60 * (r / 60) + r % 60;
    assert r % 60 == seconds % 60;
  }

  /** From 100 hours on, padding only pads: the hours field keeps all its digits and the full hour count. */
  lemma {:induction false} FormatTimeWideHours(seconds: nat)
    requires seconds >= 360000
    ensures var h := NatToString(seconds / 3600); var r := FormatTime(seconds);
      && |h| >= 3 && |r| == |h| + 6
      && r[..|h|] == h && ValueOf(r[..|h|], 10) == seconds / 3600
      && r[|h|] == ':' && r[|h| + 3] == ':'
  {
    var h := NatToString(seconds / 3600);
    NatToStringWide(seconds / 3600);
    ValueOfNatToString(seconds / 3600);
    Pad2Below100((seconds % 3600) / 60);
    Pad2Below100(seconds % 60);
    var r := FormatTime(seconds);
    assert Pad2(seconds / 3600) == h;
    assert r[..|h|] == h;
  }
}
