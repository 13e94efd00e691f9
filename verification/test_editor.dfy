/**
 * The test editor (src/components/teacher/TestEditor.tsx): loading a test's
 * questions from the store, saving the test settings and single questions,
 * deleting, expanding, and the per-difficulty counts behind the
 * missing-levels warning. The `tests` and `questions` stores are sequences.
 */
module TestEditor {
  import opened Wrappers
  import opened Text
  import opened Seqs
  import opened QuestionBank
  import Wizard

  /** The default test length in minutes. */
  const DefaultDuration: int := 60

  /**
   * A stored test. `durationMinutes` is the `duration_minutes` field and
   * `legacyDuration` the older `durationMinutes` spelling; `None` is absent.
   */
  datatype Test = Test(
    id: string,
    testCode: string,
    title: string,
    subject: string,
    durationMinutes: Option<int>,
    legacyDuration: Option<int>,
    teacherId: string,
    createdAt: string,
    isActive: Option<bool>)

  /** `duration_minutes || durationMinutes || 60`: the first non-zero of the two fields, else 60. */
  function EffectiveDuration(t: Test): (r: int)
    ensures r != 0
    ensures r == DefaultDuration || r == t.durationMinutes.GetOr(0) || r == t.legacyDuration.GetOr(0)
    ensures t.durationMinutes.Some? && t.durationMinutes.value != 0 ==> r == t.durationMinutes.value
    ensures t.durationMinutes.GetOr(0) == 0 && t.legacyDuration.GetOr(0) != 0 ==> r == t.legacyDuration.value
    ensures t.durationMinutes.GetOr(0) == 0 && t.legacyDuration.GetOr(0) == 0 ==> r == DefaultDuration
  {
    IntOr(t.durationMinutes, IntOr(t.legacyDuration, DefaultDuration))
  }

  /** Saving writes the effective duration into `duration_minutes`; saving again keeps it. */
  lemma {:induction false} EffectiveDurationStable(t: Test, legacy: Option<int>)
    ensures EffectiveDuration(t.(durationMinutes := Some(EffectiveDuration(t)), legacyDuration := legacy)) == EffectiveDuration(t)
  {
  }

  /**
   * The duration input of the settings form: `duration_minutes` takes
   * `parseInt(value) || 60`, the wizard's reading of the same input, and
   * nothing else changes.
   */
  function DurationChange(t: Test, text: string): (r: Test)
    ensures r == t.(durationMinutes := r.durationMinutes)
    ensures EffectiveDuration(r) == Wizard.DurationInput(text)
    ensures ParseInt(text).Some? && ParseInt(text).value != 0 ==> EffectiveDuration(r) == ParseInt(text).value
  {
    t.(durationMinutes := Some(Wizard.DurationInput(text)))
  }

  /** Typing the digits of a positive number sets that duration; clearing the field sets 60, whatever the legacy field holds. */
  lemma {:induction false} DurationChangeOfNumber(t: Test, n: nat, blank: string)
    requires AllWhitespace(blank)
    ensures EffectiveDuration(DurationChange(t, NatToString(n))) == if n == 0 then DefaultDuration else n
    ensures EffectiveDuration(DurationChange(t, blank)) == DefaultDuration
  {
    ParseIntOfNatToString(n);
    ParseIntOfBlank(blank);
  }

  function ForTest(testId: string): Question -> bool {
    (q: Question) => q.testId == testId
  }

  function OrderKey(q: Question): int {
    q.orderIndex
  }

  /**
   * `loadQuestions`: exactly the stored questions of the test, each as often
   * as stored, sorted by `order_index`.
   */
  function LoadQuestions(store: seq<Question>, testId: string): (r: seq<Question>)
    ensures SortedBy(r, OrderKey)
    ensures forall i :: 0 <= i < |r| ==> r[i].testId == testId
    ensures forall x :: multiset(r)[x] == if x.testId == testId then multiset(store)[x] else 0
  {
    var f := Filter(store, ForTest(testId));
    FilterMultiset(store, ForTest(testId));
    var r := SortBy(f, OrderKey);
    assert forall i :: 0 <= i < |r| ==> r[i] in multiset(f) by {
      forall i | 0 <= i < |r| ensures r[i] in multiset(f) {
        assert r[i] in multiset(r);
      }
    }
    r
  }

  /** Questions of the test that share an `order_index` keep their stored order. */
  lemma {:induction false} LoadQuestionsStable(store: seq<Question>, testId: string, k: int)
    ensures Filter(LoadQuestions(store, testId), KeyIs(OrderKey, k))
         == Filter(Filter(store, ForTest(testId)), KeyIs(OrderKey, k))
  {
    SortByStable(Filter(store, ForTest(testId)), OrderKey, k);
  }

  function HasTestId(id: string): Test -> bool {
    (t: Test) => t.id == id
  }

  /**
   * `handleSaveTest`: the first stored test with the id takes the edited
   * title, subject and effective duration; every other field and every other
   * test stay. `None` when no test has the id: nothing is written.
   */
  function SaveTest(tests: seq<Test>, id: string, edited: Test): (r: Option<seq<Test>>)
    ensures r.None? <==> forall i :: 0 <= i < |tests| ==> tests[i].id != id
    ensures r.Some? ==> |r.value| == |tests|
    ensures r.Some? ==> var k := FirstIndex(tests, HasTestId(id)).value;
      && r.value[k] == tests[k].(title := edited.title, subject := edited.subject,
                                 durationMinutes := Some(EffectiveDuration(edited)))
      && forall i :: 0 <= i < |tests| && i != k ==> r.value[i] == tests[i]
  {
    match FirstIndex(tests, HasTestId(id))
    case None => None
    case Some(k) =>
      Some(tests[k := tests[k].(title := edited.title, subject := edited.subject,
                                durationMinutes := Some(EffectiveDuration(edited)))])
  }

  /** A saved test always carries a non-zero duration, and keeps its id, code and owner. */
  lemma {:induction false} SaveTestKeepsIdentity(tests: seq<Test>, id: string, edited: Test)
    requires SaveTest(tests, id, edited).Some?
    ensures var k := FirstIndex(tests, HasTestId(id)).value; var saved := SaveTest(tests, id, edited).value[k];
      && saved.id == id && saved.testCode == tests[k].testCode && saved.teacherId == tests[k].teacherId
      && saved.durationMinutes.Some? && saved.durationMinutes.value != 0
  {
  }

  function HasQuestionId(id: string): Question -> bool {
    (q: Question) => q.id == id
  }

  /**
   * `handleSaveQuestion`: the first stored question with the updated
   * record's id is replaced by it, in place. `None` when the id is absent.
   */
  function SaveQuestion(store: seq<Question>, updated: Question): (r: Option<seq<Question>>)
    ensures r.None? <==> forall i :: 0 <= i < |store| ==> store[i].id != updated.id
    ensures r.Some? ==> |r.value| == |store|
    ensures r.Some? ==> var k := FirstIndex(store, HasQuestionId(updated.id)).value;
      && r.value[k] == updated
      && forall i :: 0 <= i < |store| && i != k ==> r.value[i] == store[i]
  {
    match FirstIndex(store, HasQuestionId(updated.id))
    case None => None
    case Some(k) => Some(store[k := updated])
  }

  /** With unique ids, saving a question keeps the ids unique and the record is the one found by its id. */
  lemma {:induction false} SaveQuestionKeepsUniqueIds(store: seq<Question>, updated: Question)
    requires UniqueIds(store) && SaveQuestion(store, updated).Some?
    ensures UniqueIds(SaveQuestion(store, updated).value)
  {
    var k := FirstIndex(store, HasQuestionId(updated.id)).value;
    var r := SaveQuestion(store, updated).value;
    forall i, j | 0 <= i < j < |r| ensures r[i].id != r[j].id {
      assert r[k].id == store[k].id;
    }
  }

  function NotQuestionId(id: string): Question -> bool {
    (q: Question) => q.id != id
  }

  /** `handleDeleteQuestion`: drops every stored question with the id and keeps the rest, each as often as before. */
  function DeleteQuestion(store: seq<Question>, id: string): (r: seq<Question>)
    ensures forall i :: 0 <= i < |r| ==> r[i].id != id
    ensures forall x :: multiset(r)[x] == if x.id == id then 0 else multiset(store)[x]
  {
    FilterMultiset(store, NotQuestionId(id));
    Filter(store, NotQuestionId(id))
  }

  /** Deletion keeps the relative order of what survives: it distributes over concatenation. */
  lemma {:induction false} DeleteQuestionAppend(a: seq<Question>, b: seq<Question>, id: string)
    ensures DeleteQuestion(a + b, id) == DeleteQuestion(a, id) + DeleteQuestion(b, id)
  {
    FilterAppend(a, b, NotQuestionId(id));
  }

  /** `toggleExpand`: the id leaves the set if present and joins it otherwise; no other id moves. */
  function ToggleExpand(expanded: set<string>, id: string): (r: set<string>)
    ensures id in r <==> id !in expanded
    ensures forall x :: x != id ==> (x in r <==> x in expanded)
  {
    if id in expanded then expanded - {id} else expanded + {id}
  }

  /** Expanding and collapsing the same question restores the set. */
  lemma {:induction false} ToggleExpandTwice(expanded: set<string>, id: string)
    ensures ToggleExpand(ToggleExpand(expanded, id), id) == expanded
  {
  }

  function HasDifficulty(level: string): Question -> bool {
    (q: Question) => q.difficulty == level
  }

  /** The four difficulty labels the editor counts. */
  predicate KnownLevel(level: string) {
    level == "practice" || level == "easy" || level == "medium" || level == "hard"
  }

  function UnknownLevel(): Question -> bool {
    (q: Question) => !KnownLevel(q.difficulty)
  }

  datatype Stats = Stats(practice: nat, easy: nat, medium: nat, hard: nat)

  /** The difficulty labels of the list, in order. */
  function Difficulties(qs: seq<Question>): (ds: seq<string>)
    ensures |ds| == |qs|
    ensures forall i :: 0 <= i < |qs| ==> ds[i] == qs[i].difficulty
  {
    seq(|qs|, i requires 0 <= i < |qs| => qs[i].difficulty)
  }

  /** Counting the questions of one label is that label's multiplicity among the difficulties. */
  lemma {:induction false} CountIsMultiplicity(qs: seq<Question>, level: string)
    ensures Count(qs, HasDifficulty(level)) == multiset(Difficulties(qs))[level]
  {
    if |qs| > 0 {
      CountIsMultiplicity(qs[1..], level);
      assert Difficulties(qs) == [qs[0].difficulty] + Difficulties(qs[1..]);
    }
  }

  /** `getDifficultyStats`: for each of the four labels, the number of questions carrying it. */
  function DifficultyStats(qs: seq<Question>): (r: Stats)
    ensures r.practice == multiset(Difficulties(qs))["practice"]
    ensures r.easy == multiset(Difficulties(qs))["easy"]
    ensures r.medium == multiset(Difficulties(qs))["medium"]
    ensures r.hard == multiset(Difficulties(qs))["hard"]
    ensures r.practice + r.easy + r.medium + r.hard <= |qs|
  {
    StatsPartition(qs);
    CountIsMultiplicity(qs, "practice");
    CountIsMultiplicity(qs, "easy");
    CountIsMultiplicity(qs, "medium");
    CountIsMultiplicity(qs, "hard");
    Stats(Count(qs, HasDifficulty("practice")), Count(qs, HasDifficulty("easy")),
          Count(qs, HasDifficulty("medium")), Count(qs, HasDifficulty("hard")))
  }

  /** Every question falls in exactly one of the four labels or outside them all. */
  lemma {:induction false} StatsPartition(qs: seq<Question>)
    ensures Count(qs, HasDifficulty("practice")) + Count(qs, HasDifficulty("easy"))
          + Count(qs, HasDifficulty("medium")) + Count(qs, HasDifficulty("hard"))
          + Count(qs, UnknownLevel()) == |qs|
  {
    if |qs| > 0 {
      StatsPartition(qs[1..]);
    }
  }

  /** The counts sum to the list length exactly when every question carries one of the four labels. */
  lemma {:induction false} StatsCoverAll(qs: seq<Question>)
    ensures var s := DifficultyStats(qs);
      s.practice + s.easy + s.medium + s.hard == |qs| <==> forall i :: 0 <= i < |qs| ==> KnownLevel(qs[i].difficulty)
  {
    StatsPartition(qs);
    CountZero(qs, UnknownLevel());
  }

  /** The warning condition: some count is zero. */
  predicate MissingLevels(s: Stats) {
    s.practice == 0 || s.easy == 0 || s.medium == 0 || s.hard == 0
  }

  /** The warning shows exactly when some label has no question at all. */
  lemma {:induction false} MissingLevelsIff(qs: seq<Question>)
    ensures MissingLevels(DifficultyStats(qs)) <==>
      exists level :: KnownLevel(level) && forall i :: 0 <= i < |qs| ==> qs[i].difficulty != level
  {
    CountZero(qs, HasDifficulty("practice"));
    CountZero(qs, HasDifficulty("easy"));
    CountZero(qs, HasDifficulty("medium"));
    CountZero(qs, HasDifficulty("hard"));
    var s := DifficultyStats(qs);
    if s.practice == 0 {
      assert KnownLevel("practice");
    } else if s.easy == 0 {
      assert KnownLevel("easy");
    } else if s.medium == 0 {
      assert KnownLevel("medium");
    } else if s.hard == 0 {
      assert KnownLevel("hard");
    }
  }
}
