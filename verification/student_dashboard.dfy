/**
 * The student dashboard (src/components/dashboard/NewStudentDashboard.tsx):
 * the student's own results, the chain of checks a typed test code passes
 * before the test starts, the score chart and the subject and difficulty
 * tallies. The `tests` and `testResults` stores are sequences.
 */
module StudentDashboard {
  import opened Wrappers
  import opened Text
  import opened Seqs
  import opened Grouping
  import Wizard

  /** The length every test code has. */
  const CodeLength: nat := 6
  /** The score chart shows at most this many points. */
  const ChartPoints: nat := 10

  /** A stored result; `None` is an absent field. */
  datatype TestResult = TestResult(
    studentId: string,
    testCode: string,
    subject: Option<string>,
    difficultyLevel: Option<string>,
    score: Option<int>)

  /** A stored test, as far as the code check reads it. */
  datatype StoredTest = StoredTest(id: string, testCode: string, title: string)

  /** The reasons a typed code is refused, in the order they are checked. */
  datatype CodeError =
    | EmptyCode     // "Please enter a test code"
    | WrongLength   // "Test code must be 6 characters"
    | InvalidCode   // "Invalid test code"
    | AlreadyTaken  // "You have already completed this test"

  function OfStudent(studentId: string): TestResult -> bool {
    (r: TestResult) => r.studentId == studentId
  }

  /** The results loaded on sign-in: exactly the student's own, each as often as stored, in stored order. */
  function OwnResults(all: seq<TestResult>, studentId: string): (r: seq<TestResult>)
    ensures forall i :: 0 <= i < |r| ==> r[i].studentId == studentId
    ensures forall x :: multiset(r)[x] == if x.studentId == studentId then multiset(all)[x] else 0
  {
    FilterMultiset(all, OfStudent(studentId));
    Filter(all, OfStudent(studentId))
  }

  /** A student whose results were all stored under their id gets every one of them back. */
  lemma {:induction false} OwnResultsComplete(all: seq<TestResult>, studentId: string)
    requires forall i :: 0 <= i < |all| ==> all[i].studentId == studentId
    ensures OwnResults(all, studentId) == all
  {
    FilterAll(all, OfStudent(studentId));
  }

  function HasCode(code: string): StoredTest -> bool {
    (t: StoredTest) => t.testCode == code
  }

  /**
   * `handleEnterTestCode`: a blank code, then a code whose untrimmed length
   * is not six UTF-16 code units, then a code no test carries (after upper-casing), then a code
   * among the student's results is refused; otherwise the first test with the
   * code becomes the current test.
   */
  function EnterTestCode(code: string, tests: seq<StoredTest>, results: seq<TestResult>): (r: Result<StoredTest, CodeError>)
    ensures IsBlank(code) ==> r == Err(EmptyCode)
    ensures !IsBlank(code) && Utf16Length(code) != CodeLength ==> r == Err(WrongLength)
    ensures !IsBlank(code) && Utf16Length(code) == CodeLength && (forall i :: 0 <= i < |tests| ==> tests[i].testCode != ToUpper(code))
            ==> r == Err(InvalidCode)
    ensures r == Err(AlreadyTaken) <==>
            && !IsBlank(code) && Utf16Length(code) == CodeLength
            && (exists i :: 0 <= i < |tests| && tests[i].testCode == ToUpper(code))
            && (exists j :: 0 <= j < |results| && results[j].testCode == ToUpper(code))
    ensures r.Ok? ==> && !IsBlank(code) && Utf16Length(code) == CodeLength
                      && r.value.testCode == ToUpper(code) && r.value in tests
                      && forall j :: 0 <= j < |results| ==> results[j].testCode != ToUpper(code)
    ensures r.Ok? ==> exists k :: 0 <= k < |tests| && r.value == tests[k]
                                  && forall i :: 0 <= i < k ==> tests[i].testCode != ToUpper(code)
    ensures && !IsBlank(code) && Utf16Length(code) == CodeLength
            && (exists i :: 0 <= i < |tests| && tests[i].testCode == ToUpper(code))
            && (forall j :: 0 <= j < |results| ==> results[j].testCode != ToUpper(code))
            ==> r.Ok?
  {
    if IsBlank(code) then Err(EmptyCode)
    else if Utf16Length(code) != CodeLength then Err(WrongLength)
    else match FirstIndex(tests, HasCode(ToUpper(code)))
      case None => Err(InvalidCode)
      case Some(k) =>
        if exists j :: 0 <= j < |results| && results[j].testCode == ToUpper(code) then Err(AlreadyTaken)
        else Ok(tests[k])
  }

  /** Five characters, one beyond the Basic Multilingual Plane, are six code units. */
  lemma {:induction false} AstralCodeLength()
    ensures Utf16Length("ABCD\U{1F600}") == CodeLength
  {
    var astral := "ABCD\U{1F600}";
    Utf16LengthCons('A', astral[1..]);
    Utf16LengthCons('B', astral[2..]);
    Utf16LengthCons('C', astral[3..]);
    Utf16LengthCons('D', astral[4..]);
    Utf16LengthCons('\U{1F600}', []);
    assert astral == ['A'] + astral[1..] && astral[1..] == ['B'] + astral[2..];
    assert astral[2..] == ['C'] + astral[3..] && astral[3..] == ['D'] + astral[4..];
    assert astral[4..] == ['\U{1F600}'] + [];
  }

  /** The length check counts code units: five characters pass it when one lies beyond the Basic Multilingual Plane. */
  lemma {:induction false} AstralCodeCounted(tests: seq<StoredTest>, results: seq<TestResult>)
    ensures EnterTestCode("ABCD\U{1F600}", tests, results) != Err(WrongLength)
  {
    AstralCodeLength();
    TrimStartKeeps("ABCD\U{1F600}");
  }

  /** The accepted test is the first one stored with the code. */
  lemma {:induction false} EnterTestCodeFirstMatch(code: string, tests: seq<StoredTest>, results: seq<TestResult>)
    requires EnterTestCode(code, tests, results).Ok?
    ensures exists k :: 0 <= k < |tests| && EnterTestCode(code, tests, results).value == tests[k]
                        && forall i :: 0 <= i < k ==> tests[i].testCode != ToUpper(code)
  {
    var k := FirstIndex(tests, HasCode(ToUpper(code))).value;
    assert EnterTestCode(code, tests, results).value == tests[k];
  }

  /**
   * A code made by the wizard opens its test: typed as generated, it passes
   * every check as long as the student has no result for it and no earlier
   * test carries the same code.
   */
  lemma {:induction false} GeneratedCodeOpensTest(subject: string, draws: seq<nat>, tests: seq<StoredTest>, k: nat, results: seq<TestResult>)
    requires Wizard.ValidDraws(draws)
    requires k < |tests| && tests[k].testCode == Wizard.GenerateTestCode(subject, draws)
    requires forall i :: 0 <= i < k ==> tests[i].testCode != tests[k].testCode
    requires forall j :: 0 <= j < |results| ==> results[j].testCode != tests[k].testCode
    ensures EnterTestCode(Wizard.GenerateTestCode(subject, draws), tests, results) == Ok(tests[k])
  {
    var code := Wizard.GenerateTestCode(subject, draws);
    Wizard.GenerateTestCodeUpper(subject, draws);
    Wizard.GenerateTestCodeLength(subject, draws);
    assert !IsWhitespace(code[0]);
    TrimStartKeeps(code);
    var f := FirstIndex(tests, HasCode(ToUpper(code)));
    assert f.Some? by {
      assert HasCode(ToUpper(code))(tests[k]);
    }
  }

  /** A chart point `{ name, score }`. */
  datatype Point = Point(name: string, score: int)

  /** `scoreData`: the first ten results, reversed, named `Test 1`, `Test 2`, ..., a missing score shown as 0. */
  function ScoreData(results: seq<TestResult>): (r: seq<Point>)
    ensures |r| == if |results| < ChartPoints then |results| else ChartPoints
    ensures forall i :: 0 <= i < |r| ==>
      && r[i].name == "Test " + NatToString(i + 1)
      && r[i].score == IntOr(results[|r| - 1 - i].score, 0)
  {
    var window := Reverse(Take(results, ChartPoints));
    seq(|window|, i requires 0 <= i < |window| => Point("Test " + NatToString(i + 1), IntOr(window[i].score, 0)))
  }

  /** The chart's names count up from `Test 1` without gaps: point `i` reads back as `i + 1`. */
  lemma {:induction false} ScoreDataNames(results: seq<TestResult>, i: nat)
    requires i < |ScoreData(results)|
    ensures var name := ScoreData(results)[i].name;
      && name[..5] == "Test " && ParseInt(name[5..]) == Some(i + 1)
  {
    var name := ScoreData(results)[i].name;
    assert name[5..] == NatToString(i + 1);
    ParseIntOfNatToString(i + 1);
  }

  /** The tally label of a result: its value, or `Unknown` when that is absent or empty. */
  function Label(v: Option<string>): (k: string)
    ensures k != ""
    ensures v.Some? && v.value != "" ==> k == v.value
    ensures v.None? || v.value == "" ==> k == "Unknown"
  {
    TextOr(v, "Unknown")
  }

  /** One counted entry per result, labelled by subject. */
  function SubjectEntries(results: seq<TestResult>): (es: seq<Entry>)
    ensures |es| == |results|
    ensures forall i :: 0 <= i < |results| ==> es[i] == Entry(Label(results[i].subject), 1)
  {
    seq(|results|, i requires 0 <= i < |results| => Entry(Label(results[i].subject), 1))
  }

  /** One counted entry per result, labelled by difficulty level. */
  function DifficultyEntries(results: seq<TestResult>): (es: seq<Entry>)
    ensures |es| == |results|
    ensures forall i :: 0 <= i < |results| ==> es[i] == Entry(Label(results[i].difficultyLevel), 1)
  {
    seq(|results|, i requires 0 <= i < |results| => Entry(Label(results[i].difficultyLevel), 1))
  }

  /** `subjectData` as `[name, count]` buckets. */
  function SubjectTally(results: seq<TestResult>): seq<Group> {
    GroupBy(SubjectEntries(results))
  }

  /** `difficultyData` as `[name, count]` buckets. */
  function DifficultyTally(results: seq<TestResult>): seq<Group> {
    GroupBy(DifficultyEntries(results))
  }

  /** Counting ones: the sum of the entries' values is their number. */
  lemma {:induction false} SumOfOnes(es: seq<Entry>, k: string)
    requires forall i :: 0 <= i < |es| ==> es[i].value == 1
    ensures SumFor(es, k) == Occurrences(es, k)
  {
    if |es| > 0 {
      SumOfOnes(es[..|es| - 1], k);
    }
  }

  /**
   * The subject tally: one bucket per distinct label, each counting the
   * results so labelled, and the counts add up to the number of results.
   */
  lemma {:induction false} SubjectTallyCounts(results: seq<TestResult>, k: string)
    ensures DistinctKeys(SubjectTally(results))
    ensures CountOf(SubjectTally(results), k) == Occurrences(SubjectEntries(results), k)
    ensures HasKey(SubjectTally(results), k) <==> exists i :: 0 <= i < |results| && Label(results[i].subject) == k
    ensures TotalCount(SubjectTally(results)) == |results|
    ensures forall j :: 0 <= j < |SubjectTally(results)| ==> SubjectTally(results)[j].total == SubjectTally(results)[j].count
  {
    var es := SubjectEntries(results);
    GroupByCounts(es, k);
    GroupByBuckets(es);
    OccursIff(es, k);
    forall j | 0 <= j < |GroupBy(es)| ensures GroupBy(es)[j].total == GroupBy(es)[j].count {
      SumOfOnes(es, GroupBy(es)[j].key);
    }
  }

  /** The difficulty tally, with the same guarantees. */
  lemma {:induction false} DifficultyTallyCounts(results: seq<TestResult>, k: string)
    ensures DistinctKeys(DifficultyTally(results))
    ensures CountOf(DifficultyTally(results), k) == Occurrences(DifficultyEntries(results), k)
    ensures HasKey(DifficultyTally(results), k) <==> exists i :: 0 <= i < |results| && Label(results[i].difficultyLevel) == k
    ensures TotalCount(DifficultyTally(results)) == |results|
    ensures forall j :: 0 <= j < |DifficultyTally(results)| ==> DifficultyTally(results)[j].total == DifficultyTally(results)[j].count
  {
    var es := DifficultyEntries(results);
    GroupByCounts(es, k);
    GroupByBuckets(es);
    OccursIff(es, k);
    forall j | 0 <= j < |GroupBy(es)| ensures GroupBy(es)[j].total == GroupBy(es)[j].count {
      SumOfOnes(es, GroupBy(es)[j].key);
    }
  }

  /** A label occurs exactly when some entry carries it. */
  lemma {:induction false} OccursIff(es: seq<Entry>, k: string)
    ensures Occurrences(es, k) > 0 <==> exists i :: 0 <= i < |es| && es[i].key == k
  {
    if |es| > 0 {
      var init := es[..|es| - 1];
      OccursIff(init, k);
      if exists i :: 0 <= i < |init| && init[i].key == k {
        var i :| 0 <= i < |init| && init[i].key == k;
        assert es[i].key == k;
      }
      if exists i :: 0 <= i < |es| && es[i].key == k {
        var i :| 0 <= i < |es| && es[i].key == k;
        if i < |init| {
          assert init[i].key == k;
        }
      }
    }
  }
}
