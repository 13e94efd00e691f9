/**
 * The teacher dashboard (src/components/dashboard/NewTeacherDashboard.tsx):
 * the quick create-test form, the gender and class groupings of results, the
 * last-ten performance trend and the distinct-student count. The code RPC and
 * the insert are parameters; `completed_at` is a timestamp already parsed.
 */
module TeacherDashboard {
  import opened Wrappers
  import opened Text
  import opened Seqs
  import opened Grouping

  /** The trend chart shows at most this many points. */
  const TrendPoints: nat := 10
  const MissingFieldsMessage := "Please fill in all fields"

  /** The joined profile of a result's student. */
  datatype Profile = Profile(gender: Option<string>, grade: JsValue, className: JsValue)

  /** A result of one of the teacher's tests; `profile` is `None` when the join found no profile. */
  datatype TeacherResult = TeacherResult(
    studentId: string,
    score: Option<int>,
    completedAt: int,
    profile: Option<Profile>)

  /** The create form; the duration is the raw text of its input. */
  datatype Form = Form(title: string, subject: string, duration: string)

  /** The form as it starts and as it is reset after a created test. */
  const EmptyForm := Form("", "", "60")

  /** The row inserted into `tests`; a duration that does not parse is sent as `null`. */
  datatype TestRow = TestRow(
    testCode: string,
    subject: string,
    title: string,
    durationMinutes: Option<int>,
    createdBy: Option<string>)

  /**
   * `handleCreateTest` with the code RPC's and the insert's outcomes: an
   * empty title or subject is refused before the RPC; a failing RPC or insert
   * reports its message; otherwise the row carries the code, the subject as
   * chosen, and the duration parsed with no fallback.
   */
  function CreateTest(form: Form, user: Option<string>, rpc: string -> Parse<string>,
                      insert: TestRow -> Option<string>): (r: Result<TestRow, string>)
    ensures form.title == "" || form.subject == "" ==> r == Err(MissingFieldsMessage)
    ensures r.Ok? ==> && form.title != "" && form.subject != ""
                      && rpc(form.subject) == Parsed(r.value.testCode)
                      && insert(r.value) == None
    ensures r.Ok? ==> && r.value.subject == form.subject && r.value.title == form.title
                      && r.value.durationMinutes == ParseInt(form.duration) && r.value.createdBy == user
    ensures form.title != "" && form.subject != "" && rpc(form.subject).Throws? ==> r == Err(rpc(form.subject).message)
    ensures form.title != "" && form.subject != "" && rpc(form.subject).Parsed? ==>
              var row := TestRow(rpc(form.subject).value, form.subject, form.title, ParseInt(form.duration), user);
              && (insert(row).None? ==> r == Ok(row))
              && (insert(row).Some? ==> r == Err(insert(row).value))
  {
    if form.title == "" || form.subject == "" then Err(MissingFieldsMessage)
    else match rpc(form.subject)
      case Throws(m) => Err(m)
      case Parsed(code) =>
        var row := TestRow(code, form.subject, form.title, ParseInt(form.duration), user);
        match insert(row)
        case Some(m) => Err(m)
        case None => Ok(row)
  }

  /** The form after a submit: reset when a test was created, kept otherwise. */
  function FormAfter(form: Form, r: Result<TestRow, string>): (f: Form)
    ensures r.Ok? ==> f == EmptyForm
    ensures r.Err? ==> f == form
  {
    if r.Ok? then EmptyForm else form
  }

  /** An incomplete form is refused whatever the RPC and the insert would have answered. */
  lemma {:induction false} MissingFieldsBeforeRpc(form: Form, u: Option<string>, rpc1: string -> Parse<string>, rpc2: string -> Parse<string>,
                               ins1: TestRow -> Option<string>, ins2: TestRow -> Option<string>)
    requires form.title == "" || form.subject == ""
    ensures CreateTest(form, u, rpc1, ins1) == CreateTest(form, u, rpc2, ins2)
  {
  }

  /**
   * The duration a submitted form sends: 60 from the reset form, `null` from
   * a cleared input, as there is no fallback here.
   */
  lemma {:induction false} CreateTestDuration(form: Form, u: Option<string>, rpc: string -> Parse<string>, insert: TestRow -> Option<string>)
    requires CreateTest(form, u, rpc, insert).Ok?
    ensures form.duration == EmptyForm.duration ==> CreateTest(form, u, rpc, insert).value.durationMinutes == Some(60)
    ensures form.duration == "" ==> CreateTest(form, u, rpc, insert).value.durationMinutes == None
  {
    assert NatToString(60) == EmptyForm.duration by {
      assert NatToString(60) == NatToString(6) + [DigitChar(0)];
    }
    ParseIntOfNatToString(60);
    ParseIntOfBlank("");
  }

  /** `r.profiles?.gender || 'Unknown'`. */
  function GenderOf(r: TeacherResult): (g: string)
    ensures g != ""
    ensures r.profile.None? ==> g == "Unknown"
    ensures r.profile.Some? && r.profile.value.gender.Some? && r.profile.value.gender.value != "" ==>
              g == r.profile.value.gender.value
    ensures r.profile.Some? && Falsy(r.profile.value.gender) ==> g == "Unknown"
  {
    if r.profile.None? then "Unknown" else TextOr(r.profile.value.gender, "Unknown")
  }

  /** One entry per result: its gender label and its score, a missing score counting as 0. */
  function GenderEntries(results: seq<TeacherResult>): (es: seq<Entry>)
    ensures |es| == |results|
    ensures forall i :: 0 <= i < |results| ==> es[i] == Entry(GenderOf(results[i]), IntOr(results[i].score, 0))
  {
    seq(|results|, i requires 0 <= i < |results| => Entry(GenderOf(results[i]), IntOr(results[i].score, 0)))
  }

  /** `genderPerformance` before the averages: `[gender, { total, count }]` buckets. */
  function GenderGroups(results: seq<TeacherResult>): seq<Group> {
    GroupBy(GenderEntries(results))
  }

  /**
   * Gender buckets: distinct labels; each counts its results and sums their
   * scores (missing as 0); the counts add up to the number of results.
   */
  lemma {:induction false} GenderGroupsTotals(results: seq<TeacherResult>)
    ensures var gs := GenderGroups(results); var es := GenderEntries(results);
      && DistinctKeys(gs)
      && (forall j :: 0 <= j < |gs| ==> gs[j].count == Occurrences(es, gs[j].key) > 0 && gs[j].total == SumFor(es, gs[j].key))
      && TotalCount(gs) == |results|
  {
    GroupByBuckets(GenderEntries(results));
  }

  function GradeOf(r: TeacherResult): JsValue {
    if r.profile.None? then Undefined else r.profile.value.grade
  }

  function ClassOf(r: TeacherResult): JsValue {
    if r.profile.None? then Undefined else r.profile.value.className
  }

  /** `${r.profiles?.grade}-${r.profiles?.class}`. */
  function ClassKey(r: TeacherResult): (k: string)
    ensures |k| == |Show(GradeOf(r))| + 1 + |Show(ClassOf(r))|
    ensures k[|Show(GradeOf(r))|] == '-'
    ensures k[..|Show(GradeOf(r))|] == Show(GradeOf(r)) && k[|Show(GradeOf(r))| + 1..] == Show(ClassOf(r))
  {
    Show(GradeOf(r)) + "-" + Show(ClassOf(r))
  }

  /** The class label as written: the template literal, `|| 'Unknown'`. */
  function ClassLabel(r: TeacherResult): string {
    TextOr(Some(ClassKey(r)), "Unknown")
  }

  /** The template literal is never empty, so the `Unknown` fallback never applies. */
  lemma {:induction false} ClassFallbackUnreachable(r: TeacherResult)
    ensures ClassLabel(r) == ClassKey(r)
    ensures ClassLabel(r) != "Unknown"
  {
  }

  /** A result whose student has no profile is filed under `undefined-undefined`. */
  lemma {:induction false} ClassLabelWithoutProfile(r: TeacherResult)
    requires r.profile.None?
    ensures ClassLabel(r) == "undefined-undefined"
  {
  }

  /** Grade and class are both present. */
  predicate HasClass(r: TeacherResult) {
    GradeOf(r).Shown? && ClassOf(r).Shown?
  }

  /** The class label as evidently intended: `Unknown` whenever grade or class is missing. */
  function ClassLabelChecked(r: TeacherResult): (k: string)
    ensures k == "Unknown" <==> !HasClass(r)
    ensures HasClass(r) ==> k == GradeOf(r).text + "-" + ClassOf(r).text
  {
    ClassFallbackUnreachable(r);
    if HasClass(r) then ClassKey(r) else "Unknown"
  }

  function ClassEntries(results: seq<TeacherResult>): (es: seq<Entry>)
    ensures |es| == |results|
    ensures forall i :: 0 <= i < |results| ==> es[i] == Entry(ClassLabel(results[i]), IntOr(results[i].score, 0))
  {
    seq(|results|, i requires 0 <= i < |results| => Entry(ClassLabel(results[i]), IntOr(results[i].score, 0)))
  }

  function ClassEntriesChecked(results: seq<TeacherResult>): (es: seq<Entry>)
    ensures |es| == |results|
    ensures forall i :: 0 <= i < |results| ==> es[i] == Entry(ClassLabelChecked(results[i]), IntOr(results[i].score, 0))
  {
    seq(|results|, i requires 0 <= i < |results| => Entry(ClassLabelChecked(results[i]), IntOr(results[i].score, 0)))
  }

  /** `classPerformance` before the averages, as written. */
  function ClassGroups(results: seq<TeacherResult>): seq<Group> {
    GroupBy(ClassEntries(results))
  }

  /** `classPerformance` before the averages, with missing grade or class filed under `Unknown`. */
  function ClassGroupsChecked(results: seq<TeacherResult>): seq<Group> {
    GroupBy(ClassEntriesChecked(results))
  }

  /** As written, no class bucket is `Unknown`, the buckets are distinct, and their counts add up to the results. */
  lemma {:induction false} ClassGroupsTotals(results: seq<TeacherResult>)
    ensures var gs := ClassGroups(results);
      && DistinctKeys(gs) && TotalCount(gs) == |results|
      && !HasKey(gs, "Unknown")
  {
    var es := ClassEntries(results);
    GroupByBuckets(es);
    GroupByCounts(es, "Unknown");
    forall i | 0 <= i < |results| ensures es[i].key != "Unknown" {
      ClassFallbackUnreachable(results[i]);
    }
    NoOccurrence(es, "Unknown");
  }

  /** Corrected, the `Unknown` bucket exists exactly when some result lacks a grade or class. */
  lemma {:induction false} ClassGroupsCheckedTotals(results: seq<TeacherResult>)
    ensures var gs := ClassGroupsChecked(results);
      && DistinctKeys(gs) && TotalCount(gs) == |results|
      && (HasKey(gs, "Unknown") <==> exists i :: 0 <= i < |results| && !HasClass(results[i]))
  {
    var es := ClassEntriesChecked(results);
    GroupByBuckets(es);
    GroupByCounts(es, "Unknown");
    if exists i :: 0 <= i < |results| && !HasClass(results[i]) {
      var i :| 0 <= i < |results| && !HasClass(results[i]);
      SomeOccurrence(es, "Unknown", i);
    } else {
      NoOccurrence(es, "Unknown");
    }
  }

  /** A label no entry carries occurs zero times. */
  lemma {:induction false} NoOccurrence(es: seq<Entry>, k: string)
    requires forall i :: 0 <= i < |es| ==> es[i].key != k
    ensures Occurrences(es, k) == 0
  {
    if |es| > 0 {
      NoOccurrence(es[..|es| - 1], k);
    }
  }

  /** A label carried by entry `i` occurs. */
  lemma {:induction false} SomeOccurrence(es: seq<Entry>, k: string, i: nat)
    requires i < |es| && es[i].key == k
    ensures Occurrences(es, k) > 0
  {
    if i < |es| - 1 {
      SomeOccurrence(es[..|es| - 1], k, i);
    }
  }

  function CompletedKey(r: TeacherResult): int {
    r.completedAt
  }

  /** The trend's window: the ten latest results by completion time, oldest first. */
  function LatestWindow(results: seq<TeacherResult>): (w: seq<TeacherResult>)
    ensures |w| == if |results| < TrendPoints then |results| else TrendPoints
    ensures SortedBy(w, CompletedKey)
  {
    var sorted := SortBy(results, CompletedKey);
    var w := Last(sorted, TrendPoints);
    SortedSuffix(sorted, CompletedKey, |sorted| - |w|);
    w
  }

  /**
   * The window holds the latest results: the results split into the window
   * and the rest, and nothing left out was completed after anything kept.
   */
  lemma {:induction false} LatestWindowIsLatest(results: seq<TeacherResult>)
    ensures exists rest: seq<TeacherResult> ::
      && multiset(rest) + multiset(LatestWindow(results)) == multiset(results)
      && forall i, j :: 0 <= i < |rest| && 0 <= j < |LatestWindow(results)| ==>
           rest[i].completedAt <= LatestWindow(results)[j].completedAt
  {
    LastOfSortedIsLargest(results, CompletedKey, TrendPoints);
  }

  /** A trend point `{ test, score }`. */
  datatype TrendPoint = TrendPoint(test: string, score: int)

  /** The points of a window, labelled `T1`, `T2`, ..., a missing score shown as 0. */
  function LabelWindow(w: seq<TeacherResult>): (r: seq<TrendPoint>)
    ensures |r| == |w|
    ensures forall i :: 0 <= i < |r| ==> r[i].test == "T" + NatToString(i + 1) && r[i].score == IntOr(w[i].score, 0)
  {
    seq(|w|, i requires 0 <= i < |w| => TrendPoint("T" + NatToString(i + 1), IntOr(w[i].score, 0)))
  }

  /** `performanceTrend`: the latest window's results in completion order, labelled `T1`, `T2`, .... */
  function PerformanceTrend(results: seq<TeacherResult>): (r: seq<TrendPoint>)
    ensures |r| <= TrendPoints
    ensures var w := LatestWindow(results);
      && |r| == |w|
      && forall i :: 0 <= i < |r| ==> r[i].test == "T" + NatToString(i + 1) && r[i].score == IntOr(w[i].score, 0)
  {
    LabelWindow(LatestWindow(results))
  }

  /** The student ids that occur among the results: `new Set(allResults.map(r => r.student_id))`. */
  function StudentIds(results: seq<TeacherResult>): set<string> {
    if |results| == 0 then {} else StudentIds(results[..|results| - 1]) + {results[|results| - 1].studentId}
  }

  /** `StudentIds` holds exactly the ids of the results. */
  lemma {:induction false} StudentIdsMembers(results: seq<TeacherResult>, id: string)
    ensures id in StudentIds(results) <==> exists i :: 0 <= i < |results| && results[i].studentId == id
  {
    if |results| > 0 {
      var init := results[..|results| - 1];
      StudentIdsMembers(init, id);
      if exists i :: 0 <= i < |init| && init[i].studentId == id {
        var i :| 0 <= i < |init| && init[i].studentId == id;
        assert results[i].studentId == id;
      }
      if exists i :: 0 <= i < |results| && results[i].studentId == id {
        var i :| 0 <= i < |results| && results[i].studentId == id;
        if i < |init| {
          assert init[i].studentId == id;
        }
      }
    }
  }

  predicate DistinctStudentIds(results: seq<TeacherResult>) {
    forall i, j :: 0 <= i < j < |results| ==> results[i].studentId != results[j].studentId
  }

  /** The total-students figure. */
  function DistinctStudents(results: seq<TeacherResult>): nat {
    |StudentIds(results)|
  }

  /**
   * The total-students figure is at most the number of results, and equals it
   * exactly when no student has two results.
   */
  lemma {:induction false} DistinctStudentsBound(results: seq<TeacherResult>)
    ensures DistinctStudents(results) <= |results|
    ensures DistinctStudents(results) == |results| <==> DistinctStudentIds(results)
  {
    if |results| > 0 {
      var n := |results|;
      var init, last := results[..n - 1], results[n - 1];
      DistinctStudentsBound(init);
      StudentIdsMembers(init, last.studentId);
      if last.studentId in StudentIds(init) {
        var i :| 0 <= i < |init| && init[i].studentId == last.studentId;
        assert results[i].studentId == results[n - 1].studentId;
      } else {
        assert |StudentIds(results)| == |StudentIds(init)| + 1;
        if DistinctStudentIds(init) {
          forall i, j | 0 <= i < j < n ensures results[i].studentId != results[j].studentId {
            if j < n - 1 {
              assert init[i] == results[i] && init[j] == results[j];
            } else {
              assert init[i] == results[i];
            }
          }
        }
        if DistinctStudentIds(results) {
          assert DistinctStudentIds(init);
        }
      }
    }
  }
}
