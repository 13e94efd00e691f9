/**
 * The test-creation wizard (src/components/teacher/CreateTestWizard.tsx):
 * the six-character test code and the first step that validates the basic
 * information and inserts the test. The signed-in user, the random draws and
 * the database insert are parameters.
 */
module Wizard {
  import opened Wrappers
  import opened Text

  /** The 36 characters a code's tail is drawn from. */
  const CodeAlphabet: string := "ABCDEFGHIJKLMNOPQRSTUVWXYZ0123456789"
  /** The number of drawn characters after the subject letter. */
  const DrawCount: nat := 5
  const DefaultDuration: int := 60

  const MissingFieldsMessage := "Please fill in all fields"
  const NotLoggedInMessage := "You must be logged in"

  /** The code's first letter: from the subject as chosen, before any lower-casing. */
  function SubjectPrefix(subject: string): (c: char)
    ensures c == 'E' <==> subject == "English"
    ensures c == 'S' <==> subject == "Science"
    ensures c == 'E' || c == 'S' || c == 'M'
  {
    if subject == "English" then 'E' else if subject == "Science" then 'S' else 'M'
  }

  /** Each draw is `Math.floor(Math.random() * 36)`: an index into the alphabet. */
  predicate ValidDraws(draws: seq<nat>) {
    |draws| == DrawCount && forall i :: 0 <= i < |draws| ==> draws[i] < |CodeAlphabet|
  }

  /** No character occurs twice in the alphabet. */
  lemma {:induction false} AlphabetDistinct()
    ensures forall i, j :: 0 <= i < j < |CodeAlphabet| ==> CodeAlphabet[i] != CodeAlphabet[j]
  {
    assert forall i :: 0 <= i < 26 ==> CodeAlphabet[i] as int == 'A' as int + i;
    assert forall i :: 26 <= i < 36 ==> CodeAlphabet[i] as int == '0' as int + (i - 26);
  }

  /** `generateTestCode`: the subject letter followed by the five drawn characters. */
  function GenerateTestCode(subject: string, draws: seq<nat>): (code: string)
    requires ValidDraws(draws)
    ensures |code| == 1 + DrawCount
    ensures code[0] == SubjectPrefix(subject)
    ensures forall i :: 1 <= i < |code| ==> code[i] == CodeAlphabet[draws[i - 1]]
  {
    [SubjectPrefix(subject)] + seq(DrawCount, i requires 0 <= i < DrawCount => CodeAlphabet[draws[i]])
  }

  /** Every code is already upper case, so upper-casing what a student types cannot make it miss. */
  lemma {:induction false} GenerateTestCodeUpper(subject: string, draws: seq<nat>)
    requires ValidDraws(draws)
    ensures ToUpper(GenerateTestCode(subject, draws)) == GenerateTestCode(subject, draws)
  {
    var code := GenerateTestCode(subject, draws);
    AlphabetUpper();
    assert forall i :: 1 <= i < |code| ==> code[i] == CodeAlphabet[draws[i - 1]];
    ToUpperKeeps(code);
  }

  /** Every code is plain ASCII, so its JavaScript `length` is its character count. */
  lemma {:induction false} GenerateTestCodeLength(subject: string, draws: seq<nat>)
    requires ValidDraws(draws)
    ensures Utf16Length(GenerateTestCode(subject, draws)) == 1 + DrawCount
  {
    var code := GenerateTestCode(subject, draws);
    assert forall i :: 0 <= i < 26 ==> CodeAlphabet[i] as int == 'A' as int + i;
    assert forall i :: 26 <= i < 36 ==> CodeAlphabet[i] as int == '0' as int + (i - 26);
    assert forall i :: 0 <= i < |code| ==> InPlane(code[i]);
  }

  /** The alphabet has no lower-case letters. */
  lemma {:induction false} AlphabetUpper()
    ensures forall j :: 0 <= j < |CodeAlphabet| ==> !('a' <= CodeAlphabet[j] <= 'z')
  {
    assert forall i :: 0 <= i < 26 ==> CodeAlphabet[i] as int == 'A' as int + i;
    assert forall i :: 26 <= i < 36 ==> CodeAlphabet[i] as int == '0' as int + (i - 26);
  }

  /** The code records its draws: different draws for the same subject give different codes. */
  lemma {:induction false} GenerateTestCodeInjective(subject: string, a: seq<nat>, b: seq<nat>)
    requires ValidDraws(a) && ValidDraws(b)
    ensures GenerateTestCode(subject, a) == GenerateTestCode(subject, b) <==> a == b
  {
    if GenerateTestCode(subject, a) == GenerateTestCode(subject, b) {
      AlphabetDistinct();
      forall i | 0 <= i < DrawCount ensures a[i] == b[i] {
        assert GenerateTestCode(subject, a)[i + 1] == GenerateTestCode(subject, b)[i + 1];
      }
    }
  }

  /** The first step's form. */
  datatype BasicInfo = BasicInfo(title: string, subject: string, durationMinutes: int)

  /** The row inserted into `tests`. */
  datatype NewTest = NewTest(
    title: string,
    subject: string,
    durationMinutes: int,
    testCode: string,
    createdBy: string,
    isActive: bool)

  /** A successful first step: the new test's id and the row that was inserted. */
  datatype Created = Created(testId: string, row: NewTest)

  /**
   * `handleBasicInfoNext` with the signed-in user (`None` when nobody is) and
   * the insert's outcome (its error message, or the new id): an empty title
   * or subject is refused first, then a missing user, then a failed insert.
   */
  function BasicInfoNext(info: BasicInfo, user: Option<string>, draws: seq<nat>,
                         insert: NewTest -> Parse<string>): (r: Result<Created, string>)
    requires ValidDraws(draws)
    ensures info.title == "" || info.subject == "" ==> r == Err(MissingFieldsMessage)
    ensures info.title != "" && info.subject != "" && user.None? ==> r == Err(NotLoggedInMessage)
    ensures r.Ok? ==> && info.title != "" && info.subject != "" && user.Some?
                      && insert(r.value.row) == Parsed(r.value.testId)
    ensures r.Ok? ==> var row := r.value.row;
      && row.title == info.title && row.subject == ToLower(info.subject)
      && row.durationMinutes == info.durationMinutes && row.createdBy == user.value && row.isActive
      && row.testCode == GenerateTestCode(info.subject, draws)
    ensures info.title != "" && info.subject != "" && user.Some? ==>
              var row := NewTest(info.title, ToLower(info.subject), info.durationMinutes,
                                 GenerateTestCode(info.subject, draws), user.value, true);
              && (insert(row).Parsed? ==> r == Ok(Created(insert(row).value, row)))
              && (insert(row).Throws? ==> r == Err(insert(row).message))
  {
    if info.title == "" || info.subject == "" then Err(MissingFieldsMessage)
    else match user
      case None => Err(NotLoggedInMessage)
      case Some(uid) =>
        var row := NewTest(info.title, ToLower(info.subject), info.durationMinutes,
                           GenerateTestCode(info.subject, draws), uid, true);
        match insert(row)
        case Throws(m) => Err(m)
        case Parsed(id) => Ok(Created(id, row))
  }

  /** An incomplete form is refused whatever the user, the draws and the database would have answered. */
  lemma {:induction false} MissingFieldsBeforeAnyCall(info: BasicInfo, u1: Option<string>, u2: Option<string>,
                                   d1: seq<nat>, d2: seq<nat>,
                                   i1: NewTest -> Parse<string>, i2: NewTest -> Parse<string>)
    requires ValidDraws(d1) && ValidDraws(d2)
    requires info.title == "" || info.subject == ""
    ensures BasicInfoNext(info, u1, d1, i1) == BasicInfoNext(info, u2, d2, i2)
  {
  }

  /** A subject chosen as "English" is stored as "english" and its code starts with 'E'; one typed as "english" starts with 'M'. */
  lemma {:induction false} SubjectCasing(title: string, duration: int, uid: string, draws: seq<nat>, insert: NewTest -> Parse<string>)
    requires ValidDraws(draws) && title != ""
    requires insert(NewTest(title, "english", duration, GenerateTestCode("English", draws), uid, true)).Parsed?
    ensures var r := BasicInfoNext(BasicInfo(title, "English", duration), Some(uid), draws, insert);
      r.Ok? && r.value.row.subject == "english" && r.value.row.testCode[0] == 'E'
    ensures GenerateTestCode("english", draws)[0] == 'M'
  {
    assert ToLower("English") == "english";
  }

  /** The duration input: `parseInt(value) || 60`. */
  function DurationInput(text: string): (r: int)
    ensures r != 0
    ensures ParseInt(text).Some? && ParseInt(text).value != 0 ==> r == ParseInt(text).value
    ensures ParseInt(text).None? || ParseInt(text).value == 0 ==> r == DefaultDuration
  {
    IntOr(ParseInt(text), DefaultDuration)
  }

  /** A typed positive number is taken as is; a cleared field or a typed 0 falls back to 60. */
  lemma {:induction false} DurationInputReadsNumbers(n: nat)
    ensures DurationInput(NatToString(n)) == if n == 0 then DefaultDuration else n
    ensures DurationInput("") == DefaultDuration
  {
    ParseIntOfNatToString(n);
    ParseIntOfBlank("");
  }
}
