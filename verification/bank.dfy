/**
 * The stored question record shared by the question-bank screens
 * (src/components/teacher/TestEditor.tsx:16-30, QuestionEditor.tsx:12-26) and
 * written by the PDF extractor's save, plus the option letters they derive
 * from a position with `String.fromCharCode(65 + i)`.
 */
module QuestionBank {
  import opened Wrappers

  /** One answer choice `{ id, text }`; `id` is its letter. */
  datatype OptionEntry = OptionEntry(id: string, text: string)

  /** A question as kept in the `questions` store; `None` is an absent (or null) field. */
  datatype Question = Question(
    id: string,
    testId: string,
    questionText: string,
    questionType: string,
    options: seq<OptionEntry>,
    correctAnswer: string,
    difficulty: string,
    passageTitle: Option<string>,
    passageText: Option<string>,
    mediaUrl: Option<string>,
    mediaType: Option<string>,
    marks: int,
    orderIndex: int,
    createdAt: Option<string>)

  /**
   * Positions whose letter `String.fromCharCode(65 + i)` is a single Unicode
   * scalar value below the surrogate range.
   */
  const LetterPositions: nat := 0xD800 - 65

  /** `String.fromCharCode(65 + i)`: 'A' for 0, 'B' for 1, and so on. */
  function Letter(i: nat): (r: string)
    requires i < LetterPositions
    ensures |r| == 1 && r[0] as int == 65 + i
  {
    [(65 + i) as char]
  }

  /** Distinct positions get distinct letters, so a letter names one option. */
  lemma {:induction false} LetterInjective(i: nat, j: nat)
    requires i < LetterPositions && j < LetterPositions
    ensures Letter(i) == Letter(j) <==> i == j
  {
    if Letter(i) == Letter(j) {
      assert Letter(i)[0] == Letter(j)[0];
    }
  }

  /** At most one record carries a given id (ids come from `crypto.randomUUID`). */
  predicate UniqueIds(qs: seq<Question>) {
    forall i, j :: 0 <= i < j < |qs| ==> qs[i].id != qs[j].id
  }
}
