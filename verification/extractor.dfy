/**
 * The AI question extractor (src/components/teacher/PDFExtractor.tsx): the
 * payload sent to the extraction function, the normalisation of the records
 * it returns, the edits on the extracted list, and the save that appends the
 * selected records to the question store. The PDF reading itself (pdf.js and
 * canvas) is outside the model: its text and images arrive as parameters.
 */
module Extractor {
  import opened Wrappers
  import opened Text
  import opened Seqs
  import opened QuestionBank

  /** At most this many UTF-16 code units of PDF text are sent. */
  const MaxPayloadUnits: nat := 50000
  /** At most this many page images are sent. */
  const MaxPayloadImages: nat := 5

  const NoFileMessage := "Please select a PDF file"
  const NoFileYetMessage := "Please select a PDF file first"
  const NoTextMessage := "Could not extract text from PDF. It may be image-based."
  const ExtractFallbackMessage := "Failed to extract questions"
  const NothingSelectedMessage := "Please select at least one question"

  /** A question in the extractor's working list. */
  datatype ExtractedQuestion = ExtractedQuestion(
    id: string,
    passageTitle: Option<string>,
    passageText: Option<string>,
    questionText: string,
    options: seq<string>,
    correctAnswer: string,
    difficulty: string,
    hasImage: bool,
    imageDescription: Option<string>,
    selected: bool,
    editing: bool)

  /** A record as the AI returns it: any field may be missing. */
  datatype RawQuestion = RawQuestion(
    passageTitle: Option<string>,
    passageText: Option<string>,
    questionText: Option<string>,
    options: Option<seq<string>>,
    correctAnswer: Option<string>,
    difficulty: Option<string>,
    hasImage: Option<bool>,
    imageDescription: Option<string>)

  datatype PdfFile = PdfFile(name: string, mimeType: string)

  /** The extractor's state: the chosen file and the working list. */
  datatype ExtractorState = ExtractorState(file: Option<PdfFile>, extracted: seq<ExtractedQuestion>)

  /** The body of the call to the extraction function. */
  datatype Payload = Payload(extractedText: string, imageBase64s: seq<string>)

  /** What the extraction function answers: an error field, or a list of records. */
  datatype InvokeData = InvokeData(error: Option<string>, questions: Option<seq<RawQuestion>>)

  function TextOrNull(v: Option<string>): Option<string> {
    if Falsy(v) then None else v
  }

  const BlankOptions: seq<string> := ["", "", "", ""]

  /** `handleFileSelect`: only a file typed exactly `application/pdf` is taken, and it empties the list. */
  function SelectFile(s: ExtractorState, chosen: Option<PdfFile>): (r: Result<ExtractorState, string>)
    ensures r.Ok? <==> chosen.Some? && chosen.value.mimeType == "application/pdf"
    ensures r.Ok? ==> r.value.file == chosen && r.value.extracted == []
    ensures r.Err? ==> r.error == NoFileMessage
  {
    if chosen.Some? && chosen.value.mimeType == "application/pdf" then Ok(ExtractorState(chosen, []))
    else Err(NoFileMessage)
  }

  /**
   * `text.substring(0, 50000)` and `images.slice(0, 5)`: the text is cut by
   * UTF-16 code units, back to the last whole character.
   */
  function MakePayload(text: string, images: seq<string>): (p: Payload)
    ensures |p.extractedText| <= |text| && p.extractedText == text[..|p.extractedText|]
    ensures Utf16Length(p.extractedText) <= MaxPayloadUnits
    ensures p.extractedText == text || Utf16Length(text[..|p.extractedText| + 1]) > MaxPayloadUnits
    ensures Utf16Length(text) <= MaxPayloadUnits ==> p.extractedText == text
    ensures |p.imageBase64s| == if |images| < MaxPayloadImages then |images| else MaxPayloadImages
    ensures p.imageBase64s == images[..|p.imageBase64s|]
    ensures |images| <= MaxPayloadImages ==> p.imageBase64s == images
  {
    Payload(TakeUnits(text, MaxPayloadUnits), Take(images, MaxPayloadImages))
  }

  /** Text within the Basic Multilingual Plane is cut at exactly 50000 characters. */
  lemma {:induction false} MakePayloadInPlane(text: string, images: seq<string>)
    requires forall i :: 0 <= i < |text| ==> InPlane(text[i])
    ensures MakePayload(text, images).extractedText == if |text| <= MaxPayloadUnits then text else text[..MaxPayloadUnits]
  {
    TakeUnitsInPlane(text, MaxPayloadUnits);
  }

  /** One AI record made whole: truthy fields are kept, falsy ones get the defaults, and it starts selected. */
  function Normalise(raw: RawQuestion, id: string): (q: ExtractedQuestion)
    ensures q.id == id && q.selected && !q.editing
    ensures q.questionText == if Falsy(raw.questionText) then "" else raw.questionText.value
    ensures q.options == if raw.options.None? then BlankOptions else raw.options.value
    ensures q.correctAnswer == if Falsy(raw.correctAnswer) then "unknown" else raw.correctAnswer.value
    ensures q.difficulty == if Falsy(raw.difficulty) then "medium" else raw.difficulty.value
    ensures q.passageTitle == if Falsy(raw.passageTitle) then None else raw.passageTitle
    ensures q.passageText == if Falsy(raw.passageText) then None else raw.passageText
    ensures q.hasImage <==> raw.hasImage == Some(true)
    ensures q.imageDescription == raw.imageDescription
  {
    ExtractedQuestion(
      id,
      TextOrNull(raw.passageTitle),
      TextOrNull(raw.passageText),
      TextOr(raw.questionText, ""),
      raw.options.GetOr(BlankOptions),
      TextOr(raw.correctAnswer, "unknown"),
      TextOr(raw.difficulty, "medium"),
      raw.hasImage == Some(true),
      raw.imageDescription,
      true,
      false)
  }

  /** The record a normalised question would be if sent back through the extraction function. */
  function ToRaw(q: ExtractedQuestion): RawQuestion {
    RawQuestion(q.passageTitle, q.passageText, Some(q.questionText), Some(q.options),
                Some(q.correctAnswer), Some(q.difficulty), Some(q.hasImage), q.imageDescription)
  }

  /** Normalising is idempotent: a normalised record has no field left for the defaults to fill. */
  lemma {:induction false} NormaliseIdempotent(raw: RawQuestion, id: string)
    ensures Normalise(ToRaw(Normalise(raw, id)), id) == Normalise(raw, id)
  {
  }

  /** The ids handed out never repeat, as `crypto.randomUUID()` promises. */
  ghost predicate FreshIds(freshId: nat -> string) {
    forall i: nat, j: nat :: i != j ==> freshId(i) != freshId(j)
  }

  /**
   * `(data.questions || []).map(...)`: one normalised record per AI record,
   * in order, each under the id drawn for its position; with ids that never
   * repeat, no two records share one.
   */
  function NormaliseAll(raws: seq<RawQuestion>, freshId: nat -> string): (qs: seq<ExtractedQuestion>)
    ensures |qs| == |raws|
    ensures forall i :: 0 <= i < |raws| ==> qs[i] == Normalise(raws[i], freshId(i))
    ensures FreshIds(freshId) ==> UniqueIds(qs)
  {
    seq(|raws|, i requires 0 <= i < |raws| => Normalise(raws[i], freshId(i)))
  }

  /**
   * `handleExtract`: no file, or no text in the PDF, stops before the call;
   * a failed call or an `error` field in its answer is reported; otherwise
   * the answer's records, normalised, become the list.
   */
  function Extract(s: ExtractorState, text: string, images: seq<string>,
                   invoke: Payload -> Parse<InvokeData>, freshId: nat -> string): (r: Result<ExtractorState, string>)
    ensures s.file.None? ==> r == Err(NoFileYetMessage)
    ensures s.file.Some? && IsBlank(text) ==> r == Err(NoTextMessage)
    ensures r.Ok? <==> && s.file.Some? && !IsBlank(text)
                       && invoke(MakePayload(text, images)).Parsed?
                       && Falsy(invoke(MakePayload(text, images)).value.error)
    ensures r.Ok? ==> r.value.file == s.file
    ensures r.Ok? ==> r.value.extracted == NormaliseAll(invoke(MakePayload(text, images)).value.questions.GetOr([]), freshId)
    ensures r.Ok? && FreshIds(freshId) ==> UniqueIds(r.value.extracted)
    ensures r.Err? ==> r.error != ""
  {
    if s.file.None? then Err(NoFileYetMessage)
    else if IsBlank(text) then Err(NoTextMessage)
    else match invoke(MakePayload(text, images))
      case Throws(m) => Err(if m == "" then ExtractFallbackMessage else m)
      case Parsed(data) =>
        if !Falsy(data.error) then Err(data.error.value)
        else Ok(s.(extracted := NormaliseAll(data.questions.GetOr([]), freshId)))
  }

  /** `Partial<ExtractedQuestion>` restricted to the fields the screen edits. */
  datatype Patch = Patch(
    questionText: Option<string>,
    options: Option<seq<string>>,
    correctAnswer: Option<string>,
    difficulty: Option<string>,
    selected: Option<bool>,
    editing: Option<bool>)

  const NoChange := Patch(None, None, None, None, None, None)

  /** `{ ...q, ...updates }`: the patched fields take the new values, all others stay. */
  function Merge(q: ExtractedQuestion, p: Patch): (r: ExtractedQuestion)
    ensures r.id == q.id && r.passageTitle == q.passageTitle && r.passageText == q.passageText
    ensures r.hasImage == q.hasImage && r.imageDescription == q.imageDescription
    ensures r.questionText == p.questionText.GetOr(q.questionText)
    ensures r.options == p.options.GetOr(q.options)
    ensures r.correctAnswer == p.correctAnswer.GetOr(q.correctAnswer)
    ensures r.difficulty == p.difficulty.GetOr(q.difficulty)
    ensures r.selected == p.selected.GetOr(q.selected) && r.editing == p.editing.GetOr(q.editing)
  {
    q.(questionText := p.questionText.GetOr(q.questionText),
       options := p.options.GetOr(q.options),
       correctAnswer := p.correctAnswer.GetOr(q.correctAnswer),
       difficulty := p.difficulty.GetOr(q.difficulty),
       selected := p.selected.GetOr(q.selected),
       editing := p.editing.GetOr(q.editing))
  }

  /** `updateQuestion`: the patch lands on the records with that id; length, order and every other record stay. */
  function UpdateQuestion(qs: seq<ExtractedQuestion>, id: string, p: Patch): (r: seq<ExtractedQuestion>)
    ensures |r| == |qs|
    ensures forall i :: 0 <= i < |qs| && qs[i].id != id ==> r[i] == qs[i]
    ensures forall i :: 0 <= i < |qs| && qs[i].id == id ==> r[i] == Merge(qs[i], p)
    ensures forall i :: 0 <= i < |qs| ==> r[i].id == qs[i].id
  {
    seq(|qs|, i requires 0 <= i < |qs| => if qs[i].id == id then Merge(qs[i], p) else qs[i])
  }

  predicate UniqueIds(qs: seq<ExtractedQuestion>) {
    forall i, j :: 0 <= i < j < |qs| ==> qs[i].id != qs[j].id
  }

  /** `deleteQuestion`: drops every record with that id and keeps the others, each as often as before. */
  function DeleteQuestion(qs: seq<ExtractedQuestion>, id: string): (r: seq<ExtractedQuestion>)
    ensures forall i :: 0 <= i < |r| ==> r[i].id != id
    ensures forall x :: multiset(r)[x] == if x.id == id then 0 else multiset(qs)[x]
  {
    var keep := (q: ExtractedQuestion) => q.id != id;
    FilterMultiset(qs, keep);
    Filter(qs, keep)
  }

  /** Deleting works list-piece by list-piece, so the surviving records keep their relative order. */
  lemma {:induction false} DeleteQuestionAppend(a: seq<ExtractedQuestion>, b: seq<ExtractedQuestion>, id: string)
    ensures DeleteQuestion(a + b, id) == DeleteQuestion(a, id) + DeleteQuestion(b, id)
  {
    FilterAppend(a, b, (q: ExtractedQuestion) => q.id != id);
  }

  /** `i` is the first position holding a record with the id. */
  predicate FirstWithId(qs: seq<ExtractedQuestion>, id: string, i: int) {
    0 <= i < |qs| && qs[i].id == id && forall k :: 0 <= k < i ==> qs[k].id != id
  }

  /** `extractedQuestions.find(q => q.id === id)`: the first record with the id, if any. */
  function Find(qs: seq<ExtractedQuestion>, id: string): (r: Option<ExtractedQuestion>)
    ensures r.None? <==> forall i :: 0 <= i < |qs| ==> qs[i].id != id
    ensures r.Some? ==> exists i :: FirstWithId(qs, id, i) && qs[i] == r.value
  {
    if |qs| == 0 then None
    else if qs[0].id == id then
      assert FirstWithId(qs, id, 0);
      Some(qs[0])
    else
      var r := Find(qs[1..], id);
      assert r.Some? ==> exists i :: FirstWithId(qs, id, i) && qs[i] == r.value by {
        if r.Some? {
          var i :| FirstWithId(qs[1..], id, i) && qs[1..][i] == r.value;
          assert forall k :: 1 <= k < i + 1 ==> qs[k] == qs[1..][k - 1];
          assert FirstWithId(qs, id, i + 1);
        }
      }
      r
  }

  /** `toggleSelect`: `selected` becomes the negation of the found record's flag (`!undefined` is true). */
  function ToggleSelect(qs: seq<ExtractedQuestion>, id: string): seq<ExtractedQuestion> {
    var found := Find(qs, id);
    UpdateQuestion(qs, id, NoChange.(selected := Some(!(found.Some? && found.value.selected))))
  }

  /** `toggleEditing`: the same for the `editing` flag. */
  function ToggleEditing(qs: seq<ExtractedQuestion>, id: string): seq<ExtractedQuestion> {
    var found := Find(qs, id);
    UpdateQuestion(qs, id, NoChange.(editing := Some(!(found.Some? && found.value.editing))))
  }

  /** With unique ids, `toggleSelect` flips the one record's flag and leaves everything else alone. */
  lemma {:induction false} ToggleSelectFlips(qs: seq<ExtractedQuestion>, id: string, i: nat)
    requires UniqueIds(qs) && i < |qs|
    ensures |ToggleSelect(qs, id)| == |qs|
    ensures qs[i].id == id ==> ToggleSelect(qs, id)[i] == qs[i].(selected := !qs[i].selected)
    ensures qs[i].id != id ==> ToggleSelect(qs, id)[i] == qs[i]
  {
  }

  /** With unique ids, toggling `selected` twice restores the list. */
  lemma {:induction false} ToggleSelectTwice(qs: seq<ExtractedQuestion>, id: string)
    requires UniqueIds(qs)
    ensures ToggleSelect(ToggleSelect(qs, id), id) == qs
  {
    var once := ToggleSelect(qs, id);
    assert UniqueIds(once);
    forall i | 0 <= i < |qs| ensures ToggleSelect(once, id)[i] == qs[i] {
      ToggleSelectFlips(qs, id, i);
      ToggleSelectFlips(once, id, i);
    }
  }

  /** With unique ids, toggling `editing` twice restores the list. */
  lemma {:induction false} ToggleEditingTwice(qs: seq<ExtractedQuestion>, id: string)
    requires UniqueIds(qs)
    ensures ToggleEditing(ToggleEditing(qs, id), id) == qs
  {
    var once := ToggleEditing(qs, id);
    assert UniqueIds(once);
    forall i | 0 <= i < |qs| ensures ToggleEditing(once, id)[i] == qs[i] {
      if qs[i].id == id {
        assert Find(qs, id) == Some(qs[i]);
        assert Find(once, id) == Some(once[i]);
      }
    }
  }

  /** `extractedQuestions.filter(q => q.selected)`: the selected records, each as often as listed. */
  function Chosen(qs: seq<ExtractedQuestion>): (r: seq<ExtractedQuestion>)
    ensures |r| == 0 <==> forall i :: 0 <= i < |qs| ==> !qs[i].selected
    ensures forall i :: 0 <= i < |r| ==> r[i] in qs && r[i].selected
    ensures forall x :: multiset(r)[x] == if x.selected then multiset(qs)[x] else 0
  {
    var keep := (q: ExtractedQuestion) => q.selected;
    FilterMultiset(qs, keep);
    assert forall i :: 0 <= i < |qs| && qs[i].selected ==> qs[i] in multiset(Filter(qs, keep));
    Filter(qs, keep)
  }

  /** Choosing works list-piece by list-piece, so the selected records keep their listed order. */
  lemma {:induction false} ChosenAppend(a: seq<ExtractedQuestion>, b: seq<ExtractedQuestion>)
    ensures Chosen(a + b) == Chosen(a) + Chosen(b)
  {
    FilterAppend(a, b, (q: ExtractedQuestion) => q.selected);
  }

  /** Every option list is short enough for its letters to be single characters. */
  predicate LetterableOptions(qs: seq<ExtractedQuestion>) {
    forall i :: 0 <= i < |qs| ==> |qs[i].options| <= LetterPositions
  }

  /** `q.options.map((opt, i) => ({ id: String.fromCharCode(65 + i), text: opt }))`. */
  function LetterOptions(opts: seq<string>): (r: seq<OptionEntry>)
    requires |opts| <= LetterPositions
    ensures |r| == |opts|
    ensures forall k :: 0 <= k < |opts| ==> r[k].id == Letter(k) && r[k].text == opts[k]
  {
    seq(|opts|, k requires 0 <= k < |opts| => OptionEntry(Letter(k), opts[k]))
  }

  /** Choosing keeps option lists short enough to letter. */
  lemma {:induction false} ChosenLetterable(qs: seq<ExtractedQuestion>)
    requires LetterableOptions(qs)
    ensures LetterableOptions(Chosen(qs))
  {
    var r := Chosen(qs);
    forall i | 0 <= i < |r| ensures |r[i].options| <= LetterPositions {
      var k :| 0 <= k < |qs| && qs[k] == r[i];
    }
  }

  /** The stored record made from the selected question at position `order`. */
  function ToStored(q: ExtractedQuestion, testId: string, order: int, id: string, now: string): Question
    requires |q.options| <= LetterPositions
  {
    Question(id, testId, q.questionText, "mcq", LetterOptions(q.options), q.correctAnswer, q.difficulty,
             q.passageTitle, q.passageText, None, None, 1, order, Some(now))
  }

  /**
   * The stored records made from `chosen`, in order: option letters added,
   * order indices counting up from `base`, ids and creation times drawn per
   * position (`new Date()` is read once per record).
   */
  function StoreAll(chosen: seq<ExtractedQuestion>, testId: string, base: int,
                    freshId: nat -> string, clock: nat -> string): (added: seq<Question>)
    requires LetterableOptions(chosen)
    ensures |added| == |chosen|
    ensures forall i :: 0 <= i < |chosen| ==>
      var q, saved := chosen[i], added[i];
      && saved.id == freshId(i) && saved.testId == testId
      && saved.orderIndex == base + i
      && saved.questionText == q.questionText && saved.questionType == "mcq"
      && saved.correctAnswer == q.correctAnswer && saved.difficulty == q.difficulty
      && saved.passageTitle == q.passageTitle && saved.passageText == q.passageText
      && saved.marks == 1 && saved.createdAt == Some(clock(i))
      && |saved.options| == |q.options|
      && forall k :: 0 <= k < |q.options| ==> saved.options[k] == OptionEntry(Letter(k), q.options[k])
  {
    seq(|chosen|, i requires 0 <= i < |chosen| => ToStored(chosen[i], testId, base + i, freshId(i), clock(i)))
  }

  /** What a successful save leaves: the emptied extractor, the new store, and the records passed to `onSave`. */
  datatype Saved = Saved(state: ExtractorState, store: seq<Question>, notified: seq<ExtractedQuestion>)

  /** The number of stored questions that belong to `testId`. */
  function CountForTest(stored: seq<Question>, testId: string): nat {
    Count(stored, (q: Question) => q.testId == testId)
  }

  /**
   * `handleSaveQuestions`: with nothing selected it writes nothing; otherwise
   * it appends one stored record per selected question, in order, with
   * lettered options, order indices continuing from the test's count and
   * the creation time read for that record, and empties the extractor.
   */
  function SaveQuestions(s: ExtractorState, testId: string, stored: seq<Question>,
                         freshId: nat -> string, clock: nat -> string): (r: Result<Saved, string>)
    requires LetterableOptions(s.extracted)
    ensures r.Err? <==> forall i :: 0 <= i < |s.extracted| ==> !s.extracted[i].selected
    ensures r.Err? ==> r.error == NothingSelectedMessage
    ensures r.Ok? ==> r.value.state == ExtractorState(None, []) && r.value.notified == Chosen(s.extracted)
    ensures r.Ok? ==> |r.value.store| == |stored| + |Chosen(s.extracted)| && r.value.store[..|stored|] == stored
    ensures r.Ok? ==> forall i :: 0 <= i < |Chosen(s.extracted)| ==>
      var q, saved := Chosen(s.extracted)[i], r.value.store[|stored| + i];
      && saved.id == freshId(i) && saved.testId == testId
      && saved.orderIndex == CountForTest(stored, testId) + i
      && saved.questionText == q.questionText && saved.questionType == "mcq"
      && saved.correctAnswer == q.correctAnswer && saved.difficulty == q.difficulty
      && saved.passageTitle == q.passageTitle && saved.passageText == q.passageText
      && saved.marks == 1 && saved.createdAt == Some(clock(i))
      && |saved.options| == |q.options|
      && forall k :: 0 <= k < |q.options| ==> saved.options[k] == OptionEntry(Letter(k), q.options[k])
  {
    var chosen := Chosen(s.extracted);
    ChosenLetterable(s.extracted);
    if |chosen| == 0 then Err(NothingSelectedMessage)
    else
      var added := StoreAll(chosen, testId, CountForTest(stored, testId), freshId, clock);
      assert (stored + added)[..|stored|] == stored;
      Ok(Saved(ExtractorState(None, []), stored + added, chosen))
  }
}
