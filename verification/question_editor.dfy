/**
 * The single-question editor (src/components/teacher/QuestionEditor.tsx):
 * option text edits, the correct-letter buttons, the marks input, media
 * attachment and removal, and the checks made before the edited record is
 * handed back. The upload itself is outside the model: its URL is a parameter.
 */
module QuestionEditor {
  import opened Wrappers
  import opened Text
  import opened QuestionBank

  const UnsupportedMessage := "Unsupported file type"
  const TextRequiredMessage := "Question text is required"
  const OptionsRequiredMessage := "All options must have text"

  /** `handleOptionChange`: option `index` takes the new text and keeps its letter; nothing else moves. */
  function OptionChange(q: Question, index: nat, value: string): (r: Question)
    requires index < |q.options|
    ensures |r.options| == |q.options|
    ensures r.options[index] == OptionEntry(q.options[index].id, value)
    ensures forall j :: 0 <= j < |q.options| && j != index ==> r.options[j] == q.options[j]
    ensures r == q.(options := r.options)
  {
    q.(options := q.options[index := q.options[index].(text := value)])
  }

  /** Typing an option's old text back undoes the edit. */
  lemma {:induction false} OptionChangeUndo(q: Question, index: nat, value: string)
    requires index < |q.options|
    ensures OptionChange(OptionChange(q, index, value), index, q.options[index].text) == q
  {
    var r := OptionChange(OptionChange(q, index, value), index, q.options[index].text);
    assert r.options == q.options;
  }

  /** The media kind a MIME type is filed under, by its prefix; `None` for every other type. */
  function MediaKind(mimeType: string): (r: Option<string>)
    ensures r.None? <==> !StartsWith(mimeType, "image/") && !StartsWith(mimeType, "audio/") && !StartsWith(mimeType, "video/")
    ensures r.Some? ==> r.value == "image" || r.value == "audio" || r.value == "video"
  {
    if StartsWith(mimeType, "image/") then Some("image")
    else if StartsWith(mimeType, "audio/") then Some("audio")
    else if StartsWith(mimeType, "video/") then Some("video")
    else None
  }

  /** Any MIME type `kind/subtype` of the three kinds is filed under `kind`. */
  lemma {:induction false} MediaKindOfPrefix(kind: string, subtype: string)
    requires kind == "image" || kind == "audio" || kind == "video"
    ensures MediaKind(kind + "/" + subtype) == Some(kind)
  {
    var m := kind + "/" + subtype;
    assert m[..|kind| + 1] == kind + "/";
    assert m[0] == kind[0];
    if kind != "image" {
      assert m[..6][0] != 'i';
    }
    if kind == "video" {
      assert m[..6][0] != 'a';
    }
  }

  datatype MediaFile = MediaFile(name: string, mimeType: string)

  /** The attachment indicator: a truthy `media_url`. */
  predicate HasMedia(q: Question) {
    q.mediaUrl.Some? && q.mediaUrl.value != ""
  }

  /**
   * `handleMediaUpload` given the URL the upload answered (`None` on failure):
   * no file or no URL changes nothing; an unsupported type is an error; else
   * the URL and kind are set and nothing else.
   */
  function MediaUpload(q: Question, file: Option<MediaFile>, url: Option<string>): (r: Result<Question, string>)
    ensures r.Err? <==> file.Some? && MediaKind(file.value.mimeType).None?
    ensures r.Err? ==> r.error == UnsupportedMessage
    ensures r.Ok? && (file.None? || url.None? || url.value == "") ==> r.value == q
    ensures r.Ok? && file.Some? && url.Some? && url.value != "" ==>
      && r.value == q.(mediaUrl := url, mediaType := MediaKind(file.value.mimeType))
      && HasMedia(r.value)
  {
    if file.None? then Ok(q)
    else match MediaKind(file.value.mimeType)
      case None => Err(UnsupportedMessage)
      case Some(kind) =>
        if url.Some? && url.value != "" then Ok(q.(mediaUrl := url, mediaType := Some(kind))) else Ok(q)
  }

  /** The upload succeeds: a file of a supported kind and a non-empty URL. */
  predicate Uploaded(file: Option<MediaFile>, url: Option<string>) {
    file.Some? && MediaKind(file.value.mimeType).Some? && url.Some? && url.value != ""
  }

  /**
   * The edited record once an upload lands, as written: the handler spreads
   * the `editedQuestion` it captured before `await uploadMedia`, so a
   * successful upload is built from `snapshot` and replaces `current`.
   */
  function MediaLands(snapshot: Question, current: Question, file: Option<MediaFile>, url: Option<string>): (r: Question)
    ensures Uploaded(file, url) ==> HasMedia(r) && r == snapshot.(mediaUrl := url, mediaType := MediaKind(file.value.mimeType))
    ensures !Uploaded(file, url) ==> r == current
  {
    if Uploaded(file, url) then MediaUpload(snapshot, file, url).value else current
  }

  /** Question text typed while the media uploads is reverted to its text from before the upload. */
  lemma {:induction false} TextEditDuringUploadLost(snapshot: Question, text: string, file: MediaFile, url: string)
    requires Uploaded(Some(file), Some(url)) && text != snapshot.questionText
    ensures MediaLands(snapshot, snapshot.(questionText := text), Some(file), Some(url)).questionText == snapshot.questionText != text
  {
  }

  /**
   * The edited record once an upload lands, as evidently intended: the media
   * fields are set on the record held when the upload answers
   * (`setEditedQuestion(prev => ...)`), so every other edit survives.
   */
  function MediaLandsOnLatest(current: Question, file: Option<MediaFile>, url: Option<string>): (r: Question)
    ensures Uploaded(file, url) ==> HasMedia(r) && r == current.(mediaUrl := url, mediaType := MediaKind(file.value.mimeType))
    ensures !Uploaded(file, url) ==> r == current
  {
    if Uploaded(file, url) then MediaUpload(current, file, url).value else current
  }

  /** On the latest record the text typed during the upload survives it. */
  lemma {:induction false} TextEditDuringUploadKept(snapshot: Question, text: string, file: MediaFile, url: string)
    requires Uploaded(Some(file), Some(url))
    ensures var r := MediaLandsOnLatest(snapshot.(questionText := text), Some(file), Some(url));
      r.questionText == text && HasMedia(r)
  {
  }

  /** The remove button: both media fields become the empty string, which hides the attachment. */
  function RemoveMedia(q: Question): (r: Question)
    ensures !HasMedia(r)
    ensures r.mediaUrl == Some("") && r.mediaType == Some("")
    ensures r == q.(mediaUrl := r.mediaUrl, mediaType := r.mediaType)
  {
    q.(mediaUrl := Some(""), mediaType := Some(""))
  }

  /** Removing an attachment and uploading the same file again restores it. */
  lemma {:induction false} RemoveThenUpload(q: Question, file: MediaFile, url: string)
    requires MediaKind(file.mimeType).Some? && url != ""
    requires q.mediaUrl == Some(url) && q.mediaType == MediaKind(file.mimeType)
    ensures MediaUpload(RemoveMedia(q), Some(file), Some(url)) == Ok(q)
  {
  }

  /**
   * `handleSave`: a blank question text is refused first, then any blank
   * option; otherwise the edited record is passed on unchanged.
   */
  function SaveCheck(q: Question): (r: Result<Question, string>)
    ensures r.Ok? <==> !IsBlank(q.questionText) && forall j :: 0 <= j < |q.options| ==> !IsBlank(q.options[j].text)
    ensures r.Ok? ==> r.value == q
    ensures IsBlank(q.questionText) ==> r == Err(TextRequiredMessage)
    ensures !IsBlank(q.questionText) && r.Err? ==> r.error == OptionsRequiredMessage
  {
    if IsBlank(q.questionText) then Err(TextRequiredMessage)
    else if exists j :: 0 <= j < |q.options| && IsBlank(q.options[j].text) then Err(OptionsRequiredMessage)
    else Ok(q)
  }

  /** A question whose text and options all start with a visible character passes the check. */
  lemma {:induction false} SaveCheckVisible(q: Question)
    requires |q.questionText| > 0 && !IsWhitespace(q.questionText[0])
    requires forall j :: 0 <= j < |q.options| ==> |q.options[j].text| > 0 && !IsWhitespace(q.options[j].text[0])
    ensures SaveCheck(q) == Ok(q)
  {
    TrimStartKeeps(q.questionText);
    forall j | 0 <= j < |q.options| ensures !IsBlank(q.options[j].text) {
      TrimStartKeeps(q.options[j].text);
    }
  }

  /** The letter button `i` is highlighted: the correct answer is its letter. */
  predicate IsCorrect(q: Question, i: nat)
    requires i < LetterPositions
  {
    q.correctAnswer == Letter(i)
  }

  /** Letter button `i`: the correct answer becomes the single character `'A' + i`; nothing else moves. */
  function SetCorrectLetter(q: Question, i: nat): (r: Question)
    requires i < |q.options| && i < LetterPositions
    ensures |r.correctAnswer| == 1 && r.correctAnswer[0] as int == 65 + i
    ensures r == q.(correctAnswer := r.correctAnswer)
  {
    q.(correctAnswer := Letter(i))
  }

  /** After clicking button `i`, exactly button `i` is highlighted. */
  lemma {:induction false} SetCorrectLetterHighlightsOne(q: Question, i: nat, j: nat)
    requires i < |q.options| && i < LetterPositions && j < LetterPositions
    ensures IsCorrect(SetCorrectLetter(q, i), j) <==> i == j
  {
    LetterInjective(i, j);
  }

  /** The marks input: `parseInt(value) || 1`. */
  function MarksInput(text: string): (r: int)
    ensures r != 0
    ensures ParseInt(text).Some? && ParseInt(text).value != 0 ==> r == ParseInt(text).value
    ensures ParseInt(text).None? || ParseInt(text).value == 0 ==> r == 1
  {
    IntOr(ParseInt(text), 1)
  }

  /** Typed digits of a positive number give that many marks; an empty field gives one. */
  lemma {:induction false} MarksInputReadsNumbers(n: nat)
    requires n > 0
    ensures MarksInput(NatToString(n)) == n
    ensures MarksInput("") == 1
  {
    ParseIntOfNatToString(n);
    ParseIntOfBlank("");
  }
}
