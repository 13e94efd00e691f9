/**
 * The per-tier PDF record of the test wizard (src/components/teacher/PDFUploader.tsx):
 * one URL and one question count for each of the four tiers, updated one
 * field at a time. The storage upload is outside the model: the URL it
 * answers is a parameter.
 */
module Uploader {
  import opened Wrappers
  import opened Text

  const NotPdfMessage := "Please upload a PDF file"

  datatype Tier = Practice | Easy | Medium | Hard

  /** The eight fields `{tier}_pdf_url` and `{tier}_question_count`. */
  datatype PdfInfo = PdfInfo(
    practiceUrl: string, easyUrl: string, mediumUrl: string, hardUrl: string,
    practiceCount: int, easyCount: int, mediumCount: int, hardCount: int)

  /** The record the uploader starts from: no URLs, no counts. */
  const EmptyPdfInfo := PdfInfo("", "", "", "", 0, 0, 0, 0)

  /** `pdfs[`${type}_pdf_url`]`. */
  function Url(p: PdfInfo, t: Tier): string {
    match t
    case Practice => p.practiceUrl
    case Easy => p.easyUrl
    case Medium => p.mediumUrl
    case Hard => p.hardUrl
  }

  /** `pdfs[`${type}_question_count`]`. */
  function Count(p: PdfInfo, t: Tier): int {
    match t
    case Practice => p.practiceCount
    case Easy => p.easyCount
    case Medium => p.mediumCount
    case Hard => p.hardCount
  }

  /** Two records agree on every field except possibly the URL of `t`. */
  predicate SameExceptUrl(p: PdfInfo, q: PdfInfo, t: Tier) {
    (forall u: Tier :: u != t ==> Url(q, u) == Url(p, u)) && forall u: Tier :: Count(q, u) == Count(p, u)
  }

  /** Two records agree on every field except possibly the count of `t`. */
  predicate SameExceptCount(p: PdfInfo, q: PdfInfo, t: Tier) {
    (forall u: Tier :: Url(q, u) == Url(p, u)) && forall u: Tier :: u != t ==> Count(q, u) == Count(p, u)
  }

  /** `{ ...pdfs, [`${type}_pdf_url`]: url }`: the one URL changes, the other seven fields stay. */
  function WithUrl(p: PdfInfo, t: Tier, url: string): (r: PdfInfo)
    ensures Url(r, t) == url
    ensures SameExceptUrl(p, r, t)
  {
    match t
    case Practice => p.(practiceUrl := url)
    case Easy => p.(easyUrl := url)
    case Medium => p.(mediumUrl := url)
    case Hard => p.(hardUrl := url)
  }

  /** `{ ...pdfs, [`${type}_question_count`]: value }`: the one count changes, the other seven fields stay. */
  function WithCount(p: PdfInfo, t: Tier, value: int): (r: PdfInfo)
    ensures Count(r, t) == value
    ensures SameExceptCount(p, r, t)
  {
    match t
    case Practice => p.(practiceCount := value)
    case Easy => p.(easyCount := value)
    case Medium => p.(mediumCount := value)
    case Hard => p.(hardCount := value)
  }

  /** The eight getters determine a record: two records with equal fields are equal. */
  lemma {:induction false} FieldsDetermine(p: PdfInfo, q: PdfInfo)
    requires forall u: Tier :: Url(p, u) == Url(q, u) && Count(p, u) == Count(q, u)
    ensures p == q
  {
    assert Url(p, Practice) == Url(q, Practice) && Url(p, Easy) == Url(q, Easy);
    assert Url(p, Medium) == Url(q, Medium) && Url(p, Hard) == Url(q, Hard);
    assert Count(p, Practice) == Count(q, Practice) && Count(p, Easy) == Count(q, Easy);
    assert Count(p, Medium) == Count(q, Medium) && Count(p, Hard) == Count(q, Hard);
  }

  /** Writing back a tier's current URL or count changes nothing; updates to different tiers commute. */
  lemma {:induction false} SingleFieldUpdates(p: PdfInfo, t: Tier, u: Tier, a: string, b: string, m: int, n: int)
    ensures WithUrl(p, t, Url(p, t)) == p && WithCount(p, t, Count(p, t)) == p
    ensures t != u ==> WithUrl(WithUrl(p, t, a), u, b) == WithUrl(WithUrl(p, u, b), t, a)
    ensures t != u ==> WithCount(WithCount(p, t, m), u, n) == WithCount(WithCount(p, u, n), t, m)
    ensures WithCount(WithUrl(p, t, a), u, m) == WithUrl(WithCount(p, u, m), t, a)
  {
    FieldsDetermine(WithUrl(p, t, Url(p, t)), p);
    FieldsDetermine(WithCount(p, t, Count(p, t)), p);
    FieldsDetermine(WithCount(WithUrl(p, t, a), u, m), WithUrl(WithCount(p, u, m), t, a));
    if t != u {
      FieldsDetermine(WithUrl(WithUrl(p, t, a), u, b), WithUrl(WithUrl(p, u, b), t, a));
      FieldsDetermine(WithCount(WithCount(p, t, m), u, n), WithCount(WithCount(p, u, n), t, m));
    }
  }

  datatype PdfFile = PdfFile(name: string, mimeType: string)

  /** What an upload attempt leads to: nothing, an error toast, or a new record passed to `onPDFsChange`. */
  datatype UploadOutcome = Ignored | Rejected(message: string) | Stored(info: PdfInfo)

  /**
   * `handlePDFUpload` given the URL the upload answered (`None` on failure):
   * no file or no URL changes nothing, a type not mentioning `pdf` is refused,
   * and otherwise only the tier's URL is set.
   */
  function PdfUpload(p: PdfInfo, t: Tier, file: Option<PdfFile>, url: Option<string>): (r: UploadOutcome)
    ensures r.Rejected? <==> file.Some? && !Contains(file.value.mimeType, "pdf")
    ensures r.Rejected? ==> r.message == NotPdfMessage
    ensures r.Stored? <==> file.Some? && Contains(file.value.mimeType, "pdf") && url.Some? && url.value != ""
    ensures r.Stored? ==> Url(r.info, t) == url.value && SameExceptUrl(p, r.info, t)
  {
    if file.None? then Ignored
    else if !Contains(file.value.mimeType, "pdf") then Rejected(NotPdfMessage)
    else if url.Some? && url.value != "" then Stored(WithUrl(p, t, url.value))
    else Ignored
  }

  /**
   * The record once an upload lands, as written: the handler spreads the
   * `pdfs` it captured before `await uploadPDF`, so a stored record is built
   * from `snapshot` and replaces `current`, whatever was typed meanwhile.
   */
  function UploadLands(snapshot: PdfInfo, current: PdfInfo, t: Tier, file: Option<PdfFile>, url: Option<string>): (r: PdfInfo)
    ensures PdfUpload(snapshot, t, file, url).Stored? ==> Url(r, t) == url.value && SameExceptUrl(snapshot, r, t)
    ensures !PdfUpload(snapshot, t, file, url).Stored? ==> r == current
  {
    match PdfUpload(snapshot, t, file, url)
    case Stored(info) => info
    case _ => current
  }

  /** A count typed while a PDF uploads is reverted to its value from before the upload. */
  lemma {:induction false} CountEditDuringUploadLost(snapshot: PdfInfo, t: Tier, u: Tier, n: int, file: PdfFile, url: string)
    requires Contains(file.mimeType, "pdf") && url != "" && n != Count(snapshot, u)
    ensures var current := WithCount(snapshot, u, n);
      && Count(current, u) == n
      && Count(UploadLands(snapshot, current, t, Some(file), Some(url)), u) == Count(snapshot, u) != n
  {
  }

  /**
   * The record once an upload lands, as evidently intended: the URL is set on
   * the record held when the upload answers (`setPdfs(prev => ...)`).
   */
  function UploadLandsOnLatest(current: PdfInfo, t: Tier, file: Option<PdfFile>, url: Option<string>): (r: PdfInfo)
    ensures PdfUpload(current, t, file, url).Stored? ==> Url(r, t) == url.value && SameExceptUrl(current, r, t)
    ensures !PdfUpload(current, t, file, url).Stored? ==> r == current
  {
    match PdfUpload(current, t, file, url)
    case Stored(info) => info
    case _ => current
  }

  /** On the latest record a count typed during the upload survives it, and the new URL is set. */
  lemma {:induction false} CountEditDuringUploadKept(snapshot: PdfInfo, t: Tier, u: Tier, n: int, file: PdfFile, url: string)
    requires Contains(file.mimeType, "pdf") && url != ""
    ensures var r := UploadLandsOnLatest(WithCount(snapshot, u, n), t, Some(file), Some(url));
      Count(r, u) == n && Url(r, t) == url
  {
  }

  /** The count input: `parseInt(value) || 0`, i.e. the parsed number, or 0 when nothing parses. */
  function CountInput(text: string): (r: int)
    ensures r == ParseInt(text).GetOr(0)
  {
    IntOr(ParseInt(text), 0)
  }

  /** `handleQuestionCountChange` fed by the count input: only the tier's count changes. */
  function QuestionCountChange(p: PdfInfo, t: Tier, text: string): (r: PdfInfo)
    ensures Count(r, t) == ParseInt(text).GetOr(0)
    ensures SameExceptCount(p, r, t)
  {
    WithCount(p, t, CountInput(text))
  }

  /** Typing a tier's digits sets its count to that number; clearing the field sets it to 0. */
  lemma {:induction false} QuestionCountReadsNumbers(p: PdfInfo, t: Tier, n: nat, blank: string)
    requires AllWhitespace(blank)
    ensures Count(QuestionCountChange(p, t, NatToString(n)), t) == n
    ensures Count(QuestionCountChange(p, t, blank), t) == 0
  {
    ParseIntOfNatToString(n);
    ParseIntOfBlank(blank);
  }
}
