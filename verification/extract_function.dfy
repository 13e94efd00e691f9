/**
 * The `extract-questions` edge function (supabase/functions/extract-questions/index.ts):
 * the CORS preflight, the API-key check, the chat request built from the
 * extracted text and at most ten page images, the mapping of the gateway's
 * status to a response, and the reading of the question list out of the
 * model's reply. The request body, the environment variable, the gateway
 * call and `JSON.parse` are parameters; the question list is left abstract
 * as a value of type `Q`.
 */
module ExtractFunction {
  import opened Wrappers
  import opened Text
  import opened Seqs

  /** At most this many images are forwarded to the model. */
  const MaxImages: nat := 10
  const ModelName := "google/gemini-2.5-flash"

  const KeyMessage := "LOVABLE_API_KEY is not configured"
  const RateLimitMessage := "Rate limit exceeded. Please try again later."
  const CreditsMessage := "AI credits exhausted. Please add credits."
  const GatewayErrorPrefix := "AI gateway error: "

  /** The opening of the user message, before the extracted text. */
  const Intro := "Please extract all MCQ questions from this educational content:\n\n"
  /** Appended to the user message when images are attached. */
  const ImageNote := "\n\nI've also included images from the document. Please analyze them for any questions, diagrams, or tables that should be included."

  type Header = (string, string)

  /** The CORS headers every response carries. */
  const CorsHeaders: seq<Header> := [
    ("Access-Control-Allow-Origin", "*"),
    ("Access-Control-Allow-Headers", "authorization, x-client-info, apikey, content-type")]
  /** The CORS headers followed by the JSON content type. */
  const JsonHeaders: seq<Header> := CorsHeaders + [("Content-Type", "application/json")]

  /** The JSON body the client posts: the PDF's text and its rendered pages. */
  datatype RequestBody = RequestBody(extractedText: JsValue, imageBase64s: Option<seq<string>>)

  /** An incoming request: its method and its body read as JSON (which may throw). */
  datatype Request = Request(httpMethod: string, body: Parse<RequestBody>)

  /** A part of the user message. */
  datatype Part = TextPart(text: string) | ImagePart(url: string)

  /** A chat message; the system message carries the fixed instructions, whose wording is not modelled. */
  datatype Message = SystemMessage | UserMessage(content: seq<Part>)

  /** The POST to the AI gateway: its `Authorization` header and its JSON body. */
  datatype GatewayCall = GatewayCall(authorization: string, model: string, messages: seq<Message>)

  /**
   * The gateway's answer: the HTTP status and, when its body is read as JSON,
   * `data.choices?.[0]?.message?.content` (`None` when absent).
   */
  datatype Reply = Reply(status: nat, content: Parse<Option<string>>)

  /** The `questions` sent back: the initial `[]`, or a value parsed from the reply. */
  datatype Questions<Q> = NoQuestions | Questions(value: Q)

  datatype Body<Q> = NoBody | ErrorBody(error: string) | QuestionsBody(questions: Questions<Q>)

  datatype Response<Q> = Response(status: nat, headers: seq<Header>, body: Body<Q>)

  /** A JSON `{ error }` response. */
  function Fail<Q>(status: nat, message: string): Response<Q> {
    Response(status, JsonHeaders, ErrorBody(message))
  }

  /**
   * `userContent`: the text part, then the first ten images; the note about
   * images is appended to the text exactly when at least one image is sent.
   */
  function UserContent(text: JsValue, images: Option<seq<string>>): (r: seq<Part>)
    ensures |r| == 1 + if images.None? then 0 else if |images.value| < MaxImages then |images.value| else MaxImages
    ensures r[0].TextPart? && r[0].text == Intro + Show(text) + (if |r| > 1 then ImageNote else "")
    ensures forall i :: 1 <= i < |r| ==> r[i] == ImagePart(images.value[i - 1])
  {
    var sent := if images.Some? && |images.value| > 0 then Take(images.value, MaxImages) else [];
    var note := if |sent| > 0 then ImageNote else "";
    [TextPart(Intro + Show(text) + note)] + seq(|sent|, i requires 0 <= i < |sent| => ImagePart(sent[i]))
  }

  /** An empty image list is treated like a missing one, and images past the tenth are dropped. */
  lemma {:induction false} UserContentImages(text: JsValue, images: seq<string>)
    ensures UserContent(text, Some([])) == UserContent(text, None)
    ensures |images| > MaxImages ==> UserContent(text, Some(images)) == UserContent(text, Some(images[..MaxImages]))
  {
    var a := UserContent(text, Some([]));
    var b := UserContent(text, None);
    assert |a| == |b| == 1;
    if |images| > MaxImages {
      var c := UserContent(text, Some(images));
      var d := UserContent(text, Some(images[..MaxImages]));
      assert |c| == |d|;
      forall i | 0 <= i < |c| ensures c[i] == d[i] {
        if i > 0 {
          assert images[..MaxImages][i - 1] == images[i - 1];
        }
      }
    }
  }

  /** The request sent to the gateway for a body and a key. */
  function Call(body: RequestBody, key: string): GatewayCall {
    GatewayCall("Bearer " + key, ModelName, [SystemMessage, UserMessage(UserContent(body.extractedText, body.imageBase64s))])
  }

  /** `response.ok`. */
  predicate Ok2xx(status: nat) {
    200 <= status < 300
  }

  /** The status and message of an `{ error }` response. */
  datatype Failure = Failure(status: nat, message: string)

  /**
   * A gateway status that is not ok: 429 and 402 are passed on with their own
   * messages; any other is thrown as `AI gateway error: <status>` and so
   * answered with 500.
   */
  function GatewayFailure(status: nat): (r: Option<Failure>)
    ensures r.None? <==> Ok2xx(status)
    ensures status == 429 ==> r == Some(Failure(429, RateLimitMessage))
    ensures status == 402 ==> r == Some(Failure(402, CreditsMessage))
    ensures r.Some? && status != 429 && status != 402 ==>
              r.value.status == 500 && StartsWith(r.value.message, GatewayErrorPrefix)
  {
    if Ok2xx(status) then None
    else if status == 429 then Some(Failure(429, RateLimitMessage))
    else if status == 402 then Some(Failure(402, CreditsMessage))
    else Some(Failure(500, GatewayErrorPrefix + NatToString(status)))
  }

  /** The 500 raised for another failing status names that status: the number after the prefix reads back as it. */
  lemma {:induction false} GatewayErrorNamesStatus(status: nat)
    requires !Ok2xx(status) && status != 429 && status != 402
    ensures var m := GatewayFailure(status).value.message;
      ParseInt(m[|GatewayErrorPrefix|..]) == Some(status)
  {
    var m := GatewayFailure(status).value.message;
    assert m[|GatewayErrorPrefix|..] == NatToString(status);
    ParseIntOfNatToString(status);
  }

  /** A half-open range `[start, end)` of positions in a string. */
  datatype Bounds = Bounds(start: nat, end: nat)

  function IsChar(c: char): char -> bool {
    (x: char) => x == c
  }

  /**
   * The match of `/\{[\s\S]*\}/` (or of the same pattern with brackets):
   * some `open` is followed by some `close` exactly when there is a match,
   * and the greedy match runs from the first `open` to the last `close`.
   */
  function MatchSpan(s: string, open: char, close: char): (r: Option<Bounds>)
    ensures r.None? <==> forall i, j :: 0 <= i < j < |s| ==> !(s[i] == open && s[j] == close)
    ensures r.Some? ==> && r.value.start < r.value.end <= |s|
                        && s[r.value.start] == open && s[r.value.end - 1] == close
    ensures r.Some? ==> forall k :: 0 <= k < r.value.start ==> s[k] != open
    ensures r.Some? ==> forall k :: r.value.end <= k < |s| ==> s[k] != close
  {
    match FirstIndex(s, IsChar(open))
    case None => None
    case Some(i) =>
      match LastIndex(s, IsChar(close))
      case None => None
      case Some(j) =>
        if i < j then Some(Bounds(i, j + 1))
        else
          assert forall a, b :: 0 <= a < b < |s| && s[a] == open ==> i <= a && IsChar(close)(s[b]) == (s[b] == close);
          None
  }

  /** The matched text, `jsonMatch[0]`. */
  function Matched(s: string, open: char, close: char): (r: Option<string>)
    ensures r.Some? <==> MatchSpan(s, open, close).Some?
    ensures r.Some? ==> r.value == s[MatchSpan(s, open, close).value.start..MatchSpan(s, open, close).value.end]
  {
    match MatchSpan(s, open, close)
    case None => None
    case Some(b) => Some(s[b.start..b.end])
  }

  /** Every `open ... close` pair of the string lies inside the match, and matching the match again returns all of it. */
  lemma {:induction false} MatchSpanMaximal(s: string, open: char, close: char)
    requires MatchSpan(s, open, close).Some?
    ensures var b := MatchSpan(s, open, close).value;
      forall i, j :: 0 <= i < j < |s| && s[i] == open && s[j] == close ==> b.start <= i && j < b.end
    ensures var t := Matched(s, open, close).value; MatchSpan(t, open, close) == Some(Bounds(0, |t|))
  {
    var b := MatchSpan(s, open, close).value;
    var t := Matched(s, open, close).value;
    assert t[0] == open && t[|t| - 1] == close;
    var m := MatchSpan(t, open, close);
    assert m.Some? by {
      assert 0 < |t| - 1;
    }
    assert m.value.start == 0;
    assert m.value.end == |t|;
  }

  /** The match is pinned down by its first `open` and its last `close`. */
  lemma {:induction false} MatchSpanAt(s: string, open: char, close: char, i: nat, j: nat)
    requires i < j < |s| && s[i] == open && s[j] == close
    requires forall k :: 0 <= k < i ==> s[k] != open
    requires forall k :: j < k < |s| ==> s[k] != close
    ensures MatchSpan(s, open, close) == Some(Bounds(i, j + 1))
  {
    var r := MatchSpan(s, open, close);
    assert r.Some?;
    assert r.value.start == i;
    assert r.value.end == j + 1;
  }

  /** `parsed.questions || []` when the braced text parses: `Some` exactly when the field is truthy. */
  function ObjectQuestions<Q>(content: string, parseObject: string -> Parse<Option<Q>>): Option<Q> {
    match Matched(content, '{', '}')
    case Some(t) => if parseObject(t).Parsed? then parseObject(t).value else None
    case None => None
  }

  /** `JSON.parse(jsonMatch[0])` threw. */
  predicate ObjectThrows<Q>(content: string, parseObject: string -> Parse<Option<Q>>) {
    Matched(content, '{', '}').Some? && parseObject(Matched(content, '{', '}').value).Throws?
  }

  /** The bracketed text, parsed: `Some` exactly when there is one and it parses. */
  function ArrayQuestions<Q>(content: string, parseArray: string -> Parse<Q>): Option<Q> {
    match Matched(content, '[', ']')
    case Some(t) => if parseArray(t).Parsed? then Some(parseArray(t).value) else None
    case None => None
  }

  function OrNone<Q>(q: Option<Q>): (r: Questions<Q>)
    ensures r.Questions? <==> q.Some?
    ensures r.Questions? ==> r.value == q.value
  {
    match q
    case Some(v) => Questions(v)
    case None => NoQuestions
  }

  /**
   * How the reply's content becomes `questions`, as written: the braced
   * object's `questions` field; the bracketed array only when parsing the
   * braced text threw; `[]` in every other case.
   */
  function ParseReply<Q>(content: string, parseObject: string -> Parse<Option<Q>>, parseArray: string -> Parse<Q>): (r: Questions<Q>)
    ensures Matched(content, '{', '}').None? ==> r == NoQuestions
    ensures ObjectQuestions(content, parseObject).Some? ==> r == Questions(ObjectQuestions(content, parseObject).value)
    ensures ObjectThrows(content, parseObject) ==> r == OrNone(ArrayQuestions(content, parseArray))
    ensures r.Questions? ==> ObjectQuestions(content, parseObject).Some? || ObjectThrows(content, parseObject)
  {
    match Matched(content, '{', '}')
    case None => NoQuestions
    case Some(t) =>
      match parseObject(t)
      case Parsed(fields) => OrNone(fields)
      case Throws(_) => OrNone(ArrayQuestions(content, parseArray))
  }

  /**
   * The reply reading with the array fallback applied whenever the braced
   * object yields no questions, whether its parse threw or it simply has no
   * `questions` field.
   */
  function ParseReplyChecked<Q>(content: string, parseObject: string -> Parse<Option<Q>>, parseArray: string -> Parse<Q>): (r: Questions<Q>)
    ensures ObjectQuestions(content, parseObject).Some? ==> r == Questions(ObjectQuestions(content, parseObject).value)
    ensures r.NoQuestions? <==> ObjectQuestions(content, parseObject).None? && ArrayQuestions(content, parseArray).None?
  {
    match ObjectQuestions(content, parseObject)
    case Some(q) => Questions(q)
    case None => OrNone(ArrayQuestions(content, parseArray))
  }

  /** The checked reading only adds answers: whatever the written one finds, it finds too. */
  lemma {:induction false} ParseReplyCheckedExtends<Q>(content: string, parseObject: string -> Parse<Option<Q>>, parseArray: string -> Parse<Q>)
    ensures ParseReply(content, parseObject, parseArray).Questions? ==>
              ParseReplyChecked(content, parseObject, parseArray) == ParseReply(content, parseObject, parseArray)
    ensures ArrayQuestions(content, parseArray).Some? ==> ParseReplyChecked(content, parseObject, parseArray).Questions?
  {
    if ParseReply(content, parseObject, parseArray).Questions? && ObjectQuestions(content, parseObject).None? {
      assert ObjectThrows(content, parseObject);
    }
  }

  /** One question object, as a model might write it. */
  const SingleQuestionObject := "{\"question_text\":\"Q\"}"
  /** A model reply that is a bare array of that one question. */
  const SingleQuestionArray := "[" + SingleQuestionObject + "]"

  /** In the one-question array, the braced match is the object and the bracketed match is the whole reply. */
  lemma {:induction false} SingleQuestionArrayMatches()
    ensures Matched(SingleQuestionArray, '{', '}') == Some(SingleQuestionObject)
    ensures Matched(SingleQuestionArray, '[', ']') == Some(SingleQuestionArray)
  {
    var s, o := SingleQuestionArray, SingleQuestionObject;
    assert s[0] == '[' && s[|s| - 1] == ']';
    assert s[1] == o[0] == '{';
    assert s[|s| - 2] == o[|o| - 1] == '}';
    MatchSpanAt(s, '{', '}', 1, |s| - 2);
    assert s[1..|s| - 1] == o;
    MatchSpanAt(s, '[', ']', 0, |s| - 1);
    assert s[0..|s|] == s;
  }

  /**
   * A bare one-question array is lost: its braced text is a valid object
   * without a `questions` field, so the array fallback is never tried and
   * the function answers `[]`; the checked reading returns the array.
   */
  lemma {:induction false} SingleQuestionArrayLost<Q>(q: Q, parseObject: string -> Parse<Option<Q>>, parseArray: string -> Parse<Q>)
    requires parseObject(SingleQuestionObject) == Parsed(None)
    requires parseArray(SingleQuestionArray) == Parsed(q)
    ensures ParseReply(SingleQuestionArray, parseObject, parseArray) == NoQuestions
    ensures ParseReplyChecked(SingleQuestionArray, parseObject, parseArray) == Questions(q)
  {
    SingleQuestionArrayMatches();
    assert ObjectQuestions(SingleQuestionArray, parseObject).None?;
    assert ArrayQuestions(SingleQuestionArray, parseArray) == Some(q);
  }

  /** The gateway is called: not a preflight, the body parsed and the key is set. */
  predicate Calls(req: Request, key: Option<string>) {
    req.httpMethod != "OPTIONS" && req.body.Parsed? && !Falsy(key)
  }

  /**
   * The request handler. A preflight is answered with the CORS headers and
   * no body. Otherwise a body that does not parse, a missing or empty key, a
   * failed call and a failing status end in an `{ error }` response; an ok
   * reply yields `{ questions }` read from its content (empty when absent).
   */
  function Handle<Q>(req: Request, key: Option<string>, fetch: GatewayCall -> Parse<Reply>,
                     parseObject: string -> Parse<Option<Q>>, parseArray: string -> Parse<Q>): (r: Response<Q>)
    ensures req.httpMethod == "OPTIONS" ==> r == Response(200, CorsHeaders, NoBody)
    ensures req.httpMethod != "OPTIONS" ==> r.headers == JsonHeaders && !r.body.NoBody?
    ensures r.status == 200 <==> !r.body.ErrorBody?
    ensures r.status == 200 || r.status == 402 || r.status == 429 || r.status == 500
    ensures req.httpMethod != "OPTIONS" && req.body.Throws? ==> r == Fail(500, req.body.message)
    ensures req.httpMethod != "OPTIONS" && req.body.Parsed? && Falsy(key) ==> r == Fail(500, KeyMessage)
    ensures r.status == 402 || r.status == 429 || r.body.QuestionsBody? ==>
              && req.httpMethod != "OPTIONS" && req.body.Parsed? && !Falsy(key)
              && fetch(Call(req.body.value, key.value)).Parsed?
    ensures r.status == 402 || r.status == 429 ==>
              fetch(Call(req.body.value, key.value)).value.status == r.status
    ensures r.body.QuestionsBody? ==>
              var reply := fetch(Call(req.body.value, key.value)).value;
              && Ok2xx(reply.status) && reply.content.Parsed?
              && r.body.questions == ParseReply(TextOr(reply.content.value, ""), parseObject, parseArray)
    ensures Calls(req, key) && fetch(Call(req.body.value, key.value)).Throws? ==>
              r == Fail(500, fetch(Call(req.body.value, key.value)).message)
    ensures Calls(req, key) && fetch(Call(req.body.value, key.value)).Parsed? ==>
              var reply := fetch(Call(req.body.value, key.value)).value;
              && (GatewayFailure(reply.status).Some? ==>
                    r == Fail(GatewayFailure(reply.status).value.status, GatewayFailure(reply.status).value.message))
              && (Ok2xx(reply.status) && reply.content.Throws? ==> r == Fail(500, reply.content.message))
              && (Ok2xx(reply.status) && reply.content.Parsed? ==>
                    r == Response(200, JsonHeaders, QuestionsBody(ParseReply(TextOr(reply.content.value, ""), parseObject, parseArray))))
  {
    if req.httpMethod == "OPTIONS" then Response(200, CorsHeaders, NoBody)
    else match req.body
      case Throws(m) => Fail(500, m)
      case Parsed(body) =>
        if Falsy(key) then Fail(500, KeyMessage)
        else match fetch(Call(body, key.value))
          case Throws(m) => Fail(500, m)
          case Parsed(reply) =>
            match GatewayFailure(reply.status)
            case Some(failure) => Fail(failure.status, failure.message)
            case None =>
              match reply.content
              case Throws(m) => Fail(500, m)
              case Parsed(content) =>
                Response(200, JsonHeaders, QuestionsBody(ParseReply(TextOr(content, ""), parseObject, parseArray)))
  }

  /** Without a key the gateway is never consulted: the answer does not depend on it. */
  lemma {:induction false} MissingKeyBeforeGateway<Q>(req: Request, key: Option<string>, f1: GatewayCall -> Parse<Reply>, f2: GatewayCall -> Parse<Reply>,
                                   parseObject: string -> Parse<Option<Q>>, parseArray: string -> Parse<Q>)
    requires Falsy(key)
    ensures Handle(req, key, f1, parseObject, parseArray) == Handle(req, key, f2, parseObject, parseArray)
  {
  }

  /** An ok reply with no content, or content without braces, yields an empty list and status 200. */
  lemma {:induction false} EmptyReplyGivesNoQuestions<Q>(req: Request, key: string, fetch: GatewayCall -> Parse<Reply>,
                                      parseObject: string -> Parse<Option<Q>>, parseArray: string -> Parse<Q>)
    requires req.httpMethod != "OPTIONS" && req.body.Parsed? && key != ""
    requires fetch(Call(req.body.value, key)) == Parsed(Reply(200, Parsed(None)))
    ensures Handle(req, Some(key), fetch, parseObject, parseArray) == Response(200, JsonHeaders, QuestionsBody(NoQuestions))
  {
    assert MatchSpan("", '{', '}').None?;
  }

  /**
   * The status sent back once the gateway answers: its own 429 or 402, 500
   * for every other failing status or unreadable reply, and 200 otherwise.
   */
  lemma {:induction false} HandleStatusFollowsGateway<Q>(req: Request, key: Option<string>, fetch: GatewayCall -> Parse<Reply>,
                                       parseObject: string -> Parse<Option<Q>>, parseArray: string -> Parse<Q>)
    requires Calls(req, key) && fetch(Call(req.body.value, key.value)).Parsed?
    ensures var reply := fetch(Call(req.body.value, key.value)).value;
      Handle(req, key, fetch, parseObject, parseArray).status ==
        if reply.status == 429 || reply.status == 402 then reply.status
        else if !Ok2xx(reply.status) || reply.content.Throws? then 500
        else 200
  {
    var reply := fetch(Call(req.body.value, key.value)).value;
    if !Ok2xx(reply.status) {
      assert GatewayFailure(reply.status).Some?;
    }
  }
}
