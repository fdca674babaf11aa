/**
 * The inference client of src/geminiApi.js with its I/O taken out: what it
 * sends (MIME type, base64 payload, key) and how it turns one HTTP response
 * into either a normalised analysis record or an error message.
 *
 * `fetch`, `FileReader` and `JSON.parse` are supplied from outside: the
 * response arrives as a `Response` value, the data URL as a string, and
 * `JSON.parse` as a function from the model's text to the fields the client
 * reads (`None` when parsing throws, and also when the text is `null`, since
 * reading a property of `null` throws inside the same `try`).
 */
module GeminiApi {
  import opened Wrappers
  import opened Text

  /** The normalised verdict record the client resolves with. */
  datatype AnalysisResult = AnalysisResult(verdict: string, confidence: string, analysis: string, indicators: seq<string>)

  /**
   * The four properties the client reads from the parsed JSON object. A text
   * field is `None` when the property is absent; `indicators` is `Some` only
   * when the property is an array.
   */
  datatype ParsedObj = ParsedObj(
    verdict: Option<string>,
    confidence: Option<string>,
    analysis: Option<string>,
    indicators: Option<seq<string>>)

  /**
   * What `response.json()` yields, as the client reads it: either a rejection
   * with its message, or the two paths the client looks at, `error.message`
   * (for a failed status) and `candidates[0].content.parts[0].text` (for a
   * successful one).
   */
  datatype Body =
    | Unreadable(reason: string)
    | Readable(errorMessage: Option<string>, text: Option<string>)

  datatype Response = Response(status: nat, ok: bool, statusText: string, body: Body)

  /** How `analyzeImageWithGemini` settles: resolved with a record, or rejected with an error message. */
  datatype Outcome = Ok(result: AnalysisResult) | Err(message: string)

  /** What the request carries besides the fixed prompt and generation settings. */
  datatype Request = Request(apiKey: string, mimeType: string, data: Option<string>)

  /** The error kinds the status codes select. */
  datatype HttpErrorKind = InvalidRequest | Unauthorized | RateLimited | RemoteError(status: nat)

  const DefaultMimeType := "image/jpeg"
  const NoResponseMessage := "No response received from Gemini API."
  const InvalidRequestPrefix := "Invalid request: "
  const UnauthorizedPrefix := "Unauthorized: "
  const UnauthorizedSuffix := ". Please check your Gemini API key."
  const RateLimitPrefix := "Rate limit exceeded: "
  const RateLimitSuffix := ". Wait a moment and try again, or check your API quota at aistudio.google.com."
  const DefaultVerdict := "Unknown"
  const DefaultConfidence := "N/A"
  const DefaultAnalysis := "No analysis available."
  const FallbackVerdict := "Analysis Complete"

  /** `imageFile.type || 'image/jpeg'`: the declared type, or JPEG when the browser declared none. */
  function MimeTypeOf(fileType: string): (m: string)
    ensures m != []
    ensures fileType != [] ==> m == fileType
    ensures fileType == [] ==> m == DefaultMimeType
  {
    if fileType == [] then DefaultMimeType else fileType
  }

  /** The data URL `FileReader.readAsDataURL` produces for a base64 payload. */
  function DataUrl(mimeType: string, payload: string): string {
    "data:" + mimeType + ";base64," + payload
  }

  /** `reader.result.split(',')[1]`: the segment after the first comma, up to any second one; `undefined` without a comma. */
  function Base64Payload(dataUrl: string): (r: Option<string>)
    ensures r.None? <==> ',' !in dataUrl
    ensures r.Some? ==> ',' !in r.value
  {
    var parts := Split(dataUrl, ',');
    if |parts| > 1 then Some(parts[1]) else None
  }

  /** For a data URL whose MIME type and payload hold no comma, the payload is exactly what is sent. */
  lemma Base64OfDataUrl(mimeType: string, payload: string)
    requires ',' !in mimeType && ',' !in payload
    ensures Base64Payload(DataUrl(mimeType, payload)) == Some(payload)
  {
    var head := "data:" + mimeType + ";base64";
    assert ',' !in head by {
      assert forall k :: 0 <= k < |head| ==> head[k] != ',' by {
        forall k | 0 <= k < |head| ensures head[k] != ',' {
          if 5 <= k < 5 + |mimeType| { assert head[k] == mimeType[k - 5]; }
        }
      }
    }
    assert DataUrl(mimeType, payload) == Join([head, payload], ',');
    SplitJoin([head, payload], ',');
  }

  /** The parts of the request body and URL that vary: the key as given, a non-empty MIME type, and the payload. */
  function BuildRequest(fileType: string, dataUrl: string, apiKey: string): (r: Request)
    ensures r.apiKey == apiKey
    ensures r.mimeType != [] && (fileType != [] ==> r.mimeType == fileType)
    ensures r.data.Some? <==> ',' in dataUrl
    ensures r.mimeType == MimeTypeOf(fileType) && r.data == Base64Payload(dataUrl)
  {
    Request(apiKey, MimeTypeOf(fileType), Base64Payload(dataUrl))
  }

  /** `errorData?.error?.message || \`API Error: ${status} ${statusText}\``, where an unreadable body reads as `{}`. */
  function ErrorBaseMessage(status: nat, statusText: string, body: Body): (m: string)
    ensures m != []
    ensures body.Readable? && body.errorMessage.Some? && body.errorMessage.value != [] ==> m == body.errorMessage.value
    ensures !(body.Readable? && body.errorMessage.Some? && body.errorMessage.value != []) ==>
              m == "API Error: " + NatToString(status) + " " + statusText
  {
    if body.Readable? && body.errorMessage.Some? && body.errorMessage.value != [] then body.errorMessage.value
    else "API Error: " + NatToString(status) + " " + statusText
  }

  function KindOfStatus(status: nat): HttpErrorKind {
    if status == 400 then InvalidRequest
    else if status == 403 then Unauthorized
    else if status == 429 then RateLimited
    else RemoteError(status)
  }

  /** The message thrown for a failed status, given the base message; the base message is always carried. */
  function HttpErrorMessage(status: nat, base: string): (m: string)
    ensures |base| < |m|
    ensures exists i: nat :: OccursAt(m, base, i)
  {
    var wrap: (string, string) :=
      if status == 400 then (InvalidRequestPrefix, [])
      else if status == 403 then (UnauthorizedPrefix, UnauthorizedSuffix)
      else if status == 429 then (RateLimitPrefix, RateLimitSuffix)
      else (NatToString(status) + ": ", []);
    var prefix, suffix := wrap.0, wrap.1;
    assert (prefix + base + suffix)[|prefix|..|prefix| + |base|] == base;
    assert OccursAt(prefix + base + suffix, base, |prefix|);
    prefix + base + suffix
  }

  predicate EndsWith(s: string, suffix: string) {
    |suffix| <= |s| && s[|s| - |suffix|..] == suffix
  }

  /** Reads an error message back into its kind and base message; an independent reading of the thrown text. */
  function DecodeHttpError(m: string): Option<(HttpErrorKind, string)> {
    if StartsWith(m, InvalidRequestPrefix) then
      Some((InvalidRequest, m[|InvalidRequestPrefix|..]))
    else if StartsWith(m, UnauthorizedPrefix) && EndsWith(m[|UnauthorizedPrefix|..], UnauthorizedSuffix) then
      var rest := m[|UnauthorizedPrefix|..];
      Some((Unauthorized, rest[..|rest| - |UnauthorizedSuffix|]))
    else if StartsWith(m, RateLimitPrefix) && EndsWith(m[|RateLimitPrefix|..], RateLimitSuffix) then
      var rest := m[|RateLimitPrefix|..];
      Some((RateLimited, rest[..|rest| - |RateLimitSuffix|]))
    else
      var k := DigitPrefixLength(m);
      if k > 0 && (k == 1 || m[0] != '0') && StartsWith(m[k..], ": ") then Some((RemoteError(DigitsValue(m[..k])), m[k + 2..]))
      else None
  }

  /** A message whose first character differs from a prefix's does not start with it. */
  lemma HeadsDiffer(m: string, prefix: string)
    requires |m| > 0 && |prefix| > 0 && m[0] != prefix[0]
    ensures !StartsWith(m, prefix)
  {
  }

  /** Cutting a known prefix and suffix off `prefix + base + suffix` leaves `base`. */
  lemma Unwrap(prefix: string, base: string, suffix: string)
    ensures StartsWith(prefix + base + suffix, prefix)
    ensures EndsWith((prefix + base + suffix)[|prefix|..], suffix)
    ensures var rest := (prefix + base + suffix)[|prefix|..]; rest[..|rest| - |suffix|] == base
  {
    var m := prefix + base + suffix;
    assert m[..|prefix|] == prefix;
    assert m[|prefix|..] == base + suffix;
  }

  /** The thrown message names the kind its status selects and carries the base message intact. */
  lemma HttpErrorRoundTrip(status: nat, base: string)
    ensures DecodeHttpError(HttpErrorMessage(status, base)) == Some((KindOfStatus(status), base))
  {
    var m := HttpErrorMessage(status, base);
    if status == 400 {
      Unwrap(InvalidRequestPrefix, base, []);
      assert m == InvalidRequestPrefix + base + [];
      assert m[|InvalidRequestPrefix|..] == base;
    } else if status == 403 {
      HeadsDiffer(m, InvalidRequestPrefix);
      Unwrap(UnauthorizedPrefix, base, UnauthorizedSuffix);
    } else if status == 429 {
      HeadsDiffer(m, InvalidRequestPrefix);
      HeadsDiffer(m, UnauthorizedPrefix);
      Unwrap(RateLimitPrefix, base, RateLimitSuffix);
    } else {
      RemoteErrorRoundTrip(status, base);
    }
  }

  /** A status without a kind of its own is read back from the leading digits of the message. */
  lemma RemoteErrorRoundTrip(status: nat, base: string)
    requires status != 400 && status != 403 && status != 429
    ensures DecodeHttpError(HttpErrorMessage(status, base)) == Some((RemoteError(status), base))
  {
    var m := HttpErrorMessage(status, base);
    var d := NatToString(status);
    assert m == d + (": " + base);
    assert m[0] == d[0] && IsDigit(m[0]);
    HeadsDiffer(m, InvalidRequestPrefix);
    HeadsDiffer(m, UnauthorizedPrefix);
    HeadsDiffer(m, RateLimitPrefix);
    DigitPrefixOfConcat(d, ": " + base);
    assert m[..|d|] == d && m[|d|..] == ": " + base;
    NatToStringValue(status);
    assert m[|d| + 2..] == base;
  }

  /** A 403 message tells the user to check the key. */
  lemma UnauthorizedMentionsKey(base: string)
    ensures KindOfStatus(403) == Unauthorized
    ensures Contains(HttpErrorMessage(403, base), "Please check your Gemini API key.")
  {
    var hint := "Please check your Gemini API key.";
    var m := HttpErrorMessage(403, base);
    var i := |UnauthorizedPrefix| + |base| + 2;
    assert m == (UnauthorizedPrefix + base) + UnauthorizedSuffix;
    assert m[i - 2..] == UnauthorizedSuffix;
    assert UnauthorizedSuffix[2..] == hint;
    assert m[i..i + |hint|] == hint;
    assert OccursAt(m, hint, i);
    ContainsIff(m, hint);
  }

  /** JavaScript's `value || fallback` for a property that is absent or a string. */
  function OrDefault(v: Option<string>, fallback: string): string {
    if v.Some? && v.value != [] then v.value else fallback
  }

  /** The record a successful parse becomes, each field taken from the object or defaulted. */
  function Normalise(p: ParsedObj): (r: AnalysisResult)
    ensures r.verdict != [] && r.confidence != [] && r.analysis != []
  {
    AnalysisResult(
      OrDefault(p.verdict, DefaultVerdict),
      OrDefault(p.confidence, DefaultConfidence),
      OrDefault(p.analysis, DefaultAnalysis),
      if p.indicators.Some? then p.indicators.value else [])
  }

  /** The degraded record returned when the model's text does not parse: the raw text is kept as the analysis. */
  function Degraded(text: string): (r: AnalysisResult)
    ensures r.analysis == text && r.indicators == []
    ensures r.verdict == FallbackVerdict && r.confidence == DefaultConfidence
  {
    AnalysisResult(FallbackVerdict, DefaultConfidence, text, [])
  }

  /** How `analyzeImageWithGemini` settles once `fetch` has produced `resp`. */
  function AnalyzeResponse(resp: Response, parseJson: string -> Option<ParsedObj>): (o: Outcome)
    ensures o.Ok? ==> resp.ok && resp.body.Readable? && resp.body.text.Some? && resp.body.text.value != []
    ensures o.Ok? ==> o.result.verdict != [] && o.result.confidence != [] && o.result.analysis != []
  {
    if !resp.ok then
      Err(HttpErrorMessage(resp.status, ErrorBaseMessage(resp.status, resp.statusText, resp.body)))
    else match resp.body
      case Unreadable(reason) => Err(reason)
      case Readable(_, text) =>
        if text.None? || text.value == [] then Err(NoResponseMessage)
        else match parseJson(text.value)
          case None => Ok(Degraded(text.value))
          case Some(p) => Ok(Normalise(p))
  }

  /** `analyzeImageWithGemini(imageFile, apiKey)`: one request through `send`, then `AnalyzeResponse`. */
  function AnalyzeImageWithGemini(
    fileType: string, dataUrl: string, apiKey: string,
    send: Request -> Response, parseJson: string -> Option<ParsedObj>): (o: Outcome)
    ensures o.Ok? ==> send(BuildRequest(fileType, dataUrl, apiKey)).ok
  {
    AnalyzeResponse(send(BuildRequest(fileType, dataUrl, apiKey)), parseJson)
  }

  /**
   * A failed status never yields a record; it is rejected with the message of
   * the kind its status selects, carrying the body's message or the status line.
   */
  lemma FailedStatusRejects(resp: Response, parseJson: string -> Option<ParsedObj>)
    requires !resp.ok
    ensures AnalyzeResponse(resp, parseJson).Err?
    ensures DecodeHttpError(AnalyzeResponse(resp, parseJson).message)
            == Some((KindOfStatus(resp.status), ErrorBaseMessage(resp.status, resp.statusText, resp.body)))
  {
    HttpErrorRoundTrip(resp.status, ErrorBaseMessage(resp.status, resp.statusText, resp.body));
  }

  /** A successful status whose text part is missing or empty is rejected with the fixed message. */
  lemma MissingTextRejects(resp: Response, parseJson: string -> Option<ParsedObj>)
    requires resp.ok && resp.body.Readable?
    ensures AnalyzeResponse(resp, parseJson) == Err(NoResponseMessage)
            <==> resp.body.text.None? || resp.body.text.value == []
  {
  }

  /** Once a non-empty text part is obtained, the call always resolves with a displayable record. */
  lemma TextAlwaysResolves(resp: Response, parseJson: string -> Option<ParsedObj>)
    requires resp.ok && resp.body.Readable? && resp.body.text.Some? && resp.body.text.value != []
    ensures AnalyzeResponse(resp, parseJson).Ok?
    ensures parseJson(resp.body.text.value).None? ==>
              AnalyzeResponse(resp, parseJson) == Ok(Degraded(resp.body.text.value))
    ensures parseJson(resp.body.text.value).Some? ==>
              AnalyzeResponse(resp, parseJson) == Ok(Normalise(parseJson(resp.body.text.value).value))
  {
  }

  /** A successful status whose body cannot be read is rejected with the reading error's own message. */
  lemma UnreadableBodyRejects(resp: Response, parseJson: string -> Option<ParsedObj>)
    requires resp.ok && resp.body.Unreadable?
    ensures AnalyzeResponse(resp, parseJson) == Err(resp.body.reason)
  {
  }

  /** A parsed object whose four fields are present, non-empty strings and an array comes back unchanged. */
  lemma WellTypedParseUnchanged(r: AnalysisResult)
    requires r.verdict != [] && r.confidence != [] && r.analysis != []
    ensures Normalise(ParsedObj(Some(r.verdict), Some(r.confidence), Some(r.analysis), Some(r.indicators))) == r
  {
  }

  /** Each field present in the parsed object as a non-empty string, or as an array for the indicators, is kept as it is. */
  lemma PresentFieldsKept(p: ParsedObj)
    ensures p.verdict.Some? && p.verdict.value != [] ==> Normalise(p).verdict == p.verdict.value
    ensures p.confidence.Some? && p.confidence.value != [] ==> Normalise(p).confidence == p.confidence.value
    ensures p.analysis.Some? && p.analysis.value != [] ==> Normalise(p).analysis == p.analysis.value
    ensures p.indicators.Some? ==> Normalise(p).indicators == p.indicators.value
  {
  }

  /** Each field missing from the parsed object, or present but empty, takes its documented default. */
  lemma MissingFieldsDefault(p: ParsedObj)
    ensures p.verdict.None? || p.verdict.value == [] ==> Normalise(p).verdict == "Unknown"
    ensures p.confidence.None? || p.confidence.value == [] ==> Normalise(p).confidence == "N/A"
    ensures p.analysis.None? || p.analysis.value == [] ==> Normalise(p).analysis == "No analysis available."
    ensures p.indicators.None? ==> Normalise(p).indicators == []
  {
  }
}
