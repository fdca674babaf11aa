/**
 * The upload/analysis session of src/App.jsx: the component's state fields,
 * the handlers that update them, the analyze-button condition, and the
 * classification of a verdict for display.
 */
module App {
  import opened Wrappers
  import opened Text
  import opened GeminiApi

  /** A selected file as the handlers see it; its bytes are read by the browser. */
  datatype File = File(name: string, mimeType: string, size: nat)

  const SupportedTypes: seq<string> := ["image/jpeg", "image/png", "image/webp", "image/gif", "image/bmp"]
  const UnsupportedTypeMessage := "Unsupported file type. Please upload a JPEG, PNG, WebP, GIF, or BMP image."
  const MissingKeyMessage := "Please enter your Gemini API key first."
  const AnalysisFailedMessage := "Analysis failed. Please check your API key and try again."

  // ---------------------------------------------------------------------------
  // Verdict classification
  // ---------------------------------------------------------------------------

  datatype Category = Ai | Modified | Authentic | Unknown

  predicate AiPhrase(v: string) {
    Contains(v, "ai-generated") || Contains(v, "ai generated")
  }

  predicate ModifiedPhrase(v: string) {
    Contains(v, "modified") || Contains(v, "manipulated") || Contains(v, "edited")
  }

  predicate AuthenticPhrase(v: string) {
    Contains(v, "authentic") || Contains(v, "real") || Contains(v, "genuine")
  }

  /** `getVerdict` once a result exists: the first rule, in order, whose phrase occurs in the lowercased verdict. */
  function VerdictCategory(verdict: Option<string>): (c: Category)
    ensures verdict.None? ==> c == Unknown
  {
    if verdict.None? then Unknown
    else
      var v := Lower(verdict.value);
      if AiPhrase(v) then Ai
      else if ModifiedPhrase(v) then Modified
      else if AuthenticPhrase(v) then Authentic
      else Unknown
  }

  /** `getVerdict`: no category without a result. */
  function GetVerdict(result: Option<AnalysisResult>): (c: Option<Category>)
    ensures c.None? <==> result.None?
  {
    if result.None? then None else Some(VerdictCategory(Some(result.value.verdict)))
  }

  /** A rule of the classification table: phrases and the category any one of them selects. */
  datatype Rule = Rule(phrases: seq<string>, category: Category)

  /** The classification rules as a table, checked in order. */
  const Rules: seq<Rule> := [
    Rule(["ai-generated", "ai generated"], Ai),
    Rule(["modified", "manipulated", "edited"], Modified),
    Rule(["authentic", "real", "genuine"], Authentic)
  ]

  predicate ContainsAny(s: string, phrases: seq<string>) {
    exists k :: 0 <= k < |phrases| && Contains(s, phrases[k])
  }

  /** The category of the first rule that has a phrase occurring in `s`, else `Unknown`. */
  function FirstMatch(rules: seq<Rule>, s: string): Category {
    if rules == [] then Unknown
    else if ContainsAny(s, rules[0].phrases) then rules[0].category
    else FirstMatch(rules[1..], s)
  }

  /** The if-chain agrees with the rule table read first-match-wins on the lowercased verdict. */
  lemma VerdictFollowsRules(v: string)
    ensures VerdictCategory(Some(v)) == FirstMatch(Rules, Lower(v))
  {
    var s := Lower(v);
    var r0, r1, r2 := Rules[0], Rules[1], Rules[2];
    assert ContainsAny(s, r0.phrases) <==> AiPhrase(s) by {
      assert r0.phrases[0] == "ai-generated" && r0.phrases[1] == "ai generated";
    }
    assert ContainsAny(s, r1.phrases) <==> ModifiedPhrase(s) by {
      assert r1.phrases[0] == "modified" && r1.phrases[1] == "manipulated" && r1.phrases[2] == "edited";
    }
    assert ContainsAny(s, r2.phrases) <==> AuthenticPhrase(s) by {
      assert r2.phrases[0] == "authentic" && r2.phrases[1] == "real" && r2.phrases[2] == "genuine";
    }
    assert Rules[1..] == [r1, r2] && Rules[1..][1..] == [r2] && Rules[1..][1..][1..] == [];
    assert FirstMatch([r2], s) == if AuthenticPhrase(s) then Authentic else FirstMatch([], s);
    assert FirstMatch([r1, r2], s) == if ModifiedPhrase(s) then Modified else FirstMatch([r2], s);
    assert FirstMatch(Rules, s) == if AiPhrase(s) then Ai else FirstMatch([r1, r2], s);
  }

  /** Classification ignores letter case: a verdict and its lowercase form fall in the same category. */
  lemma VerdictIgnoresCase(v: string)
    ensures VerdictCategory(Some(Lower(v))) == VerdictCategory(Some(v))
  {
    LowerIdempotent(v);
  }

  /**
   * First match wins, stated both ways for every category: a verdict is `Ai`
   * exactly when it names AI generation, `Modified` exactly when it names a
   * modification and not AI generation, and so on down the rules.
   */
  lemma VerdictFirstMatch(verdict: string)
    ensures var v := Lower(verdict);
      && (VerdictCategory(Some(verdict)) == Ai <==> AiPhrase(v))
      && (VerdictCategory(Some(verdict)) == Modified <==> !AiPhrase(v) && ModifiedPhrase(v))
      && (VerdictCategory(Some(verdict)) == Authentic <==> !AiPhrase(v) && !ModifiedPhrase(v) && AuthenticPhrase(v))
      && (VerdictCategory(Some(verdict)) == Unknown <==> !AiPhrase(v) && !ModifiedPhrase(v) && !AuthenticPhrase(v))
  {
  }

  /** A lowercased verdict without the letter g names no AI generation. */
  lemma NoAiPhraseWithout(v: string)
    requires 'g' !in v
    ensures !AiPhrase(v)
  {
    NotContainsMissingChar(v, "ai-generated", 'g');
    NotContainsMissingChar(v, "ai generated", 'g');
  }

  /** A lowercased verdict without the letters g and d names neither AI generation nor a modification. */
  lemma NoAiOrModifiedPhraseWithout(v: string)
    requires 'g' !in v && 'd' !in v
    ensures !AiPhrase(v) && !ModifiedPhrase(v)
  {
    NoAiPhraseWithout(v);
    NotContainsMissingChar(v, "modified", 'd');
    NotContainsMissingChar(v, "manipulated", 'd');
    NotContainsMissingChar(v, "edited", 'd');
  }

  /** A lowercased verdict without the letters g, d, h and r holds none of the rule phrases. */
  lemma NoPhraseWithout(v: string)
    requires 'g' !in v && 'd' !in v && 'h' !in v && 'r' !in v
    ensures !AiPhrase(v) && !ModifiedPhrase(v) && !AuthenticPhrase(v)
  {
    NoAiOrModifiedPhraseWithout(v);
    NotContainsMissingChar(v, "authentic", 'h');
    NotContainsMissingChar(v, "real", 'r');
    NotContainsMissingChar(v, "genuine", 'g');
  }

  // ---------------------------------------------------------------------------
  // The session controller
  // ---------------------------------------------------------------------------

  /** The analysis the controller hands to the client: the selected file and the key it uses. */
  datatype AnalyzeCall = AnalyzeCall(file: File, apiKey: string)

  /** All of the controller's state at one moment. */
  datatype Snapshot = Snapshot(
    image: Option<File>,
    imagePreview: Option<string>,
    analyzing: bool,
    result: Option<AnalysisResult>,
    error: Option<string>,
    apiKey: string,
    showApiKeyInput: bool,
    storedKey: Option<string>)

  /** `ENV_API_KEY || localStorage.getItem('gemini_api_key') || ''`: the build-time key wins, then the stored key. */
  function InitialApiKey(envKey: string, storedKey: Option<string>): (k: string)
    ensures envKey != [] ==> k == envKey
    ensures envKey == [] && storedKey.Some? ==> k == storedKey.value
    ensures envKey == [] && storedKey.None? ==> k == []
  {
    if envKey != [] then envKey
    else if storedKey.Some? && storedKey.value != [] then storedKey.value
    else []
  }

  /**
   * `!ENV_API_KEY && !localStorage.getItem('gemini_api_key')`: the key
   * prompt is shown at start exactly when no starting key was found.
   */
  predicate InitiallyPrompts(envKey: string, storedKey: Option<string>)
    ensures InitiallyPrompts(envKey, storedKey) <==> InitialApiKey(envKey, storedKey) == []
  {
    envKey == [] && (storedKey.None? || storedKey.value == [])
  }

  /** `err.message || 'Analysis failed…'`: the message shown for a rejected analysis (an empty message stands for a missing one). */
  function ShownError(message: string): (m: string)
    ensures m != []
    ensures message != [] ==> m == message
    ensures message == [] ==> m == AnalysisFailedMessage
  {
    if message == [] then AnalysisFailedMessage else message
  }

  class Controller {
    var image: Option<File>
    var imagePreview: Option<string>
    var analyzing: bool
    var result: Option<AnalysisResult>
    var error: Option<string>
    var apiKey: string
    var showApiKeyInput: bool
    /** The value under 'gemini_api_key' in the browser's local storage. */
    var storedKey: Option<string>

    function State(): Snapshot
      reads this
    {
      Snapshot(image, imagePreview, analyzing, result, error, apiKey, showApiKeyInput, storedKey)
    }

    /** `disabled={!image || analyzing}` on the analyze button, negated. */
    function AnalyzeEnabled(): (enabled: bool)
      reads this
      ensures enabled ==> image.Some?
      ensures analyzing ==> !enabled
    {
      image.Some? && !analyzing
    }

    /** While an analysis is in flight, neither a result nor an error is held. */
    predicate InFlightClear()
      reads this
    {
      analyzing ==> result.None? && error.None?
    }

    /** The component's first render, with the build-time key and the stored key as inputs. */
    constructor (envKey: string, stored: Option<string>)
      ensures State() == Snapshot(None, None, false, None, None, InitialApiKey(envKey, stored),
                                  InitiallyPrompts(envKey, stored), stored)
      ensures !AnalyzeEnabled() && InFlightClear()
    {
      image, imagePreview, analyzing, result, error := None, None, false, None, None;
      apiKey := InitialApiKey(envKey, stored);
      showApiKeyInput := InitiallyPrompts(envKey, stored);
      storedKey := stored;
    }

    /** `handleFile`: ignore a missing file, reject an unsupported type, else select the file. */
    method HandleFile(file: Option<File>)
      modifies this
      ensures file.None? ==> State() == old(State())
      ensures file.Some? && file.value.mimeType !in SupportedTypes ==>
                State() == old(State()).(error := Some(UnsupportedTypeMessage))
      ensures file.Some? && file.value.mimeType in SupportedTypes ==>
                State() == old(State()).(error := None, result := None, image := file)
      ensures (file.None? || file.value.mimeType in SupportedTypes) && old(InFlightClear()) ==> InFlightClear()
    {
      if file.None? {
        return;
      }
      if file.value.mimeType !in SupportedTypes {
        error := Some(UnsupportedTypeMessage);
        return;
      }
      error := None;
      result := None;
      image := file;
    }

    /** `reader.onload`: the preview decoded for a selected file arrives and is shown. */
    method PreviewLoaded(dataUrl: string)
      modifies this
      ensures State() == old(State()).(imagePreview := Some(dataUrl))
    {
      imagePreview := Some(dataUrl);
    }

    /**
     * `handleAnalyze` up to its `await`: nothing without an image, the key
     * prompt for a blank key, else the in-flight state and the call made
     * with the trimmed key.
     */
    method BeginAnalyze() returns (call: Option<AnalyzeCall>)
      modifies this
      ensures old(image).None? ==> call.None? && State() == old(State())
      ensures old(image).Some? && Trim(old(apiKey)) == [] ==>
                call.None? && State() == old(State()).(error := Some(MissingKeyMessage), showApiKeyInput := true)
      ensures old(image).Some? && Trim(old(apiKey)) != [] ==>
                call == Some(AnalyzeCall(old(image).value, Trim(old(apiKey))))
                && State() == old(State()).(analyzing := true, result := None, error := None)
      ensures old(AnalyzeEnabled()) ==> (call.Some? <==> Trim(old(apiKey)) != [])
      ensures call.Some? ==> !AnalyzeEnabled() && call.value.apiKey != [] && InFlightClear()
      ensures old(InFlightClear()) && !old(analyzing) ==> InFlightClear()
    {
      call := None;
      if image.Some? {
        var key := Trim(apiKey);
        if key == [] {
          error := Some(MissingKeyMessage);
          showApiKeyInput := true;
        } else {
          analyzing := true;
          result := None;
          error := None;
          call := Some(AnalyzeCall(image.value, key));
        }
      }
    }

    /** `handleAnalyze` after its `await`: store the record or the message, then leave the in-flight state. */
    method CompleteAnalyze(outcome: Outcome)
      modifies this
      ensures outcome.Ok? ==> State() == old(State()).(result := Some(outcome.result), analyzing := false)
      ensures outcome.Err? ==> State() == old(State()).(error := Some(ShownError(outcome.message)), analyzing := false)
      ensures AnalyzeEnabled() <==> image.Some?
      ensures InFlightClear()
    {
      match outcome {
        case Ok(r) =>
          result := Some(r);
        case Err(message) =>
          error := Some(ShownError(message));
      }
      analyzing := false;
    }

    /**
     * `handleAnalyze` run to completion with nothing in between: `readDataUrl`
     * stands for `FileReader`, `send` for `fetch` and `parseJson` for
     * `JSON.parse`. A started analysis settles with exactly one of a result
     * or an error.
     */
    method HandleAnalyze(readDataUrl: File -> string, send: Request -> Response,
                         parseJson: string -> Option<ParsedObj>)
      modifies this
      ensures old(image).None? ==> State() == old(State())
      ensures old(image).Some? && Trim(old(apiKey)) == [] ==>
                State() == old(State()).(error := Some(MissingKeyMessage), showApiKeyInput := true)
      ensures old(image).Some? && Trim(old(apiKey)) != [] ==>
                var file := old(image).value;
                var o := AnalyzeImageWithGemini(file.mimeType, readDataUrl(file), Trim(old(apiKey)), send, parseJson);
                !analyzing && image == old(image) && imagePreview == old(imagePreview)
                && apiKey == old(apiKey) && showApiKeyInput == old(showApiKeyInput) && storedKey == old(storedKey)
                && (result.Some? != error.Some?)
                && (o.Ok? ==> result == Some(o.result))
                && (o.Err? ==> error == Some(ShownError(o.message)) && error.value != [])
      ensures old(InFlightClear()) && !old(analyzing) ==> InFlightClear()
    {
      var call := BeginAnalyze();
      if call.Some? {
        var file := call.value.file;
        var o := AnalyzeImageWithGemini(file.mimeType, readDataUrl(file), call.value.apiKey, send, parseJson);
        CompleteAnalyze(o);
      }
    }

    /**
     * A click on the analyze button, which is disabled without an image or
     * while an analysis is in flight: a disabled click changes nothing.
     */
    method ClickAnalyze(readDataUrl: File -> string, send: Request -> Response,
                        parseJson: string -> Option<ParsedObj>)
      modifies this
      ensures !old(AnalyzeEnabled()) ==> State() == old(State())
      ensures old(AnalyzeEnabled()) && Trim(old(apiKey)) == [] ==>
                State() == old(State()).(error := Some(MissingKeyMessage), showApiKeyInput := true)
      ensures old(AnalyzeEnabled()) && Trim(old(apiKey)) != [] ==>
                var file := old(image).value;
                var o := AnalyzeImageWithGemini(file.mimeType, readDataUrl(file), Trim(old(apiKey)), send, parseJson);
                !analyzing && image == old(image) && imagePreview == old(imagePreview)
                && apiKey == old(apiKey) && showApiKeyInput == old(showApiKeyInput) && storedKey == old(storedKey)
                && (result.Some? != error.Some?)
                && (o.Ok? ==> result == Some(o.result))
                && (o.Err? ==> error == Some(ShownError(o.message)) && error.value != [])
      ensures old(InFlightClear()) ==> InFlightClear()
    {
      if AnalyzeEnabled() {
        HandleAnalyze(readDataUrl, send, parseJson);
      }
    }

    /** The key input's `onChange`: the typed value becomes the key. */
    method EditApiKey(value: string)
      modifies this
      ensures State() == old(State()).(apiKey := value)
    {
      apiKey := value;
    }

    /** The header's key button: show or hide the key prompt. */
    method ToggleApiKeyInput()
      modifies this
      ensures State() == old(State()).(showApiKeyInput := !old(showApiKeyInput))
    {
      showApiKeyInput := !showApiKeyInput;
    }

    /** `handleSaveApiKey`: ignore a blank key, else store the trimmed key, hide the prompt and clear the error. */
    method HandleSaveApiKey()
      modifies this
      ensures Trim(old(apiKey)) == [] ==> State() == old(State())
      ensures Trim(old(apiKey)) != [] ==>
                State() == old(State()).(storedKey := Some(Trim(old(apiKey))), showApiKeyInput := false, error := None)
      ensures storedKey != old(storedKey) ==>
                storedKey.Some? && storedKey.value != [] && Trim(storedKey.value) == storedKey.value
      ensures old(InFlightClear()) ==> InFlightClear()
    {
      var key := Trim(apiKey);
      if key != [] {
        TrimIdempotent(apiKey);
        storedKey := Some(key);
        showApiKeyInput := false;
        error := None;
      }
    }

    /** `handleReset`: from any state, no image, preview, result or error. */
    method HandleReset()
      modifies this
      ensures State() == old(State()).(image := None, imagePreview := None, result := None, error := None)
      ensures !AnalyzeEnabled() && InFlightClear()
    {
      image := None;
      imagePreview := None;
      result := None;
      error := None;
    }
  }
}
