# TrustLens session controller and Gemini response handling in Dafny

TrustLens is a browser client. It uploads an image to the Gemini multimodal
API and shows whether the image looks AI-generated, modified or authentic.
Its logic sits in two places, and this project models both:

- the upload/analysis session controller of `src/App.jsx`;
- the request and response handling of `analyzeImageWithGemini` in
  `src/geminiApi.js`.

The project has four modules.

- `Text` (`text.dfy`) holds the JavaScript string built-ins the source relies
  on. Each is defined once and its properties are proved:
  - `trim`, using the ECMAScript whitespace set;
  - `toLowerCase`;
  - `includes`;
  - `split(',')`;
  - the decimal rendering of a status number.
- `GeminiApi` (`gemini_api.dfy`) is pure, like its source:
  - A response is a datatype holding the status, the `ok` flag, the status
    text and what the code reads from the body. The body is either
    unreadable, or readable with an optional `error.message` and an optional
    `candidates[0].content.parts[0].text`.
  - `fetch` is a function parameter `send`.
  - `JSON.parse` is a function parameter `parseJson`.
  - A call ends in `Outcome = Ok(record) | Err(message)`. An `Err` stands for
    the promise being rejected with that message.
- `App` (`app.dfy`) has two parts:
  - `getVerdict` as functions over strings, with the rule order proved;
  - `class Controller`, with one field per piece of React state plus the
    stored key. Each handler is a method that reassigns those fields.
    `handleAnalyze` is split at its `await` into `BeginAnalyze` and
    `CompleteAnalyze`; `HandleAnalyze` runs the two back to back.
- `VerdictExamples` (`verdict_examples.dfy`) classifies concrete verdicts:
  - the three verdicts the prompt asks the model for;
  - the two verdicts the client fills in itself;
  - a verdict that matches two rules.

Three behaviours of the code are worth knowing when reading the model:

- **Trimmed key.** `handleSaveApiKey` stores the trimmed key, but the
  `apiKey` field keeps the untrimmed text. `HandleAnalyze` therefore trims
  the key again on every call.
- **No result or error in flight.** `analyzing` does not exclude a held
  error. `handleFile` with an unsupported type sets `error` even while an
  analysis is in flight. So does `handleAnalyze` with a blank key, which the
  Retry button (src/App.jsx:291) can call during a flight, because that
  button is disabled only without an image. `InFlightClear` states the
  property. The constructor, `CompleteAnalyze` and `HandleReset` establish
  it. `HandleSaveApiKey` and the analyze button (`ClickAnalyze`) keep it
  from any state. `BeginAnalyze` and `HandleAnalyze` keep it from a state
  that is not in flight. `HandleFile` keeps it for a missing file or a
  supported one.
- **Base64 payload.** `split(',')[1]` is the text between the first and the
  second comma, not everything after the first comma. For a data URL the two
  are the same, because base64 has no comma.

## Model

| member | source | states |
|---|---|---|
| Text.Trim | src/App.jsx:54 | `trim` never lengthens the key, and a non-blank result neither begins nor ends with whitespace. |
| Text.TrimIsSlice | src/App.jsx:54 | `trim` yields a slice of its input. Only whitespace is cut from either end, and the result neither begins nor ends with whitespace. |
| Text.TrimEmptyIff | src/App.jsx:75 | A key is blank after `trim` exactly when it consists only of whitespace. |
| Text.TrimIdempotent | src/App.jsx:76 | Trimming the trimmed key changes nothing. The stored key is already in trimmed form. |
| Text.Lower | src/App.jsx:92 | `toLowerCase` keeps the length and lowercases each character in place. |
| Text.LowerIdempotent | src/App.jsx:92 | Lowercasing an already lowercased verdict changes nothing. |
| Text.Contains | src/App.jsx:93-95 | `includes` holds only for a phrase no longer than the verdict, and always for the empty phrase. |
| Text.ContainsIff | src/App.jsx:93-95 | `includes` holds exactly when the phrase occurs at some index of the verdict. |
| Text.OccursContains | src/App.jsx:93-95 | An occurrence at a known index makes `includes` true. |
| Text.NotContainsMissingChar | src/App.jsx:93-95 | A phrase that has a character the verdict lacks is not included in it. |
| Text.NatToString | src/geminiApi.js:93 | A status is rendered as a non-empty run of digits without a leading zero. |
| Text.NatToStringValue | src/geminiApi.js:105 | The rendered digits read back as the status. |
| Text.DigitPrefixLength | src/geminiApi.js:105 | Gives the length of the maximal leading run of digits. |
| Text.DigitPrefixOfConcat | src/geminiApi.js:105 | In `<status>: msg`, the leading digit run is exactly the status. |
| Text.Split | src/geminiApi.js:41 | `split` always gives at least one part, gives exactly one part when the separator is absent, and no part contains the separator. |
| Text.JoinSplit | src/geminiApi.js:41 | Joining the parts of a split restores the string. |
| Text.SplitPrefix | src/geminiApi.js:41 | A separator-free head is glued onto the first part of the split of the rest. |
| Text.SplitJoin | src/geminiApi.js:41 | Splitting a join of separator-free parts gives the parts back. |
| GeminiApi.MimeTypeOf | src/geminiApi.js:57 | The MIME type sent is the file's own type whenever that is given, and `image/jpeg` otherwise. |
| GeminiApi.Base64Payload | src/geminiApi.js:41 | `split(',')[1]` is undefined exactly when the data URL has no comma. Otherwise it is a comma-free segment. |
| GeminiApi.Base64OfDataUrl | src/geminiApi.js:41 | For a comma-free MIME type and payload, the payload taken from `data:<mime>;base64,<payload>` is exactly that payload. |
| GeminiApi.BuildRequest | src/geminiApi.js:56-83 | The request carries the key it was given, the MIME type `MimeTypeOf` gives, and the payload `Base64Payload` cuts from the data URL. The MIME type is never empty, and a payload is present exactly when the data URL has a comma. |
| GeminiApi.ErrorBaseMessage | src/geminiApi.js:92-93 | The base message is never empty. It is the body's `error.message` when that is present and non-empty. Otherwise, including for an unreadable body, it is `API Error: <status> <statusText>`. |
| GeminiApi.HttpErrorMessage | src/geminiApi.js:98-106 | The thrown message is longer than the base message and carries it intact at some position. `HttpErrorRoundTrip` decodes it back to its status's kind and base message. The decoder reads a status only in the canonical form `500`, never `0500`, so each kind and base message has a single encoding. |
| GeminiApi.HttpErrorRoundTrip | src/geminiApi.js:98-106 | The thrown message names the kind its status selects (400, 403, 429, other) and carries the base message intact. |
| GeminiApi.RemoteErrorRoundTrip | src/geminiApi.js:104-105 | For any other status, the message `<status>: msg` gives back both the status and `msg`. |
| GeminiApi.UnauthorizedMentionsKey | src/geminiApi.js:100-101 | A 403 message tells the user to check the Gemini API key. |
| GeminiApi.Normalise | src/geminiApi.js:119-125 | The record built from a parsed object has a non-empty verdict, confidence and analysis. |
| GeminiApi.PresentFieldsKept | src/geminiApi.js:121-124 | Field by field, a verdict, confidence or analysis present as a non-empty string is kept as given, and present indicators are kept as given, whatever the other fields hold. |
| GeminiApi.MissingFieldsDefault | src/geminiApi.js:121-124 | Each field of the parsed object that is missing, or present but empty, takes its default: `Unknown`, `N/A` and `No analysis available.`. Missing indicators become `[]`. |
| GeminiApi.Degraded | src/geminiApi.js:128-133 | The degraded record has verdict `Analysis Complete` and confidence `N/A`, keeps the raw text as its analysis, and has no indicators. |
| GeminiApi.WellTypedParseUnchanged | src/geminiApi.js:119-125 | A parsed object with four present, non-empty string fields and an indicators array comes back unchanged. |
| GeminiApi.AnalyzeResponse | src/geminiApi.js:91-134 | A record is produced only for an ok response with a non-empty text part, and its verdict, confidence and analysis are non-empty. |
| GeminiApi.AnalyzeImageWithGemini | src/geminiApi.js:55-134 | A record is produced only when the request sent got an ok response. |
| GeminiApi.FailedStatusRejects | src/geminiApi.js:91-107 | A non-ok response never yields a record. Its message decodes to the status's kind and to the base message. |
| GeminiApi.MissingTextRejects | src/geminiApi.js:112-115 | An ok response fails with `No response received from Gemini API.` exactly when the text part is absent or empty. |
| GeminiApi.TextAlwaysResolves | src/geminiApi.js:113-134 | With a non-empty text part the call always succeeds. Text that parses yields exactly the normalised parsed object. Text that does not parse yields the degraded record `Degraded(text)`. |
| GeminiApi.UnreadableBodyRejects | src/geminiApi.js:109 | An ok response whose body cannot be read is rejected with the reading error's own message. |
| App.VerdictCategory | src/App.jsx:92-96 | A missing verdict is `unknown`. |
| App.GetVerdict | src/App.jsx:90-91 | There is no category exactly when there is no result. |
| App.VerdictFollowsRules | src/App.jsx:92-96 | The if-chain equals the rule table read in order, first match wins, on the lowercased verdict. |
| App.VerdictFirstMatch | src/App.jsx:92-96 | Both directions for each category. A verdict is `ai` iff it names AI generation. It is `modified` iff it names a modification but not AI generation, and so on down to `unknown`. |
| App.VerdictIgnoresCase | src/App.jsx:92 | A verdict and its lowercase form fall in the same category. |
| App.NoAiPhraseWithout | src/App.jsx:93 | A verdict without the letter `g` holds neither AI phrase. |
| App.NoAiOrModifiedPhraseWithout | src/App.jsx:93-94 | A verdict without `g` and `d` holds no AI phrase and no modification phrase. |
| App.NoPhraseWithout | src/App.jsx:93-95 | A verdict without `g`, `d`, `h` and `r` holds no rule phrase at all. |
| App.InitialApiKey | src/App.jsx:14 | The build-time key wins when present. Otherwise the stored key is used, and with no stored key the starting key is empty. |
| App.InitiallyPrompts | src/App.jsx:15 | The key prompt shows at start exactly when the starting key is empty. |
| App.ShownError | src/App.jsx:68 | The error shown is never empty. It is the thrown message whenever that message is non-empty, and `Analysis failed. Please check your API key and try again.` otherwise. |
| App.Controller.AnalyzeEnabled | src/App.jsx:216 | The analyze button is enabled only with an image selected, and never while an analysis is in flight. |
| App.Controller.constructor | src/App.jsx:8-15 | Start: no image, preview, result or error, not analyzing, the starting key, the prompt shown iff there is no key. The button is disabled. |
| App.Controller.HandleFile | src/App.jsx:18-26 | A missing file changes nothing. An unsupported type changes only `error`, to the fixed message. A supported type clears `error` and `result`, selects the file, and changes nothing else. |
| App.Controller.PreviewLoaded | src/App.jsx:28 | The decoded preview is stored and nothing else changes. |
| App.Controller.BeginAnalyze | src/App.jsx:52-65 | Without an image, nothing changes and no call is made. A blank key sets the key-prompt error and shows the prompt, with no call and no in-flight state. Otherwise it goes in flight, clears `result` and `error`, and calls with the selected file and the trimmed, non-empty key. From a state that is not in flight, the in-flight invariant is kept. |
| App.Controller.CompleteAnalyze | src/App.jsx:64-71 | A record is stored as `result`, or the shown message as `error`. Either way `analyzing` ends false and the button is enabled iff an image is selected. |
| App.Controller.HandleAnalyze | src/App.jsx:52-72 | The guards as in `BeginAnalyze`. A started analysis settles not in flight, with exactly one of `result` or `error`. `result` is the client's record, and `error` is the non-empty shown message of the client's rejection. Preview, key, prompt and stored key are unchanged. From a state that is not in flight, the in-flight invariant is kept. |
| App.Controller.ClickAnalyze | src/App.jsx:213-216 | A click on the disabled button (no image, or in flight) changes nothing. An enabled click with a blank key only sets the key-prompt error and shows the prompt. With a key, it settles not in flight with exactly one of `result` (the client's record) or `error` (the shown message of its rejection), leaving image, preview, key, prompt and stored key unchanged. The in-flight invariant is kept from any state. |
| App.Controller.EditApiKey | src/App.jsx:140 | The typed value becomes the key and nothing else changes. |
| App.Controller.ToggleApiKeyInput | src/App.jsx:121 | Only the prompt's visibility flips. |
| App.Controller.HandleSaveApiKey | src/App.jsx:74-80 | A blank key changes nothing. Otherwise it stores the trimmed key, hides the prompt and clears `error`. A stored key is always non-empty and already trimmed. |
| App.Controller.HandleReset | src/App.jsx:82-86 | From any state, image, preview, result and error become absent, nothing else changes, and the button is disabled. |
| VerdictExamples.AiGeneratedVerdict | src/App.jsx:93 | The prompt's verdict `AI-Generated` is `ai`. |
| VerdictExamples.ManipulatedVerdict | src/App.jsx:94 | The prompt's verdict `Modified/Manipulated` is `modified`. |
| VerdictExamples.AuthenticVerdict | src/App.jsx:95 | The prompt's verdict `Authentic` is `authentic`. |
| VerdictExamples.DefaultVerdictUnknown | src/App.jsx:96 | The default verdict `Unknown` is `unknown`. |
| VerdictExamples.FallbackVerdictUnknown | src/App.jsx:96 | The degraded record's verdict `Analysis Complete` is `unknown`. |
| VerdictExamples.ModifiedBeforeAuthentic | src/App.jsx:94-95 | `Authentic/Modified` holds an authentic phrase yet is `modified`, because the second rule is checked before the third. |

## Left out

- Rendering is not modelled: JSX, CSS classes, icons and the KB size display, which uses a float.
- Drag-hover state, `handleDrop` and `handleFileInput` are not modelled. The two handlers only forward the first file to `HandleFile`. Clearing the hidden file input in `handleReset` is DOM plumbing.
- Browser I/O is a parameter or an event. `FileReader` decoding is `readDataUrl` in `HandleAnalyze` and the `PreviewLoaded` event for the preview. `fetch` is `send`; `JSON.parse` and `response.json()` are `parseJson` and the `Body` datatype.
- The request URL, its JSON body and the `generationConfig` floats are not modelled. `Request` keeps only the key, the MIME type and the payload.
- A rejected `FileReader` or a rejected `fetch` (a network failure) is not modelled; only the HTTP outcomes are.
- `localStorage` is the `storedKey` field. `import.meta.env` and the stored key at start are constructor parameters.
- Console logging and the prompt text are not modelled.
- The retry button (src/App.jsx:291) calls `handleAnalyze` directly, which is `HandleAnalyze`; it is not a member of its own.
- Concurrency is not modelled. A stale response that settles after a newer selection, or two analyses in flight, cannot be expressed by the sequential `BeginAnalyze`/`CompleteAnalyze` pair.
- Text.Lower: lowercases ASCII letters only. Verdicts outside ASCII are not lowercased as JavaScript would.
- GeminiApi.Normalise: a field of the parsed object is either absent or a string, and `indicators` is either absent or an array of strings. Non-string values, which `||` would pass through, are not modelled.
- GeminiApi.AnalyzeResponse: the text part is either absent or a string. A non-string `text` value is not modelled.
- GeminiApi.ErrorBaseMessage: the body's `error.message` is either absent or a string. A non-string value, which the template literal would turn into text, is not modelled.
- App.ShownError: an empty message stands for a missing one. A thrown value without a `message` is not modelled apart from that.
