# Smart-portal core in Dafny

A model of the logic at the core of an in-house company portal. The portal is a React single-page app, a small Express relay server, and two versions of a client service for a generative-AI model. The project models these parts:

- **Leave-balance lookup** (`LeaveLookup`, App.tsx).
  - The published spreadsheet export is parsed by `parseCSV`: split on newlines, then on every comma, with trimmed headers and cells. This is not RFC 4180 CSV; there is no quoting.
  - The first record matching the employee's name and a credential gives the remaining-days count.
  - The search panel's three flags, `searchResult`, `hasSearched` and `isSearching`, are fields of a class whose methods update them as `handleLeaveSearch` does.
- **String built-ins** (`JsString`): JavaScript `split` with a one-character separator, `join` and `trim` (ECMAScript white space and line terminators).
- **Fence stripping** (`Fences`): `replace(/```json|```/g, "").trim()`, applied to model output before `JSON.parse`.
- **Data-URL handling** (`DataUri`).
  - The server's strip of a leading `data:image/<\w+>;base64,`.
  - The scanner pages' `split(',')[1]`.
- **Relay server** (`RelayServer`, server.js): the three POST endpoints. Each shows what reaches the model and which status and body go back.
- **Browser relay client** (`RelayClient`, src/services/geminiService.ts): `sendToServer` and the four exported calls. All of them post to `/api/chat`.
- **Direct SDK client** (`DirectClient`, services/geminiService.ts).
  - The request each call builds. The image analyses take the image as an optional string. Their TypeScript signature says string, but the scanner pages pass `split(',')[1]`, which is undefined when the image text has no comma, and that value is passed on as the inline data.
  - The issue analysis's `"{}"` default and its fallback.
  - `decodeBase64`, an in-place byte fill of a new array.
- **Scanner pages** (`Scanner`, components/SafetyScanner.tsx and components/VisualScanner.tsx): the analysis step. It sends the second comma-separated piece of the photo's data URL to the direct SDK client, and alerts when the call rejects.
- **Dashboard thresholds** (`Dashboard`, components/Dashboard.tsx): bar colour, badge colour and the upcoming-service filter over the fixed sample tasks.
- **End to end** (`EndToEnd`): the relay client wired to the relay server.

The generative model, the SDK, `fetch` and `JSON.parse` are function-typed parameters, so every property holds for every behaviour they might have that meets the lemma's own stated hypotheses (some lemmas fix what `parse` returns on one text, for instance). JSON values are the datatype `Json.Json`.

Two behaviours of the code as written shape the model:

- The chat endpoint reads only `prompt` (server.js:25-26). The relay client's image analyses post their picture to that endpoint, so through the relay the picture never reaches the model (`EndToEnd.ImageNeverReachesModel`). No page imports the relay client, though. The scanner pages import the direct SDK client, and its request does carry the picture (`Scanner.ScannerSendsStrippedPayload`).
- The three diagnostic fallbacks differ.
  - The server's has all five `DiagnosticResult` keys, with severity `low`.
  - The relay client's has only three keys.
  - The direct client's has five keys, with severity `medium`.

`DiagnosticResult` (types.ts:28-34) declares `severity` as `'low' | 'medium' | 'high'`. No code path checks a parsed value against that type: the parsed value is forwarded as it is (server.js:70, src/services/geminiService.ts:46, services/geminiService.ts:62). Even the direct client's response schema types `severity` as any string (services/geminiService.ts:46-57). `IsDiagnosticResult` is therefore a predicate used only in lemmas, never a check in an operation.

## Model

| member | source | states |
|---|---|---|
| JsString.TrimStart | App.tsx:22 | the result is no longer than the input and does not start with white space |
| JsString.TrimStartDropsWhitespace | App.tsx:22 | the start trim keeps a suffix of the input, and every character it drops is white space |
| JsString.TrimEnd | App.tsx:22 | the result is no longer than the input and does not end with white space |
| JsString.TrimEndDropsWhitespace | App.tsx:22 | the end trim keeps a prefix of the input, and every character it drops is white space |
| JsString.Trim | App.tsx:27 | `trim` is no longer than its input and has no white space at either end |
| JsString.TrimSlice | App.tsx:27 | `trim` keeps one contiguous slice of its input and drops only white space before and after it |
| JsString.TrimUnchanged | App.tsx:27 | a string without white space at either end is left unchanged by `trim` |
| JsString.TrimIdempotent | App.tsx:27 | trimming twice equals trimming once |
| JsString.Split | App.tsx:21 | `split` with one separator character always yields at least one piece |
| JsString.SplitPiecesFree | App.tsx:24 | no piece of a split contains the separator |
| JsString.SplitCount | App.tsx:21 | a split has exactly one more piece than the string has separators |
| JsString.JoinSplit | App.tsx:21 | joining the pieces of a split with the separator gives back the original string |
| JsString.SplitJoin | App.tsx:24 | splitting a join of separator-free pieces gives back exactly those pieces |
| JsString.SplitLastEmpty | App.tsx:21 | a string ending in the separator has at least two pieces, and the last piece is empty |
| Fences.RemoveFences | server.js:69 | the global replace never lengthens the text; what it leaves is characterised by the lemmas below |
| Fences.StripFences | server.js:69 | the stripped text is no longer than the input and has no white space at either end |
| Fences.RemoveFencesNoFence | server.js:69 | after the global replace, no "```" remains, even where removals bring backticks together |
| Fences.RemoveFencesUnchanged | server.js:69 | text containing no "```" passes through the replace unchanged |
| Fences.RemoveFencesAfterPlain | server.js:69 | fence-free text that does not end in a backtick is kept as it is, and only what follows it is rewritten |
| Fences.StripFencesNoFence | server.js:69 | the stripped text contains no "```" |
| Fences.StripFencesPlain | server.js:69 | fence stripping only trims text that contains no fence |
| Fences.StripFencesIdempotent | server.js:69 | stripping a second time changes nothing |
| Fences.StripJsonBlock | src/services/geminiService.ts:45 | "```json" + body + "```" strips to the trimmed body when the body holds no "```", even when the body ends in one or two backticks |
| DataUri.WordRun | server.js:40 | the greedy `\w+` takes the longest run of word characters at the start |
| DataUri.StripDataUriPrefix | server.js:40 | the strip returns the input unchanged, or a proper suffix whose removed prefix is exactly one `data:image/<word>;base64,` header |
| DataUri.StripHeader | server.js:40 | whenever the input starts with a header, exactly that header is removed |
| DataUri.WordRunExact | server.js:40 | a run of word characters ended by a non-word character is what `\w+` matches |
| DataUri.StripDataUrl | server.js:40 | a data URL of any word subtype loses its header and keeps its payload (round trip with `DataUrl`) |
| DataUri.StripOnlyOnce | server.js:40 | the header is removed once: a payload that is itself a data URL survives |
| DataUri.StripPrefixedEqualsPlain | server.js:40 | an upload with the header and the same upload without it give the same stripped payload |
| DataUri.PayloadAfterComma | components/SafetyScanner.tsx:27 | `split(',')[1]` is defined exactly when the image contains a comma |
| DataUri.PayloadAfterCommaAgreesWithStrip | components/SafetyScanner.tsx:27 | for a data URL whose payload has no comma, the page's split and the server's strip both give the payload |
| DataUri.CommaInPayloadDiverges | components/SafetyScanner.tsx:27 | for any subtype and any payload `a + "," + b` with `a` comma-free, the page sends `a` while the server strip keeps `a + "," + b` |
| LeaveLookup.Cell | App.tsx:27 | `values[i]?.trim()` is undefined exactly when the row has no i-th cell, and otherwise has no white space at either end |
| LeaveLookup.RecordOf | App.tsx:25-28 | every header is a key of the record, even when the row has fewer cells than headers |
| LeaveLookup.BuildRecord | App.tsx:25-28 | the `forEach` loop builds the record `RecordOf(headers, values)`: the assignments in header order |
| LeaveLookup.TrimAll | App.tsx:22 | the header list has one trimmed entry per header cell |
| LeaveLookup.Headers | App.tsx:22 | there is one header per comma-separated cell of the first line, each with no white space at either end |
| LeaveLookup.CsvRecords | App.tsx:20-31 | the number of records equals the number of newlines in the text |
| LeaveLookup.ParseCsv | App.tsx:20-31 | `parseCSV` returns `CsvRecords(csvText)`: one record per line after the first, each keyed by the trimmed header line |
| LeaveLookup.RecordOfKeys | App.tsx:26-27 | a record's keys are exactly the header names: missing cells leave keys undefined, surplus cells are dropped |
| LeaveLookup.RecordOfLastWins | App.tsx:26-27 | when a header repeats, the value stored is the cell of its last column |
| LeaveLookup.RecordOfCells | App.tsx:26-27 | every stored value is the trimmed cell of some column carrying that header, or undefined |
| LeaveLookup.RecordValuesTrimmed | App.tsx:27 | every stored cell value is already trimmed |
| LeaveLookup.CsvRecordLine | App.tsx:23-24 | record k comes from line k+1, split on every comma, and has exactly the header keys; the lines rejoin to the text |
| LeaveLookup.EmptyLineRecord | App.tsx:27 | an empty line yields a record whose every value is empty or undefined |
| LeaveLookup.TrailingNewlineRecord | App.tsx:21-23 | a text ending in a newline still gets a last record, and every value in it is empty or undefined |
| LeaveLookup.Matches | App.tsx:46-49 | a matching record carries the searched name, and when its birth date is set and differs from the credential it matches only through its password cell |
| LeaveLookup.FindFirst | App.tsx:46-49 | `find` returns the first index whose record matches, and none exactly when no record matches |
| LeaveLookup.RemainingDays | App.tsx:54 | the count shown is never empty: the truthy remaining-days cell, or '0' |
| LeaveLookup.Lookup | App.tsx:46-55 | a result carries the searched name and a non-empty count; there is none exactly when no record matches |
| LeaveLookup.LookupFirstMatch | App.tsx:46-55 | the first matching record gives the searched name and its remaining-days cell, or '0' when that cell is empty or undefined |
| LeaveLookup.LookupNone | App.tsx:46-49 | the lookup finds nothing exactly when no record matches |
| LeaveLookup.EmptyBirthMatchesAnyCredential | App.tsx:48 | a record with an empty or missing birth-date cell matches its name with any credential |
| LeaveLookup.NoBirthColumnNameDecides | App.tsx:48 | in a sheet without a birth-date column, the name alone decides a match |
| LeaveLookup.EmptyLineNeverMatches | App.tsx:47 | the record of an empty line never matches a non-empty name |
| LeaveLookup.SplitThree | App.tsx:24 | three comma-free cells joined by commas split back into those cells |
| LeaveLookup.TrimAllThree | App.tsx:22 | already-trimmed cells are unchanged by the header trim |
| LeaveLookup.TwoLineSheet | App.tsx:21-24 | a header line plus one row line gives that header list and exactly one record of that row |
| LeaveLookup.ThreeColumnHeaders | App.tsx:22 | the header line `이름,생년월일,현재 잔여 연차` yields exactly the three header names |
| LeaveLookup.KeysTrimmed | App.tsx:22 | the three header names the lookup reads carry no white space to trim |
| LeaveLookup.ThreeColumnSheet | App.tsx:20-31 | a one-row sheet under that header parses into the one record of the row's cells |
| LeaveLookup.ThreeColumnKeys | App.tsx:47-54 | the column names are distinct, and such a sheet has no password column |
| LeaveLookup.RecordOfThree | App.tsx:26-27 | a record over three distinct headers has exactly those keys and stores each already-trimmed cell under its header |
| LeaveLookup.ThreeColumnRecord | App.tsx:26-27 | a three-column record stores each cell under its header and has no password cell |
| LeaveLookup.ThreeColumnFound | App.tsx:46-55 | in a one-row three-column sheet, the name with its birth date finds the remaining days, or '0' |
| LeaveLookup.WrongCredentialRejected | App.tsx:48 | with a set birth date and no password cell, any other credential does not match |
| LeaveLookup.ThreeColumnRejects | App.tsx:46-49 | in a one-row three-column sheet with a birth date, a wrong credential finds nothing |
| LeaveLookup.LeaveSearchPanel.constructor | App.tsx:15-17 | the panel starts with no result, no completed search, and nothing in flight |
| LeaveLookup.LeaveSearchPanel.StartSearch | App.tsx:34-39 | an empty name or credential alerts and changes nothing; otherwise `isSearching` is set and the other flags are kept |
| LeaveLookup.LeaveSearchPanel.FinishSearch | App.tsx:40-66 | a failed fetch alerts and keeps the result and `hasSearched`; a fetched sheet sets the result to the lookup and `hasSearched`, alerting on no match; `isSearching` ends false |
| LeaveLookup.LeaveSearchPanel.HandleLeaveSearch | App.tsx:33-67 | the whole handler: validation, then the fetch outcome's effect on the three flags, as above |
| RelayServer.Reply | server.js:28-31 | status 200 with exactly `{text}` on success, else 500 `{error:'AI Error'}` |
| RelayServer.ChatInput | server.js:25-26 | the model gets the body's `prompt` value as it is, and undefined exactly when the body has no `prompt` field |
| RelayServer.Chat | server.js:23-33 | a null body, whose destructuring throws, answers 500 `AI Error`; any other body answers 200 with the model's text when the model succeeds on its `prompt`, and 500 `AI Error` otherwise |
| RelayServer.ChatIgnoresImage | server.js:25-26 | an `image` field in the chat body changes nothing: the model sees only the prompt |
| RelayServer.ImageInput | server.js:38-46 | a string image gives the fixed prompt plus an inline image labelled `image/jpeg`, holding the input or its header-stripped suffix; otherwise there is no model input |
| RelayServer.AnalyzeImage | server.js:36-57 | without a string `image` the answer is 500; otherwise 200 `{text}` or 500 as the model succeeds or fails |
| RelayServer.DataUrlReachesModelAsJpeg | server.js:40-46 | a data URL of any subtype reaches the model as its bare payload, labelled `image/jpeg` |
| RelayServer.PrefixedImageSameInput | server.js:40 | prefixed and unprefixed uploads of one payload produce the same model input |
| RelayServer.MissingImageFails | server.js:53-55 | without a string `image` the answer is 500 whatever the model would do |
| RelayServer.IssuePrompt | server.js:63-66 | the issue prompt is the template's fixed head, then the description verbatim, then the template's fixed tail |
| RelayServer.IssueInput | server.js:62-67 | the model gets one string prompt: the template head, then the description verbatim, then the template tail |
| RelayServer.AnalyzeIssue | server.js:60-75 | `/api/analyze-issue` always answers 200: the fence-stripped text's parse result if it parses, otherwise the fixed fallback, including on model failure |
| RelayServer.ServerFallbackIsDiagnostic | server.js:73 | the server fallback has all five diagnostic keys, with severity 'low' |
| RelayServer.IssueForwardsUnvalidated | server.js:70 | any parsed value is forwarded as it is, whatever its keys or severity |
| RelayServer.FencedIssueReply | server.js:69-70 | a reply in a "```json" block is parsed from its trimmed body |
| RelayClient.ChatRequest | src/services/geminiService.ts:10-14 | the request goes to `/api/chat` with `prompt`, and with `image` exactly when one is given |
| RelayClient.SendToServer | src/services/geminiService.ts:8-21 | the result is always truthy: the reply's truthy `text`; else "응답 없음"; "서버 통신 오류" on a throw or a null body; the status is ignored |
| RelayClient.AskCompanyRules | src/services/geminiService.ts:23-25 | the answer is always truthy, and is "서버 통신 오류", "응답 없음" or the `text` the network returned for the post `{prompt}` to `/api/chat` |
| RelayClient.AnalyzeSafetyImage | src/services/geminiService.ts:27-29 | the answer is always truthy, and is one of the two fixed strings or the `text` returned for the post of the fixed safety prompt with the image |
| RelayClient.AnalyzeVehicleImage | src/services/geminiService.ts:31-33 | the answer is always truthy, and is one of the two fixed strings or the `text` returned for the post of the fixed inspection prompt with the image |
| RelayClient.AllCallsPostToChat | src/services/geminiService.ts:23-33 | every call posts to `/api/chat`, and the two image calls differ only in `prompt` |
| RelayClient.ClientIssuePrompt | src/services/geminiService.ts:37-41 | the issue prompt is the template's fixed head (instructions, format, "내용: "), then the description verbatim, then the closing line |
| RelayClient.IssueReply | src/services/geminiService.ts:37-41 | the text the issue analysis receives is truthy, and is one of the two fixed strings or the `text` returned for the post of the issue prompt |
| RelayClient.AnalyzeVehicleIssue | src/services/geminiService.ts:36-50 | a non-string reply gives the fallback; otherwise the fence-stripped text's parse result, or the fallback when it does not parse |
| RelayClient.ClientFallbackNotDiagnostic | src/services/geminiService.ts:48 | the client fallback has only `issue`, `explanation` and `severity`, so it is not a diagnostic result |
| RelayClient.FixedRepliesPlain | src/services/geminiService.ts:45 | the two fixed reply strings pass the fence strip unchanged |
| RelayClient.ServerCommErrorPlain | src/services/geminiService.ts:19 | "서버 통신 오류" passes the fence strip unchanged |
| RelayClient.NoReplyPlain | src/services/geminiService.ts:16 | "응답 없음" passes the fence strip unchanged |
| RelayClient.PlainText | src/services/geminiService.ts:45 | backtick-free text with no white space at either end passes the fence strip unchanged |
| RelayClient.TransportFailureGivesFallback | src/services/geminiService.ts:17-20 | a thrown request makes the issue analysis parse "서버 통신 오류" and return the fallback, never throw |
| RelayClient.NoTextGivesFallback | src/services/geminiService.ts:15-16 | a reply without usable `text`, such as a 500 body, ends in the fallback |
| RelayClient.NonStringTextGivesFallback | src/services/geminiService.ts:43-49 | a truthy non-string `text` makes `replace` throw: the fallback, with no parse |
| RelayClient.FencedReplyParsed | src/services/geminiService.ts:45-46 | a reply in a "```json" block is parsed from its trimmed body and returned unchecked |
| DirectClient.TextOf | services/geminiService.ts:17 | definition of `return response.text`: the text as it is, undefined included, and a rejection propagates; the promise to callers is stated by `NoReplySubstituted` |
| DirectClient.RulesRequest | services/geminiService.ts:10-16 | the rules request: the flash model, the prompt as the whole contents, the rules system instruction, no response schema |
| DirectClient.AskCompanyRules | services/geminiService.ts:9-18 | definition (the rules request's response text); the promise is stated by `NoReplySubstituted` |
| DirectClient.SafetyImageRequest | services/geminiService.ts:24-32 | the image request: the flash model, the image as passed labelled `image/jpeg` followed by the fixed analysis text, no config; the header behaviour is stated by `ImageSentUnstripped` and `Scanner.ScannerSendsStrippedPayload` |
| DirectClient.AnalyzeSafetyImage | services/geminiService.ts:23-34 | definition (the image request's response text); the promise is stated by `NoReplySubstituted` |
| DirectClient.AnalyzeVehicleImage | services/geminiService.ts:78-81 | definition (the safety analysis reused); stated by `VehicleImageIsSafetyImage` |
| DirectClient.IssueRequest | services/geminiService.ts:40-58 | the issue request: the pro model, the description as the whole contents, the issue system instruction, and the five required schema fields; what the schema admits is stated by `SchemaAdmitsAnySeverity` |
| DirectClient.NoReplySubstituted | services/geminiService.ts:9-34 | unlike the relay client, no reply is substituted: the SDK's text, undefined or empty included, is returned as it is, and an SDK rejection rejects the call |
| DirectClient.ImageSentUnstripped | services/geminiService.ts:23-32 | the image goes to the SDK as passed: a whole data URL would keep the header that the relay server strips |
| DirectClient.VehicleImageIsSafetyImage | services/geminiService.ts:78-81 | the vehicle image analysis equals the safety image analysis for every image and SDK |
| DirectClient.SchemaAdmitsAnySeverity | services/geminiService.ts:46-57 | every `DiagnosticResult` meets the response schema, but the schema also admits a severity outside low/medium/high |
| DirectClient.TextOrEmptyObject | services/geminiService.ts:61 | a missing or empty text becomes "{}", any other text is kept |
| DirectClient.AnalyzeVehicleIssue | services/geminiService.ts:39-73 | rejects exactly when the SDK does; otherwise the parse of the text (or "{}"), or the fallback when it does not parse |
| DirectClient.DirectFallbackIsDiagnostic | services/geminiService.ts:65-71 | the direct fallback has all five keys, with severity 'medium' and cost 'N/A' |
| DirectClient.EmptyTextGivesEmptyObject | services/geminiService.ts:61-62 | an empty or missing text yields the empty object, not the fallback, and that is not a diagnostic result |
| DirectClient.ParsedReturnedUnchecked | services/geminiService.ts:62 | whatever parses is returned, with keys and severity unchecked |
| DirectClient.ByteOf | services/geminiService.ts:88 | a stored byte is the character code mod 256, and equals it below 256 |
| DirectClient.Bytes | services/geminiService.ts:86-89 | one byte per character, in order |
| DirectClient.Latin1 | services/geminiService.ts:85 | one character per byte, with the byte's code |
| DirectClient.DecodeBase64 | services/geminiService.ts:84-91 | a new array as long as the binary string, whose byte i is character i's code mod 256 |
| DirectClient.Latin1RoundTrip | services/geminiService.ts:85-89 | on an `atob` binary string, reading the bytes back as Latin-1 gives the string again |
| DirectClient.BytesLatin1 | services/geminiService.ts:85-89 | every byte sequence is the decoding of its Latin-1 string |
| DirectClient.WideCharWraps | services/geminiService.ts:88 | a code of 256 or more keeps only its low eight bits (U+0100 and U+0000 give the same byte) |
| Scanner.SafetyScan | components/SafetyScanner.tsx:23-35 | nothing happens without an image; otherwise the page alerts exactly when the SDK rejects the request for the second comma-separated piece, and shows that response's text otherwise |
| Scanner.VisualScan | components/VisualScanner.tsx:24-37 | nothing happens without an image, and a failure shows the page's own alert |
| Scanner.VisualScanIsSafetyScan | components/VisualScanner.tsx:28-29 | the vehicle scanner behaves as the safety scanner except for the alert text |
| Scanner.ScannerSendsStrippedPayload | components/SafetyScanner.tsx:27-28 | on a photo's data URL the page sends the SDK exactly what the relay server's strip keeps, the payload, labelled `image/jpeg` |
| Scanner.CommaFreeImageSendsUndefined | components/SafetyScanner.tsx:27-28 | an image text with no comma sends undefined as the inline data |
| Dashboard.BarFill | components/Dashboard.tsx:66 | green exactly above 80, blue exactly in (50, 80], yellow exactly at 50 or below |
| Dashboard.BarFillMonotone | components/Dashboard.tsx:66 | more health never gives a worse bar colour |
| Dashboard.Badge | components/Dashboard.tsx:86-88 | red exactly below 50, blue exactly at 50 or above |
| Dashboard.ThresholdsDisagreeAtFifty | components/Dashboard.tsx:66-88 | a yellow bar beside a blue badge happens exactly at health 50 |
| Dashboard.RedBadgeYellowBar | components/Dashboard.tsx:66-88 | a red badge always sits beside a yellow bar |
| Dashboard.UpcomingService | components/Dashboard.tsx:80 | a task is listed exactly when it is in the input with health below 90 |
| Dashboard.UpcomingServiceAppend | components/Dashboard.tsx:80 | the filter keeps the original order: it distributes over concatenation |
| Dashboard.UpcomingServiceAllDue | components/Dashboard.tsx:80 | a list of tasks that are all due is kept whole |
| Dashboard.MockUpcoming | components/Dashboard.tsx:6-11 | with the sample tasks, the list is the first three and only Battery (92) is left out |
| Dashboard.MockColours | components/Dashboard.tsx:6-11 | the sample bars are green, yellow, blue, green, and only Brake Pads has a red badge |
| EndToEnd.RelayNetwork | server.js:23-33 | a post to `/api/chat` is answered with the chat endpoint's body |
| EndToEnd.ServerSeesPromptOnly | server.js:25-26 | whatever a client call sends, the server gives the model only its prompt |
| EndToEnd.ImageNeverReachesModel | server.js:25-26 | through the relay, each image analysis answers exactly as asking its fixed prompt with no picture |
| EndToEnd.GeneratedTextRelayed | src/services/geminiService.ts:15-16 | the model's non-empty text reaches the caller; an empty one becomes "응답 없음" |
| EndToEnd.UpstreamFailureGivesNoReply | src/services/geminiService.ts:15-16 | an upstream failure's 500 body is shown as "응답 없음", since the status is not checked |
| EndToEnd.IssueUpstreamFailureGivesFallback | src/services/geminiService.ts:36-49 | through the relay, an upstream failure in the issue analysis ends in the client's three-key fallback |

## Left out

- The network, the spreadsheet fetch, the generative-AI SDKs and `JSON.parse` are not modelled. They are parameters, and every property holds for all of their behaviours that meet each lemma's stated hypotheses.
  - The leave search takes the fetch outcome as a `SheetFetch` value.
  - `response.text()` throwing and a rejected `generateContent` are one outcome, `GenerationFailed`.
- The JavaScript regular-expression engine is not modelled. Only the two patterns the code uses are written out, as string functions.
- `atob` is not modelled. `DirectClient.DecodeBase64` takes the decoded binary string, whose characters are all below 256, so `charCodeAt`'s UTF-16 units and Dafny's characters agree there.
- The audio path is not modelled: `decodeAudioData`, playback, and the TTS request of `speakDiagnosis` in services/geminiService.ts. It uses floating-point sample scaling and the browser's audio context.
- The relay client's `speakDiagnosis` is not modelled, because it only logs.
- server.cjs is not part of this model. It is an alternative entry point that relays without fence stripping.
- Express plumbing is not modelled: the 10 MB body limit, static files and the catch-all GET.
- React rendering, tab switching and static content are not modelled. The scanner pages' `loading` flag, the file reading and the assistant page are not modelled either; the scanner pages' analysis step is (`Scanner`).
- Asynchrony is not modelled. Each handler runs as one sequential step, with no overlapping searches or double submissions.
- JavaScript property lookup through the prototype chain is not modelled. A header named like a built-in property, such as `constructor`, would behave differently in the browser.
- RelayServer.AnalyzeIssue: takes `description` as a string. The template rendering of a missing or non-string `description` (`undefined`, numbers, objects) is not modelled.
- No page imports the relay client (src/services/geminiService.ts). Its calls are modelled on their own, and wired to the relay server in `EndToEnd`.
- DirectClient.IssueRequest: the request's `responseMimeType: "application/json"` is not represented. The schema is kept as its required field list, and `MeetsIssueSchema` states the string type of each field.
- The model, the SDK, the network and `parse` are deterministic, stateless functions of their input. So where a lemma says two calls answer alike (`EndToEnd.ImageNeverReachesModel`, `DirectClient.VehicleImageIsSafetyImage`, `Scanner.VisualScanIsSafetyScan`), it means the two calls send the same request. A service that answers one request differently on different occasions is not modelled.
- EndToEnd.RelayNetwork: answers only posts to `/api/chat`, the one path the relay client uses.
- Dashboard.BarFill: health is a real number. NaN, for which every comparison is false, is not modelled.
