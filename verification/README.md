# ip-board, modelled in Dafny

ip-board is a single-page dashboard that analyses an IP address. It works in these steps:

- With no address given, it reads the caller's own connection from Cloudflare's trace endpoint (`/cdn-cgi/trace`).
- It asks ipinfo.io for the geolocation of the address, or of the trace's IP.
- It shows both to the user.
- It rates the connection with a 0–100 security score.
- It keeps a newest-first history of analyses in local storage. The history is capped at 20 entries. A repeat of the newest entry's IP within a minute of it is not stored again.
- An analysis is started from an input form that accepts only dotted IPv4 addresses.
- Two AI tabs open only once a Gemini API key has been validated or supplied by the environment.

This project models that core:

| module | file | form |
|---|---|---|
| `Types` | `types.ts` | the record types |
| `JsString` | — | the JavaScript string built-ins the core relies on: `split`, `join`, `trim`, `startsWith`, number to text |
| `TraceService` | `services/traceService.ts` | a loop that fills a dictionary |
| `IpApiService` | `services/ipApiService.ts` and `utils/country.ts` | mixed |
| `LogService` | `services/logService.ts` | a class over a storage slot, specified by pure functions |
| `SecurityScore` | `utils/securityScore.ts` | pure |
| `Badge` | `components/ui/Badge.tsx` | pure |
| `Dashboard` | `components/Dashboard.tsx` | pure |
| `AnalysisInputForm` | `components/AnalysisInputForm.tsx` | the validator is pure, the form is a class |
| `App` | `App.tsx` and `validateApiKey` of `services/geminiService.ts` | a class holding the app state; the analysis pipeline is split into steps |

What the core gets from outside is passed in as parameters:

- the trace response (`TraceOutcome`);
- the geolocation HTTP call, as a function from URL to outcome (`HttpOutcome`);
- the locale-aware country-name lookup (`displayName`);
- the key-validation call (`accepts`);
- the environment key;
- the clock readings.

Local storage is a value of type `LogService.Slot`: absent, holding text that does not parse, or holding a list.

## Model

| member | source | states |
|---|---|---|
| `LogService.ReadLogs` | services/logService.ts:10-21 | Storage that is absent or does not parse reads as the empty history. A stored list reads as itself. |
| `LogService.Saved` | services/logService.ts:30-47 | The list saveLog writes, or nothing for a plain repeat. Its meaning is stated by `SaveMergesRicherRepeat`, `SaveDropsPlainRepeat`, `SavePrepends` and `SavedDrawsFrom`. |
| `LogService.AfterSave` | services/logService.ts:28-51 | After any save the slot holds a non-empty list. The list stays within 20 entries when the list read was within 20. Every entry is either the new entry or one that was read. |
| `LogService.SaveMergesRicherRepeat` | services/logService.ts:36-41 | A repeat of the newest entry's IP within the minute that carries trace data the newest lacks replaces the newest entry. The length stays the same and every other entry keeps its position. |
| `LogService.SaveDropsPlainRepeat` | services/logService.ts:36-42 | Any other repeat within the minute writes nothing. |
| `LogService.SavePrepends` | services/logService.ts:46-47 | Otherwise the new entry goes first and the older entries follow in order, shifted by one. The oldest fall off beyond 20. |
| `LogService.OnlyNewestIsCompared` | services/logService.ts:33-36 | Only the newest entry is compared. The same IP further down the list does not stop a prepend. |
| `LogService.SaveIntoEmpty` | services/logService.ts:46-47 | Saving into an empty history writes exactly the new entry. |
| `LogService.SavedIsNonEmpty` | services/logService.ts:38-47 | A written list is never empty. |
| `LogService.SavedIsBounded` | services/logService.ts:46 | A written list is within the 20-entry cap whenever the list read was within it. |
| `LogService.SavedDrawsFrom` | services/logService.ts:38-47 | A save invents no entries: each written entry is the new one or was read. |
| `LogService.RicherRepeatLeavesOneEntry` | services/logService.ts:28-51 | A plain lookup followed within a minute by a self-analysis of the same IP leaves one entry: the self-analysis. |
| `LogService.LogStore.GetLogs` | services/logService.ts:10-21 | getLogs never fails. It returns the stored list, or the empty list for absent or unparsable storage. |
| `LogService.LogStore.SaveLog` | services/logService.ts:28-51 | The new slot is the one `AfterSave` describes for the old slot. It holds a non-empty list. The 20-entry cap is preserved. |
| `LogService.LogStore.ClearLogs` | services/logService.ts:56-62 | Whatever the slot held, it is removed, the history reads as empty and the cap holds. |
| `JsString.SplitFacts` | services/traceService.ts:11 | `split` yields one piece exactly when the separator is absent. No piece holds the separator. The first piece is the text before the first separator. |
| `JsString.JoinSplit` | services/ipApiService.ts:33-36 | Joining the pieces of a split with the same separator gives the original string back. |
| `JsString.SplitJoin` | components/AnalysisInputForm.tsx:14 | Splitting a join of separator-free pieces gives the pieces back. |
| `JsString.SplitLimit` | services/traceService.ts:14 | `split(sep, limit)` yields the first pieces of the full split: `limit` of them, or all of them when there are fewer. |
| `JsString.Take` | services/logService.ts:46 | `slice(0, n)` keeps the first `n` elements, or all of them when there are fewer. |
| `JsString.IndexOf` | services/traceService.ts:14 | The index found holds the character and is its first occurrence. |
| `JsString.TrimStart` | services/traceService.ts:11 | The result is a suffix of the input. Everything removed is white space and the result does not start with white space. |
| `JsString.TrimEnd` | services/traceService.ts:11 | The result is a prefix of the input. Everything removed is white space and the result does not end with white space. |
| `JsString.Trim` | services/traceService.ts:11 | `trim` is empty exactly when the text is all white space. Otherwise the result starts and ends with a non-white-space character. |
| `JsString.TrimKeepsMiddle` | services/traceService.ts:11 | The trimmed text is a stretch of the input with only white space before and after it. With `Trim`'s own contract this fixes the result: it is the input minus its leading and trailing white space. |
| `JsString.DecimalString` | services/ipApiService.ts:17 | The text of a status number is non-empty, all digits and has no leading zero. |
| `JsString.DecimalRoundTrip` | services/ipApiService.ts:17 | Reading back the text of a number gives the number. |
| `TraceService.TraceLines` | services/traceService.ts:11 | The trimmed body always gives at least one line. |
| `TraceService.TraceLinesRejoin` | services/traceService.ts:11 | No line holds a line break. The lines joined with '\n' are the trimmed body. |
| `TraceService.Entry` | services/traceService.ts:14-18 | The key and value one line contributes, if any. Its meaning is stated by `EntryShape`. |
| `TraceService.EntryShape` | services/traceService.ts:14-18 | A line contributes an entry exactly when it holds '='. The key is the text before the first '='. The value runs from there to the next '=' or the end, and anything after a second '=' is dropped. |
| `TraceService.LastValueIsLastLine` | services/traceService.ts:13-19 | A key is absent exactly when no line carries it. Otherwise its value is that of the last line carrying it: later lines win. |
| `TraceService.ParseFields` | services/traceService.ts:13-19 | After the loop, the dictionary's entry for every key is the value of the last line carrying that key. |
| `TraceService.ToTrace` | services/traceService.ts:21-31 | The returned record built from the dictionary. Its meaning is stated by `ToTraceField` and `ToTraceFields`. |
| `TraceService.ToTraceField` | services/traceService.ts:21-31 | Each of the nine known keys is copied into its own record field. |
| `TraceService.ToTraceFields` | services/traceService.ts:21-31 | Every field of the record, `ip` included, is the last value its key was given. |
| `TraceService.BlankBodyHasNoKeys` | services/traceService.ts:11-19 | A blank body carries no key. |
| `TraceService.BlankTraceIsEmpty` | services/traceService.ts:11-31 | A blank body yields a record with every field absent. |
| `TraceService.ParseTrace` | services/traceService.ts:4-32 | Parsing never fails. Each known field is the last value of its key in the trimmed body, and other keys are ignored. A blank body gives the all-absent record. |
| `IpApiService.RequestUrl` | services/ipApiService.ts:12 | The URL always starts with the ipinfo endpoint. It is `<ip>/json` for an explicit IP and `json` for the caller's own. |
| `IpApiService.RequestUrlInjective` | services/ipApiService.ts:12 | Different IPs are sent to different URLs. |
| `IpApiService.FailureMessage` | services/ipApiService.ts:15-59 | The message of the error the catch block receives. Its meaning is stated by `FailureMessageCases`. |
| `IpApiService.FailureMessageCases` | services/ipApiService.ts:15-59 | For each way of failing, the message the failure carries. A thrown Error gives its own message and a non-Error gives the generic message. A non-OK response gives the fixed prefix, the status number, a space and the status text. A bogon or error payload gives the payload's non-empty message, else the invalid-IP message. |
| `IpApiService.CountryName` | utils/country.ts:6-19 | There is a name exactly when a non-empty code is given. The name is the lookup's answer for that code. |
| `IpApiService.ParseOrg` | services/ipApiService.ts:27-42 | With no org, `as`, org and ISP are all empty. When the first space-separated token starts with "AS", that token is `as`. If the org has a space, `as`, a space and the org rebuild the original. If it has none, as in "AS15169", `as` is the whole string and the org is empty. When the first token does not start with "AS", `as` is empty and the org is the whole string. ISP always equals org. |
| `IpApiService.FailRecord` | services/ipApiService.ts:61 | A failure record has the requested IP, the fail status and the message. |
| `IpApiService.FetchIPInfo` | services/ipApiService.ts:9-63 | The status is fail exactly when the call threw, was not OK, or returned a bogon or error payload. A failure is the record for the requested IP with its message. A success is the `SuccessRecord` of the body: its IP, country code, region and city, the looked-up country name and the org split. |
| `SecurityScore.TlsPoints` | utils/securityScore.ts:12-16 | There are 35 points exactly for "TLSv1.3" and 15 exactly for "TLSv1.2". Anything else, including absence, gets 0. |
| `SecurityScore.HttpPoints` | utils/securityScore.ts:19-23 | There are 35 points exactly for "h3" and 25 exactly for "http/2". Anything else gets 0. |
| `SecurityScore.WarpPoints` | utils/securityScore.ts:26-28 | There are 30 points exactly when WARP is "on". |
| `SecurityScore.CalculateSecurityScore` | utils/securityScore.ts:8-32 | The score lies in 0..100, as the doc comment promises. It equals the unclamped sum of the three credits, so the clamp never changes it. |
| `SecurityScore.SampleScores` | utils/securityScore.ts:8-32 | The full-credit trace scores 100, the empty trace 0, and TLSv1.2 with http/2 and WARP off scores 40. |
| `SecurityScore.H3DraftEarnsNothing` | utils/securityScore.ts:19-23 | A draft label such as "h3-29" earns no HTTP credit. |
| `SecurityScore.ScoreMonotone` | utils/securityScore.ts:8-32 | Upgrading TLS, upgrading HTTP or turning WARP on never lowers the score. |
| `Badge.BandOf` | components/ui/Badge.tsx:9-17 | A score is green exactly from 80, yellow exactly in 50..79 and red exactly below 50. |
| `Badge.GetBadgeStyles` | components/ui/Badge.tsx:9-17 | Each of the three style strings is returned exactly for its score band. |
| `Badge.BandMonotone` | components/ui/Badge.tsx:9-17 | A higher score never gets a lower band. |
| `Dashboard.CountryText` | components/Dashboard.tsx:64 | The country line. Its meaning is stated by `UnknownExactlyWhenMissing` and `CountryTextOfLookedUpRecord`. |
| `Dashboard.CityText` | components/Dashboard.tsx:69 | The city line. Its meaning is stated by `CityTextSpelledOut` and `UnknownExactlyWhenMissing`. |
| `Dashboard.CityTextSpelledOut` | components/Dashboard.tsx:69 | With a city, the line is the city, ", " and the region. An absent region prints as "undefined". Without a city, the line is the unknown marker. |
| `Dashboard.IsSecureHttp` | components/Dashboard.tsx:39 | The HTTP indicator. How it relates to the score's HTTP credit is stated by `HttpCreditImpliesSecure` and `NoTraceNoIndicators`. |
| `Dashboard.IsSecureTls` | components/Dashboard.tsx:40 | The TLS indicator. How it relates to the score's TLS credit is stated by `SecureTlsIsFullCredit` and `NoTraceNoIndicators`. |
| `Dashboard.UnknownExactlyWhenMissing` | components/Dashboard.tsx:64-69 | The country and city lines are the unknown marker exactly when their value is missing or empty. Otherwise they start with that value. |
| `Dashboard.CountryTextOfLookedUpRecord` | components/Dashboard.tsx:64 | Take a record whose country name came from its code. Its country line is unknown exactly when there is no code or the lookup gave an empty name. Otherwise it is the name followed by the code in parentheses, never "undefined". |
| `Dashboard.NoTraceNoIndicators` | components/Dashboard.tsx:39-93 | Without trace data neither security indicator is on and the connection card is not shown. |
| `Dashboard.SecureTlsIsFullCredit` | components/Dashboard.tsx:40 | TLS is shown secure exactly when it earns the full TLS credit. TLSv1.2 earns partial credit but is shown insecure. |
| `Dashboard.HttpCreditImpliesSecure` | components/Dashboard.tsx:39 | Every HTTP version that earns credit is shown secure, but not conversely: "h3-29" is shown secure and earns nothing. |
| `AnalysisInputForm.IsValidIp` | components/AnalysisInputForm.tsx:12-16 | The IPv4 check. Its meaning is stated by `IsValidIpMatchesPattern`, `OctetPatternIsByte` and `IsValidIpOfPieces`. |
| `AnalysisInputForm.IsValidIpMatchesPattern` | components/AnalysisInputForm.tsx:12-16 | The split-based validator accepts exactly the strings the anchored regular expression matches. |
| `AnalysisInputForm.OctetPatternIsByte` | components/AnalysisInputForm.tsx:14 | The octet alternatives accept exactly the texts of 0..255 of one to three digits, leading zeros included. |
| `AnalysisInputForm.IsValidIpOfPieces` | components/AnalysisInputForm.tsx:14 | A string made of dot-free pieces is valid exactly when there are four pieces and each matches an octet. |
| `AnalysisInputForm.AcceptedPieces` | components/AnalysisInputForm.tsx:14 | Four dot-free pieces that each match an octet, joined by dots, are accepted. |
| `AnalysisInputForm.RejectedPieces` | components/AnalysisInputForm.tsx:14 | Dot-free pieces joined by dots are rejected when there are not four of them or one does not match. |
| `AnalysisInputForm.LeadingZerosAccepted` | components/AnalysisInputForm.tsx:14 | "01.001.0.00" is accepted. |
| `AnalysisInputForm.OctetAbove255Rejected` | components/AnalysisInputForm.tsx:14 | "256.1.1.1" is rejected. |
| `AnalysisInputForm.LeadingSpaceRejected` | components/AnalysisInputForm.tsx:14 | The pattern is anchored: " 1.2.3.4" is rejected. |
| `AnalysisInputForm.EmptyOctetRejected` | components/AnalysisInputForm.tsx:14 | "1..2.3" is rejected. |
| `AnalysisInputForm.TrailingDotRejected` | components/AnalysisInputForm.tsx:14 | "1.2.3." is rejected. |
| `AnalysisInputForm.ThreeOctetsRejected` | components/AnalysisInputForm.tsx:14 | "1.2.3" is rejected. |
| `AnalysisInputForm.FiveOctetsRejected` | components/AnalysisInputForm.tsx:14 | "1.2.3.4.5" is rejected. |
| `AnalysisInputForm.InputForm.constructor` | components/AnalysisInputForm.tsx:9-10 | The form starts with an empty box and no message. |
| `AnalysisInputForm.InputForm.SetIp` | components/AnalysisInputForm.tsx:50 | Typing replaces the box's text. |
| `AnalysisInputForm.InputForm.HandleSubmit` | components/AnalysisInputForm.tsx:18-30 | An empty box and a malformed address each set their own message and start nothing. A valid address clears the message and is analysed exactly as typed. |
| `AnalysisInputForm.InputForm.HandleMyIpAnalyze` | components/AnalysisInputForm.tsx:32-36 | The box and the message are cleared and a self-analysis (no argument) is requested. |
| `App.ValidateApiKey` | services/geminiService.ts:12-31 | An empty key is never valid. A non-empty key is valid exactly when the service accepts it. |
| `App.IsGeminiReady` | App.tsx:367 | A key is usable when it was validated or came from the environment. Its use is stated by `TabsNeedReadyKey`. |
| `App.IsPrivacyTabDisabled` | App.tsx:368 | The privacy tab's gate. Its meaning is stated by `TabsNeedReadyKey`. |
| `App.IsPostcardTabDisabled` | App.tsx:369 | The postcard tab's gate. Its meaning is stated by `TabsNeedReadyKey`. |
| `App.TabsNeedReadyKey` | App.tsx:367-369 | Without a ready key, or without a result, both AI tabs are disabled. With a ready key and a result, the privacy tab opens exactly when there is trace data. The postcard tab opens exactly when the lookup succeeded and named a country. |
| `App.EntryScore` | App.tsx:311 | A history entry has a score exactly when its result has trace data. The score is `calculateSecurityScore` of that trace, so it lies in 0..100. |
| `App.SaveKeepsSuccesses` | App.tsx:308-312 | Saving a successful result keeps a history of successful lookups as one. |
| `App.WithLookedUpIp` | App.tsx:304-306 | The trace's `ip` becomes the IP the lookup answered for. Every other field is unchanged. |
| `App.GeoTarget` | App.tsx:284-290 | The IP the lookup is asked about. `ReadTrace` and `Lookup` state that the pipeline uses exactly this target. |
| `App.DisplayIp` | App.tsx:300 | The IP named in a failure message. `HandleAnalysis` states that its error uses it. |
| `App.ReadTrace` | App.tsx:282-295 | The trace is read only when no IP is given, and a failure to read it is swallowed. The lookup target is the given IP, else the trace's non-empty `ip`, else the empty string. |
| `App.Lookup` | App.tsx:282-306 | The lookup is asked about `GeoTarget`. Fail status matches a failing outcome, and the record is then the fail record for the target with its message. On success the record is exactly what `FetchIPInfo` returns: the `SuccessRecord` of the body. The trace is present exactly for a self-analysis whose trace was read. On success its `ip` is the looked-up IP and every other field comes from the trace body. |
| `App.AppState.constructor` | App.tsx:219-224 | The app starts with no result, no error, not loading, no key and the key status "checking". |
| `App.AppState.CheckApiKey` | App.tsx:229-255 | An environment key wins without validation. A stored key is used when it validates and is removed from storage when it does not. With neither key the status is "missing". A ready status always comes with a key. |
| `App.AppState.HandleSaveKey` | App.tsx:257-268 | A key that validates is stored and used. Otherwise the key is cleared, the status is "invalid" and storage is untouched. |
| `App.AppState.HandleClearKey` | App.tsx:270-274 | Storage and key are cleared and the status is "missing". |
| `App.AppState.BeginAnalysis` | App.tsx:277-279 | Loading starts and the previous error and result are cleared. |
| `App.AppState.ShowFailure` | App.tsx:299-318 | The error names the displayed IP and the reason, or the fallback reason. Loading stops. |
| `App.AppState.ShowResult` | App.tsx:308-318 | The result is shown and saved as a history entry whose score is present exactly with trace data. Loading stops. A history of successful lookups stays one. |
| `App.AppState.HandleAnalysis` | App.tsx:276-320 | A failing lookup sets an error naming the target (or the given IP, or "내 IP"), shows no result and leaves the history alone. A success shows fetchIPInfo's whole record for the body, as `SuccessRecord` states it, and saves it through saveLog. The result's trace carries the looked-up IP and the trace body's other fields. Loading is off on every path. With an explicit IP the privacy tab stays disabled. The history only ever holds successful lookups. |

## Left out

- The network: the trace fetch and its non-OK error, the ipinfo fetch and its JSON decoding are outcomes passed in. A response body missing `ip`, or with fields of other JSON types, is not modelled.
- Local storage and JSON: the slot is absent, holds unparsable text, or holds a list. Stored JSON that parses to something other than a list of entries is not modelled. An empty stored string reads like an absent slot, which `Absent` covers. The try/catch around the storage calls and the console logging are left out.
- The clock: `Date.now()` for the entry id, the clock reading inside saveLog and the display timestamp are separate parameters.
- `Intl.DisplayNames` and its failure fallback to the code are folded into the `displayName` function parameter.
- Asynchrony: the awaits of handleAnalysis, checkApiKey and handleSaveKey run to completion one after another. Interleaved calls and React's batching of state updates are not modelled. The transient "checking" status set before a validation is therefore never observable.
- Aliasing: `traceData.ip = geoData.query` mutates the parsed object in place. The model builds an updated value instead, since nothing else holds that object.
- The rest of the app is not part of this model:
  - the Gemini calls behind the privacy and postcard tabs;
  - the PrivacyAnalyzer, PostcardCreator and HistoryLog components;
  - the ApiKeyManager form, including its trimming of the typed key;
  - view switching and handleReset;
  - the help modals, the tab titles and all other rendering.
- LogService.SavedIsBounded: the 20-entry bound is stated only when the list read was already within it. A merge or a dropped repeat writes the read list back unchanged in length, so a longer list written by other code stays longer. The same holds for `LogService.AfterSave` and `LogService.LogStore.SaveLog`.
- The code is followed where a prose description of the app is looser:
  - the score compares exact strings ("h3", not any "h3-…" draft), while the dashboard indicator accepts any version starting with "h3";
  - the duplicate window is measured from the current clock to the newest entry's id, not between analyses;
  - only an org whose first token starts with "AS" is split.
