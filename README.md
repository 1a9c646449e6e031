# DirectLinkDownloaderProBot — a Dafny model of the download handler

DirectLinkDownloaderProBot is a Telegram bot. A user sends it a direct
download link; the bot checks the link, probes it with a HEAD request,
refuses files over a size ceiling, downloads the body, stages it in Vercel
Blob storage under a random suffix, sends it back as a document, and
schedules the deletion of the staged blob one hour later.

This project models the core of that bot and proves properties of it:

- `isValidUrl` and `getFilenameFromUrl`. They are pure functions, modelled as Dafny functions.
- The JavaScript built-ins the core uses, modelled from ECMA-262:
  - String.prototype.trim, which the handler applies to the message text; split/pop and
    includes, which getFilenameFromUrl uses (module `JsString`);
  - `parseInt`, which the handler's size gate and the configuration use (module `JsNumber`);
  - decodeURIComponent, which getFilenameFromUrl uses, with encodeURIComponent as the inverse
    it is proved against (module `UriCodec`);
  - the regular expression `/filename="?(.+)"?/` of getFilenameFromUrl, with its leftmost,
    greedy, backtracking match (module `DispositionPattern`).
- `downloadHandler`. It is modelled as imperative methods (`BotHandlers.DownloadHandler` and the
  parts of its try block: `Attempt`, `Resolve`, `Deliver`). The methods append every external
  call to a trace of `Effect`s and say how the handler's promise settles.
  - The result of each external call is an input in a `Services` value. This covers the bot's
    replies, the HEAD and GET requests, the blob upload, the document reply and the scheduler.
  - Each method is proved equal to a reference function: `Outcome`, and for the parts of the try
    block `TryOutcome`, `ResolveRun` and `TransferRun`.
  - The properties of the handler are lemmas over `Outcome`.
- The deletion callback handed to the scheduler (`RemoveFile`).
- The configuration: `maxFileSize`, which is `parseInt(MAX_FILE_SIZE, 10) || 52428800` (module `Config`).

Where the code behaves differently than a reader might expect, the model follows the code:

- Quoted filenames keep their closing quote. For the header `attachment; filename="report.pdf"`,
  the greedy `.+` takes the closing quote, so the name is `report.pdf"`, not `report.pdf`
  (`DispositionPattern.ReportPdfExample`).
- The fallback `"file"` is used only when the pattern does not match at all. (A header such as
  `attachment; filename=file` also gives `file`, as its capture.) A capture is never empty:
  `(.+)` needs at least one code point (`DispositionPattern.CaptureShape`,
  `BotHandlers.DispositionFilename`). A header such as `filename=` with nothing after it on its
  line does not match, and gives `"file"`.
- The handler calls `parseInt(contentLength)` with no radix. A content-length such as "0x10" is
  therefore read as hexadecimal, 16 (`BotHandlers.HexLengthGate`). The configuration, read with
  radix 10, reads "0x10" as 0 and falls back to the default (`Config.HexPrefixNotRead`).
- The handler's promise can reject. The invalid-URL reply is returned before the `try` block,
  so no `catch` applies to it. The too-large reply is returned from inside the `try` block but
  without `await`, so the `catch` block does not see it fail. The acknowledgment is awaited
  outside the `try` block (`BotHandlers.RejectsOnlyFromUnawaitedReplies`).

## Model

| member | source | states |
|---|---|---|
| JsString.Lookup | src/botHandlers.js:84 | a header that is absent reads as undefined, and a present one reads as its value |
| JsString.Trim | src/botHandlers.js:31 | no contract of its own; TrimString of both ends, characterised by `TrimSlice`, `TrimEnds` and `TrimIdempotent` |
| JsString.TrimSlice | src/botHandlers.js:31 | trim leaves the slice after the leading white space, and everything after that slice is white space |
| JsString.TrimEnds | src/botHandlers.js:31 | a trimmed string neither starts nor ends with white space |
| JsString.TrimIdempotent | src/botHandlers.js:31 | trimming twice gives the same as trimming once |
| JsString.Split | src/botHandlers.js:89 | there is always at least one piece, and no piece holds the separator; `JoinSplit` and `SplitJoin` characterise it against `Join` |
| JsString.LastSegment | src/botHandlers.js:89 | no contract of its own; pop() of the split, characterised by `LastSegmentSpec` |
| JsString.JoinSplit | src/botHandlers.js:89 | joining the pieces of split('/') with '/' gives the pathname back |
| JsString.SplitJoin | src/botHandlers.js:89 | splitting a '/'-join of separator-free pieces gives those pieces |
| JsString.LastSegmentSpec | src/botHandlers.js:89 | pop() of split('/') is the separator-free tail after the last '/' (the whole string when there is none); it is empty exactly when the pathname is empty or ends in '/' |
| JsString.Includes | src/botHandlers.js:85 | includes holds exactly when the text occurs at some index |
| JsNumber.ParseInt | src/botHandlers.js:43 | no contract of its own; the steps of parseInt (also used at config/index.js:7), characterised by `ParseIntDecimal`, `ParseIntHexPrefix`, `ParseIntUndefined` and the two `IntToString` round trips |
| JsNumber.ParseIntUndefined | src/botHandlers.js:41-43 | parseInt of undefined is NaN, for every radix below 31 (0 and 10 included) |
| JsNumber.ParseIntDecimal | config/index.js:7 | parseInt(s, 10) skips leading white space and one sign, reads the longest run of decimal digits, and ignores the rest; with no digit it is NaN |
| JsNumber.ParseIntOfIntToString | config/index.js:7 | parseInt(String(n), 10) == n for every integer n |
| JsNumber.ParseIntOfIntToStringNoRadix | src/botHandlers.js:43 | parseInt(String(n)) with no radix == n for every integer n |
| JsNumber.ParseIntHexPrefix | src/botHandlers.js:43 | with no radix, "0x" or "0X" followed by hexadecimal digits reads those digits in radix 16 |
| Config.MaxFileSize | config/index.js:7 | the result is never 0 (so never falsy); it is the parsed number when that is truthy, and 52428800 otherwise |
| Config.Load | config/index.js:4-8 | the settings hold the two tokens from the environment and MaxFileSize of MAX_FILE_SIZE |
| Config.UnsetGivesDefault | config/index.js:7 | an unset MAX_FILE_SIZE gives 52428800 |
| Config.DecimalValue | config/index.js:7 | a value made of white space, a sign, digits and a tail gives the signed value of the digits, or the default when there are no digits or the value is 0 |
| Config.NumeralValue | config/index.js:7 | the numeral of n gives n, and "0" gives the default |
| Config.ZeroGivesDefault | config/index.js:7 | "0" gives 52428800 |
| Config.TrailingTextIgnored | config/index.js:7 | "100MB" gives 100 |
| Config.NegativeKept | config/index.js:7 | "-5" gives -5 |
| Config.HexPrefixNotRead | config/index.js:7 | "0x10" gives the default, because radix 10 reads only "0" |
| Config.NoDigitsGivesDefault | config/index.js:7 | "abc" gives the default (NaN is falsy) |
| UriCodec.Decode | src/botHandlers.js:89 | no contract of its own; the Decode operation of decodeURIComponent, characterised by `DecodeEncode`, `DecodeWithoutPercent`, `DecodeTruncatedEscape` and the two examples |
| UriCodec.DecodeEncode | src/botHandlers.js:89 | decodeURIComponent(encodeURIComponent(s)) == s for every string s |
| UriCodec.DecodeWithoutPercent | src/botHandlers.js:89 | a segment with no '%' decodes to itself |
| UriCodec.DecodeTruncatedEscape | src/botHandlers.js:89 | a '%' in one of the last two positions throws URIError |
| UriCodec.EscapedSlashDecodes | src/botHandlers.js:89 | "a%2Fb" decodes to "a/b" |
| UriCodec.LoneLeadingOctetThrows | src/botHandlers.js:89 | "%E9" (not UTF-8) throws URIError |
| UriCodec.Utf8RoundTrip | src/botHandlers.js:89 | the UTF-8 octets of a code point announce their length in the leading octet and decode back to that code point |
| DispositionPattern.Match | src/botHandlers.js:86 | a capture is non-empty and holds no line terminator |
| DispositionPattern.SearchFrom | src/botHandlers.js:86 | a capture found from index i on is non-empty and stays on one line; `SearchFromSpec` characterises it as the leftmost match start |
| DispositionPattern.MatchAtSpec | src/botHandlers.js:86 | the backtracking attempt at one index succeeds exactly when `filename=` stands there followed by a code point of the same line, and then captures the rest of the line minus one leading quote |
| DispositionPattern.SearchFromSpec | src/botHandlers.js:86 | the search from index i finds the leftmost match start at or after i |
| DispositionPattern.MatchSpec | src/botHandlers.js:86 | match succeeds exactly when some index starts a match, and then gives the capture at the leftmost one |
| DispositionPattern.CaptureShape | src/botHandlers.js:86-87 | the capture at a match start is non-empty and stays on one line |
| DispositionPattern.NoKeywordNoMatch | src/botHandlers.js:85-86 | without `filename=` there is no match |
| DispositionPattern.QuotedValueKeepsClosingQuote | src/botHandlers.js:86-87 | for a quoted value at the end of the header, after any text that does not itself hold `filename=`, the capture is the value followed by its closing quote |
| DispositionPattern.NoEarlierKeyword | src/botHandlers.js:86 | in front of a `filename=`, text that does not hold `filename=` holds no earlier match start, not even one straddling the two |
| DispositionPattern.ReportPdfExample | src/botHandlers.js:86-87 | `attachment; filename="report.pdf"` gives `report.pdf"` |
| BotHandlers.IsValidUrl | src/botHandlers.js:74-81 | true exactly when the URL parses and its protocol is "http:" or "https:"; a parse error gives false |
| BotHandlers.GetFilenameFromUrl | src/botHandlers.js:83-91 | in the header branch the result is always a name, non-empty and on one line; a TypeError comes only from a URL that does not parse |
| BotHandlers.DispositionFilename | src/botHandlers.js:84-87 | in the header branch the name is the capture at the leftmost match start, and the fallback "file" is used only when nothing matches |
| BotHandlers.PathFilename | src/botHandlers.js:88-90 | in the URL branch the name is the decoded last segment of the pathname, or URIError exactly when decoding throws; an empty pathname or one ending in '/' gives ""; a segment that encodes a name gives that name |
| BotHandlers.PathExample | src/botHandlers.js:89 | with no disposition header, the pathname "/dir/data.csv" gives "data.csv" |
| BotHandlers.DataCsvSegment | src/botHandlers.js:89 | pop() of "/dir/data.csv".split('/') is "data.csv" |
| BotHandlers.ValidUrlParsesAgain | src/botHandlers.js:76-89 | once isValidUrl accepts the URL, getFilenameFromUrl cannot throw TypeError |
| BotHandlers.AbsentLengthNeverTooLarge | src/botHandlers.js:41-43 | with no content-length header the size gate never trips (NaN > max is false) |
| BotHandlers.DecimalLengthGate | src/botHandlers.js:43 | a decimal content-length n trips the gate exactly when n > maxFileSize |
| BotHandlers.HexLengthGate | src/botHandlers.js:43 | a content-length "0x…" trips the gate exactly when its hexadecimal value > maxFileSize |
| BotHandlers.RemovalKey | src/botHandlers.js:59 | the key is "remove-file-" followed by the blob URL |
| BotHandlers.RemovalKeyInjective | src/botHandlers.js:59 | distinct blob URLs get distinct removal keys |
| BotHandlers.TransferIsPipeline | src/botHandlers.js:48-59 | the transfer makes the calls of the successful run from the GET on, up to and including the first one that fails |
| BotHandlers.Outcome | src/botHandlers.js:30-72 | no contract of its own; the closed form of a run, to which `DownloadHandler` is proved equal, and which the handler lemmas below characterise |
| BotHandlers.OutcomeOfTry | src/botHandlers.js:37-71 | the handler's effects are the acknowledgment, then the try block's effects, then the error reply exactly when the block throws; a reply returned from the block settles the handler |
| BotHandlers.Attempt | src/botHandlers.js:39-47 | the try block's effects and exit equal the reference: HEAD; a failed HEAD throws; a tripped size gate adds the too-large reply and returns it; otherwise the filename and transfer follow |
| BotHandlers.Resolve | src/botHandlers.js:47-66 | a filename that throws ends the try block with no further call; otherwise the transfer follows |
| BotHandlers.Deliver | src/botHandlers.js:48-66 | GET, put(filename, body, public, addRandomSuffix true, blob token), the document with its caption, and the schedule, each only after the one before it succeeded; the block falls through only when all of them succeed |
| BotHandlers.DownloadHandler | src/botHandlers.js:30-72 | the trace and completion of the handler equal Outcome of the decisions taken from the trimmed text |
| BotHandlers.RemoveFile | src/botHandlers.js:59-66 | the callback deletes the blob with the blob token, and settles normally whether or not the deletion fails |
| BotHandlers.InvalidInputOneReply | src/botHandlers.js:31-35 | input that is not an http(s) URL gets exactly the invalid-URL reply and nothing else |
| BotHandlers.AcknowledgedFirst | src/botHandlers.js:37-40 | a valid URL is acknowledged first; a failed acknowledgment rejects with nothing after it; otherwise HEAD of the trimmed URL comes second |
| BotHandlers.TooLargeStopsBeforeFetch | src/botHandlers.js:40-45 | a too-large file gives acknowledgment, HEAD and the too-large reply, with no GET, put, document or schedule |
| BotHandlers.SuccessfulRun | src/botHandlers.js:37-66 | when every call succeeds the effects are, in order: acknowledgment, HEAD, GET, public put with a random suffix, the document, and the schedule under "remove-file-"+blob.url at now+3600000 |
| BotHandlers.FailureGivesOneErrorReply | src/botHandlers.js:39-71 | past the size gate, a failed HEAD, filename, GET, put or document ends the run with exactly one error reply, as the last effect, and no schedule |
| BotHandlers.ErrorReplyOnlyLast | src/botHandlers.js:68-71 | the error reply appears at most once, and only as the last effect |
| BotHandlers.DocumentThenErrorReply | src/botHandlers.js:56-70 | a document is sent exactly when HEAD, the filename, GET and put succeeded; once the document is delivered, the error reply follows it exactly when the schedule throws |
| BotHandlers.RejectsOnlyFromUnawaitedReplies | src/botHandlers.js:30-45 | the handler's promise rejects exactly when the acknowledgment fails, or when the invalid-URL or too-large reply that it returns fails |
| BotHandlers.ScheduledRemoval | src/botHandlers.js:58-61 | a scheduled removal is due at now + one hour, under "remove-file-" + the uploaded blob's URL, and deletes that blob with the blob token |
| BotHandlers.PastGateFetchesOrFails | src/botHandlers.js:43-48 | once the size gate has passed, GET is the third effect when the filename resolved; when getFilenameFromUrl threw, the error reply follows HEAD and nothing is fetched |
| BotHandlers.AbsentLengthProceeds | src/botHandlers.js:41-48 | with no content-length header the download proceeds: GET of the trimmed URL is the third effect, unless decoding the filename throws URIError, which ends the run with the error reply before any GET |
| BotHandlers.DecisionsOfInput | src/botHandlers.js:31-47 | the handler works on the trimmed text; after a successful HEAD, a missing content-length never trips the gate, and a valid URL never makes getFilenameFromUrl throw TypeError |

## Left out

- The WHATWG URL parser behind `new URL(url)` is not modelled. It is a function parameter that gives the protocol and pathname, or a TypeError.
- Numbers are mathematical integers. Double precision, rounding above 2^53, `-0`, and `Infinity` are not modelled. `-0` is identified with `0`: the handler only compares the parsed content-length with `>`, and the configuration only tests its parsed value with `||`, and both treat the two alike.
- JavaScript strings are modelled as sequences of Unicode code points, not UTF-16 code units. Lone surrogates, and the URIError that encodeURIComponent throws for them, do not arise.
- Network and storage I/O is not modelled. axios.head and axios.get, Vercel Blob `put` and `del`, the Telegram replies and `@vercel/cron` `schedule` are effects in a trace, and their results are inputs.
- `Date.now()` is the parameter `now`.
- Lines 59, 62 and 64 of src/botHandlers.js write their template literals with escaped backticks and `\${`, which JavaScript would reject as a syntax error. The model reads them as ordinary template literals, written the way line 56 writes one. The removal key is therefore "remove-file-" followed by the blob URL (`RemovalKey`); the two logger messages are not modelled. The template literal in api/bot.js (lines 27-61) is written the same way; that file is not part of this model.
- Asynchronous interleaving is not modelled. Neither is a scheduler that rejects asynchronously instead of throwing: its promise is not awaited, so such a rejection would escape the catch block. The callback's later run is modelled on its own, as `RemoveFile`.
- The logger calls are not modelled; they write log output only.
- The result of the error reply in the catch block is not modelled. The reply is not awaited, so the handler's promise does not observe it; a rejection would surface as an unhandled rejection, which is not modelled.
- The reply text of `startHandler` and `helpHandler`, the webhook entry point api/bot.js and the loading of `.env` by dotenv are not part of this model.
- A message without text, for which `ctx.message.text.trim()` throws, is not modelled: the handler is given the message text.
