/** The text-message handler of the bot: the URL check, the filename
    resolution, and `downloadHandler`, which acknowledges the request, probes
    the URL, enforces the size ceiling, fetches the body, stages it in blob
    storage, sends it back as a document and schedules its removal.

    Every external call (the bot transport, the HTTP client, the blob store,
    the scheduler) is an effect appended to a trace; its result is an input. */
module BotHandlers {
  import opened JsString
  import opened JsNumber
  import UriCodec
  import DispositionPattern
  import Config

  // ---- values exchanged with the outside ----

  /** The parts of a URL record that the handler reads. */
  datatype UrlParts = UrlParts(protocol: string, pathname: string)

  /** `new URL(s)` of the WHATWG URL standard: None when the constructor
      throws a TypeError. */
  type UrlParser = string -> Option<UrlParts>

  /** Response headers as the HTTP client gives them (lower-case names). */
  type Headers = map<string, string>

  newtype Byte = x: int | 0 <= x < 256

  /** The object the blob store's `put` resolves with. */
  datatype Blob = Blob(url: string)

  /** The result of an awaited external call, or of a synchronous call that
      might throw: fulfilled with a value, or rejected (thrown). */
  datatype Call<+T> = Ok(value: T) | Fail

  /** How the promise returned by a handler settles. */
  datatype Completion = Completed | Rejected

  /** The deletion callback handed to the scheduler, with what it captures. */
  datatype RemoveFileJob = RemoveFileJob(blobUrl: string, filename: string, token: Option<string>)

  /** One call to the outside world. */
  datatype Effect =
    | Reply(notice: Notice)
    | Head(url: string)
    | Get(url: string)
    | Put(pathname: string, body: seq<Byte>, access: string, addRandomSuffix: bool, token: Option<string>)
    | ReplyDocument(url: string, filename: string, caption: string)
    | Schedule(key: string, fireAt: int, job: RemoveFileJob)
    | Delete(url: string, token: Option<string>)

  /** The results the outside world gives to the calls of one run of the
      handler. `notice` is the result of the reply that the handler returns
      unawaited (invalid URL or too large); the reply in the catch block is
      not awaited and its result is never observed. */
  datatype Services = Services(
    ack: Call<()>,
    notice: Call<()>,
    head: Call<Headers>,
    get: Call<seq<Byte>>,
    put: Call<Blob>,
    document: Call<()>,
    schedule: Call<()>)

  // ---- fixed texts and constants ----

  /** The fixed replies of the handler. */
  datatype Notice = InvalidUrl | Fetching | TooLargeFile | DownloadError

  /** The text of each fixed reply. */
  function Wording(n: Notice): string {
    match n
    case InvalidUrl => "\U{274C} Invalid URL! Please send a valid direct download link."
    case Fetching => "\U{1F504} Fetching your file, please wait..."
    case TooLargeFile => "\U{274C} The file is too large to be sent over Telegram."
    case DownloadError => "\U{274C} There was an error downloading the file. Please check the URL and try again."
  }

  const CaptionPrefix: string := "\U{2705} Successfully downloaded: "
  const FallbackFilename: string := "file"
  const KeyPrefix: string := "remove-file-"

  /** The retention window: one hour in milliseconds. */
  const RetentionMillis: int := 1 * 60 * 60 * 1000

  // ---- isValidUrl ----

  /** `isValidUrl(url)`: the URL parses and its scheme is http or https. A
      parse failure is caught and gives false. */
  function IsValidUrl(parse: UrlParser, url: string): (ok: bool)
    ensures ok <==> parse(url).Some? && (parse(url).value.protocol == "http:" || parse(url).value.protocol == "https:")
    ensures ok ==> parse(url).Some?
  {
    match parse(url)
    case None => false
    case Some(u) => u.protocol == "http:" || u.protocol == "https:"
  }

  // ---- getFilenameFromUrl ----

  /** What getFilenameFromUrl returns or throws. */
  datatype FilenameResult =
    | Filename(name: string)
    | TypeError     // thrown by `new URL(url)`
    | UriError      // thrown by decodeURIComponent

  /** The header value of content-disposition, if any. */
  function Disposition(headers: Headers): Option<string> {
    Lookup(headers, "content-disposition")
  }

  /** The first branch of getFilenameFromUrl is taken: the header is
      present, non-empty (truthy), and includes `filename=`. */
  predicate UsesDisposition(headers: Headers) {
    var d := Disposition(headers);
    d.Some? && d.value != "" && Includes(d.value, DispositionPattern.Keyword)
  }

  /** `getFilenameFromUrl(url, headers)`. */
  function GetFilenameFromUrl(url: string, headers: Headers, parse: UrlParser): (r: FilenameResult)
    ensures UsesDisposition(headers) ==> r.Filename? && DispositionPattern.IsCapture(r.name)
    ensures r.TypeError? ==> parse(url).None?
  {
    if UsesDisposition(headers) then
      var d := Disposition(headers).value;
      match DispositionPattern.Match(d)
      case Some(capture) => Filename(capture)
      case None => Filename(FallbackFilename)
    else
      match parse(url)
      case None => TypeError
      case Some(u) =>
        match UriCodec.Decode(LastSegment(u.pathname, '/'))
        case UriError => UriError
        case Decoded(name) => Filename(name)
  }

  /** In the header branch the name is the capture of the leftmost match of
      /filename="?(.+)"?/: the text after the first `filename=` that is
      followed by something on its line, minus one leading quote, up to the
      end of the line, a closing quote included. "file" comes out only when
      nothing matches. */
  lemma DispositionFilename(url: string, headers: Headers, parse: UrlParser)
    requires UsesDisposition(headers)
    ensures var r, d := GetFilenameFromUrl(url, headers, parse), Disposition(headers).value;
      && r.Filename?
      && ((forall p: nat :: p <= |d| ==> !DispositionPattern.MatchStartsAt(d, p)) ==> r.name == FallbackFilename)
      && ((exists p: nat :: p <= |d| && DispositionPattern.MatchStartsAt(d, p)) ==>
            exists p: nat :: p <= |d| && DispositionPattern.MatchStartsAt(d, p)
              && (forall q: nat :: q < p ==> !DispositionPattern.MatchStartsAt(d, q))
              && r.name == DispositionPattern.CaptureAt(d, p))
  {
    DispositionPattern.MatchSpec(Disposition(headers).value);
  }

  /** In the URL branch the name is the percent-decoded last `/`-segment of
      the pathname: it is empty when the pathname is empty or ends in `/`,
      and a segment that is the encodeURIComponent of a name gives that name
      back. */
  lemma PathFilename(url: string, headers: Headers, parse: UrlParser)
    requires !UsesDisposition(headers) && parse(url).Some?
    ensures var r, path := GetFilenameFromUrl(url, headers, parse), parse(url).value.pathname;
      && !r.TypeError?
      && (r.UriError? <==> UriCodec.Decode(LastSegment(path, '/')).UriError?)
      && (r.Filename? ==> UriCodec.Decode(LastSegment(path, '/')) == UriCodec.Decoded(r.name))
      && (path == [] || path[|path| - 1] == '/' ==> r == Filename(""))
      && (forall name :: LastSegment(path, '/') == UriCodec.Encode(name) ==> r == Filename(name))
  {
    var path := parse(url).value.pathname;
    LastSegmentSpec(path, '/');
    assert LastSegment(path, '/') == [] ==> UriCodec.Decode([]) == UriCodec.Decoded([]) by {
      UriCodec.DecodeEncode([]);
    }
    forall name | LastSegment(path, '/') == UriCodec.Encode(name)
      ensures GetFilenameFromUrl(url, headers, parse) == Filename(name)
    {
      UriCodec.DecodeEncode(name);
    }
  }

  /** With no disposition header, a URL whose pathname is "/dir/data.csv"
      gives the name "data.csv". */
  lemma PathExample(url: string, headers: Headers, parse: UrlParser)
    requires !UsesDisposition(headers) && parse(url) == Some(UrlParts("https:", "/dir/data.csv"))
    ensures GetFilenameFromUrl(url, headers, parse) == Filename("data.csv")
  {
    DataCsvSegment();
    UriCodec.PlainNameDecodes();
  }

  /** The last segment of "/dir/data.csv" is "data.csv". */
  lemma DataCsvSegment()
    ensures LastSegment("/dir/data.csv", '/') == "data.csv"
  {
    var parts := ["", "dir", "data.csv"];
    assert Join(parts, '/') == "/dir/data.csv" by {
      assert parts[1..] == ["dir", "data.csv"] && parts[1..][1..] == ["data.csv"];
    }
    SplitJoin(parts, '/');
  }

  /** Once isValidUrl has accepted the URL, getFilenameFromUrl cannot throw
      from `new URL`; only decodeURIComponent can still throw. */
  lemma ValidUrlParsesAgain(url: string, headers: Headers, parse: UrlParser)
    requires IsValidUrl(parse, url)
    ensures !GetFilenameFromUrl(url, headers, parse).TypeError?
  {
  }

  // ---- downloadHandler ----

  /** `parseInt(contentLength) > config.maxFileSize`: NaN compares false. */
  predicate ExceedsLimit(contentLength: Number, maxFileSize: int) {
    contentLength.Int? && contentLength.value > maxFileSize
  }

  /** The size gate of the probe response trips. The header is read with
      `parseInt` and no radix. */
  predicate TooLarge(headers: Headers, maxFileSize: int) {
    ExceedsLimit(ParseInt(Lookup(headers, "content-length"), 0), maxFileSize)
  }

  /** With no content-length header the size gate never trips: parseInt of
      undefined is NaN, and NaN > max is false. */
  lemma AbsentLengthNeverTooLarge(headers: Headers, maxFileSize: int)
    requires "content-length" !in headers
    ensures !TooLarge(headers, maxFileSize)
  {
    ParseIntUndefined(0);
  }

  /** A content-length that is the decimal numeral of `n` trips the gate
      exactly when `n` exceeds the ceiling. */
  lemma DecimalLengthGate(headers: Headers, n: int, maxFileSize: int)
    requires Lookup(headers, "content-length") == Some(IntToString(n))
    ensures TooLarge(headers, maxFileSize) <==> n > maxFileSize
  {
    ParseIntOfIntToStringNoRadix(n);
  }

  /** The header is read with no radix, so a "0x" prefix makes it
      hexadecimal: "0x10" stands for 16 bytes. */
  lemma HexLengthGate(headers: Headers, x: char, digits: string, maxFileSize: int)
    requires x == 'x' || x == 'X'
    requires digits != [] && forall i :: 0 <= i < |digits| ==> IsDigit(digits[i], 16)
    requires Lookup(headers, "content-length") == Some(['0', x] + digits)
    ensures TooLarge(headers, maxFileSize) <==> DigitsValue(digits, 16) > maxFileSize
  {
    ParseIntHexPrefix(x, digits, []);
    assert digits + [] == digits;
  }

  /** The key under which the removal of a staged blob is scheduled. */
  function RemovalKey(blobUrl: string): (key: string)
    ensures |key| == |KeyPrefix| + |blobUrl| && key[..|KeyPrefix|] == KeyPrefix && key[|KeyPrefix|..] == blobUrl
  {
    KeyPrefix + blobUrl
  }

  /** Distinct staged blobs get distinct removal keys. */
  lemma RemovalKeyInjective(u1: string, u2: string)
    requires RemovalKey(u1) == RemovalKey(u2)
    ensures u1 == u2
  {
    assert u1 == RemovalKey(u1)[|KeyPrefix|..];
  }

  /** How a run of the handler ends: the effects in order, and how its
      promise settles. */
  datatype Run = Run(trace: seq<Effect>, completion: Completion)

  /** A reply returned unawaited from the handler settles its promise. */
  function Settle(reply: Call<()>): Completion {
    if reply.Ok? then Completed else Rejected
  }

  /** The effects of a run in which every call succeeds, for the resolved
      filename, the fetched body and the staged blob: the acknowledgment,
      the probe, the fetch, the public upload under a random suffix, the
      document, and the removal scheduled one hour later. */
  function Pipeline(url: string, filename: string, body: seq<Byte>, blob: Blob,
                    config: Config.Settings, now: int): (t: seq<Effect>)
    ensures |t| == 6
  {
    [ Reply(Fetching),
      Head(url),
      Get(url),
      Put(filename, body, "public", true, config.blobToken),
      ReplyDocument(blob.url, filename, CaptionPrefix + filename),
      Schedule(RemovalKey(blob.url), now + RetentionMillis,
               RemoveFileJob(blob.url, filename, config.blobToken)) ]
  }

  /** What the handler takes from the pure functions of its input: the
      trimmed URL, whether isValidUrl accepts it, and, for the headers of a
      successful probe, whether the size gate trips and what
      getFilenameFromUrl gives. */
  datatype Decisions = Decisions(url: string, valid: bool, tooLarge: bool, name: FilenameResult)

  /** The size gate, for the headers of a successful probe. */
  predicate GateTrips(io: Services, maxFileSize: int) {
    io.head.Ok? && TooLarge(io.head.value, maxFileSize)
  }

  /** The filename, for the headers of a successful probe. */
  function NameFor(url: string, parse: UrlParser, io: Services): FilenameResult {
    if io.head.Ok? then GetFilenameFromUrl(url, io.head.value, parse) else TypeError
  }

  function Decide(text: string, parse: UrlParser, config: Config.Settings, io: Services): Decisions {
    var url := Trim(text);
    Decisions(url, IsValidUrl(parse, url), GateTrips(io, config.maxFileSize), NameFor(url, parse, io))
  }

  /** The successful run for the decisions `d` and the results in `io`. */
  function PlannedRun(d: Decisions, config: Config.Settings, now: int, io: Services): seq<Effect> {
    Pipeline(d.url, if d.name.Filename? then d.name.name else "",
             if io.get.Ok? then io.get.value else [],
             if io.put.Ok? then io.put.value else Blob(""), config, now)
  }

  /** How many effects of the successful run are carried out once the file
      has a name: the first call that fails or throws is the last one made. */
  function Delivered(io: Services): (k: nat)
    ensures 3 <= k <= 6
  {
    if io.get.Fail? then 3
    else if io.put.Fail? then 4
    else if io.document.Fail? then 5
    else 6
  }

  /** How many effects of the successful run are carried out once the size
      gate has passed. */
  function Reached(d: Decisions, io: Services): (k: nat)
    ensures 2 <= k <= 6
  {
    if io.head.Fail? || !d.name.Filename? then 2 else Delivered(io)
  }

  /** The reference for downloadHandler: an input that is not an http(s)
      URL gets one reply; otherwise the acknowledgment is awaited outside
      the try block; inside it a too-large file ends the run with the
      too-large reply; otherwise the run is the successful one up to the
      first failure, and any failure or throw in the try block (a synchronous
      throw of the scheduling included) is followed by the error reply of
      the catch block. */
  function Outcome(d: Decisions, config: Config.Settings, now: int, io: Services): Run {
    if !d.valid then Run([Reply(InvalidUrl)], Settle(io.notice))
    else if io.ack.Fail? then Run([Reply(Fetching)], Rejected)
    else if io.head.Ok? && d.tooLarge then
      Run([Reply(Fetching), Head(d.url), Reply(TooLargeFile)], Settle(io.notice))
    else
      var k := Reached(d, io);
      var thrown := k < 6 || io.schedule.Fail?;
      Run(PlannedRun(d, config, now, io)[..k] + (if thrown then [Reply(DownloadError)] else []),
          Completed)
  }

  /** How the try block of downloadHandler is left. */
  datatype TryExit = FellThrough | Returned(completion: Completion) | Threw

  /** The effects of the try block and how it is left. */
  datatype TryRun = TryRun(trace: seq<Effect>, exit: TryExit)

  /** The effects of the transfer, once the file has a name: the fetch,
      then each further call only when the one before it succeeded. */
  function TransferRun(url: string, filename: string, config: Config.Settings, now: int, io: Services): seq<Effect> {
    [Get(url)] +
    if io.get.Fail? then [] else
      [Put(filename, io.get.value, "public", true, config.blobToken)] +
      if io.put.Fail? then [] else
        [ReplyDocument(io.put.value.url, filename, CaptionPrefix + filename)] +
        if io.document.Fail? then [] else
          [Schedule(RemovalKey(io.put.value.url), now + RetentionMillis,
                    RemoveFileJob(io.put.value.url, filename, config.blobToken))]
  }

  /** The transfer makes the calls of the successful run from the fetch on,
      up to the first one that fails. */
  lemma TransferIsPipeline(url: string, filename: string, config: Config.Settings, now: int, io: Services)
    ensures TransferRun(url, filename, config, now, io) ==
      Pipeline(url, filename, if io.get.Ok? then io.get.value else [],
               if io.put.Ok? then io.put.value else Blob(""), config, now)[2..Delivered(io)]
  {
  }

  /** How the try block is left after a transfer: normally only when every
      call of it, the scheduling included, succeeded. */
  function TransferExit(io: Services): TryExit {
    if Delivered(io) < 6 || io.schedule.Fail? then Threw else FellThrough
  }

  /** The reference for the part of the try block after the size gate: a
      filename that throws ends the block with no further effect; otherwise
      the transfer follows. */
  function ResolveRun(url: string, name: FilenameResult, config: Config.Settings, now: int, io: Services): TryRun {
    if !name.Filename? then TryRun([], Threw)
    else TryRun(TransferRun(url, name.name, config, now, io), TransferExit(io))
  }

  /** The reference for the try block: the probe; a failed probe throws, a
      too-large file returns the unawaited too-large reply, and otherwise
      the rest of the block follows the probe. */
  function TryOutcome(d: Decisions, config: Config.Settings, now: int, io: Services): TryRun {
    if io.head.Fail? then TryRun([Head(d.url)], Threw)
    else if d.tooLarge then TryRun([Head(d.url)] + [Reply(TooLargeFile)], Returned(Settle(io.notice)))
    else
      var rest := ResolveRun(d.url, d.name, config, now, io);
      TryRun([Head(d.url)] + rest.trace, rest.exit)
  }

  /** The whole handler is the try block between the acknowledgment and the
      catch block: the error reply follows exactly when the block throws,
      and a reply returned from the block settles the handler. */
  lemma OutcomeOfTry(d: Decisions, config: Config.Settings, now: int, io: Services)
    requires d.valid && io.ack.Ok?
    ensures var r, t := Outcome(d, config, now, io), TryOutcome(d, config, now, io);
      && r.trace == [Reply(Fetching)] + t.trace + (if t.exit.Threw? then [Reply(DownloadError)] else [])
      && r.completion == (if t.exit.Returned? then t.exit.completion else Completed)
  {
    var t := TryOutcome(d, config, now, io);
    if !(io.head.Ok? && d.tooLarge) {
      var full := PlannedRun(d, config, now, io);
      var k := Reached(d, io);
      if k == 2 {
        assert full[..k] == [full[0], full[1]];
        assert t.trace == [full[1]];
      } else {
        TransferIsPipeline(d.url, d.name.name, config, now, io);
        assert full[..k] == [full[0], full[1]] + full[2..k];
      }
    }
  }

  /** The try block of downloadHandler, for a URL that passed isValidUrl
      and was acknowledged: the probe, the size gate and the filename, then
      the transfer. */
  method Attempt(url: string, parse: UrlParser, config: Config.Settings, now: int, io: Services)
    returns (trace: seq<Effect>, exit: TryExit)
    ensures TryRun(trace, exit) ==
      TryOutcome(Decisions(url, true, GateTrips(io, config.maxFileSize), NameFor(url, parse, io)), config, now, io)
  {
    trace := [Head(url)];
    exit := Threw;
    if io.head.Fail? {
      return;
    }
    var headers := io.head.value;
    var contentLength := Lookup(headers, "content-length");
    if ExceedsLimit(ParseInt(contentLength, 0), config.maxFileSize) {
      trace := trace + [Reply(TooLargeFile)];
      exit := Returned(Settle(io.notice));
      return;
    }
    var rest;
    rest, exit := Resolve(url, headers, parse, config, now, io);
    trace := trace + rest;
  }

  /** The part of the try block after the size gate: the filename, then,
      when it did not throw, the transfer. */
  method Resolve(url: string, headers: Headers, parse: UrlParser, config: Config.Settings, now: int, io: Services)
    returns (trace: seq<Effect>, exit: TryExit)
    ensures TryRun(trace, exit) == ResolveRun(url, GetFilenameFromUrl(url, headers, parse), config, now, io)
  {
    var resolved := GetFilenameFromUrl(url, headers, parse);
    if !resolved.Filename? {
      return [], Threw;
    }
    trace, exit := Deliver(url, resolved.name, config, now, io);
  }

  /** The rest of the try block, once the file has a name: the fetch, the
      public upload under a random suffix, the document, and the removal
      scheduled one hour later under a key naming the blob. */
  method Deliver(url: string, filename: string, config: Config.Settings, now: int, io: Services)
    returns (trace: seq<Effect>, exit: TryExit)
    ensures trace == TransferRun(url, filename, config, now, io)
    ensures exit == TransferExit(io)
  {
    exit := Threw;
    trace := [Get(url)];
    if io.get.Fail? {
      assert trace == trace + [];
      return;
    }
    var data := io.get.value;
    var upload := Put(filename, data, "public", true, config.blobToken);
    trace := trace + [upload];
    if io.put.Fail? {
      assert trace == [Get(url)] + ([upload] + []);
      return;
    }
    var blob := io.put.value;
    var document := ReplyDocument(blob.url, filename, CaptionPrefix + filename);
    trace := trace + [document];
    if io.document.Fail? {
      assert trace == [Get(url)] + ([upload] + ([document] + []));
      return;
    }
    var removeDate := now + RetentionMillis;
    var removal := Schedule(RemovalKey(blob.url), removeDate,
                            RemoveFileJob(blob.url, filename, config.blobToken));
    trace := trace + [removal];
    assert trace == [Get(url)] + ([upload] + ([document] + [removal]));
    if io.schedule.Ok? {
      exit := FellThrough;
    }
  }

  /** `downloadHandler(ctx)` for a text message `text`, at time `now`
      (milliseconds), with the configuration `config`. */
  method DownloadHandler(text: string, parse: UrlParser, config: Config.Settings, now: int, io: Services)
    returns (trace: seq<Effect>, completion: Completion)
    ensures Run(trace, completion) == Outcome(Decide(text, parse, config, io), config, now, io)
  {
    var url := Trim(text);
    if !IsValidUrl(parse, url) {
      trace := [Reply(InvalidUrl)];
      completion := Settle(io.notice);
      return;
    }
    trace := [Reply(Fetching)];
    if io.ack.Fail? {
      completion := Rejected;
      return;
    }
    var attempted, exit := Attempt(url, parse, config, now, io);
    ghost var d := Decide(text, parse, config, io);
    OutcomeOfTry(d, config, now, io);
    trace := trace + attempted;
    match exit
    case Returned(c) =>
      completion := c;
    case FellThrough =>
      completion := Completed;
      assert trace == trace + [];
    case Threw =>
      // catch
      trace := trace + [Reply(DownloadError)];
      completion := Completed;
  }

  /** The removal callback registered with the scheduler: it deletes the
      blob, and catches the failure of the deletion itself, so that it
      settles normally whatever the blob store answers. */
  method RemoveFile(job: RemoveFileJob, deletion: Call<()>) returns (trace: seq<Effect>, completion: Completion)
    ensures trace == [Delete(job.blobUrl, job.token)]
    ensures completion == Completed
  {
    trace := [Delete(job.blobUrl, job.token)];
    match deletion
    case Ok(_) =>
      completion := Completed;
    case Fail =>
      completion := Completed;
  }

  // ---- properties of the handler's runs ----

  /** An input that is not an http(s) URL after trimming produces exactly
      the invalid-URL reply: no acknowledgment, probe, fetch, upload or
      schedule. */
  lemma InvalidInputOneReply(d: Decisions, config: Config.Settings, now: int, io: Services)
    requires !d.valid
    ensures var r := Outcome(d, config, now, io);
      r.trace == [Reply(InvalidUrl)] && (r.completion == Completed <==> io.notice.Ok?)
  {
  }

  /** A valid URL is acknowledged first, and the probe of the trimmed URL
      follows once the acknowledgment went out. */
  lemma AcknowledgedFirst(d: Decisions, config: Config.Settings, now: int, io: Services)
    requires d.valid
    ensures var r := Outcome(d, config, now, io);
      && r.trace != [] && r.trace[0] == Reply(Fetching)
      && (io.ack.Fail? ==> r.trace == [Reply(Fetching)] && r.completion == Rejected)
      && (io.ack.Ok? ==> |r.trace| >= 3 && r.trace[1] == Head(d.url))
  {
    var r := Outcome(d, config, now, io);
    if io.ack.Ok? && !(io.head.Ok? && d.tooLarge) {
      var k := Reached(d, io);
      var full := PlannedRun(d, config, now, io);
      assert r.trace[..k] == full[..k];
    }
  }

  /** A file over the ceiling: the too-large reply right after the probe,
      and no fetch, no upload, no document and no schedule. */
  lemma TooLargeStopsBeforeFetch(d: Decisions, config: Config.Settings, now: int, io: Services)
    requires d.valid && io.ack.Ok? && io.head.Ok? && d.tooLarge
    ensures var r := Outcome(d, config, now, io);
      && r.trace == [Reply(Fetching), Head(d.url), Reply(TooLargeFile)]
      && (forall e :: e in r.trace ==> !e.Get? && !e.Put? && !e.ReplyDocument? && !e.Schedule?)
      && (r.completion == Completed <==> io.notice.Ok?)
  {
  }

  /** When every call succeeds the effects are, in this order: the
      acknowledgment, the probe, the fetch, the public upload with a random
      suffix under the resolved name, the document with its caption, and
      the removal under "remove-file-" + the blob URL one hour on. */
  lemma SuccessfulRun(d: Decisions, config: Config.Settings, now: int, io: Services)
    requires d.valid && io.ack.Ok? && io.head.Ok? && !d.tooLarge && d.name.Filename?
    requires io.get.Ok? && io.put.Ok? && io.document.Ok? && io.schedule.Ok?
    ensures var r, name, blob := Outcome(d, config, now, io), d.name.name, io.put.value;
      && r.completion == Completed
      && r.trace == [ Reply(Fetching), Head(d.url), Get(d.url),
                      Put(name, io.get.value, "public", true, config.blobToken),
                      ReplyDocument(blob.url, name, CaptionPrefix + name),
                      Schedule("remove-file-" + blob.url, now + 3600000,
                               RemoveFileJob(blob.url, name, config.blobToken)) ]
  {
    var full := PlannedRun(d, config, now, io);
    assert full[..6] == full;
  }

  /** A prefix of a successful run holds no error reply, and, short of the
      whole run, no schedule. */
  lemma PrefixHasNoErrorReply(d: Decisions, config: Config.Settings, now: int, io: Services, k: nat)
    requires k <= 6
    ensures var p := PlannedRun(d, config, now, io)[..k];
      && Reply(DownloadError) !in p
      && (k < 6 ==> forall e :: e in p ==> !e.Schedule?)
  {
    var full := PlannedRun(d, config, now, io);
    assert forall i :: 0 <= i < 6 ==> full[i] != Reply(DownloadError);
  }

  /** Past the size gate, a failure of the probe, the filename, the fetch,
      the upload or the document ends the run with exactly one error reply
      after the effects made so far, and no schedule; the handler settles
      normally. */
  lemma FailureGivesOneErrorReply(d: Decisions, config: Config.Settings, now: int, io: Services)
    requires d.valid && io.ack.Ok? && !(io.head.Ok? && d.tooLarge)
    requires Reached(d, io) < 6
    ensures var r := Outcome(d, config, now, io);
      && r.completion == Completed
      && |r.trace| >= 3
      && r.trace[|r.trace| - 1] == Reply(DownloadError)
      && multiset(r.trace)[Reply(DownloadError)] == 1
      && (forall e :: e in r.trace ==> !e.Schedule?)
  {
    var r := Outcome(d, config, now, io);
    var k := Reached(d, io);
    var p := PlannedRun(d, config, now, io)[..k];
    assert r.trace == p + [Reply(DownloadError)];
    PrefixHasNoErrorReply(d, config, now, io, k);
    assert multiset(r.trace) == multiset(p) + multiset{Reply(DownloadError)};
  }

  /** The error reply is sent at most once, and only as the last effect. */
  lemma ErrorReplyOnlyLast(d: Decisions, config: Config.Settings, now: int, io: Services)
    ensures var t := Outcome(d, config, now, io).trace;
      && multiset(t)[Reply(DownloadError)] <= 1
      && forall i :: 0 <= i < |t| - 1 ==> t[i] != Reply(DownloadError)
  {
    var t := Outcome(d, config, now, io).trace;
    if d.valid && io.ack.Ok? && !(io.head.Ok? && d.tooLarge) {
      var k := Reached(d, io);
      var p := PlannedRun(d, config, now, io)[..k];
      PrefixHasNoErrorReply(d, config, now, io, k);
      var tail := if k < 6 || io.schedule.Fail? then [Reply(DownloadError)] else [];
      assert t == p + tail;
      assert multiset(t) == multiset(p) + multiset(tail);
      assert forall i :: 0 <= i < |t| - 1 ==> t[i] in p;
    }
  }

  /** Past the size gate, the document is sent exactly when the filename,
      the fetch and the upload succeeded; once it has been delivered, the
      error reply still follows it exactly when the scheduling of the
      removal throws. */
  lemma DocumentThenErrorReply(d: Decisions, config: Config.Settings, now: int, io: Services)
    requires d.valid && io.ack.Ok? && !(io.head.Ok? && d.tooLarge)
    ensures var t := Outcome(d, config, now, io).trace;
      && ((exists e :: e in t && e.ReplyDocument?) <==>
            io.head.Ok? && d.name.Filename? && io.get.Ok? && io.put.Ok?)
      && (io.head.Ok? && d.name.Filename? && io.get.Ok? && io.put.Ok? && io.document.Ok? ==>
            (Reply(DownloadError) in t <==> io.schedule.Fail?))
  {
    var t := Outcome(d, config, now, io).trace;
    var k := Reached(d, io);
    var full := PlannedRun(d, config, now, io);
    var p := full[..k];
    var tail := if k < 6 || io.schedule.Fail? then [Reply(DownloadError)] else [];
    assert t == p + tail;
    PrefixHasNoErrorReply(d, config, now, io, k);
    assert Reply(DownloadError) in t <==> tail != [];
    if k >= 5 {
      assert t[4] == full[4] && t[4].ReplyDocument?;
    } else {
      assert forall e :: e in t ==> !e.ReplyDocument?;
    }
  }

  /** The handler's promise rejects exactly when the acknowledgment fails,
      or when a reply it returns unawaited (the invalid-URL or the
      too-large reply) fails. */
  lemma RejectsOnlyFromUnawaitedReplies(d: Decisions, config: Config.Settings, now: int, io: Services)
    ensures Outcome(d, config, now, io).completion == Rejected <==>
      || (!d.valid && io.notice.Fail?)
      || (d.valid && io.ack.Fail?)
      || (d.valid && io.ack.Ok? && io.head.Ok? && d.tooLarge && io.notice.Fail?)
  {
  }

  /** The removal that a run schedules is due one hour after `now`, under a
      key that names the staged blob, and deletes that blob with the
      configured token. */
  lemma ScheduledRemoval(d: Decisions, config: Config.Settings, now: int, io: Services)
    ensures var t := Outcome(d, config, now, io).trace;
      forall e :: e in t && e.Schedule? ==>
        && io.put.Ok?
        && e.fireAt == now + RetentionMillis
        && e.key == KeyPrefix + io.put.value.url
        && e.job.blobUrl == io.put.value.url
        && e.job.token == config.blobToken
  {
    var t := Outcome(d, config, now, io).trace;
    if d.valid && io.ack.Ok? && !(io.head.Ok? && d.tooLarge) {
      var k := Reached(d, io);
      var full := PlannedRun(d, config, now, io);
      var p := full[..k];
      var tail := if k < 6 || io.schedule.Fail? then [Reply(DownloadError)] else [];
      assert t == p + tail;
      PrefixHasNoErrorReply(d, config, now, io, k);
      forall e | e in t && e.Schedule?
        ensures io.put.Ok? && e == full[5]
      {
        assert e in p;
      }
    }
  }

  /** Once the size gate has passed, the fetch is the third effect when the
      filename resolved; when getFilenameFromUrl threw, the error reply
      follows the probe and nothing is fetched. */
  lemma PastGateFetchesOrFails(d: Decisions, config: Config.Settings, now: int, io: Services)
    requires d.valid && io.ack.Ok? && io.head.Ok? && !d.tooLarge
    ensures var t := Outcome(d, config, now, io).trace;
      && |t| >= 3
      && (d.name.Filename? ==> t[2] == Get(d.url))
      && (!d.name.Filename? ==> t == [Reply(Fetching), Head(d.url), Reply(DownloadError)])
  {
    var full := PlannedRun(d, config, now, io);
    var k := Reached(d, io);
    var t := Outcome(d, config, now, io).trace;
    if d.name.Filename? {
      assert t[2] == full[..k][2];
    } else {
      assert full[..k] == [full[0], full[1]];
    }
  }

  // ---- the decisions, from the input ----

  /** The decisions are those of the pure functions: the URL is the trimmed
      text, and, after a successful probe, a missing content-length never
      trips the gate and a URL that passed isValidUrl never makes
      getFilenameFromUrl throw a TypeError. */
  lemma DecisionsOfInput(text: string, parse: UrlParser, config: Config.Settings, io: Services)
    ensures var d := Decide(text, parse, config, io);
      && d.url == Trim(text)
      && (d.valid <==> IsValidUrl(parse, Trim(text)))
      && (io.head.Ok? && "content-length" !in io.head.value ==> !d.tooLarge)
      && (d.valid && io.head.Ok? ==> !d.name.TypeError?)
  {
    if io.head.Ok? && "content-length" !in io.head.value {
      AbsentLengthNeverTooLarge(io.head.value, config.maxFileSize);
    }
  }

  /** With no content-length header the download proceeds: after the
      acknowledgment and the probe comes the fetch of the trimmed URL,
      unless getFilenameFromUrl throws, which its call before the fetch
      makes end the run with the error reply. */
  lemma AbsentLengthProceeds(text: string, parse: UrlParser, config: Config.Settings, now: int, io: Services)
    requires IsValidUrl(parse, Trim(text)) && io.ack.Ok? && io.head.Ok?
    requires "content-length" !in io.head.value
    ensures var d := Decide(text, parse, config, io);
      var t := Outcome(d, config, now, io).trace;
      && |t| >= 3
      && (d.name.Filename? ==> t[2] == Get(Trim(text)))
      && (d.name.UriError? ==> t == [Reply(Fetching), Head(Trim(text)), Reply(DownloadError)])
  {
    var d := Decide(text, parse, config, io);
    DecisionsOfInput(text, parse, config, io);
    PastGateFetchesOrFails(d, config, now, io);
  }
}
