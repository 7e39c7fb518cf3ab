/** The decisions the HTTP layer takes around libcurl: how a request's header
    list is built, which transfer options `exec` selects, what the debug and
    write callbacks record, and how the wait/perform loop of `easy_perform`
    reacts to what the multi interface reports. libcurl itself is not modelled:
    every value it hands back (wait and perform codes, ready counts, timeout
    suggestions, completion messages, callback data, the response code) is an
    observation passed in as a parameter. */
module Http {
  import opened Wrappers
  import opened Strings

  // libcurl result codes (CURLcode and CURLMcode values) the loop uses.
  const CurleOk: int := 0
  const CurleFailedInit: int := 2
  const CurleOutOfMemory: int := 27
  const CurleBadFunctionArgument: int := 43
  const CurlmOk: int := 0
  const CurlmBadHandle: int := 1
  const CurlmOutOfMemory: int := 3

  /** Upper bound, in milliseconds, of one readiness wait and of one idle sleep. */
  const MaxWaitMs: int := 1000

  /** `char maxheader[2048]` less the terminating NUL. */
  const MaxHeaderLength: nat := 2047

  /** A body chunk holding this text is an interim response and is dropped. */
  const ContinueMarker: string := "HTTP/1.1 100 Continue"

  const FailureMessage: string := "Failure performing request"

  /** The user agent every request starts with (Chrome 75 on Windows 10). */
  const DefaultUserAgent: string :=
    "Mozilla/5.0 (Windows NT 10.0; Win64; x64) AppleWebKit/537.36 (KHTML, like Gecko) Chrome/75.0.3770.90 Safari/537.36"

  // ---------------------------------------------------------------------
  // Request configuration (HttpRequest)

  datatype Auth = NoAuth | Basic(user: string, password: string) | Ntlm(user: string, password: string)

  /** The per-transaction configuration: URL, verbose flag, the ordered
      `curl_slist` of extra header lines, the one active credential scheme
      and the user agent. */
  datatype Request = Request(url: string, verbose: bool, headers: seq<string>, auth: Auth, userAgent: string)

  function NewRequest(url: string, verbose: bool): Request {
    Request(url, verbose, [], NoAuth, DefaultUserAgent)
  }

  /** The text `snprintf(maxheader, 2048, "%s: %s", key, value)` leaves in the buffer. */
  function HeaderText(key: string, value: string): (h: string)
    ensures h <= key + ": " + value
    ensures |h| == if |key + ": " + value| <= MaxHeaderLength then |key + ": " + value| else MaxHeaderLength
  {
    var full := key + ": " + value;
    if |full| <= MaxHeaderLength then full else full[..MaxHeaderLength]
  }

  /** `add_header`: one more line at the end of the header list. */
  function AddHeader(req: Request, key: string, value: string): (r: Request)
    ensures |r.headers| == |req.headers| + 1
    ensures r.headers[..|req.headers|] == req.headers
    ensures r.headers[|req.headers|] <= key + ": " + value
    ensures |r.headers[|req.headers|]| <= MaxHeaderLength
    ensures |key| + 2 + |value| <= MaxHeaderLength ==> r.headers[|req.headers|] == key + ": " + value
    ensures r.(headers := req.headers) == req
  {
    req.(headers := req.headers + [HeaderText(key, value)])
  }

  /** `set_content`: a `Content-Type` line at the end of the header list (never truncated). */
  function SetContent(req: Request, contentType: string): (r: Request)
    ensures |r.headers| == |req.headers| + 1
    ensures r.headers[..|req.headers|] == req.headers
    ensures r.headers[|req.headers|..] == ["Content-Type: " + contentType]
    ensures r.(headers := req.headers) == req
  {
    req.(headers := req.headers + ["Content-Type: " + contentType])
  }

  /** `set_ntlm`: NTLM replaces whatever scheme was configured before. */
  function SetNtlm(req: Request, user: string, password: string): Request {
    req.(auth := Ntlm(user, password))
  }

  /** `set_basic_auth`: Basic replaces whatever scheme was configured before. */
  function SetBasicAuth(req: Request, user: string, password: string): Request {
    req.(auth := Basic(user, password))
  }

  /** The last credential call wins, so at most one scheme is ever active. */
  lemma AuthSchemesExclusive(req: Request, u1: string, p1: string, u2: string, p2: string)
    ensures SetBasicAuth(SetNtlm(req, u1, p1), u2, p2).auth == Basic(u2, p2)
    ensures SetNtlm(SetBasicAuth(req, u1, p1), u2, p2).auth == Ntlm(u2, p2)
    ensures SetContent(SetNtlm(req, u1, p1), "application/json").auth.Ntlm?
  {
  }

  // ---------------------------------------------------------------------
  // Transfer options chosen by exec and get_file_fp

  datatype HttpMethod = HttpGet | HttpPost | CustomRequest(name: string)

  /** The options set on the easy handle before a transfer. `tlsChecksOff`
      records that host and peer verification were switched off; when it is
      false libcurl's defaults apply. */
  datatype Options = Options(
    verb: HttpMethod,
    postFields: Option<string>,
    postFieldSize: nat,
    url: string,
    headers: seq<string>,
    userAgent: string,
    followLocation: bool,
    tlsChecksOff: bool)

  /** `exec`: GET and POST by exact name, any other verb as a custom request;
      the body is attached with its `strlen` when there is one. */
  function ExecOptions(req: Request, verb: string, data: Option<string>): (o: Options)
    ensures o.verb == HttpGet <==> verb == "GET"
    ensures o.verb == HttpPost <==> verb == "POST"
    ensures o.verb.CustomRequest? <==> verb != "GET" && verb != "POST"
    ensures o.verb.CustomRequest? ==> o.verb.name == verb
    ensures o.postFields == data
    ensures o.postFieldSize == if data.Some? then |data.value| else 0
    ensures o.url == req.url && o.headers == req.headers && o.userAgent == req.userAgent
    ensures o.tlsChecksOff && !o.followLocation
  {
    var m := if verb == "GET" then HttpGet else if verb == "POST" then HttpPost else CustomRequest(verb);
    var size := if data.Some? then |data.value| else 0;
    Options(m, data, size, req.url, req.headers, req.userAgent, false, true)
  }

  /** `get_file_fp`: a plain GET with no body that follows redirects and
      leaves TLS verification at libcurl's defaults. */
  function FileOptions(req: Request): (o: Options)
    ensures o.verb == HttpGet && o.postFields.None? && o.postFieldSize == 0
    ensures o.followLocation && !o.tlsChecksOff
    ensures o.url == req.url && o.headers == req.headers && o.userAgent == req.userAgent
  {
    Options(HttpGet, None, 0, req.url, req.headers, req.userAgent, true, false)
  }

  // ---------------------------------------------------------------------
  // Debug callback (curl_debug_func) and write callback (dk_httpread)

  datatype InfoType = InfoText | HeaderIn | HeaderOut | DataIn | DataOut | SslDataIn | SslDataOut

  /** What libcurl delivers during one transfer, in arrival order: a debug
      callback with its kind and bytes, or a body chunk for the writer. */
  datatype Event = Debug(info: InfoType, data: string) | Chunk(bytes: string)

  /** An inbound header line as stored: cut at the first CR, then at the first LF. */
  function InboundHeader(raw: string): (h: string)
    ensures h <= raw
    ensures '\r' !in h && '\n' !in h
    ensures |h| == |raw| || raw[|h|] == '\r' || raw[|h|] == '\n'
  {
    CutAtFirst(CutAtFirst(raw, '\r'), '\n')
  }

  /** The `log_msgraw` prefix of a traced callback kind; None for kinds never traced. */
  function TracePrefix(info: InfoType): Option<string> {
    match info
    case HeaderOut => Some("H>: ")
    case InfoText => Some("T: ")
    case HeaderIn => Some("H<: ")
    case DataIn => Some("<: ")
    case DataOut => Some(">: ")
    case _ => None
  }

  /** The per-request state the callbacks update: the raw outbound header
      bytes (`req_hdrs`), the stored inbound header lines, the response body
      and the trace lines sent to the log. */
  datatype Collected = Collected(reqHdrs: string, respHeaders: seq<string>, body: string, log: seq<string>)

  /** `curl_debug_func` for one callback. */
  function OnDebug(verbose: bool, c: Collected, info: InfoType, data: string): (r: Collected)
    ensures r.body == c.body
    ensures r.reqHdrs == if info == HeaderOut then c.reqHdrs + data else c.reqHdrs
    ensures r.respHeaders == if info == HeaderIn then c.respHeaders + [InboundHeader(data)] else c.respHeaders
    ensures r.log == if verbose && TracePrefix(info).Some? then c.log + [TracePrefix(info).value + CString(data)] else c.log
  {
    var traced := if verbose && TracePrefix(info).Some? then c.log + [TracePrefix(info).value + CString(data)] else c.log;
    match info
    case HeaderOut => Collected(c.reqHdrs + data, c.respHeaders, c.body, traced)
    case HeaderIn => Collected(c.reqHdrs, c.respHeaders + [InboundHeader(data)], c.body, traced)
    case _ => c.(log := traced)
  }

  /** A chunk `strstr` finds the interim-response marker in. */
  predicate IsContinueChunk(chunk: string) {
    Contains(CString(chunk), ContinueMarker)
  }

  /** `dk_httpread`: the new body and the byte count reported as consumed. */
  function OnBodyChunk(body: string, chunk: string): (r: (string, nat))
    ensures r.1 == |chunk|
    ensures IsContinueChunk(chunk) ==> r.0 == body
    ensures !IsContinueChunk(chunk) ==> r.0 == body + chunk
  {
    if IsContinueChunk(chunk) then (body, |chunk|) else (body + chunk, |chunk|)
  }

  /** Applies one callback to the collected state; it only ever extends it. */
  function Deliver(verbose: bool, c: Collected, e: Event): (r: Collected)
    ensures c.reqHdrs <= r.reqHdrs && c.respHeaders <= r.respHeaders
    ensures c.body <= r.body && c.log <= r.log
  {
    match e
    case Debug(info, data) => OnDebug(verbose, c, info, data)
    case Chunk(bytes) => c.(body := OnBodyChunk(c.body, bytes).0)
  }

  // Reference descriptions of what a whole transfer leaves behind, one field at a time.

  function HeaderOf(e: Event): seq<string> {
    match e
    case Debug(HeaderIn, data) => [InboundHeader(data)]
    case _ => []
  }

  function OutboundOf(e: Event): string {
    match e
    case Debug(HeaderOut, data) => data
    case _ => []
  }

  function BodyPartOf(e: Event): string {
    match e
    case Chunk(bytes) => if IsContinueChunk(bytes) then [] else bytes
    case _ => []
  }

  /** The stored inbound header lines of `events`, in arrival order. */
  function InboundHeaders(events: seq<Event>): seq<string> {
    if |events| == 0 then [] else HeaderOf(events[0]) + InboundHeaders(events[1..])
  }

  /** The outbound header bytes of `events`, verbatim, in order. */
  function OutboundBytes(events: seq<Event>): string {
    if |events| == 0 then [] else OutboundOf(events[0]) + OutboundBytes(events[1..])
  }

  /** The body: every chunk that is not an interim `100 Continue` response, in order. */
  function BodyOf(events: seq<Event>): string {
    if |events| == 0 then [] else BodyPartOf(events[0]) + BodyOf(events[1..])
  }

  lemma {:induction false} InboundHeadersSnoc(events: seq<Event>, e: Event)
    ensures InboundHeaders(events + [e]) == InboundHeaders(events) + HeaderOf(e)
    decreases |events|
  {
    if |events| > 0 {
      assert (events + [e])[1..] == events[1..] + [e];
      InboundHeadersSnoc(events[1..], e);
    } else {
      assert events + [e] == [e];
    }
  }

  lemma {:induction false} OutboundBytesSnoc(events: seq<Event>, e: Event)
    ensures OutboundBytes(events + [e]) == OutboundBytes(events) + OutboundOf(e)
    decreases |events|
  {
    if |events| > 0 {
      assert (events + [e])[1..] == events[1..] + [e];
      OutboundBytesSnoc(events[1..], e);
    } else {
      assert events + [e] == [e];
    }
  }

  lemma {:induction false} BodyOfSnoc(events: seq<Event>, e: Event)
    ensures BodyOf(events + [e]) == BodyOf(events) + BodyPartOf(e)
    decreases |events|
  {
    if |events| > 0 {
      assert (events + [e])[1..] == events[1..] + [e];
      BodyOfSnoc(events[1..], e);
    } else {
      assert events + [e] == [e];
    }
  }

  /** Every callback of a transfer, applied in arrival order. */
  function Collect(verbose: bool, events: seq<Event>): (r: Collected)
    ensures r.respHeaders == InboundHeaders(events)
    ensures r.reqHdrs == OutboundBytes(events)
    ensures r.body == BodyOf(events)
    ensures !verbose ==> r.log == []
    ensures |r.log| <= |events|
    decreases |events|
  {
    if |events| == 0 then Collected([], [], [], [])
    else
      var prefix := events[..|events| - 1];
      var e := events[|events| - 1];
      assert events == prefix + [e];
      InboundHeadersSnoc(prefix, e);
      OutboundBytesSnoc(prefix, e);
      BodyOfSnoc(prefix, e);
      Deliver(verbose, Collect(verbose, prefix), e)
  }

  lemma CollectSnoc(verbose: bool, events: seq<Event>, e: Event)
    ensures Collect(verbose, events + [e]) == Deliver(verbose, Collect(verbose, events), e)
  {
    var all := events + [e];
    assert all[..|all| - 1] == events;
  }

  lemma PrefixTrans<T>(a: seq<T>, b: seq<T>, c: seq<T>)
    requires a <= b && b <= c
    ensures a <= c
  {
    assert c[..|a|] == b[..|a|];
  }

  /** Later callbacks never alter what earlier ones collected. */
  lemma {:induction false} CollectExtends(verbose: bool, events: seq<Event>, later: seq<Event>)
    ensures Collect(verbose, events).respHeaders <= Collect(verbose, events + later).respHeaders
    ensures Collect(verbose, events).reqHdrs <= Collect(verbose, events + later).reqHdrs
    ensures Collect(verbose, events).body <= Collect(verbose, events + later).body
    ensures Collect(verbose, events).log <= Collect(verbose, events + later).log
    decreases |later|
  {
    if |later| == 0 {
      assert events + later == events;
    } else {
      var front := later[..|later| - 1];
      var last := later[|later| - 1];
      assert events + later == (events + front) + [last];
      CollectExtends(verbose, events, front);
      CollectSnoc(verbose, events + front, last);
      var a := Collect(verbose, events);
      var b := Collect(verbose, events + front);
      var c := Deliver(verbose, b, last);
      PrefixTrans(a.respHeaders, b.respHeaders, c.respHeaders);
      PrefixTrans(a.reqHdrs, b.reqHdrs, c.reqHdrs);
      PrefixTrans(a.body, b.body, c.body);
      PrefixTrans(a.log, b.log, c.log);
    }
  }

  /** Every stored inbound header line is free of CR and LF. */
  lemma {:induction false} InboundHeadersClean(events: seq<Event>)
    ensures forall k :: 0 <= k < |InboundHeaders(events)| ==>
      '\r' !in InboundHeaders(events)[k] && '\n' !in InboundHeaders(events)[k]
    decreases |events|
  {
    if |events| > 0 {
      InboundHeadersClean(events[1..]);
    }
  }

  // ---------------------------------------------------------------------
  // The wait/perform loop of easy_perform

  /** A multi handle; `NullMulti` is a NULL `CURLM *`. */
  datatype MultiHandle = NullMulti | Multi(id: nat)

  /** What the multi interface reports in one pass of the loop: the code and
      ready count of `curl_multi_wait`, the idle delay `curl_multi_timeout`
      suggests, the code and running count of `curl_multi_perform`, and the
      result of a completion message from `curl_multi_info_read`, if any.
      Fields the loop does not read in that pass are ignored. */
  datatype Poll = Poll(
    waitCode: int,
    ready: int,
    timeoutMs: int,
    performCode: int,
    stillRunning: int,
    message: Option<int>)

  datatype PollStep = Continue | Stop(code: int)

  /** `curl_multi_add_handle`: a NULL multi handle is refused as a bad handle. */
  function AddHandle(m: MultiHandle, addCode: int): (c: int)
    ensures m.NullMulti? ==> c == CurlmBadHandle
    ensures m.Multi? ==> c == addCode
  {
    if m.NullMulti? then CurlmBadHandle else addCode
  }

  /** The transfer result reported when the multi interface itself failed. */
  function MultiErrorResult(mcode: int): (c: int)
    ensures c == CurleOutOfMemory <==> mcode == CurlmOutOfMemory
    ensures c == CurleBadFunctionArgument <==> mcode != CurlmOutOfMemory
  {
    if mcode == CurlmOutOfMemory then CurleOutOfMemory else CurleBadFunctionArgument
  }

  /** The idle sleep after an empty wait, as written: any nonzero suggestion,
      capped at 1000 ms from above only. The value is the argument `WAITMS`
      receives. */
  function IdleSleepAsWritten(timeoutMs: int): (r: Option<int>)
    ensures r.Some? <==> timeoutMs != 0
    ensures r.Some? ==> r.value <= MaxWaitMs
    ensures r.Some? && timeoutMs <= MaxWaitMs ==> r.value == timeoutMs
    ensures timeoutMs > MaxWaitMs ==> r == Some(MaxWaitMs)
  {
    if timeoutMs != 0 then Some(if timeoutMs > MaxWaitMs then MaxWaitMs else timeoutMs) else None
  }

  /** The idle sleep after an empty wait: only a positive suggestion sleeps,
      for at most 1000 ms. */
  function IdleSleep(timeoutMs: int): (r: Option<int>)
    ensures r.Some? <==> timeoutMs > 0
    ensures r.Some? ==> 0 < r.value <= MaxWaitMs && r.value <= timeoutMs
    ensures r.Some? && r.value < timeoutMs ==> r.value == MaxWaitMs
  {
    if timeoutMs > 0 then Some(if timeoutMs > MaxWaitMs then MaxWaitMs else timeoutMs) else None
  }

  /** The two agree on every suggestion libcurl documents as a delay. */
  lemma IdleSleepAgrees(timeoutMs: int)
    requires timeoutMs >= 0
    ensures IdleSleepAsWritten(timeoutMs) == IdleSleep(timeoutMs)
  {
  }

  /** `Sleep` takes a 32-bit unsigned DWORD on Windows. */
  function ToDword(ms: int): (d: nat)
    ensures d < 0x1_0000_0000
    ensures 0 <= ms < 0x1_0000_0000 ==> d == ms
  {
    ms % 0x1_0000_0000
  }

  /** "No timer set" (-1) is passed straight to the wait: as a DWORD it is
      INFINITE, far beyond the 1000 ms the loop means to allow. */
  lemma NoTimerSleepsForever()
    ensures IdleSleepAsWritten(-1) == Some(-1)
    ensures ToDword(IdleSleepAsWritten(-1).value) == 0xFFFF_FFFF
    ensures ToDword(IdleSleepAsWritten(-1).value) > MaxWaitMs
    ensures IdleSleep(-1) == None
  {
  }

  /** The idle sleep one pass takes: only after a successful wait with
      nothing ready. `positiveOnly` selects the rule: false is the code as
      written (`IdleSleepAsWritten`), true the corrected `IdleSleep`. */
  function PollSleep(p: Poll, positiveOnly: bool): (r: Option<int>)
    ensures r.Some? ==> p.waitCode == CurlmOk && p.ready == 0 && p.timeoutMs != 0
    ensures r.Some? ==> r.value != 0 && r.value <= MaxWaitMs
    ensures r.Some? && p.timeoutMs <= MaxWaitMs ==> r.value == p.timeoutMs
    ensures r.Some? && p.timeoutMs > MaxWaitMs ==> r.value == MaxWaitMs
    ensures positiveOnly && r.Some? ==> 0 < r.value
    ensures p.waitCode == CurlmOk && p.ready == 0 && p.timeoutMs > 0 ==> r.Some?
    ensures !positiveOnly && p.waitCode == CurlmOk && p.ready == 0 && p.timeoutMs != 0 ==> r.Some?
  {
    if p.waitCode == CurlmOk && p.ready == 0 then
      (if positiveOnly then IdleSleep(p.timeoutMs) else IdleSleepAsWritten(p.timeoutMs))
    else None
  }

  /** Whether one pass ends the loop, and with which transfer result. */
  function PollOutcome(p: Poll): (s: PollStep)
    ensures p.waitCode != CurlmOk ==> s == Stop(MultiErrorResult(p.waitCode))
    ensures p.waitCode == CurlmOk && p.performCode != CurlmOk ==> s == Stop(MultiErrorResult(p.performCode))
    ensures p.waitCode == CurlmOk && p.performCode == CurlmOk ==>
      (s.Stop? <==> p.stillRunning == 0 && p.message.Some?)
    ensures p.waitCode == CurlmOk && p.performCode == CurlmOk && s.Stop? ==> s.code == p.message.value
  {
    var mcode := if p.waitCode != CurlmOk then p.waitCode else p.performCode;
    if mcode != CurlmOk then Stop(MultiErrorResult(mcode))
    else if p.stillRunning == 0 && p.message.Some? then Stop(p.message.value)
    else Continue
  }

  /** How the loop ended over a finite trace: the transfer result (None when
      the trace ran out with the loop still going), the idle sleeps taken
      (each the argument given to `WAITMS`), and the number of passes made. */
  datatype LoopEnd = LoopEnd(code: Option<int>, sleeps: seq<int>, passes: nat)

  /** The sleep one pass records, if any. */
  function SleptIn(p: Poll, positiveOnly: bool): seq<int> {
    match PollSleep(p, positiveOnly)
    case Some(ms) => [ms]
    case None => []
  }

  /** The sleeps `passes` take, one pass appended at a time: the reference
      the loop's record of sleeps is checked against. */
  function SleepsOf(passes: seq<Poll>, positiveOnly: bool): seq<int>
    decreases |passes|
  {
    if |passes| == 0 then []
    else SleepsOf(passes[..|passes| - 1], positiveOnly) + SleptIn(passes[|passes| - 1], positiveOnly)
  }

  lemma {:induction false} SleepsOfCons(p: Poll, rest: seq<Poll>, positiveOnly: bool)
    ensures SleepsOf([p] + rest, positiveOnly) == SleptIn(p, positiveOnly) + SleepsOf(rest, positiveOnly)
    decreases |rest|
  {
    var all := [p] + rest;
    if |rest| == 0 {
      assert all[..|all| - 1] == [];
    } else {
      var init := rest[..|rest| - 1];
      assert all[..|all| - 1] == [p] + init;
      assert all[|all| - 1] == rest[|rest| - 1];
      SleepsOfCons(p, init, positiveOnly);
    }
  }

  /** Every recorded sleep is nonzero and at most 1000 ms, and positive under the corrected rule. */
  predicate SleepsBounded(sleeps: seq<int>, positiveOnly: bool) {
    forall k :: 0 <= k < |sleeps| ==> sleeps[k] != 0 && sleeps[k] <= MaxWaitMs && (positiveOnly ==> 0 < sleeps[k])
  }

  lemma SleptInBounded(p: Poll, positiveOnly: bool)
    ensures SleepsBounded(SleptIn(p, positiveOnly), positiveOnly)
  {
  }

  lemma SleepsBoundedAppend(a: seq<int>, b: seq<int>, positiveOnly: bool)
    requires SleepsBounded(a, positiveOnly) && SleepsBounded(b, positiveOnly)
    ensures SleepsBounded(a + b, positiveOnly)
  {
  }

  /** Taking one more pass in front extends the reference by that pass's sleep. */
  lemma SleepsOfFront(trace: seq<Poll>, n: nat, positiveOnly: bool)
    requires n < |trace|
    ensures SleepsOf(trace[..n + 1], positiveOnly) == SleptIn(trace[0], positiveOnly) + SleepsOf(trace[1..][..n], positiveOnly)
  {
    assert trace[..n + 1] == [trace[0]] + trace[1..][..n];
    SleepsOfCons(trace[0], trace[1..][..n], positiveOnly);
  }

  /** The `while` loop of `easy_perform` under the idle rule `positiveOnly`
      selects (see `PollSleep`). */
  function PollLoop(trace: seq<Poll>, positiveOnly: bool): (r: LoopEnd)
    ensures r.passes <= |trace|
    ensures forall j :: 0 <= j < |trace| && j + 1 < r.passes ==> PollOutcome(trace[j]) == Continue
    ensures r.code.Some? ==> 0 < r.passes && PollOutcome(trace[r.passes - 1]) == Stop(r.code.value)
    ensures r.code.None? ==> r.passes == |trace| && forall j :: 0 <= j < |trace| ==> PollOutcome(trace[j]) == Continue
    ensures |r.sleeps| <= r.passes
    ensures SleepsBounded(r.sleeps, positiveOnly)
    ensures r.sleeps == SleepsOf(trace[..r.passes], positiveOnly)
  {
    if |trace| == 0 then LoopEnd(None, [], 0)
    else
      var slept := SleptIn(trace[0], positiveOnly);
      SleptInBounded(trace[0], positiveOnly);
      match PollOutcome(trace[0])
      case Stop(c) =>
        SleepsOfFront(trace, 0, positiveOnly);
        LoopEnd(Some(c), slept, 1)
      case Continue =>
        var rest := PollLoop(trace[1..], positiveOnly);
        SleepsOfFront(trace, rest.passes, positiveOnly);
        SleepsBoundedAppend(slept, rest.sleeps, positiveOnly);
        LoopEnd(rest.code, slept + rest.sleeps, rest.passes + 1)
  }

  /** As long as libcurl only suggests delays (never -1), the loop as
      written and the corrected loop take the same passes and the same
      sleeps, so the code keeps every sleep within 1000 ms. */
  lemma {:induction false} PollLoopRulesAgree(trace: seq<Poll>)
    requires forall j :: 0 <= j < |trace| ==> trace[j].timeoutMs >= 0
    ensures PollLoop(trace, false) == PollLoop(trace, true)
    ensures forall k :: 0 <= k < |PollLoop(trace, false).sleeps| ==> 0 < PollLoop(trace, false).sleeps[k] <= MaxWaitMs
  {
    if |trace| > 0 {
      IdleSleepAgrees(trace[0].timeoutMs);
      assert PollSleep(trace[0], false) == PollSleep(trace[0], true);
      PollLoopRulesAgree(trace[1..]);
    }
  }

  /** The outcome of `easy_perform`: the transfer result (None while the loop
      is still running), the idle sleeps, the passes made, and whether the
      easy handle was added to and removed from the multi handle. */
  datatype Perform = Perform(result: Option<int>, sleeps: seq<int>, passes: nat, added: bool, removed: bool)

  /** `easy_perform` as written: the loop uses the code's idle rule. */
  function EasyPerform(m: MultiHandle, addCode: int, trace: seq<Poll>): (r: Perform)
    ensures AddHandle(m, addCode) != CurlmOk ==> r == Perform(Some(CurleFailedInit), [], 0, false, false)
    ensures r.added <==> AddHandle(m, addCode) == CurlmOk
    ensures r.removed <==> r.added && r.result.Some?
    ensures r.added ==> r.result == PollLoop(trace, false).code && r.passes == PollLoop(trace, false).passes
    ensures r.added ==> r.sleeps == PollLoop(trace, false).sleeps
    ensures forall k :: 0 <= k < |r.sleeps| ==> r.sleeps[k] != 0 && r.sleeps[k] <= MaxWaitMs
  {
    if AddHandle(m, addCode) != CurlmOk then Perform(Some(CurleFailedInit), [], 0, false, false)
    else
      var loop := PollLoop(trace, false);
      Perform(loop.code, loop.sleeps, loop.passes, true, loop.code.Some?)
  }

  /** An empty wait with no timer set: the code hands -1 to `WAITMS` (INFINITE
      as a Windows DWORD), where the corrected loop does not sleep at all. */
  lemma NoTimerPassBlocks(id: nat, result: int)
    ensures var p := Poll(CurlmOk, 0, -1, CurlmOk, 0, Some(result));
      && EasyPerform(Multi(id), CurlmOk, [p]).sleeps == [-1]
      && ToDword(EasyPerform(Multi(id), CurlmOk, [p]).sleeps[0]) > MaxWaitMs
      && PollLoop([p], true).sleeps == []
  {
  }

  /** A pass that fails on the multi level ends the loop at once, whatever follows. */
  lemma MultiFailureStops(m: MultiHandle, addCode: int, p: Poll, rest: seq<Poll>)
    requires AddHandle(m, addCode) == CurlmOk
    requires p.waitCode != CurlmOk || p.performCode != CurlmOk
    ensures var r := EasyPerform(m, addCode, [p] + rest);
      r.passes == 1 && r.removed &&
      r.result == Some(if (if p.waitCode != CurlmOk then p.waitCode else p.performCode) == CurlmOutOfMemory
                       then CurleOutOfMemory else CurleBadFunctionArgument)
  {
    assert ([p] + rest)[0] == p;
  }

  // ---------------------------------------------------------------------
  // exec, get_file and get_file_fp

  /** `HttpResponse`; elapsed time is not modelled. */
  datatype Response = Response(body: string, headers: seq<string>, statusCode: int)

  /** One `exec`: the options set, the loop's outcome, the response once the
      loop has ended, and the log lines written (trace lines, then the failure
      line). */
  datatype Executed = Executed(options: Options, perform: Perform, response: Option<Response>, log: seq<string>)

  function FailureLog(p: Perform): seq<string> {
    if p.result.Some? && p.result.value != CurleOk then [FailureMessage] else []
  }

  /** `exec` never raises: a failed transfer is logged and still yields a
      response with whatever status code libcurl reports (`statusCode`).
      `events` are the callbacks of the transfer; when the handle could not be
      registered no transfer ran, none is delivered, and the easy handle
      reports status 0. */
  function Exec(req: Request, verb: string, data: Option<string>, executor: MultiHandle,
                addCode: int, trace: seq<Poll>, events: seq<Event>, statusCode: int): (r: Executed)
    ensures r.options == ExecOptions(req, verb, data)
    ensures r.perform == EasyPerform(executor, addCode, trace)
    ensures r.response.Some? <==> r.perform.result.Some?
    ensures r.response.Some? && r.perform.added ==> r.response.value.statusCode == statusCode
    ensures !r.perform.added ==> r.response.Some? && r.response.value.statusCode == 0
    ensures r.response.Some? && r.perform.added ==> r.response.value.headers == InboundHeaders(events)
    ensures r.response.Some? && r.perform.added ==> r.response.value.body == BodyOf(events)
    ensures !r.perform.added ==> r.response.Some? && r.response.value.body == [] && r.response.value.headers == []
    ensures !r.perform.added ==> r.log == [FailureMessage]
    ensures !req.verbose ==> r.log == FailureLog(r.perform)
    ensures r.response.Some? && r.perform.result.value != CurleOk ==> |r.log| > 0 && r.log[|r.log| - 1] == FailureMessage
  {
    var options := ExecOptions(req, verb, data);
    var perform := EasyPerform(executor, addCode, trace);
    var c := Collect(req.verbose, if perform.added then events else []);
    var response := if perform.result.Some? then Some(Response(c.body, c.respHeaders, if perform.added then statusCode else 0)) else None;
    Executed(options, perform, response, c.log + FailureLog(perform))
  }

  /** One `get_file_fp`: its options, the loop's outcome, the log and the value returned. */
  datatype FileTransfer = FileTransfer(options: Options, perform: Perform, log: seq<string>, ok: bool)

  /** `get_file_fp` as written: it hands `easy_perform` a NULL multi handle. */
  function GetFileFpAsWritten(req: Request, trace: seq<Poll>): (r: FileTransfer)
    ensures r.options == FileOptions(req)
    ensures r.ok
  {
    var perform := EasyPerform(NullMulti, CurlmOk, trace);
    FileTransfer(FileOptions(req), perform, FailureLog(perform), true)
  }

  /** As written, no download ever reaches the network: registration fails,
      the loop never runs and the failure is only logged. */
  lemma GetFileFpNeverTransfers(req: Request, trace: seq<Poll>)
    ensures GetFileFpAsWritten(req, trace).perform.result == Some(CurleFailedInit)
    ensures GetFileFpAsWritten(req, trace).perform.passes == 0
    ensures GetFileFpAsWritten(req, trace).log == [FailureMessage]
    ensures GetFileFpAsWritten(req, trace).ok
  {
  }

  /** `get_file_fp` driving the transfer through the executor's multi handle,
      as `exec` does. It reports success whatever the transfer's result. */
  function GetFileFp(req: Request, executor: MultiHandle, addCode: int, trace: seq<Poll>): (r: FileTransfer)
    ensures r.options == FileOptions(req)
    ensures r.ok
    ensures r.perform == EasyPerform(executor, addCode, trace)
    ensures r.log == [FailureMessage] <==> r.perform.result.Some? && r.perform.result.value != CurleOk
    ensures r.log == [] <==> r.perform.result.None? || r.perform.result.value == CurleOk
  {
    var perform := EasyPerform(executor, addCode, trace);
    FileTransfer(FileOptions(req), perform, FailureLog(perform), true)
  }

  /** Through a registered handle the download's own result is what the loop reports. */
  lemma GetFileFpTransfers(req: Request, id: nat, trace: seq<Poll>)
    ensures GetFileFp(req, Multi(id), CurlmOk, trace).perform.result == PollLoop(trace, false).code
    ensures GetFileFp(req, Multi(id), CurlmOk, trace).perform.added
  {
  }

  /** `get_file`: false exactly when the destination cannot be opened, in
      which case nothing is transferred. `executor` is the multi handle the
      download goes through: `NullMulti` is the code as written (see
      `GetFileAsWritten`), a registered handle the corrected download. */
  function GetFile(req: Request, opens: bool, executor: MultiHandle, addCode: int, trace: seq<Poll>): (r: (bool, Option<FileTransfer>))
    ensures r.0 <==> opens
    ensures r.1.Some? <==> opens
    ensures r.1.Some? ==> r.1.value == GetFileFp(req, executor, addCode, trace)
  {
    if !opens then (false, None)
    else
      var t := GetFileFp(req, executor, addCode, trace);
      (t.ok, Some(t))
  }

  /** With the NULL handle `get_file_fp` passes, `get_file` is the code as
      written: an opened destination is never written to, yet true is returned. */
  lemma GetFileAsWritten(req: Request, opens: bool, addCode: int, trace: seq<Poll>)
    ensures var r := GetFile(req, opens, NullMulti, addCode, trace);
      && (r.1.Some? ==> r.1.value == GetFileFpAsWritten(req, trace))
      && (r.1.Some? ==> r.1.value.perform.result == Some(CurleFailedInit) && r.1.value.perform.passes == 0)
      && (r.0 <==> opens)
  {
    GetFileFpNeverTransfers(req, trace);
  }
}
