/** The remote video backend of src/lib/converters/vertd.svelte.ts: the phase-weighted progress
    estimate, the per-file-hash rate-limit blocklist, and the upload / WebSocket job protocol
    with its cancellation. Transfers, the socket transport and JSON parsing are events or
    oracles handed in by the caller. */
module Vertd {
  import opened Wrappers
  import opened Text
  import opened ConverterBase
  import opened AppSettings
  import opened VertFiles

  // ---------------------------------------------------------------- progress estimate

  datatype Phase = Upload | Convert | Download

  /** The key order of `progressEstimates`. */
  const PhaseOrder: seq<Phase> := [Upload, Convert, Download]

  /** `progressEstimates[phase]`. */
  function Weight(p: Phase): nat {
    match p
    case Upload => 25
    case Convert => 50
    case Download => 25
  }

  /** `Object.keys(progressEstimates).indexOf(phase)`. */
  function Rank(p: Phase): (r: nat)
    ensures r < |PhaseOrder| && PhaseOrder[r] == p
  {
    match p
    case Upload => 0
    case Convert => 1
    case Download => 2
  }

  function SumWeights(ps: seq<Phase>): nat {
    if ps == [] then 0 else SumWeights(ps[..|ps| - 1]) + Weight(ps[|ps| - 1])
  }

  /** The weights before each phase: 0, 25 and 75 out of 100. */
  lemma PhasePrefixWeights()
    ensures SumWeights(PhaseOrder[..0]) == 0
    ensures SumWeights(PhaseOrder[..1]) == 25
    ensures SumWeights(PhaseOrder[..2]) == 75
    ensures SumWeights(PhaseOrder) == 100
  {
    assert PhaseOrder[..0] == [];
    assert PhaseOrder[..1] == [Upload];
    assert PhaseOrder[..2] == [Upload, Convert];
    assert [Upload, Convert][..1] == [Upload];
    assert PhaseOrder[..2] == PhaseOrder[..|PhaseOrder| - 1];
  }

  /** `progressEstimate(progress, phase)`: the fraction scaled by the phase's weight, on top
      of the weights of the phases that come before it. */
  function ProgressEstimate(progress: real, phase: Phase): (r: real)
    ensures 0.0 <= progress <= 1.0 ==> 0.0 <= r <= 100.0
  {
    var previous := SumWeights(PhaseOrder[..Rank(phase)]);
    PhasePrefixWeights();
    progress * Weight(phase) as real + previous as real
  }

  /** The estimate per phase: upload covers 0..25, conversion 25..75, download 75..100. */
  lemma ProgressEstimateValues(p: real)
    ensures ProgressEstimate(p, Upload) == 25.0 * p
    ensures ProgressEstimate(p, Convert) == 25.0 + 50.0 * p
    ensures ProgressEstimate(p, Download) == 75.0 + 25.0 * p
  {
    PhasePrefixWeights();
  }

  /** The phases join up: each phase starts where the previous one ends, and the whole job
      runs from 0 to 100. */
  lemma ProgressPhasesChain()
    ensures ProgressEstimate(0.0, Upload) == 0.0
    ensures ProgressEstimate(1.0, Upload) == ProgressEstimate(0.0, Convert)
    ensures ProgressEstimate(1.0, Convert) == ProgressEstimate(0.0, Download)
    ensures ProgressEstimate(1.0, Download) == 100.0
  {
    ProgressEstimateValues(0.0);
    ProgressEstimateValues(1.0);
  }

  /** A later phase never reports less than an earlier one. */
  lemma ProgressOrdered(p: real, a: Phase, q: real, b: Phase)
    requires 0.0 <= p <= 1.0 && 0.0 <= q <= 1.0
    requires Rank(a) < Rank(b) || (a == b && p <= q)
    ensures ProgressEstimate(p, a) <= ProgressEstimate(q, b)
  {
    ProgressEstimateValues(p);
    ProgressEstimateValues(q);
  }

  // ---------------------------------------------------------------- rate-limit blocklist

  /** One hour in milliseconds. */
  const Hour: int := 60 * 60 * 1000

  /** How many recent failures block a hash. */
  const Strikes: nat := 3

  /** `blockedHashes.get(hash) || []`. */
  function Stamps(m: map<string, seq<int>>, hash: string): seq<int> {
    if hash in m then m[hash] else []
  }

  /** `dates.filter((date) => now - date < 1 hour)`, in list order. */
  function Recent(dates: seq<int>, now: int): (r: seq<int>)
    ensures |r| <= |dates|
    ensures forall d :: d in r <==> d in dates && now - d < Hour
  {
    if dates == [] then []
    else
      var last := dates[|dates| - 1];
      var init := Recent(dates[..|dates| - 1], now);
      assert dates == dates[..|dates| - 1] + [last];
      if now - last < Hour then init + [last] else init
  }

  lemma RecentSnoc(dates: seq<int>, t: int, now: int)
    ensures Recent(dates + [t], now) == Recent(dates, now) + (if now - t < Hour then [t] else [])
  {
    assert (dates + [t])[..|dates + [t]| - 1] == dates;
  }

  lemma {:induction false} RecentIdempotent(dates: seq<int>, now: int)
    ensures Recent(Recent(dates, now), now) == Recent(dates, now)
  {
    if dates != [] {
      var init := dates[..|dates| - 1];
      var last := dates[|dates| - 1];
      RecentIdempotent(init, now);
      if now - last < Hour {
        RecentSnoc(Recent(init, now), last, now);
      }
    }
  }

  /** The map after `blocked(hash)`: the pruned list is stored, or the entry deleted when
      nothing recent remains; other hashes are untouched. */
  function Checked(m: map<string, seq<int>>, hash: string, now: int): (r: map<string, seq<int>>)
    ensures hash in r <==> Recent(Stamps(m, hash), now) != []
    ensures hash in r ==> r[hash] == Recent(Stamps(m, hash), now)
    ensures forall k :: k != hash ==> (k in r <==> k in m)
    ensures forall k :: k != hash && k in m ==> r[k] == m[k]
  {
    var kept := Recent(Stamps(m, hash), now);
    if kept == [] then m - {hash} else m[hash := kept]
  }

  /** The answer of `blocked(hash)`. */
  function IsBlocked(m: map<string, seq<int>>, hash: string, now: int): (b: bool)
    ensures b <==> |Recent(Stamps(m, hash), now)| >= Strikes
  {
    var kept := Recent(Stamps(m, hash), now);
    if kept == [] then false else |kept| >= Strikes
  }

  /** The map after `failure(hash)`: exactly one timestamp is appended to that hash. */
  function WithFailure(m: map<string, seq<int>>, hash: string, now: int): (r: map<string, seq<int>>)
    ensures hash in r && r[hash] == Stamps(m, hash) + [now]
    ensures forall k :: k != hash ==> (k in r <==> k in m)
    ensures forall k :: k != hash && k in m ==> r[k] == m[k]
  {
    m[hash := Stamps(m, hash) + [now]]
  }

  /** Pruning is idempotent: checking twice at the same instant changes nothing more and
      gives the same answer. */
  lemma CheckedIdempotent(m: map<string, seq<int>>, hash: string, now: int)
    ensures Checked(Checked(m, hash, now), hash, now) == Checked(m, hash, now)
    ensures IsBlocked(Checked(m, hash, now), hash, now) == IsBlocked(m, hash, now)
  {
    var kept := Recent(Stamps(m, hash), now);
    RecentIdempotent(Stamps(m, hash), now);
    if kept != [] {
      assert Stamps(Checked(m, hash, now), hash) == kept;
    }
  }

  /** Three failures of a hash within the last hour block it. */
  lemma ThreeStrikesBlock(m: map<string, seq<int>>, hash: string, t1: int, t2: int, t3: int, now: int)
    requires now - t1 < Hour && now - t2 < Hour && now - t3 < Hour
    ensures IsBlocked(WithFailure(WithFailure(WithFailure(m, hash, t1), hash, t2), hash, t3), hash, now)
  {
    var d := Stamps(m, hash);
    var m3 := WithFailure(WithFailure(WithFailure(m, hash, t1), hash, t2), hash, t3);
    assert Stamps(m3, hash) == d + [t1] + [t2] + [t3];
    RecentSnoc(d, t1, now);
    RecentSnoc(d + [t1], t2, now);
    RecentSnoc(d + [t1] + [t2], t3, now);
  }

  /** A hash whose failures are all an hour old or older is not blocked, and its entry is
      dropped. */
  lemma StrikesExpire(m: map<string, seq<int>>, hash: string, now: int)
    requires forall i :: 0 <= i < |Stamps(m, hash)| ==> now - Stamps(m, hash)[i] >= Hour
    ensures !IsBlocked(m, hash, now) && hash !in Checked(m, hash, now)
  {
    RecentAllOld(Stamps(m, hash), now);
  }

  lemma {:induction false} RecentAllOld(dates: seq<int>, now: int)
    requires forall i :: 0 <= i < |dates| ==> now - dates[i] >= Hour
    ensures Recent(dates, now) == []
  {
    if dates != [] {
      RecentAllOld(dates[..|dates| - 1], now);
    }
  }

  /** A failure of one hash never changes whether another hash is blocked. */
  lemma FailureIsolated(m: map<string, seq<int>>, hash: string, other: string, t: int, now: int)
    requires other != hash
    ensures IsBlocked(WithFailure(m, hash, t), other, now) == IsBlocked(m, other, now)
  {
    assert Stamps(WithFailure(m, hash, t), other) == Stamps(m, other);
  }

  /** `Settings.instance.settings.vertdBlockedHashes`: failure timestamps (milliseconds) per
      file hash. */
  class Blocklist {
    var stamps: map<string, seq<int>>

    constructor ()
      ensures stamps == map[]
    {
      stamps := map[];
    }

    /** `blocked(hash)` at time `now`. */
    method Blocked(hash: string, now: int) returns (b: bool)
      modifies this
      ensures b == IsBlocked(old(stamps), hash, now)
      ensures stamps == Checked(old(stamps), hash, now)
    {
      var kept := Recent(Stamps(stamps, hash), now);
      if kept == [] {
        stamps := stamps - {hash};
        return false;
      }
      stamps := stamps[hash := kept];
      b := |kept| >= Strikes;
    }

    /** `failure(hash)` at time `now`. */
    method Failure(hash: string, now: int)
      modifies this
      ensures stamps == WithFailure(old(stamps), hash, now)
    {
      var dates := Stamps(stamps, hash);
      stamps := stamps[hash := dates + [now]];
    }
  }

  // ---------------------------------------------------------------- requests

  /** A parsed JSON reply `{ type, data }`. */
  datatype Reply = Reply(kind: string, data: string)

  datatype Request = Request(url: string, headers: map<string, string>, body: Option<string>)

  /** The request `vertdFetch` sends: with a body, a JSON content type is added under the
      caller's own headers (which win) and the serialised body is attached. */
  function FetchRequest(domain: string, path: string, headers: map<string, string>, body: Option<string>): (r: Request)
    ensures r.url == domain + path && r.body == body
    ensures body.None? ==> r.headers == headers
    ensures body.Some? ==> r.headers.Keys == headers.Keys + {"Content-Type"}
    ensures body.Some? ==> forall k :: k in headers ==> r.headers[k] == headers[k]
    ensures body.Some? && "Content-Type" !in headers ==> r.headers["Content-Type"] == "application/json"
  {
    if body.Some? then Request(domain + path, map["Content-Type" := "application/json"] + headers, body)
    else Request(domain + path, headers, None)
  }

  /** How `vertdFetch` reads the response text: unparseable text is thrown as is, an
      `error` reply throws its data, anything else yields its data. */
  function FetchOutcome(text: string, parsed: Option<Reply>): (r: Result<string, string>)
    ensures parsed.None? ==> r == Failure(text)
    ensures r.Success? <==> parsed.Some? && parsed.value.kind != "error"
    ensures parsed.Some? ==> (r.Success? && r.value == parsed.value.data) || (r.Failure? && r.error == parsed.value.data)
  {
    match parsed
    case None => Failure(text)
    case Some(reply) => if reply.kind == "error" then Failure(reply.data) else Success(reply.data)
  }

  /** The socket address: "wss:" for an https instance, "ws:" otherwise, then the instance
      with its first "http://" and then its first "https://" removed, then "/api/ws". */
  function SocketUrl(apiUrl: string): (r: string)
    ensures StartsWith(apiUrl, "https") ==> StartsWith(r, "wss://")
    ensures !StartsWith(apiUrl, "https") ==> StartsWith(r, "ws://")
    ensures EndsWith(r, "/api/ws")
  {
    var protocol := if StartsWith(apiUrl, "https") then "wss:" else "ws:";
    protocol + "//" + ReplaceFirst(ReplaceFirst(apiUrl, "http://", ""), "https://", "") + "/api/ws"
  }

  lemma NotContainsSuffix(s: string, pat: string, k: nat)
    requires k <= |s| && !Contains(s, pat)
    ensures !Contains(s[k..], pat)
    decreases k
  {
    if k > 0 {
      assert s[1..][k - 1..] == s[k..];
      NotContainsSuffix(s[1..], pat, k - 1);
    }
  }

  lemma PrefixAfterReplace(pat: string, host: string, rep: string)
    requires |pat| > 0
    ensures ReplaceFirst(pat + host, pat, rep) == rep + host
  {
    assert (pat + host)[..|pat|] == pat;
    assert (pat + host)[|pat|..] == host;
  }

  /** An instance given as "https://host" (host mentioning neither scheme) is reached at
      "wss://host/api/ws". */
  lemma HttpsSocketUrl(host: string)
    requires !Contains(host, "http://") && !Contains(host, "https://")
    ensures SocketUrl("https://" + host) == "wss://" + host + "/api/ws"
  {
    var s := "https://" + host;
    assert StartsWith(s, "https") by {
      assert s[..5] == "https";
    }
    HttpsStripped(host);
    assert "wss:" + "//" + host + "/api/ws" == "wss://" + host + "/api/ws";
  }

  lemma HttpsStripped(host: string)
    requires !Contains(host, "http://")
    ensures ReplaceFirst(ReplaceFirst("https://" + host, "http://", ""), "https://", "") == host
  {
    HttpsHasNoHttp(host);
    PrefixAfterReplace("https://", host, "");
  }

  lemma HttpsHasNoHttp(host: string)
    requires !Contains(host, "http://")
    ensures !Contains("https://" + host, "http://")
  {
    var s := "https://" + host;
    assert s[1..] == "ttps://" + host;
    NoSchemeInTail("ttps://", host, "http://");
    assert s[..7][4] == 's';
  }

  /** An instance given as "http://host" (host mentioning neither scheme) is reached at
      "ws://host/api/ws". */
  lemma HttpSocketUrl(host: string)
    requires !Contains(host, "http://") && !Contains(host, "https://")
    ensures SocketUrl("http://" + host) == "ws://" + host + "/api/ws"
  {
    var t := "http://" + host;
    assert |t| < 5 || t[..5][4] == ':';
    PrefixAfterReplace("http://", host, "");
    assert "" + host == host;
  }

  /** A pattern starting with 'h' occurs in `lead + host` only inside `host` when `lead`
      holds no 'h'. */
  lemma NoSchemeInTail(lead: string, host: string, pat: string)
    requires |pat| > 0 && pat[0] == 'h' && 'h' !in lead
    requires !Contains(host, pat)
    ensures !Contains(lead + host, pat)
    decreases |lead|
  {
    if lead == [] {
      assert lead + host == host;
    } else {
      assert (lead + host)[0] == lead[0];
      assert (lead + host)[1..] == lead[1..] + host;
      NoSchemeInTail(lead[1..], host, pat);
    }
  }

  /** The download address of a finished job. */
  function DownloadUrl(apiUrl: string, jobId: string, auth: string): (r: string)
    ensures StartsWith(r, apiUrl + "/api/download/")
    ensures EndsWith(r, "/" + auth)
  {
    var r := apiUrl + "/api/download/" + jobId + "/" + auth;
    assert r[..|apiUrl + "/api/download/"|] == apiUrl + "/api/download/";
    assert r[|r| - |"/" + auth|..] == "/" + auth;
    r
  }

  // ---------------------------------------------------------------- job protocol

  datatype ReadyState = Connecting | Open | Closed

  /** Messages the page sends over the socket. */
  datatype ClientMessage =
    | StartJob(token: string, jobId: string, to: string, speed: ConversionSpeed, keepMetadata: bool)
    | CancelJob(jobId: string, token: string)

  datatype ProgressData = Fps(fps: int) | Frame(frame: nat)

  /** Messages the instance sends; `Other` stands for the page's own message types echoed
      back, which the handler ignores. */
  datatype ServerMessage =
    | ProgressUpdate(data: ProgressData)
    | JobFinished(jobId: string)
    | JobCancelled(jobId: string)
    | JobError(message: string)
    | Other(kind: string)

  /** `uploadFile`'s response. */
  datatype UploadResponse = UploadResponse(id: string, auth: string, totalFrames: nat)

  /** Why a conversion promise rejects. */
  datatype VertdError =
    | RateLimited(filename: string)
    | UploadFailed(reason: string)
    | Rejected(reason: string)
    | Failed(jobId: string, auth: string, from: string, to: string, errorMessage: string)

  const CancelledReason: string := "Conversion cancelled"

  datatype Settlement = Resolved(file: OutFile) | Rejection(error: VertdError)

  /** A WebSocket as far as the protocol sees it: its state and what was sent on it. */
  class Socket {
    const url: string
    var state: ReadyState
    var sent: seq<ClientMessage>

    constructor (url: string)
      ensures this.url == url && state == Connecting && sent == []
    {
      this.url := url;
      state := Connecting;
      sent := [];
    }

    /** `send`: refused while connecting, dropped once closed. */
    method Send(m: ClientMessage)
      requires state != Connecting
      modifies this
      ensures state == old(state)
      ensures sent == (if old(state) == Open then old(sent) + [m] else old(sent))
    {
      if state == Open {
        sent := sent + [m];
      }
    }

    method Close()
      modifies this
      ensures state == Closed && sent == old(sent)
    {
      state := Closed;
    }
  }

  /** An entry of `activeConversions`. */
  datatype Active = Active(ws: Socket, jobId: string, token: string)

  /** What each handler of one `convert` call has captured, and the promise it settles
      (a settled promise ignores later settlements). */
  class Session {
    const fileId: string
    const fileName: string
    const from: string
    const hash: string
    /** The target without its leading dot. */
    const to: string
    const apiUrl: string
    const upload: UploadResponse
    const ws: Socket
    var outcome: Option<Settlement>

    constructor (fileId: string, fileName: string, from: string, hash: string, to: string, apiUrl: string, upload: UploadResponse, ws: Socket)
      ensures this.fileId == fileId && this.fileName == fileName && this.from == from && this.hash == hash
      ensures this.to == to && this.apiUrl == apiUrl && this.upload == upload && this.ws == ws
      ensures outcome == None
    {
      this.fileId := fileId;
      this.fileName := fileName;
      this.from := from;
      this.hash := hash;
      this.to := to;
      this.apiUrl := apiUrl;
      this.upload := upload;
      this.ws := ws;
      outcome := None;
    }

    /** `resolve`/`reject`: only the first settlement counts. */
    method Settle(x: Settlement)
      modifies this
      ensures outcome == (if old(outcome).None? then Some(x) else old(outcome))
    {
      if outcome.None? {
        outcome := Some(x);
      }
    }
  }

  /** The names of the remote video formats, in table order. */
  const VertdNames: seq<string> := [
    "mkv", "mp4", "webm", "avi", "wmv", "mov", "gif", "mts", "ts", "m2ts", "mpg", "mpeg", "flv", "f4v",
    "vob", "m4v", "3gp", "3g2", "mxf", "ogv", "rm", "rmvb", "h264", "divx", "swf", "amv", "asf", "nut"]

  /** The remote video formats: every one can be read, and all but "rm" and "rmvb" written. */
  function VertdFormats(): (r: seq<FormatInfo>)
    ensures |r| == |VertdNames| == 28
    ensures forall i :: 0 <= i < |r| ==> WellFormed(r[i]) && r[i].fromSupported && r[i].isNative
    ensures forall i :: 0 <= i < |r| ==> r[i].name == DotPrefixed(VertdNames[i])
    ensures forall i :: 0 <= i < |r| ==> (!r[i].toSupported <==> VertdNames[i] in {"rm", "rmvb"})
  {
    seq(|VertdNames|, i requires 0 <= i < |VertdNames| => Fmt(VertdNames[i], true, VertdNames[i] !in {"rm", "rmvb"}))
  }

  /** `VertdConverter`. */
  class VertdConverter {
    const converter: Converter
    const blocklist: Blocklist
    var active: map<string, Active>

    /** The backend needs no engine: the readiness timer is cleared and it is ready at once. */
    constructor (blocklist: Blocklist, timerId: nat)
      ensures fresh(converter) && this.blocklist == blocklist && active == map[]
      ensures converter.name == "vertd" && converter.reportsProgress && converter.supportedFormats == VertdFormats()
      ensures converter.status == Ready && converter.timeoutId == None && !converter.timerPending
    {
      var formats := VertdFormats();
      var c := new Converter("vertd", formats, true, 30, timerId);
      c.ClearTimeout();
      c.status := Ready;
      converter := c;
      this.blocklist := blocklist;
      active := map[];
    }

    /** `convert`, up to the upload: the target loses its leading dot and a blocked hash is
        refused. `Success(target)` means the upload starts. */
    method Admit(fileName: string, to: string, hash: string, now: int) returns (r: Result<string, VertdError>)
      modifies blocklist
      ensures blocklist.stamps == Checked(old(blocklist.stamps), hash, now)
      ensures r.Failure? <==> IsBlocked(old(blocklist.stamps), hash, now)
      ensures r.Failure? ==> r.error == RateLimited(fileName)
      ensures r.Success? ==> r.value == StripLeadingDot(to)
    {
      var target := StripLeadingDot(to);
      var b := blocklist.Blocked(hash, now);
      if b {
        return Failure(RateLimited(fileName));
      }
      r := Success(target);
    }

    /** `convert`, after the upload settled: a failed upload rejects; otherwise the socket is
        opened and the job registered under the file's id. */
    method Connect(fileId: string, input: VertFile, hash: string, target: string, apiUrl: string, upload: Result<UploadResponse, string>)
      returns (r: Result<Session, VertdError>)
      modifies this
      ensures upload.Failure? ==> r == Failure(UploadFailed(upload.error)) && active == old(active)
      ensures upload.Success? ==> r.Success? && fresh(r.value) && fresh(r.value.ws)
      ensures r.Success? ==> r.value.ws.url == SocketUrl(apiUrl) && r.value.ws.state == Connecting && r.value.ws.sent == []
      ensures r.Success? ==> r.value.outcome == None && r.value.upload == upload.value && r.value.to == target
      ensures r.Success? ==> r.value.fileId == fileId && r.value.hash == hash && r.value.apiUrl == apiUrl
      ensures r.Success? ==> r.value.fileName == input.name && r.value.from == input.From()
      ensures r.Success? ==> active == old(active)[fileId := Active(r.value.ws, upload.value.id, upload.value.auth)]
    {
      if upload.Failure? {
        return Failure(UploadFailed(upload.error));
      }
      var res := upload.value;
      var ws := new Socket(SocketUrl(apiUrl));
      var s := new Session(fileId, input.name, input.From(), hash, target, apiUrl, res, ws);
      active := active[fileId := Active(ws, res.id, res.auth)];
      r := Success(s);
    }

    /** `ws.onopen`: the socket is open and the start request is sent with the current speed
        and metadata settings. */
    method OnOpen(s: Session, settings: Settings)
      requires s.ws.state == Connecting
      modifies s.ws
      ensures s.ws.state == Open
      ensures s.ws.sent == old(s.ws.sent) + [StartJob(s.upload.auth, s.upload.id, s.to, settings.vertdSpeed, settings.metadata)]
    {
      s.ws.state := Open;
      s.ws.Send(StartJob(s.upload.auth, s.upload.id, s.to, settings.vertdSpeed, settings.metadata));
    }

    /** `ws.onmessage` for a progress update: a frame count moves the conversion progress
        (relative to the upload's total frames); an fps report is ignored. */
    method OnProgress(s: Session, input: VertFile, data: ProgressData)
      modifies input
      ensures data.Frame? && s.upload.totalFrames > 0 ==>
                input.progress == ProgressEstimate(data.frame as real / s.upload.totalFrames as real, Convert)
      ensures !(data.Frame? && s.upload.totalFrames > 0) ==> input.progress == old(input.progress)
      ensures input.to == old(input.to) && input.result == old(input.result)
      ensures input.processing == old(input.processing) && input.cancelled == old(input.cancelled)
    {
      if data.Frame? && s.upload.totalFrames > 0 {
        input.progress := ProgressEstimate(data.frame as real / s.upload.totalFrames as real, Convert);
      }
    }

    /** `ws.onmessage` for "jobFinished": the socket is closed, the job deregistered and the
        result fetched from the returned address; `fetched` is what that download gives. A
        failed download leaves the promise unsettled, as the throw escapes the handler. */
    method OnFinished(s: Session, input: VertFile, jobId: string, fetched: Result<seq<bv8>, string>) returns (download: string)
      modifies this, s, s.ws
      ensures download == DownloadUrl(s.apiUrl, jobId, s.upload.auth)
      ensures active == old(active) - {s.fileId}
      ensures s.ws.state == Closed && s.ws.sent == old(s.ws.sent)
      ensures fetched.Success? ==> s.outcome == (if old(s.outcome).None? then Some(Resolved(NewOutFile(input.name, s.to, Bytes(fetched.value)))) else old(s.outcome))
      ensures fetched.Failure? ==> s.outcome == old(s.outcome)
    {
      s.ws.Close();
      active := active - {s.fileId};
      download := DownloadUrl(s.apiUrl, jobId, s.upload.auth);
      if fetched.Success? {
        s.Settle(Resolved(NewOutFile(input.name, s.to, Bytes(fetched.value))));
      }
    }

    /** `ws.onmessage` for "jobCancelled": the socket is closed, the job deregistered and the
        promise rejected with "Conversion cancelled". */
    method OnCancelled(s: Session)
      modifies this, s, s.ws
      ensures active == old(active) - {s.fileId}
      ensures s.ws.state == Closed && s.ws.sent == old(s.ws.sent)
      ensures s.outcome == (if old(s.outcome).None? then Some(Rejection(Rejected(CancelledReason))) else old(s.outcome))
    {
      s.ws.Close();
      active := active - {s.fileId};
      s.Settle(Rejection(Rejected(CancelledReason)));
    }

    /** `ws.onmessage` for "error": the job is deregistered, a strike is recorded against the
        file's hash at `now` and the promise rejected with the job's details; the socket stays
        as it is. */
    method OnError(s: Session, message: string, now: int)
      modifies this, s, blocklist
      ensures active == old(active) - {s.fileId}
      ensures blocklist.stamps == WithFailure(old(blocklist.stamps), s.hash, now)
      ensures s.outcome == (if old(s.outcome).None? then Some(Rejection(Failed(s.upload.id, s.upload.auth, s.from, s.to, message))) else old(s.outcome))
    {
      active := active - {s.fileId};
      blocklist.Failure(s.hash, now);
      s.Settle(Rejection(Failed(s.upload.id, s.upload.auth, s.from, s.to, message)));
    }

    /** `ws.onmessage`: the dispatch on the message type; other types are ignored. Only an
        error records a strike, and only a finished job downloads. */
    method OnMessage(s: Session, input: VertFile, msg: ServerMessage, now: int, fetched: Result<seq<bv8>, string>)
      returns (download: Option<string>)
      modifies this, s, s.ws, input, blocklist
      ensures old(s.outcome).Some? ==> s.outcome == old(s.outcome)
      ensures download.Some? <==> msg.JobFinished?
      ensures msg.JobFinished? || msg.JobCancelled? || msg.JobError? ==> active == old(active) - {s.fileId}
      ensures msg.ProgressUpdate? || msg.Other? ==> active == old(active) && s.outcome == old(s.outcome)
      ensures !msg.JobError? ==> blocklist.stamps == old(blocklist.stamps)
      ensures !msg.ProgressUpdate? ==> input.progress == old(input.progress)
      ensures s.ws.sent == old(s.ws.sent)
      ensures msg.ProgressUpdate? && msg.data.Frame? && s.upload.totalFrames > 0 ==>
                input.progress == ProgressEstimate(msg.data.frame as real / s.upload.totalFrames as real, Convert)
      ensures msg.ProgressUpdate? && !(msg.data.Frame? && s.upload.totalFrames > 0) ==> input.progress == old(input.progress)
      ensures msg.ProgressUpdate? || msg.Other? || msg.JobError? ==> s.ws.state == old(s.ws.state)
      ensures msg.JobFinished? ==>
                download == Some(DownloadUrl(s.apiUrl, msg.jobId, s.upload.auth)) && s.ws.state == Closed
                && (fetched.Success? ==> s.outcome == (if old(s.outcome).None? then Some(Resolved(NewOutFile(input.name, s.to, Bytes(fetched.value)))) else old(s.outcome)))
                && (fetched.Failure? ==> s.outcome == old(s.outcome))
      ensures msg.JobCancelled? ==>
                s.ws.state == Closed && s.outcome == (if old(s.outcome).None? then Some(Rejection(Rejected(CancelledReason))) else old(s.outcome))
      ensures msg.JobError? ==>
                blocklist.stamps == WithFailure(old(blocklist.stamps), s.hash, now)
                && s.outcome == (if old(s.outcome).None? then Some(Rejection(Failed(s.upload.id, s.upload.auth, s.from, s.to, msg.message))) else old(s.outcome))
    {
      download := None;
      match msg
      case ProgressUpdate(data) =>
        OnProgress(s, input, data);
      case JobFinished(jobId) =>
        var url := OnFinished(s, input, jobId, fetched);
        download := Some(url);
      case JobCancelled(_) =>
        OnCancelled(s);
      case JobError(message) =>
        OnError(s, message, now);
      case Other(_) =>
    }

    /** An upload or download progress event: a computable length moves the progress of that
        phase; an unknown length leaves it alone. */
    method OnTransferProgress(input: VertFile, phase: Phase, loaded: nat, total: nat)
      modifies input
      ensures total > 0 ==> input.progress == ProgressEstimate(loaded as real / total as real, phase)
      ensures total == 0 ==> input.progress == old(input.progress)
      ensures input.to == old(input.to) && input.result == old(input.result)
      ensures input.processing == old(input.processing) && input.cancelled == old(input.cancelled)
    {
      if total > 0 {
        input.progress := ProgressEstimate(loaded as real / total as real, phase);
      }
    }

    /** `cancel`: nothing happens without an active entry; otherwise a cancel request is sent
        if the socket is open, and the socket is closed and the entry removed in any case. */
    method Cancel(fileId: string)
      modifies this, (if fileId in active then {active[fileId].ws} else {})
      ensures fileId !in old(active) ==> active == old(active)
      ensures fileId in old(active) ==> active == old(active) - {fileId}
      ensures fileId in old(active) ==> old(active[fileId]).ws.state == Closed
      ensures fileId in old(active) ==>
                var a := old(active[fileId]);
                a.ws.sent == old(a.ws.sent) + (if old(a.ws.state) == Open then [CancelJob(a.jobId, a.token)] else [])
    {
      if fileId !in active {
        return;
      }
      var a := active[fileId];
      if a.ws.state == Open {
        a.ws.Send(CancelJob(a.jobId, a.token));
      }
      a.ws.Close();
      active := active - {fileId};
    }

    /** `valid`: usable iff an instance address is configured and `/api/version` answers
        without an error. */
    method Valid(instanceUrl: string, versionText: string, versionReply: Option<Reply>) returns (ok: bool)
      ensures ok <==> instanceUrl != "" && versionReply.Some? && versionReply.value.kind != "error"
    {
      if instanceUrl == "" {
        return false;
      }
      var res := FetchOutcome(versionText, versionReply);
      ok := res.Success?;
    }
  }
}
