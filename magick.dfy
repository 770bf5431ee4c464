/** The image backend of src/lib/converters/magick.svelte.ts: its format list, the quality
    default, the detour through PNG for SVG sources, the ready/load/convert exchange with its
    worker, the reading of the worker's reply, and cancellation. Rasterising the SVG and the
    worker's own work are oracles. */
module Magick {
  import opened Wrappers
  import opened Text
  import opened ConverterBase
  import opened AppSettings
  import opened VertFiles
  import opened Workers

  // ---------------------------------------------------------------- formats

  /** The directions a listed format supports. */
  datatype Direction = Both | ReadOnly | WriteOnly

  /** The hand-listed formats with their directions. */
  const MagickTable: seq<(string, Direction)> := [
    ("png", Both), ("jpeg", Both), ("jpg", Both), ("webp", Both), ("gif", Both), ("svg", Both),
    ("jxl", Both), ("avif", Both), ("heic", ReadOnly), ("heif", ReadOnly), ("ico", Both),
    ("bmp", Both), ("cur", Both), ("ani", ReadOnly), ("icns", ReadOnly), ("nef", ReadOnly),
    ("cr2", ReadOnly), ("hdr", Both), ("jpe", Both), ("mat", Both), ("pbm", Both),
    ("pfm", Both), ("pgm", Both), ("pnm", Both), ("ppm", Both), ("tiff", Both), ("jfif", Both),
    ("eps", WriteOnly), ("psd", Both), ("arw", ReadOnly), ("tif", Both), ("dng", ReadOnly),
    ("xcf", ReadOnly), ("rw2", ReadOnly), ("raf", ReadOnly), ("orf", ReadOnly),
    ("pef", ReadOnly), ("mos", ReadOnly), ("raw", ReadOnly), ("dcr", ReadOnly),
    ("crw", ReadOnly), ("cr3", ReadOnly), ("3fr", ReadOnly), ("erf", ReadOnly),
    ("mrw", ReadOnly), ("mef", ReadOnly), ("nrw", ReadOnly), ("srw", ReadOnly),
    ("sr2", ReadOnly), ("srf", ReadOnly)]

  /** The format list: the hand-listed formats (all native), then the generated
      `imageFormats`, which are not part of this model and are passed in. */
  function MagickFormats(imageFormats: seq<FormatInfo>): (r: seq<FormatInfo>)
    ensures |r| == |MagickTable| + |imageFormats| && r[|MagickTable|..] == imageFormats
    ensures forall i :: 0 <= i < |MagickTable| ==>
              WellFormed(r[i]) && r[i].isNative && r[i].name == DotPrefixed(MagickTable[i].0)
              && r[i].fromSupported == (MagickTable[i].1 != WriteOnly) && r[i].toSupported == (MagickTable[i].1 != ReadOnly)
  {
    var listed := seq(|MagickTable|, i requires 0 <= i < |MagickTable| => Fmt(MagickTable[i].0, MagickTable[i].1 != WriteOnly, MagickTable[i].1 != ReadOnly));
    listed + imageFormats
  }

  // ---------------------------------------------------------------- settings and names

  /** The quality sent to the worker: the caller's first extra argument unless it is falsy
      (absent or 0), else the user's `magickQuality`, else 100. */
  function Compression(arg: Option<int>, quality: Option<int>): (c: int)
    ensures arg.Some? && arg.value != 0 ==> c == arg.value
    ensures (arg.None? || arg.value == 0) && quality.Some? ==> c == quality.value
    ensures (arg.None? || arg.value == 0) && quality.None? ==> c == 100
  {
    var compression := arg;
    if compression.None? || compression.value == 0 then quality.GetOr(100) else compression.value
  }

  /** `name.replace(/\.svg$/i, ".png")`. */
  function PngName(name: string): (r: string)
    ensures |r| == |name|
  {
    if |name| >= 4 && ToLower(name[|name| - 4..]) == ".svg" then name[..|name| - 4] + ".png" else name
  }

  /** A file name whose format is ".svg" and that has a dot ends in ".svg" in some case, so
      renaming it gives a name whose format is ".png". */
  lemma PngNameOfSvg(name: string)
    requires '.' in name && FormatOf(name) == ".svg"
    ensures FormatOf(PngName(name)) == ".png" && '.' in PngName(name)
  {
    FormatIsLoweredTail(name);
    var k := LastDot(name).value;
    assert k == |name| - 4;
    assert ToLower(name[|name| - 4..]) == ".svg";
    assert PngName(name) == name[..k] + ".png";
    ConcatAssoc(name[..k], ".", "png");
    assert "." + "png" == ".png";
    assert ToLower("png") == "png";
    ReplaceFormat(name, "png");
  }

  // ---------------------------------------------------------------- worker messages

  predicate Falsy(t: Option<string>) {
    t.None? || t.value == ""
  }

  /** How a `waitForMessage(worker, type)` listener reacts to one event: with a type, a
      message of that type resolves, an "error" message rejects with its error and any other
      message is ignored; without one the first message resolves whatever it is. A worker
      "error" event always rejects. */
  function React(e: Event, want: Option<string>): Option<Result<Reply, string>>
  {
    match e
    case Crash(message) => Some(Failure("Worker error: " + message))
    case Message(data) =>
      if !Falsy(want) && data.kind == want.value then Some(Success(data))
      else if Falsy(want) then Some(Success(data))
      else if data.kind == "error" then Some(Failure(data.error))
      else None
  }

  /** A listener ignores an event exactly when it is a message, a type is awaited, and the
      message is neither of that type nor an "error" message; a crash always rejects. */
  lemma ReactIgnores(e: Event, want: Option<string>)
    ensures React(e, want).None? <==> e.Message? && !Falsy(want) && e.data.kind != want.value && e.data.kind != "error"
    ensures e.Crash? ==> React(e, want) == Some(Failure("Worker error: " + e.message))
  {
  }

  function Reaction(want: Option<string>): Event -> Option<Result<Reply, string>> {
    e => React(e, want)
  }

  /** The outcome an event that settles a wait gives: a crash rejects with the worker's
      message, an "error" message that is not the awaited type with its error, and any other
      settling message resolves with its data. */
  function Settlement(e: Event, want: Option<string>): Result<Reply, string> {
    if e.Crash? then Failure("Worker error: " + e.message)
    else if !(Falsy(want) || e.data.kind == want.value) && e.data.kind == "error" then Failure(e.data.error)
    else Success(e.data)
  }

  /** Without a type the wait settles on the first event. */
  lemma UntypedWaitTakesFirst(events: seq<Event>, want: Option<string>)
    requires Falsy(want) && events != []
    ensures Settle(events, Reaction(want)) == Some((Settlement(events[0], want), 0))
  {
  }

  /** With a type, the wait settles on the first event that is a message of that type, an
      "error" message or a crash; every message before it is dropped. */
  lemma {:induction false} TypedWaitSkips(events: seq<Event>, want: Option<string>, k: nat)
    requires !Falsy(want) && k < |events|
    requires events[k].Crash? || events[k].data.kind == want.value || events[k].data.kind == "error"
    requires forall j :: 0 <= j < k ==> events[j].Message? && events[j].data.kind != want.value && events[j].data.kind != "error"
    ensures Settle(events, Reaction(want)) == Some((Settlement(events[k], want), k))
  {
    assert Reaction(want)(events[k]) == Some(Settlement(events[k], want));
    forall j | 0 <= j < k ensures Reaction(want)(events[j]).None? {
      assert events[j].Message? && events[j].data.kind != want.value && events[j].data.kind != "error";
    }
    SettleUnique(events, Reaction(want), k);
  }

  /** The result a settled exchange ends in: a crash or a rejection is passed on, a
      "finished" reply gives the converted file, named like the input, in ".zip" when the
      worker packed several images and in `to` otherwise, an "error" reply its error, and any
      other reply "Unknown message type". */
  function Interpret(outcome: Result<Reply, string>, name: string, to: string): (r: Result<OutFile, string>)
    ensures outcome.Failure? ==> r == Failure(outcome.error)
    ensures outcome.Success? && outcome.value.kind == "finished" ==>
              r.Success? && r.value.to == DotPrefixed(if outcome.value.zip then ".zip" else to)
              && r.value.content == Bytes(outcome.value.output) && FormatOf(r.value.name) == FormatOf(name)
              && r.value.name == NormalizeExtension(name)
    ensures outcome.Success? && outcome.value.kind == "error" ==> r == Failure(outcome.value.error)
    ensures outcome.Success? && outcome.value.kind != "finished" && outcome.value.kind != "error" ==> r == Failure("Unknown message type")
  {
    match outcome
    case Failure(e) => Failure(e)
    case Success(res) =>
      if res.kind == "finished" then Success(NewOutFile(name, if res.zip then ".zip" else to, Bytes(res.output)))
      else if res.kind == "error" then Failure(res.error)
      else Failure("Unknown message type")
  }

  const ReadyTimeout: string := "Magick worker ready timeout after 10 seconds"
  const LoadTimeout: string := "Magick worker initialization timeout after 30 seconds"

  /** The exchange with a fresh worker that delivers `events`: wait for "ready" (the
      10-second timer wins when the worker never sends it), post `load`, wait for "loaded"
      (the 30-second timer likewise), post `convert`, then wait for any reply, which has no
      timer. `outcome` is None while the last wait never settles. */
  datatype Run = Run(outcome: Option<Result<Reply, string>>, posted: seq<Request>)

  function Exchange(events: seq<Event>, load: Request, convert: Request): (r: Run)
    ensures r.posted == [] || r.posted == [load] || r.posted == [load, convert]
    ensures |r.posted| < 2 ==> r.outcome.Some? && r.outcome.value.Failure?
  {
    var a := Settle(events, Reaction(Some("ready")));
    if a.None? then Run(Some(Failure(ReadyTimeout)), [])
    else if a.value.0.Failure? then Run(Some(a.value.0), [])
    else Loading(events[a.value.1 + 1..], load, convert)
  }

  /** The exchange once "ready" came: `load` is posted and "loaded" awaited. */
  function Loading(events: seq<Event>, load: Request, convert: Request): (r: Run)
    ensures r.posted == [load] || r.posted == [load, convert]
    ensures r.posted == [load] ==> r.outcome.Some? && r.outcome.value.Failure?
  {
    var b := Settle(events, Reaction(Some("loaded")));
    if b.None? then Run(Some(Failure(LoadTimeout)), [load])
    else if b.value.0.Failure? then Run(Some(b.value.0), [load])
    else Converting(events[b.value.1 + 1..], load, convert)
  }

  /** The exchange once "loaded" came: `convert` is posted and any reply awaited. */
  function Converting(events: seq<Event>, load: Request, convert: Request): (r: Run)
    ensures r.posted == [load, convert]
  {
    var c := Settle(events, Reaction(None));
    Run(if c.None? then None else Some(c.value.0), [load, convert])
  }

  /** The well-behaved worker: "ready", "loaded", then its reply, which is what the
      conversion ends in, after both requests were posted. */
  lemma ExchangeInOrder(reply: Reply, later: seq<Event>, load: Request, convert: Request)
    requires reply.kind != "ready"
    ensures var events := [Message(Reply("ready", "", "", [], false)), Message(Reply("loaded", "", "", [], false)), Message(reply)] + later;
            Exchange(events, load, convert) == Run(Some(Success(reply)), [load, convert])
  {
    var ready, loaded := Reply("ready", "", "", [], false), Reply("loaded", "", "", [], false);
    var events := [Message(ready), Message(loaded), Message(reply)] + later;
    assert Reaction(Some("ready"))(events[0]) == Some(Success(ready));
    var e1 := events[1..];
    assert e1 == [Message(loaded), Message(reply)] + later;
    assert Reaction(Some("loaded"))(e1[0]) == Some(Success(loaded));
    var e2 := e1[1..];
    assert e2 == [Message(reply)] + later;
    assert Reaction(None)(e2[0]) == Some(Success(reply));
  }

  /** A worker that fails before announcing itself fails the conversion with its error, and
      nothing is posted to it. */
  lemma ExchangeEarlyError(message: string, later: seq<Event>, load: Request, convert: Request)
    ensures Exchange([Message(Reply("error", message, "", [], false))] + later, load, convert) == Run(Some(Failure(message)), [])
  {
    var events := [Message(Reply("error", message, "", [], false))] + later;
    assert Reaction(Some("ready"))(events[0]) == Some(Failure(message));
  }

  /** A worker that never says "ready" times out, and nothing is posted to it. */
  lemma ExchangeNeverReady(events: seq<Event>, load: Request, convert: Request)
    requires forall j :: 0 <= j < |events| ==> events[j].Message? && events[j].data.kind != "ready" && events[j].data.kind != "error"
    ensures Exchange(events, load, convert) == Run(Some(Failure(ReadyTimeout)), [])
  {
    forall j | 0 <= j < |events| ensures Reaction(Some("ready"))(events[j]).None? {
      assert events[j].Message? && events[j].data.kind != "ready" && events[j].data.kind != "error";
    }
    assert Settle(events, Reaction(Some("ready"))).None?;
  }

  /** The end of `convert` once the exchange ran: nothing while it has not settled. */
  function Finish(run: Run, name: string, to: string): (r: Option<Result<OutFile, string>>)
    ensures r.None? <==> run.outcome.None?
  {
    if run.outcome.None? then None else Some(Interpret(run.outcome.value, name, to))
  }

  /** The requests for a file: `load`, then `convert` with the resolved quality and the
      metadata setting. */
  function LoadRequest(id: string): Request {
    Load(id)
  }

  function ConvertFor(id: string, name: string, from: string, inputTo: string, to: string, data: seq<bv8>, compression: int, keep: bool): Request {
    ConvertRequest(id, name, from, inputTo, to, data, Some(compression), Some(keep))
  }

  /** The three waits of `convert` on `worker`, posting `load` after "ready" and `convert`
      after "loaded". A timer that wins a race is the timeout of that wait. */
  method Talk(worker: Worker, load: Request, convert: Request) returns (outcome: Option<Result<Reply, string>>)
    requires worker.posted == []
    modifies worker
    ensures Run(outcome, worker.posted) == Exchange(old(worker.inbox), load, convert)
    ensures outcome.None? ==> worker.listening
    ensures worker.terminated == old(worker.terminated)
  {
    var ready := Wait(worker, Reaction(Some("ready")));
    if ready.None? {
      return Some(Failure(ReadyTimeout));
    }
    if ready.value.Failure? {
      return ready;
    }
    worker.Post(load);
    outcome := TalkLoaded(worker, load, convert);
  }

  /** The second and third wait. */
  method TalkLoaded(worker: Worker, load: Request, convert: Request) returns (outcome: Option<Result<Reply, string>>)
    requires worker.posted == [load]
    modifies worker
    ensures Run(outcome, worker.posted) == Loading(old(worker.inbox), load, convert)
    ensures outcome.None? ==> worker.listening
    ensures worker.terminated == old(worker.terminated)
  {
    ghost var events := worker.inbox;
    ghost var b := Settle(events, Reaction(Some("loaded")));
    var loaded := Wait(worker, Reaction(Some("loaded")));
    if loaded.None? {
      assert b.None?;
      return Some(Failure(LoadTimeout));
    }
    if loaded.value.Failure? {
      assert b.Some? && b.value.0 == loaded.value;
      return loaded;
    }
    assert b.Some? && b.value.0.Success? && worker.inbox == events[b.value.1 + 1..];
    worker.Post(convert);
    outcome := Wait(worker, Reaction(None));
  }

  // ---------------------------------------------------------------- the backend

  /** `MagickConverter`, with the workers of the running conversions by file id. */
  class MagickConverter {
    const converter: Converter
    var active: map<string, Worker>

    /** Outside a browser nothing is fetched; in one the engine download starts. */
    constructor (inBrowser: bool, imageFormats: seq<FormatInfo>, timerId: nat)
      ensures fresh(converter) && active == map[]
      ensures converter.name == "imagemagick" && !converter.reportsProgress
      ensures converter.supportedFormats == MagickFormats(imageFormats)
      ensures converter.Valid() && converter.timerPending
      ensures converter.status == (if inBrowser then Downloading else NotReady)
    {
      var formats := MagickFormats(imageFormats);
      var c := new Converter("imagemagick", formats, false, 30, timerId);
      if inBrowser {
        c.PreloadStarted();
      }
      converter := c;
      active := map[];
    }

    /** The engine fetch ended: `ok` when the response was ok and its body was read. */
    method WasmFetched(ok: bool)
      requires converter.Valid()
      modifies converter
      ensures converter.Valid() && converter.status == (if ok then Ready else Error) && !converter.timerPending
    {
      if ok {
        converter.PreloadSucceeded();
      } else {
        converter.PreloadFailed();
      }
    }

    /** `convert(input, to, compression)`. `raster` is what rasterising an SVG source gives,
        `pngId` the id of the PNG file made from it, and `events` what the worker created for
        the conversion delivers. `r` is None while the conversion has not settled; `worker` is
        the worker created, if any. Every name a `VertFile` carries has a dot. */
    method Convert(fileId: string, input: VertFile, to: string, compressionArg: Option<int>, settings: Settings,
                   registry: seq<Converter>, raster: Result<seq<bv8>, string>, pngId: string, events: seq<Event>)
      returns (r: Option<Result<OutFile, string>>, worker: Worker?)
      requires '.' in input.name
      modifies this
      ensures var c := Compression(compressionArg, settings.magickQuality);
              input.From() != ".svg" ==>
                Ran(fileId, input.name, input.From(), input.to, to, input.data, c, settings.metadata, events, r, worker)
      ensures input.From() == ".svg" ==> SvgRan(input.name, input.to, to, compressionArg, settings, raster, pngId, events, r, worker)
      ensures worker == null ==> active == old(active)
      ensures var id := if input.From() == ".svg" then pngId else fileId;
              worker != null ==> fresh(worker) && Cleaned(id, old(active), r, worker)
    {
      if input.From() == ".svg" {
        r, worker := ConvertSvg(input, to, compressionArg, settings, registry, raster, pngId, events);
        return;
      }
      var w;
      r, w := ConvertRaster(fileId, input.name, input.From(), input.to, to, input.data, compressionArg, settings, events);
      worker := w;
    }

    /** `convert` on a file that is not an SVG: the quality is resolved and the file is
        converted in a worker. */
    method ConvertRaster(fileId: string, name: string, from: string, inputTo: string, to: string, data: seq<bv8>, compressionArg: Option<int>,
                         settings: Settings, events: seq<Event>)
      returns (r: Option<Result<OutFile, string>>, worker: Worker)
      modifies this
      ensures var c := Compression(compressionArg, settings.magickQuality);
              Ran(fileId, name, from, inputTo, to, data, c, settings.metadata, events, r, worker)
      ensures fresh(worker) && Cleaned(fileId, old(active), r, worker)
    {
      var compression := compressionArg;
      if compression.None? || compression.value == 0 {
        compression := Some(settings.magickQuality.GetOr(100));
      }
      r, worker := ConvertInWorker(fileId, name, from, inputTo, to, data, compression.value, settings.metadata, events);
    }

    /** What `convert` does with an SVG source: a failed rasterisation is rethrown; the PNG
        made from it (named with ".png" for ".svg", targeting the source's target) is the
        result when the target is ".png"; otherwise it is converted in turn. */
    ghost predicate SvgRan(name: string, inputTo: string, to: string, compressionArg: Option<int>, settings: Settings,
                           raster: Result<seq<bv8>, string>, pngId: string, events: seq<Event>,
                           r: Option<Result<OutFile, string>>, worker: Worker?)
      reads worker
    {
      var c := Compression(compressionArg, settings.magickQuality);
      var png := NormalizeExtension(PngName(name));
      (raster.Failure? ==> r == Some(Failure(raster.error)) && worker == null)
      && (raster.Success? && to == ".png" ==> r == Some(Success(OutFile(png, DotPrefixed(inputTo), Bytes(raster.value)))) && worker == null)
      && (raster.Success? && to != ".png" ==> Ran(pngId, png, ".png", DotPrefixed(inputTo), to, raster.value, c, settings.metadata, events, r, worker))
    }

    /** The SVG branch of `convert`. Its second call of `convert`, on the PNG, takes the
        raster path, since the PNG's format is ".png". */
    method ConvertSvg(input: VertFile, to: string, compressionArg: Option<int>, settings: Settings,
                      registry: seq<Converter>, raster: Result<seq<bv8>, string>, pngId: string, events: seq<Event>)
      returns (r: Option<Result<OutFile, string>>, worker: Worker?)
      requires '.' in input.name && input.From() == ".svg"
      modifies this
      ensures SvgRan(input.name, input.to, to, compressionArg, settings, raster, pngId, events, r, worker)
      ensures worker == null ==> active == old(active)
      ensures worker != null ==> fresh(worker) && Cleaned(pngId, old(active), r, worker)
    {
      if raster.Failure? {
        return Some(Failure(raster.error)), null;
      }
      if to == ".png" {
        var pngFile := Rasterised(input.name, input.to, raster.value, registry);
        return Some(Success(OutFile(pngFile.name, pngFile.to, Bytes(pngFile.data)))), null;
      }
      var w;
      r, w := ConvertPng(pngId, input.name, input.to, raster.value, to, compressionArg, settings, registry, events);
      worker := w;
    }

    /** The PNG made from the SVG, converted in turn to a target other than ".png". */
    method ConvertPng(pngId: string, name: string, inputTo: string, data: seq<bv8>, to: string, compressionArg: Option<int>,
                      settings: Settings, registry: seq<Converter>, events: seq<Event>)
      returns (r: Option<Result<OutFile, string>>, worker: Worker)
      requires '.' in name && FormatOf(name) == ".svg"
      modifies this
      ensures Ran(pngId, NormalizeExtension(PngName(name)), ".png", DotPrefixed(inputTo), to, data,
                  Compression(compressionArg, settings.magickQuality), settings.metadata, events, r, worker)
      ensures fresh(worker) && Cleaned(pngId, old(active), r, worker)
    {
      var pngFile := Rasterised(name, inputTo, data, registry);
      r, worker := ConvertRaster(pngId, pngFile.name, pngFile.From(), pngFile.to, to, pngFile.data, compressionArg, settings, events);
    }

    /** The PNG file made from the rasterised SVG: `new VertFile(new File([blob], pngName), to)`. */
    static method Rasterised(name: string, inputTo: string, data: seq<bv8>, registry: seq<Converter>) returns (f: VertFile)
      requires '.' in name && FormatOf(name) == ".svg"
      ensures fresh(f) && f.name == NormalizeExtension(PngName(name)) && '.' in f.name && f.From() == ".png"
      ensures f.to == DotPrefixed(inputTo) && f.data == data
    {
      PngNameOfSvg(name);
      f := new VertFile(InputFile(PngName(name), "image/png", data), inputTo, registry);
    }

    /** The conversion of `id` ran in a fresh worker: the result and the requests posted are
        those of the exchange. */
    ghost predicate Ran(id: string, name: string, from: string, inputTo: string, to: string, data: seq<bv8>, compression: int, keep: bool,
                        events: seq<Event>, r: Option<Result<OutFile, string>>, worker: Worker?)
      reads worker
    {
      var run := Exchange(events, LoadRequest(id), ConvertFor(id, name, from, inputTo, to, data, compression, keep));
      r == Finish(run, name, to) && worker != null && worker.posted == run.posted
    }

    /** Once the conversion settled, on every path, its worker is terminated and deregistered;
        while it has not, the worker is registered and still listening. */
    ghost predicate Cleaned(id: string, before: map<string, Worker>, r: Option<Result<OutFile, string>>, worker: Worker)
      reads this, worker
    {
      (r.Some? ==> worker.terminated && active == before - {id})
      && (r.None? ==> !worker.terminated && worker.listening && active == before[id := worker])
    }

    /** The part of `convert` that runs in the worker, with the `finally` that deregisters
        and terminates it on every exit. */
    method ConvertInWorker(id: string, name: string, from: string, inputTo: string, to: string, data: seq<bv8>, compression: int, keep: bool, events: seq<Event>)
      returns (r: Option<Result<OutFile, string>>, worker: Worker)
      modifies this
      ensures Ran(id, name, from, inputTo, to, data, compression, keep, events, r, worker)
      ensures fresh(worker) && Cleaned(id, old(active), r, worker)
    {
      worker := new Worker(events);
      active := active[id := worker];
      var outcome := Talk(worker, LoadRequest(id), ConvertFor(id, name, from, inputTo, to, data, compression, keep));
      if outcome.None? {
        return None, worker;
      }
      r := Some(Interpret(outcome.value, name, to));
      active := active - {id};
      worker.Terminate();
    }

    /** `cancel`: without a registered worker nothing happens; otherwise it is terminated
        and deregistered. */
    method Cancel(fileId: string)
      modifies this, (if fileId in active then {active[fileId]} else {})
      ensures fileId !in old(active) ==> active == old(active)
      ensures fileId in old(active) ==> active == old(active) - {fileId} && old(active[fileId]).terminated
    {
      if fileId !in active {
        return;
      }
      var worker := active[fileId];
      worker.Terminate();
      active := active - {fileId};
    }
  }
}
