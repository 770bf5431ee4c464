/** The document backend of src/lib/converters/pandoc.svelte.ts: its format list, the
    load/convert exchange with its worker, the error messages made from the worker's error
    kinds, the result's format, and cancellation. The worker's own work is an oracle. */
module Pandoc {
  import opened Wrappers
  import opened Text
  import opened ConverterBase
  import opened VertFiles
  import opened Workers

  // ---------------------------------------------------------------- formats

  /** The listed formats; each is readable and writable. */
  const PandocNames: seq<string> := ["docx", "doc", "md", "html", "rtf", "csv", "tsv", "json", "rst", "epub", "odt", "docbook"]

  function PandocFormats(): (r: seq<FormatInfo>)
    ensures |r| == |PandocNames|
    ensures forall i :: 0 <= i < |r| ==>
              WellFormed(r[i]) && r[i] == FormatInfo(DotPrefixed(PandocNames[i]), true, true, true)
  {
    seq(|PandocNames|, i requires 0 <= i < |PandocNames| => Fmt(PandocNames[i], true, true))
  }

  // ---------------------------------------------------------------- worker messages

  /** The listener of this backend's `waitForMessage`: both of its branches resolve, so the
      first message settles the wait whatever its type; no "error" listener is attached, so a
      crash of the worker is not noticed. */
  function Reaction(): Event -> Option<Result<Reply, string>> {
    (e: Event) => if e.Message? then Some(Success(e.data)) else None
  }

  /** The replies among the events, in delivery order. */
  function Messages(events: seq<Event>): seq<Reply> {
    if events == [] then []
    else (if events[0].Message? then [events[0].data] else []) + Messages(events[1..])
  }

  /** A wait settles exactly when a message arrives, on the first one, and resolves with its
      reply; what is left after it holds the remaining messages. */
  lemma {:induction false} WaitTakesFirstMessage(events: seq<Event>)
    ensures var s := Settle(events, Reaction());
            (s.None? <==> Messages(events) == [])
            && (s.Some? ==> s.value.0 == Success(Messages(events)[0])
                            && Messages(events[s.value.1 + 1..]) == Messages(events)[1..])
  {
    if events != [] {
      var tail := events[1..];
      WaitTakesFirstMessage(tail);
      if events[0].Message? {
        assert Reaction()(events[0]) == Some(Success(events[0].data));
        assert Messages(events) == [events[0].data] + Messages(tail);
      } else {
        assert Reaction()(events[0]) == None;
        assert Messages(events) == Messages(tail);
        var s := Settle(tail, Reaction());
        if s.Some? {
          assert Settle(events, Reaction()) == Some((s.value.0, s.value.1 + 1));
          assert events[s.value.1 + 1 + 1..] == tail[s.value.1 + 1..];
        } else {
          assert Settle(events, Reaction()) == None;
        }
      }
    }
  }

  /** What the exchange came to: the reply to the convert request (None while the exchange
      has not settled) and the requests posted. */
  datatype Run = Run(reply: Option<Reply>, posted: seq<Request>)

  /** The exchange with a fresh worker that delivers `events`: post `load`, wait for a
      message, post `convert`, wait for another. */
  function Exchange(events: seq<Event>, load: Request, convert: Request): (r: Run)
    ensures r.posted == [load] || r.posted == [load, convert]
    ensures r.reply.Some? ==> r.posted == [load, convert]
  {
    match Settle(events, Reaction())
    case None => Run(None, [load])
    case Some((_, k)) =>
      match Settle(events[k + 1..], Reaction())
      case None => Run(None, [load, convert])
      case Some((outcome, _)) => Run(Some(outcome.value), [load, convert])
  }

  /** The exchange in terms of the messages alone: the first message, whatever it is, stands
      for "loaded"; the second is the reply; crashes play no part. */
  lemma ExchangeIsSecondMessage(events: seq<Event>, load: Request, convert: Request)
    ensures var run := Exchange(events, load, convert);
            var ms := Messages(events);
            run.posted == (if ms == [] then [load] else [load, convert])
            && run.reply == (if |ms| >= 2 then Some(ms[1]) else None)
  {
    WaitTakesFirstMessage(events);
    var s := Settle(events, Reaction());
    if s.Some? {
      WaitTakesFirstMessage(events[s.value.1 + 1..]);
    }
  }

  /** `waitForMessage(worker, "loaded")` accepts an error reply too: the exchange goes on to
      the convert request. */
  lemma LoadedWaitAcceptsAnyMessage(first: Reply, rest: seq<Event>, load: Request, convert: Request)
    ensures Exchange([Message(first)] + rest, load, convert).posted == [load, convert]
  {
    ExchangeIsSecondMessage([Message(first)] + rest, load, convert);
    assert ([Message(first)] + rest)[1..] == rest;
  }

  // ---------------------------------------------------------------- the reply

  const JsonMarker: string := "JSON missing pandoc-api-version"
  const JsonMessage: string :=
    "This JSON file is not a pandoc-converted JSON file. It must be converted with pandoc / Toolkitlife to be converted again."

  /** The errors `convert` throws for an error reply. */
  datatype PandocError =
    | UnsupportedInput(from: string)
    | UnsupportedOutput(to: string)
    | NotPandocJson
    | Tagged(kind: string, error: string)
    | Untagged(error: string)

  /** The error thrown for an error reply with `kind` and `error`, converting from format
      `from` to the target `to` as given. A parse error without the JSON marker falls
      through to the default case. */
  function Classify(kind: string, error: string, from: string, to: string): (e: PandocError)
    ensures kind == "PandocUnknownReaderError" ==> e == UnsupportedInput(from)
    ensures kind == "PandocUnknownWriterError" ==> e == UnsupportedOutput(to)
    ensures kind == "PandocParseError" ==> e == (if Contains(error, JsonMarker) then NotPandocJson else Tagged(kind, error))
  {
    if kind == "PandocUnknownReaderError" then UnsupportedInput(from)
    else if kind == "PandocUnknownWriterError" then UnsupportedOutput(to)
    else if kind == "PandocParseError" && Contains(error, JsonMarker) then NotPandocJson
    else if kind != "" then Tagged(kind, error)
    else Untagged(error)
  }

  /** The message of the thrown error. */
  function ErrorText(e: PandocError): (r: string)
    ensures e.UnsupportedInput? ==> StartsWith(r, e.from) && EndsWith(r, " is not a supported input format for documents.")
    ensures e.UnsupportedOutput? ==> StartsWith(r, e.to) && EndsWith(r, " is not a supported output format for documents.")
    ensures e.Tagged? ==> EndsWith(r, e.error)
  {
    match e
    case UnsupportedInput(from) => from + " is not a supported input format for documents."
    case UnsupportedOutput(to) => to + " is not a supported output format for documents."
    case NotPandocJson => JsonMessage
    case Tagged(kind, error) => "[" + kind + "] " + error
    case Untagged(error) => error
  }

  /** Outside the three rewritten cases the worker's error text is kept whole at the end of
      the message, tagged with its kind when it has one. */
  lemma ErrorTextKeepsError(kind: string, error: string, from: string, to: string)
    requires kind != "PandocUnknownReaderError" && kind != "PandocUnknownWriterError"
    requires !(kind == "PandocParseError" && Contains(error, JsonMarker))
    ensures EndsWith(ErrorText(Classify(kind, error, from, to)), error)
    ensures kind == "" ==> ErrorText(Classify(kind, error, from, to)) == error
    ensures kind != "" ==> StartsWith(ErrorText(Classify(kind, error, from, to)), "[" + kind + "] ")
  {
    var m := ErrorText(Classify(kind, error, from, to));
    if kind != "" {
      var tag := "[" + kind + "] ";
      assert m == tag + error;
      assert m[..|tag|] == tag;
      assert m[|m| - |error|..] == error;
    }
  }

  /** What `convert` makes of the reply: an error reply is thrown with its message; any
      other reply is the output file, named like the input and of format ".zip" when the
      reply says it is an archive, else of the dot-prefixed target. */
  function Interpret(reply: Reply, from: string, name: string, to: string): (r: Result<OutFile, PandocError>)
    ensures reply.kind == "error" ==> r == Failure(Classify(reply.errorKind, reply.error, from, to))
    ensures reply.kind != "error" ==>
              r.Success? && r.value.content == Bytes(reply.output) && FormatOf(r.value.name) == FormatOf(name)
              && r.value.name == NormalizeExtension(name)
              && r.value.to == (if reply.zip then ".zip" else DotPrefixed(to))
  {
    if reply.kind == "error" then Failure(Classify(reply.errorKind, reply.error, from, to))
    else
      var target := if reply.zip then ".zip" else DotPrefixed(to);
      assert StartsWith(target, ".") by {
        assert ".zip"[..1] == ".";
      }
      Success(NewOutFile(name, target, Bytes(reply.output)))
  }

  /** The result of `convert` once the exchange ran: None while it has not settled. */
  function Finish(reply: Option<Reply>, from: string, name: string, to: string): Option<Result<OutFile, PandocError>> {
    match reply
    case None => None
    case Some(reply) => Some(Interpret(reply, from, name, to))
  }

  function LoadRequest(id: string): Request {
    Load(id)
  }

  /** The convert request: the target goes out as given, both as the request's target and as
      the input's; Pandoc sends no quality and no metadata flag. */
  function ConvertFor(id: string, name: string, from: string, to: string, data: seq<bv8>): Request {
    ConvertRequest(id, name, from, to, to, data, None, None)
  }

  /** The exchange driven on `worker`. */
  method Talk(worker: Worker, load: Request, convert: Request) returns (reply: Option<Reply>)
    requires worker.posted == []
    modifies worker
    ensures Run(reply, worker.posted) == Exchange(old(worker.inbox), load, convert)
    ensures reply.None? ==> worker.listening
    ensures worker.terminated == old(worker.terminated)
  {
    worker.Post(load);
    var loaded := Wait(worker, Reaction());
    if loaded.None? {
      return None;
    }
    worker.Post(convert);
    var result := Wait(worker, Reaction());
    if result.None? {
      return None;
    }
    reply := Some(result.value.value);
  }

  // ---------------------------------------------------------------- the backend

  class PandocConverter {
    const converter: Converter
    var active: map<string, Worker>

    /** Outside a browser nothing is fetched; in one the engine download starts. */
    constructor (inBrowser: bool, timerId: nat)
      ensures fresh(converter) && active == map[]
      ensures converter.name == "pandoc" && !converter.reportsProgress
      ensures converter.supportedFormats == PandocFormats()
      ensures converter.Valid() && converter.timerPending
      ensures converter.status == (if inBrowser then Downloading else NotReady)
    {
      var formats := PandocFormats();
      var c := new Converter("pandoc", formats, false, 30, timerId);
      if inBrowser {
        c.PreloadStarted();
      }
      converter := c;
      active := map[];
    }

    /** The engine fetch ended: `ok` when the response's body was read. */
    method WasmFetched(ok: bool)
      requires converter.Valid()
      modifies converter
      ensures converter.Valid() && converter.status == (if ok then Ready else Error) && !converter.timerPending
    {
      if ok {
        converter.PreloadSucceeded();
      } else {
        converter.PreloadFailed();
      }
    }

    /** The conversion of `id` ran in a fresh worker: the result and the requests posted are
        those of the exchange. */
    ghost predicate Ran(id: string, name: string, from: string, to: string, data: seq<bv8>, events: seq<Event>,
                        r: Option<Result<OutFile, PandocError>>, worker: Worker)
      reads worker
    {
      var run := Exchange(events, LoadRequest(id), ConvertFor(id, name, from, to, data));
      r == Finish(run.reply, from, name, to) && worker.posted == run.posted
    }

    /** After a reply the worker is terminated, but only a reply that is not an error
        removes its entry: an error reply leaves it registered. Before a reply the worker is
        registered and still listening. */
    ghost predicate Cleaned(id: string, before: map<string, Worker>, reply: Option<Reply>, worker: Worker)
      reads this, worker
    {
      (reply.None? ==> !worker.terminated && worker.listening && active == before[id := worker])
      && (reply.Some? && reply.value.kind == "error" ==> worker.terminated && active == before[id := worker])
      && (reply.Some? && reply.value.kind != "error" ==> worker.terminated && active == before - {id})
    }

    /** `convert(file, to)`. `events` is what the worker created for the conversion
        delivers; `r` is None while the conversion has not settled. */
    method Convert(fileId: string, input: VertFile, to: string, events: seq<Event>)
      returns (r: Option<Result<OutFile, PandocError>>, worker: Worker)
      modifies this
      ensures Ran(fileId, input.name, input.From(), to, input.data, events, r, worker)
      ensures var reply := Exchange(events, LoadRequest(fileId), ConvertFor(fileId, input.name, input.From(), to, input.data)).reply;
              fresh(worker) && Cleaned(fileId, old(active), reply, worker)
    {
      var name, from := input.name, input.From();
      worker := new Worker(events);
      active := active[fileId := worker];
      var reply := Talk(worker, LoadRequest(fileId), ConvertFor(fileId, name, from, to, input.data));
      Release(fileId, worker, reply, old(active));
      r := Finish(reply, from, name, to);
    }

    /** The end of `convert` once the reply arrived: an error reply terminates the worker
        (and is thrown); any other reply terminates it after deregistering it. */
    method Release(fileId: string, worker: Worker, reply: Option<Reply>, ghost before: map<string, Worker>)
      requires active == before[fileId := worker] && !worker.terminated
      requires reply.None? ==> worker.listening
      modifies this, worker
      ensures worker.posted == old(worker.posted)
      ensures Cleaned(fileId, before, reply, worker)
    {
      if reply.None? {
        return;
      }
      if reply.value.kind != "error" {
        active := active - {fileId};
      }
      worker.Terminate();
    }

    /** `cancel`: without a registered worker nothing happens; otherwise it is terminated
        and deregistered. */
    method Cancel(fileId: string)
      modifies this, (if fileId in active then {active[fileId]} else {})
      ensures fileId !in old(active) ==> active == old(active)
      ensures fileId in old(active) ==> active == old(active) - {fileId} && old(active[fileId]).terminated
    {
      if fileId !in active {
        return;
      }
      var worker := active[fileId];
      worker.Terminate();
      active := active - {fileId};
    }
  }
}
