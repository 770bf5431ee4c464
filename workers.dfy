/** The Web Worker handle the ImageMagick and Pandoc backends (src/lib/converters/magick.svelte.ts,
    src/lib/converters/pandoc.svelte.ts) talk to: the requests posted to it, the events it
    delivers, and whether it was terminated. What the worker computes is an oracle: the events
    it will deliver are given when it is created. */
module Workers {
  import opened Wrappers

  /** The `data` of a worker's reply: its `type`, and the fields the backends read. */
  datatype Reply = Reply(kind: string, error: string, errorKind: string, output: seq<bv8>, zip: bool)

  /** A delivered event: a "message" carrying a reply, or an "error" event (the worker crashed). */
  datatype Event = Message(data: Reply) | Crash(message: string)

  /** The `WorkerMessage`s the backends post. `data` is the bytes of the input file sent
      along; `keepMetadata` is absent from the Pandoc request. */
  datatype Request =
    | Load(id: string)
    | ConvertRequest(id: string, name: string, from: string, inputTo: string, to: string, data: seq<bv8>,
                     compression: Option<int>, keepMetadata: Option<bool>)

  /** A worker. `inbox` holds the events it will deliver from now on, in order. */
  class Worker {
    var inbox: seq<Event>
    var posted: seq<Request>
    /** Whether a `waitForMessage` listener is attached. */
    var listening: bool
    var terminated: bool

    constructor (inbox: seq<Event>)
      ensures this.inbox == inbox && posted == [] && !listening && !terminated
    {
      this.inbox := inbox;
      posted := [];
      listening := false;
      terminated := false;
    }

    /** `postMessage`. */
    method Post(m: Request)
      modifies this
      ensures posted == old(posted) + [m]
      ensures inbox == old(inbox) && listening == old(listening) && terminated == old(terminated)
    {
      posted := posted + [m];
    }

    /** `terminate`. */
    method Terminate()
      modifies this
      ensures terminated
      ensures inbox == old(inbox) && posted == old(posted) && listening == old(listening)
    {
      terminated := true;
    }
  }

  /** The first event, in delivery order, that settles a wait whose per-event reaction is
      `react`, with the outcome it settles to; none if no event does. */
  function Settle(events: seq<Event>, react: Event -> Option<Result<Reply, string>>): (r: Option<(Result<Reply, string>, nat)>)
    ensures r.Some? ==> r.value.1 < |events| && react(events[r.value.1]) == Some(r.value.0)
    ensures r.Some? ==> forall j :: 0 <= j < r.value.1 ==> react(events[j]).None?
    ensures r.None? ==> forall j :: 0 <= j < |events| ==> react(events[j]).None?
  {
    if events == [] then None
    else if react(events[0]).Some? then Some((react(events[0]).value, 0))
    else
      var rest := Settle(events[1..], react);
      assert forall j :: 0 < j < |events| ==> events[j] == events[1..][j - 1];
      if rest.Some? then Some((rest.value.0, rest.value.1 + 1)) else None
  }

  /** The settling event is the only one: any index with the two properties is the one found. */
  lemma SettleUnique(events: seq<Event>, react: Event -> Option<Result<Reply, string>>, k: nat)
    requires k < |events| && react(events[k]).Some?
    requires forall j :: 0 <= j < k ==> react(events[j]).None?
    ensures Settle(events, react) == Some((react(events[k]).value, k))
  {
    var r := Settle(events, react);
    assert r.Some?;
    assert !(r.value.1 < k) && !(k < r.value.1);
  }

  /** An event the wait ignores in front of the others changes nothing but the index. */
  lemma SettleSkipsIgnored(e: Event, events: seq<Event>, react: Event -> Option<Result<Reply, string>>)
    requires react(e).None?
    ensures var r := Settle([e] + events, react);
            var s := Settle(events, react);
            (r.None? <==> s.None?) && (r.Some? ==> r.value == (s.value.0, s.value.1 + 1))
  {
    assert ([e] + events)[1..] == events;
  }

  /** A wait on `worker`: the events are delivered one after another to the listener until one
      settles it; the listener is then detached. The events consumed are gone from the inbox;
      when none settles, the inbox is used up and the listener stays attached (the promise
      never settles). */
  method Wait(worker: Worker, react: Event -> Option<Result<Reply, string>>) returns (r: Option<Result<Reply, string>>)
    modifies worker
    ensures var s := Settle(old(worker.inbox), react);
            (s.None? ==> r.None? && worker.inbox == [] && worker.listening)
            && (s.Some? ==> r == Some(s.value.0) && worker.inbox == old(worker.inbox)[s.value.1 + 1..] && !worker.listening)
    ensures worker.posted == old(worker.posted) && worker.terminated == old(worker.terminated)
  {
    ghost var events := worker.inbox;
    worker.listening := true;
    var i := 0;
    while i < |worker.inbox|
      invariant worker.inbox == events && worker.listening
      invariant worker.posted == old(worker.posted) && worker.terminated == old(worker.terminated)
      invariant 0 <= i <= |events|
      invariant forall j :: 0 <= j < i ==> react(events[j]).None?
    {
      var outcome := react(worker.inbox[i]);
      if outcome.Some? {
        SettleUnique(events, react, i);
        worker.inbox := worker.inbox[i + 1..];
        worker.listening := false;
        return outcome;
      }
      i := i + 1;
    }
    worker.inbox := [];
    r := None;
  }
}
