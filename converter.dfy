/** The backend abstraction of src/lib/converters/converter.svelte.ts: format descriptors,
    the readiness state with its self-expiring timer, and the format-list queries. */
module ConverterBase {
  import opened Wrappers
  import opened Text
  import opened Sorting

  datatype WorkerStatus = NotReady | Downloading | Ready | Error

  datatype FormatInfo = FormatInfo(name: string, fromSupported: bool, toSupported: bool, isNative: bool)

  /** What every constructed descriptor satisfies. */
  ghost predicate WellFormed(f: FormatInfo) {
    StartsWith(f.name, ".") && (f.fromSupported || f.toSupported)
  }

  /** `new FormatInfo(name, fromSupported, toSupported, isNative)`: the name gains a leading
      dot, and a format readable in neither direction is refused. */
  function NewFormatInfo(name: string, fromSupported: bool := true, toSupported: bool := true, isNative: bool := true): (r: Result<FormatInfo, string>)
    ensures r.Success? <==> fromSupported || toSupported
    ensures r.Failure? ==> r.error == "Format must support at least one direction"
    ensures r.Success? ==> WellFormed(r.value) && r.value.name == DotPrefixed(name)
    ensures r.Success? ==> r.value.fromSupported == fromSupported && r.value.toSupported == toSupported && r.value.isNative == isNative
  {
    var dotted := if StartsWith(name, ".") then name else "." + name;
    if !fromSupported && !toSupported then Failure("Format must support at least one direction")
    else Success(FormatInfo(dotted, fromSupported, toSupported, isNative))
  }

  /** With only a name, a descriptor supports both directions natively. */
  lemma NewFormatInfoDefaults(name: string)
    ensures NewFormatInfo(name) == Success(FormatInfo(DotPrefixed(name), true, true, true))
  {
  }

  /** Constructing from a constructed descriptor's name keeps the name. */
  lemma NewFormatInfoNameIdempotent(name: string, fromSupported: bool, toSupported: bool, isNative: bool)
    requires fromSupported || toSupported
    ensures NewFormatInfo(NewFormatInfo(name, fromSupported, toSupported, isNative).value.name, fromSupported, toSupported, isNative)
         == NewFormatInfo(name, fromSupported, toSupported, isNative)
  {
  }

  /** A table entry of a backend's format list (every entry of the tables supports a direction). */
  function Fmt(name: string, fromSupported: bool, toSupported: bool, isNative: bool := true): (f: FormatInfo)
    requires fromSupported || toSupported
    ensures WellFormed(f)
  {
    NewFormatInfo(name, fromSupported, toSupported, isNative).value
  }

  /** Bytes, or the members of an archive the orchestrator re-packs. */
  datatype Content = Bytes(data: seq<bv8>) | Archive(members: seq<Member>)
  datatype Member = Member(name: string, content: Content)

  /** A converted file as a backend returns it (`new VertFile(new File(bytes, name), to)`). */
  datatype OutFile = OutFile(name: string, to: string, content: Content)

  /** The constructor of the wrapping file record normalises the name's extension and
      dot-prefixes the target. */
  function NewOutFile(name: string, to: string, content: Content): (r: OutFile)
    ensures FormatOf(r.name) == FormatOf(name) && StartsWith(r.to, ".") && r.content == content
    ensures StartsWith(to, ".") ==> r.to == to
    ensures r.name == NormalizeExtension(name)
  {
    OutFile(NormalizeExtension(name), DotPrefixed(to), content)
  }

  /** `formats.map((f) => f.name)`. */
  function Names(fs: seq<FormatInfo>): (r: seq<string>)
    ensures |r| == |fs|
    ensures forall i :: 0 <= i < |fs| ==> r[i] == fs[i].name
  {
    seq(|fs|, i requires 0 <= i < |fs| => fs[i].name)
  }

  /** `formats.filter(p).map((f) => f.name)`: the names at the passing positions, in list
      order. */
  function NamesWhere(fs: seq<FormatInfo>, p: FormatInfo -> bool): (r: seq<string>)
    ensures |r| == |Positions(fs, p)|
    ensures forall i :: 0 <= i < |r| ==> r[i] == fs[Positions(fs, p)[i]].name
    ensures forall n :: n in r <==> exists i :: 0 <= i < |fs| && fs[i].name == n && p(fs[i])
  {
    var kept := Filter(fs, p);
    var r := Names(kept);
    NamesWhereSound(fs, p, kept, r);
    FilterMembers(fs, p);
    NamesWhereComplete(fs, p, kept, r);
    r
  }

  lemma NamesWhereSound(fs: seq<FormatInfo>, p: FormatInfo -> bool, kept: seq<FormatInfo>, r: seq<string>)
    requires kept == Filter(fs, p) && |r| == |kept| && forall k :: 0 <= k < |r| ==> r[k] == kept[k].name
    ensures forall n :: n in r ==> exists i :: 0 <= i < |fs| && fs[i].name == n && p(fs[i])
  {
    var idx := Positions(fs, p);
    forall n | n in r ensures exists i :: 0 <= i < |fs| && fs[i].name == n && p(fs[i]) {
      var k :| 0 <= k < |r| && r[k] == n;
      assert fs[idx[k]].name == n && p(fs[idx[k]]);
    }
  }

  lemma NamesWhereComplete(fs: seq<FormatInfo>, p: FormatInfo -> bool, kept: seq<FormatInfo>, r: seq<string>)
    requires forall j :: 0 <= j < |fs| && p(fs[j]) ==> fs[j] in kept
    requires |r| == |kept| && forall k :: 0 <= k < |r| ==> r[k] == kept[k].name
    ensures forall i :: 0 <= i < |fs| && p(fs[i]) ==> fs[i].name in r
  {
    forall i | 0 <= i < |fs| && p(fs[i]) ensures fs[i].name in r {
      var k :| 0 <= k < |kept| && kept[k] == fs[i];
      assert r[k] == fs[i].name;
    }
  }

  /** A predicate that holds of every format selects every name, in order. */
  lemma NamesWhereAll(fs: seq<FormatInfo>, p: FormatInfo -> bool)
    requires forall i :: 0 <= i < |fs| ==> p(fs[i])
    ensures NamesWhere(fs, p) == Names(fs)
  {
    FilterAll(fs, p);
  }

  /** A filtered name list keeps list order: it is the names of a subsequence of the formats. */
  lemma NamesWhereOrdered(fs: seq<FormatInfo>, p: FormatInfo -> bool, i: nat, j: nat)
    requires i < j < |fs| && p(fs[i]) && p(fs[j])
    ensures exists a, b :: 0 <= a < b < |NamesWhere(fs, p)| && NamesWhere(fs, p)[a] == fs[i].name && NamesWhere(fs, p)[b] == fs[j].name
  {
    var idx := Positions(fs, p);
    var a :| 0 <= a < |idx| && idx[a] == i;
    var b :| 0 <= b < |idx| && idx[b] == j;
    assert NamesWhere(fs, p)[a] == fs[i].name && NamesWhere(fs, p)[b] == fs[j].name;
  }

  /** `Converter`: the capability data never change after construction (`const`); the
      readiness status and the pending readiness timer do. */
  class Converter {
    const name: string
    const supportedFormats: seq<FormatInfo>
    const reportsProgress: bool
    /** Seconds after which a claim that is still not "ready" reverts to "not-ready". */
    const timeout: nat
    var status: WorkerStatus
    /** The handle `setTimeout` returned, cleared by `clearTimeout`. */
    var timeoutId: Option<nat>
    /** Whether the runtime still holds the revert callback (it runs at most once). */
    var timerPending: bool

    ghost predicate Valid()
      reads this
    {
      timerPending ==> timeoutId.Some?
    }

    /** The constructor runs `startTimeout`; `timerId` is the handle the runtime returns. */
    constructor (name: string, supportedFormats: seq<FormatInfo>, reportsProgress: bool, timeout: nat, timerId: nat)
      ensures Valid()
      ensures this.name == name && this.supportedFormats == supportedFormats
      ensures this.reportsProgress == reportsProgress && this.timeout == timeout
      ensures status == NotReady && timeoutId == Some(timerId) && timerPending
    {
      this.name := name;
      this.supportedFormats := supportedFormats;
      this.reportsProgress := reportsProgress;
      this.timeout := timeout;
      status := NotReady;
      timeoutId := Some(timerId);
      timerPending := true;
    }

    /** The timer callback, delivered by the runtime after `timeout` seconds: anything but
        "ready" becomes "not-ready". A cleared timer never fires. */
    method TimeoutElapsed()
      requires Valid()
      modifies this
      ensures Valid() && !timerPending && timeoutId == old(timeoutId)
      ensures !old(timerPending) ==> status == old(status)
      ensures old(timerPending) ==> status == (if old(status) == Ready then Ready else NotReady)
    {
      if timerPending {
        timerPending := false;
        if status != Ready {
          status := NotReady;
        }
      }
    }

    /** `clearTimeout`: cancels the pending revert and forgets the handle. */
    method ClearTimeout()
      requires Valid()
      modifies this
      ensures Valid() && timeoutId == None && !timerPending && status == old(status)
    {
      if timeoutId.Some? {
        timerPending := false;
        timeoutId := None;
      }
    }

    /** A backend starts fetching its engine. */
    method PreloadStarted()
      requires Valid()
      modifies this
      ensures Valid() && status == Downloading
      ensures timeoutId == old(timeoutId) && timerPending == old(timerPending)
    {
      status := Downloading;
    }

    /** The engine loaded: the timer is cleared, then the status becomes "ready". */
    method PreloadSucceeded()
      requires Valid()
      modifies this
      ensures Valid() && status == Ready && timeoutId == None && !timerPending
    {
      ClearTimeout();
      status := Ready;
    }

    /** The engine failed to load: the timer is cleared, then the status becomes "error". */
    method PreloadFailed()
      requires Valid()
      modifies this
      ensures Valid() && status == Error && timeoutId == None && !timerPending
    {
      ClearTimeout();
      status := Error;
    }

    /** `formatStrings(predicate?)`: the names of the formats satisfying the predicate, or of
        all formats when there is none, in list order. */
    function FormatStrings(p: Option<FormatInfo -> bool>): (r: seq<string>)
      ensures p.None? ==> |r| == |supportedFormats| && forall i :: 0 <= i < |r| ==> r[i] == supportedFormats[i].name
      ensures p.Some? ==> |r| == |Positions(supportedFormats, p.value)|
                          && forall i :: 0 <= i < |r| ==> r[i] == supportedFormats[Positions(supportedFormats, p.value)[i]].name
      ensures p.Some? ==> forall n :: n in r <==> exists i :: 0 <= i < |supportedFormats| && supportedFormats[i].name == n && p.value(supportedFormats[i])
    {
      match p
      case None => Names(supportedFormats)
      case Some(q) => NamesWhere(supportedFormats, q)
    }

    /** Whether `format` is one of this converter's format strings. */
    predicate Lists(format: string) {
      exists i :: 0 <= i < |supportedFormats| && supportedFormats[i].name == format
    }

    /** The base `convert`, which every backend overrides. */
    method BaseConvert(inputName: string, to: string) returns (r: Result<OutFile, string>)
      ensures r == Failure("Not implemented")
    {
      r := Failure("Not implemented");
    }

    /** The base `cancel`, which every backend overrides. */
    method BaseCancel(inputName: string) returns (r: Result<(), string>)
      ensures r == Failure("Not implemented")
    {
      r := Failure("Not implemented");
    }

    /** The base health check: a backend without a probe is always usable. */
    method IsValid() returns (ok: bool)
      ensures ok
    {
      ok := true;
    }
  }

  /** The converter lists one of `formats`. */
  predicate ListsAny(c: Converter, formats: seq<string>) {
    exists f :: f in formats && c.Lists(f)
  }

  /** The filter `(c) => formats.some((f) => c.formatStrings().includes(f))`. */
  function ListingAny(formats: seq<string>): Converter -> bool {
    (c: Converter) => ListsAny(c, formats)
  }

  lemma ListsIff(c: Converter, format: string)
    ensures c.Lists(format) <==> format in c.FormatStrings(None)
  {
    var r := c.FormatStrings(None);
    if format in r {
      var i :| 0 <= i < |r| && r[i] == format;
      assert c.supportedFormats[i].name == format;
    }
    if c.Lists(format) {
      var i :| 0 <= i < |c.supportedFormats| && c.supportedFormats[i].name == format;
      assert r[i] == format;
    }
  }

  /** The filter `(c) => c.formatStrings().includes(format)`. */
  function ListsFormat(format: string): Converter -> bool {
    (c: Converter) => c.Lists(format)
  }

  /** `converters.filter((c) => c.formatStrings().includes(format))`: the converters listing a
      format, in registry order. */
  function Supporting(cs: seq<Converter>, format: string): (r: seq<Converter>)
    ensures |r| <= |cs|
    ensures |r| == |Positions(cs, ListsFormat(format))|
    ensures forall i :: 0 <= i < |r| ==> r[i] == cs[Positions(cs, ListsFormat(format))[i]]
    ensures forall i :: 0 <= i < |r| ==> r[i] in cs && r[i].Lists(format)
    ensures forall i :: 0 <= i < |cs| && cs[i].Lists(format) ==> cs[i] in r
  {
    FilterMembers(cs, ListsFormat(format));
    Filter(cs, ListsFormat(format))
  }

  /** A lone converter listing the format is selected. */
  lemma SupportingOnly(c: Converter, format: string)
    requires c.Lists(format)
    ensures Supporting([c], format) == [c]
  {
    assert ListsFormat(format)(c);
    assert [c][..0] == [];
  }

  /** No converter supports a format exactly when none lists it. */
  lemma SupportingEmpty(cs: seq<Converter>, format: string)
    ensures Supporting(cs, format) == [] <==> forall j :: 0 <= j < |cs| ==> !cs[j].Lists(format)
  {
    var r := Supporting(cs, format);
    if r != [] {
      assert r[0] in cs;
    }
  }

  /** A status claim left at "downloading" reverts to "not-ready" when the timer fires. */
  method StuckDownloadReverts(name: string, formats: seq<FormatInfo>) returns (s: WorkerStatus)
    ensures s == NotReady
  {
    var c := new Converter(name, formats, false, 30, 1);
    c.PreloadStarted();
    c.TimeoutElapsed();
    s := c.status;
  }

  /** A backend that finished loading stays "ready": its timer was cleared. */
  method LoadedStaysReady(name: string, formats: seq<FormatInfo>) returns (s: WorkerStatus)
    ensures s == Ready
  {
    var c := new Converter(name, formats, false, 30, 1);
    c.PreloadStarted();
    c.PreloadSucceeded();
    c.TimeoutElapsed();
    s := c.status;
  }

  /** A load failure is not overwritten by the timer either. */
  method FailedStaysError(name: string, formats: seq<FormatInfo>) returns (s: WorkerStatus)
    ensures s == Error
  {
    var c := new Converter(name, formats, false, 30, 1);
    c.PreloadStarted();
    c.PreloadFailed();
    c.TimeoutElapsed();
    s := c.status;
  }
}
