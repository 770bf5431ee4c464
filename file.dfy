/** The per-file job record of src/lib/types/file.svelte.ts: routing a file to a backend,
    the convert/cancel lifecycle, the zip fan-out with its progress, the content hash and the
    download name. */
module VertFiles {
  import opened Wrappers
  import opened Text
  import opened Sorting
  import opened ConverterBase

  /** A file handed in by the browser: its name, MIME type and bytes. */
  datatype InputFile = InputFile(name: string, mime: string, data: seq<bv8>)

  /** An archive entry as the zip extractor yields it. */
  datatype ZipEntry = ZipEntry(filename: string, data: seq<bv8>)

  /** What `findConverter` demands of a converter for a `from` to `to` job: both formats
      listed, and the first descriptor of one of the two marked native. */
  predicate Routable(c: Converter, from: string, to: string) {
    var fs := c.supportedFormats;
    var f := FirstIndex(fs, NamedFormat(from));
    var t := FirstIndex(fs, NamedFormat(to));
    c.Lists(from) && c.Lists(to) && f.Some? && t.Some? && (fs[f.value].isNative || fs[t.value].isNative)
  }

  /** The search `(f) => f.name === format`. */
  function NamedFormat(format: string): FormatInfo -> bool {
    (x: FormatInfo) => x.name == format
  }

  /** The search of `findConverter` over the file's converters. */
  function RoutableFor(from: string, to: string): Converter -> bool {
    (c: Converter) => Routable(c, from, to)
  }

  /** The filter callback of `findConverters` as written: it returns an array, and every
      array is truthy. */
  function AlwaysKept(): Converter -> bool {
    (c: Converter) => true
  }

  /** In a list without repeated names, the search finds the one descriptor of a name. */
  lemma FindUniqueName(fs: seq<FormatInfo>, i: nat)
    requires i < |fs|
    requires forall a, b :: 0 <= a < b < |fs| ==> fs[a].name != fs[b].name
    ensures FirstIndex(fs, NamedFormat(fs[i].name)) == Some(i)
  {
    var k := FirstIndex(fs, NamedFormat(fs[i].name));
    assert NamedFormat(fs[i].name)(fs[i]);
    assert k.Some? && k.value <= i;
    assert fs[k.value].name == fs[i].name;
    assert i <= k.value;
  }

  /** A routable converter has a descriptor of each format, one of the two native. */
  lemma RoutableWitness(c: Converter, from: string, to: string)
    requires Routable(c, from, to)
    ensures exists i, j ::
      0 <= i < |c.supportedFormats| && 0 <= j < |c.supportedFormats|
        && c.supportedFormats[i].name == from && c.supportedFormats[j].name == to
        && (c.supportedFormats[i].isNative || c.supportedFormats[j].isNative)
  {
    var fs := c.supportedFormats;
    var i := FirstIndex(fs, NamedFormat(from)).value;
    var j := FirstIndex(fs, NamedFormat(to)).value;
    assert NamedFormat(from)(fs[i]) && NamedFormat(to)(fs[j]);
  }

  /** With each name listed once, any two such descriptors make the converter routable. */
  lemma WitnessRoutable(c: Converter, i: nat, j: nat)
    requires i < |c.supportedFormats| && j < |c.supportedFormats|
    requires c.supportedFormats[i].isNative || c.supportedFormats[j].isNative
    requires forall a, b :: 0 <= a < b < |c.supportedFormats| ==> c.supportedFormats[a].name != c.supportedFormats[b].name
    ensures Routable(c, c.supportedFormats[i].name, c.supportedFormats[j].name)
  {
    FindUniqueName(c.supportedFormats, i);
    FindUniqueName(c.supportedFormats, j);
  }

  /** For a converter that lists each name once, routability is: some descriptor of each
      format exists and one of the two is native. */
  lemma RoutableUniqueNames(c: Converter, from: string, to: string)
    requires forall i, j :: 0 <= i < j < |c.supportedFormats| ==> c.supportedFormats[i].name != c.supportedFormats[j].name
    ensures Routable(c, from, to) <==>
      exists i, j :: 0 <= i < |c.supportedFormats| && 0 <= j < |c.supportedFormats|
        && c.supportedFormats[i].name == from && c.supportedFormats[j].name == to
        && (c.supportedFormats[i].isNative || c.supportedFormats[j].isNative)
  {
    var fs := c.supportedFormats;
    if exists i, j :: 0 <= i < |fs| && 0 <= j < |fs| && fs[i].name == from && fs[j].name == to && (fs[i].isNative || fs[j].isNative) {
      var i, j :| 0 <= i < |fs| && 0 <= j < |fs| && fs[i].name == from && fs[j].name == to && (fs[i].isNative || fs[j].isNative);
      WitnessRoutable(c, i, j);
    }
    if Routable(c, from, to) {
      RoutableWitness(c, from, to);
    }
  }

  /** A two-format converter the scenarios below route through. */
  method PngJpegConverter() returns (c: Converter)
    ensures fresh(c) && c.status == NotReady
    ensures Routable(c, ".png", ".jpg")
  {
    var fs := [Fmt(".png", true, true), Fmt(".jpg", true, true)];
    assert fs[0].name == ".png" && fs[1].name == ".jpg";
    c := new Converter("imagemagick", fs, false, 30, 1);
  }

  lemma MulCancelLt(d: int, a: int, b: int)
    requires d > 0 && d * a < d * b
    ensures a < b
  {
  }

  /** The quotient lies in any bracket the dividend's multiples put it in. */
  lemma DivBounds(a: int, d: int, lo: int, hi: int)
    requires d > 0 && d * lo <= a < d * hi
    ensures lo <= a / d < hi
  {
    var q := a / d;
    assert d * q <= a < d * (q + 1);
    MulCancelLt(d, lo, q + 1);
    MulCancelLt(d, q, hi);
  }

  /** `Math.round(sum / n)` for a non-negative sum: the quotient rounded half up. */
  function RoundedMean(sum: int, n: nat): int
    requires 0 < n
  {
    (2 * sum + n) / (2 * n)
  }

  /** The progress of a zip job with `done` of its `n` members finished: every finished
      member's slot holds 100 and the others 0. */
  function ZipProgress(done: nat, n: nat): (p: int)
    requires 0 < n && done <= n
    ensures 0 <= p <= 100
    ensures done == n ==> p == 100
    ensures p == 0 <==> 200 * done < n
  {
    var a := 200 * done + n;
    DivBounds(a, 2 * n, 0, 101);
    if done == n then DivBounds(a, 2 * n, 100, 101); RoundedMean(100 * done, n)
    else if 200 * done < n then DivBounds(a, 2 * n, 0, 1); RoundedMean(100 * done, n)
    else DivBounds(a, 2 * n, 1, 101); RoundedMean(100 * done, n)
  }

  /** More finished members never lower the progress. */
  lemma ZipProgressMonotone(a: nat, b: nat, n: nat)
    requires 0 < n && a <= b <= n
    ensures ZipProgress(a, n) <= ZipProgress(b, n)
  {
    var x, y, d := 200 * a + n, 200 * b + n, 2 * n;
    var qx, qy := x / d, y / d;
    assert d * qx <= x && y < d * (qy + 1);
    MulCancelLt(d, qx, qy + 1);
  }

  /** The per-member progress slots once the first `done` of `n` members finished. */
  function Slots(done: nat, n: nat): seq<int> {
    seq(n, j => if j < done then 100 else 0)
  }

  /** Finishing the next member fills its slot, and the mean of the slots is the zip
      progress. */
  lemma SlotsStep(i: nat, n: nat)
    requires i < n
    ensures Slots(i, n)[i := 100] == Slots(i + 1, n)
    ensures RoundedMean(Sum(Slots(i + 1, n)), n) == ZipProgress(i + 1, n)
  {
    SlotsSum(i + 1, n);
  }

  lemma {:induction false} SlotsSum(done: nat, n: nat)
    requires done <= n
    ensures Sum(Slots(done, n)) == 100 * done
  {
    if n > 0 {
      assert Slots(done, n)[..n - 1] == Slots(if done == n then n - 1 else done, n - 1);
      SlotsSum(if done == n then n - 1 else done, n - 1);
    }
  }

  function Sum(s: seq<int>): int {
    if s == [] then 0 else Sum(s[..|s| - 1]) + s[|s| - 1]
  }

  /** The first member of an archive whose start sees the cancel flag: the first one when the
      file is already cancelled, otherwise `cancelFrom`. */
  function CancelPoint(cancelled: bool, cancelFrom: nat): (c: nat)
    ensures cancelled ==> c == 0
    ensures !cancelled ==> c == cancelFrom
  {
    if cancelled then 0 else cancelFrom
  }

  /** The first member the backend failed on. */
  function FirstFailing(outcomes: seq<Result<OutFile, string>>): (r: Option<nat>)
    ensures r.Some? ==> r.value < |outcomes| && outcomes[r.value].Failure?
    ensures r.Some? ==> forall j :: 0 <= j < r.value ==> outcomes[j].Success?
    ensures r.None? ==> forall j :: 0 <= j < |outcomes| ==> outcomes[j].Success?
  {
    FirstIndex(outcomes, (o: Result<OutFile, string>) => o.Failure?)
  }

  lemma FirstFailingAt(outcomes: seq<Result<OutFile, string>>, i: nat)
    requires i < |outcomes| && outcomes[i].Failure?
    requires forall j :: 0 <= j < i ==> outcomes[j].Success?
    ensures FirstFailing(outcomes) == Some(i)
  {
  }

  /** A converted member as the archive stores it: its name and its bytes. */
  function Packed(o: OutFile): Member {
    Member(o.name, o.content)
  }

  /** The re-packed members, named as the backend named them. */
  function Repacked(outcomes: seq<Result<OutFile, string>>): (r: seq<Member>)
    requires forall i :: 0 <= i < |outcomes| ==> outcomes[i].Success?
    ensures |r| == |outcomes|
    ensures forall i :: 0 <= i < |outcomes| ==> r[i].name == outcomes[i].value.name && r[i].content == outcomes[i].value.content
  {
    seq(|outcomes|, i requires 0 <= i < |outcomes| => Packed(outcomes[i].value))
  }

  /** The hex digests of the chunks, in stream order. */
  function Digests(chunks: seq<seq<bv8>>, digest: seq<bv8> -> string): (r: seq<string>)
    ensures |r| == |chunks| && forall i :: 0 <= i < |chunks| ==> r[i] == digest(chunks[i])
  {
    seq(|chunks|, i requires 0 <= i < |chunks| => digest(chunks[i]))
  }

  /** `Array.from(hashes).sort().join("")` over the set of digests. */
  function CombineDigests(ds: seq<string>): string {
    Concat(SortBy(Dedup(ds), LexCompare))
  }

  /** The combined hash depends only on which digests occur: neither their order nor their
      repetition matters. */
  lemma CombineDigestsSetOnly(a: seq<string>, b: seq<string>)
    requires forall x :: x in a <==> x in b
    ensures CombineDigests(a) == CombineDigests(b)
  {
    var da, db := Dedup(a), Dedup(b);
    var sa, sb := SortBy(da, LexCompare), SortBy(db, LexCompare);
    SortedStringsIncrease(da);
    SortedStringsIncrease(db);
    forall x ensures x in sa <==> x in sb {
      assert x in sa <==> x in multiset(sa);
      assert x in sb <==> x in multiset(sb);
      if x in da {
        var i :| 0 <= i < |da| && da[i] == x;
        assert x in a;
      }
      if x in a {
        var i :| 0 <= i < |a| && a[i] == x;
        assert x in da;
      }
      if x in db {
        var i :| 0 <= i < |db| && db[i] == x;
        assert x in b;
      }
      if x in b {
        var i :| 0 <= i < |b| && b[i] == x;
        assert x in db;
      }
    }
    IncreasingUnique(sa, sb);
  }

  /** A repeated chunk adds nothing to the hash. */
  lemma CombineDigestsRepeat(a: seq<string>, x: string)
    requires x in a
    ensures CombineDigests(a + [x]) == CombineDigests(a)
  {
    CombineDigestsSetOnly(a + [x], a);
  }

  /** The digests of two chunk lists holding the same chunks in another order combine to the
      same hash. */
  lemma HashIgnoresChunkOrder(c1: seq<seq<bv8>>, c2: seq<seq<bv8>>, digest: seq<bv8> -> string)
    requires multiset(c1) == multiset(c2)
    ensures CombineDigests(Digests(c1, digest)) == CombineDigests(Digests(c2, digest))
  {
    var d1, d2 := Digests(c1, digest), Digests(c2, digest);
    forall x ensures x in d1 <==> x in d2 {
      if x in d1 {
        var i :| 0 <= i < |d1| && d1[i] == x;
        assert c1[i] in multiset(c2);
        var j :| 0 <= j < |c2| && c2[j] == c1[i];
        assert d2[j] == x;
      }
      if x in d2 {
        var j :| 0 <= j < |d2| && d2[j] == x;
        assert c2[j] in multiset(c1);
        var i :| 0 <= i < |c1| && c1[i] == c2[j];
        assert d1[i] == x;
      }
    }
    CombineDigestsSetOnly(d1, d2);
  }

  /** A reordering of the converters listing one of `formats` holds exactly those. */
  lemma SortedFilterMembers(cs: seq<Converter>, formats: seq<string>, r: seq<Converter>)
    requires multiset(r) == multiset(Filter(cs, ListingAny(formats)))
    ensures forall i :: 0 <= i < |r| ==> r[i] in cs && ListsAny(r[i], formats)
    ensures forall i :: 0 <= i < |cs| && ListsAny(cs[i], formats) ==> cs[i] in r
  {
    FilterMembers(cs, ListingAny(formats));
    PermutedSelection(cs, ListingAny(formats), Filter(cs, ListingAny(formats)), r);
  }

  /** `VertFile`. The file itself, its identity and the converters it may use are fixed at
      construction; the target and the job state change. */
  class VertFile {
    /** The file name with its extension lowercased. */
    const name: string
    const data: seq<bv8>
    const converters: seq<Converter>
    var to: string
    var progress: real
    var result: Option<OutFile>
    var processing: bool
    var cancelled: bool

    /** `new VertFile(file, to)`: the eligible converters are the registry's converters that
        list the file's format, in registry order. */
    constructor (file: InputFile, to: string, registry: seq<Converter>)
      ensures this.name == NormalizeExtension(file.name) && From() == FormatOf(file.name) && '.' in this.name
      ensures this.to == DotPrefixed(to)
      ensures data == file.data
      ensures converters == Supporting(registry, FormatOf(file.name))
      ensures progress == 0.0 && result == None && !processing && !cancelled
    {
      var nm := NormalizeExtension(file.name);
      var format := FormatOf(file.name);
      var cs := Supporting(registry, format);
      var t := DotPrefixed(to);
      name := nm;
      data := file.data;
      this.to := t;
      converters := cs;
      progress := 0.0;
      result := None;
      processing := false;
      cancelled := false;
    }

    /** A file whose converter list is overridden right after construction
        (`vf.converters = ...`). */
    constructor WithConverters(file: InputFile, to: string, converters: seq<Converter>)
      ensures this.name == NormalizeExtension(file.name) && From() == FormatOf(file.name) && '.' in this.name
      ensures this.to == DotPrefixed(to)
      ensures data == file.data && this.converters == converters
      ensures progress == 0.0 && result == None && !processing && !cancelled
    {
      var nm := NormalizeExtension(file.name);
      var t := DotPrefixed(to);
      name := nm;
      data := file.data;
      this.to := t;
      this.converters := converters;
      progress := 0.0;
      result := None;
      processing := false;
      cancelled := false;
    }

    /** `from`: the lowercased text after the name's last dot, behind one dot. */
    function From(): (r: string)
      ensures StartsWith(r, ".") && '.' !in r[1..] && ToLower(r) == r
    {
      FormatOfShape(name);
      FormatOf(name)
    }

    predicate IsZip() {
      From() == ".zip"
    }

    /** The UI picks another target format. */
    method SetTarget(t: string)
      modifies this
      ensures to == t && progress == old(progress) && result == old(result)
      ensures processing == old(processing) && cancelled == old(cancelled)
    {
      to := t;
    }

    /** `findConverter`: for an archive the first eligible converter (the store only builds a
        zip job when one converter handles every member); otherwise the first routable one. */
    function FindConverter(): (r: Option<Converter>)
      reads this`to
      ensures IsZip() ==> r == (if |converters| > 0 then Some(converters[0]) else None)
      ensures !IsZip() && r.Some? ==>
                exists k :: 0 <= k < |converters| && converters[k] == r.value && Routable(converters[k], From(), to)
                            && forall j :: 0 <= j < k ==> !Routable(converters[j], From(), to)
      ensures !IsZip() && r.None? ==> forall j :: 0 <= j < |converters| ==> !Routable(converters[j], From(), to)
    {
      if IsZip() then (if |converters| > 0 then Some(converters[0]) else None)
      else
        var from, t := From(), to;
        var k := FirstIndex(converters, RoutableFor(from, t));
        if k.Some? then Some(converters[k.value]) else None
    }

    /** `findConverters(supportedFormats)` as written: the filter callback returns an array,
        which is always truthy, so the filter keeps every converter and only the sort by
        `byNative(from)` has an effect. */
    function FindConvertersAsWritten(supportedFormats: seq<string>, byNative: string -> ((Converter, Converter) -> int)): (r: seq<Converter>)
      ensures multiset(r) == multiset(converters)
    {
      FilterAll(converters, AlwaysKept());
      SortBy(Filter(converters, AlwaysKept()), byNative(From()))
    }

    /** `findConverters` as evidently intended (`.some` in the filter): the converters listing
        one of `supportedFormats`, ordered by `byNative(from)`. */
    function FindConverters(supportedFormats: seq<string>, byNative: string -> ((Converter, Converter) -> int)): (r: seq<Converter>)
      ensures forall i :: 0 <= i < |r| ==> r[i] in converters && ListsAny(r[i], supportedFormats)
      ensures forall i :: 0 <= i < |converters| && ListsAny(converters[i], supportedFormats) ==> converters[i] in r
    {
      var kept := Filter(converters, ListingAny(supportedFormats));
      var r := SortBy(kept, byNative(From()));
      SortedFilterMembers(converters, supportedFormats, r);
      r
    }

    /** `convert`, up to the await: refuses a file without converters or without a route,
        touching nothing; otherwise resets the job state and hands back the converter. */
    method StartConversion() returns (r: Result<Converter, string>)
      modifies this
      ensures |converters| == 0 ==> r == Failure("No converters found")
      ensures |converters| > 0 && old(FindConverter()).None? ==> r == Failure("No converter found")
      ensures r.Success? <==> |converters| > 0 && old(FindConverter()).Some?
      ensures r.Failure? ==> progress == old(progress) && result == old(result) && processing == old(processing) && cancelled == old(cancelled)
      ensures r.Success? ==> Some(r.value) == old(FindConverter())
      ensures r.Success? ==> result == None && progress == 0.0 && processing && !cancelled
      ensures to == old(to)
    {
      if |converters| == 0 {
        return Failure("No converters found");
      }
      var c := FindConverter();
      if c.None? {
        return Failure("No converter found");
      }
      result := None;
      progress := 0.0;
      processing := true;
      cancelled := false;
      r := Success(c.value);
    }

    /** `convert`, after the await on the backend (or on the zip fan-out): the outcome is
        stored, a failure is reported unless the job was cancelled, and the job stops. */
    method FinishConversion(outcome: Result<OutFile, string>) returns (ret: Option<OutFile>, reported: Option<string>)
      modifies this
      ensures !processing && cancelled == old(cancelled) && progress == old(progress) && to == old(to)
      ensures outcome.Success? ==> result == Some(outcome.value) && ret == result && reported == None
      ensures outcome.Failure? ==> result == None && ret == None
      ensures outcome.Failure? ==> reported == (if old(cancelled) then None else Some(outcome.error))
    {
      reported := None;
      if outcome.Success? {
        result := Some(outcome.value);
        ret := result;
      } else {
        if !cancelled {
          reported := Some(outcome.error);
        }
        result := None;
        ret := None;
      }
      processing := false;
    }

    /** One member finished: its slot is set to 100 and the rounded mean of the slots is
        computed. */
    static method MarkDone(fileProgress: array<int>, i: nat) returns (p: int)
      requires i < fileProgress.Length && fileProgress[..] == Slots(i, fileProgress.Length)
      modifies fileProgress
      ensures fileProgress[..] == Slots(i + 1, fileProgress.Length)
      ensures p == ZipProgress(i + 1, fileProgress.Length)
    {
      var n := fileProgress.Length;
      SlotsStep(i, n);
      fileProgress[i] := 100;
      assert fileProgress[..] == Slots(i + 1, n);
      p := RoundedMean(Sum(fileProgress[..]), n);
    }

    /** `convertZip`, with the members converted one after another: `outcomes[i]` is what the
        chosen backend returns for entry `i`, and `cancelFrom` is the first member whose start
        sees a cancel that arrives while the earlier members convert (`|outcomes|` or more when
        none arrives). A member that starts after cancellation fails with "Conversion
        cancelled"; the first failing member fails the whole archive; each finished member sets
        its progress slot to 100 and the file's progress to the rounded mean of the slots. The
        result is the archive of the converted members. */
    method ConvertZip(entries: Result<seq<ZipEntry>, string>, outcomes: seq<Result<OutFile, string>>, cancelFrom: nat)
      returns (r: Result<OutFile, string>)
      requires entries.Success? ==> |outcomes| == |entries.value|
      modifies this`progress
      ensures entries.Failure? ==> r == Failure(entries.error) && progress == old(progress)
      ensures entries.Success? ==>
                var c, f := CancelPoint(cancelled, cancelFrom), FirstFailing(outcomes);
                c < |outcomes| && (f.None? || c <= f.value) ==>
                  r == Failure("Conversion cancelled")
                  && progress == (if c == 0 then old(progress) else ZipProgress(c, |outcomes|) as real)
      ensures entries.Success? ==>
                var c, f := CancelPoint(cancelled, cancelFrom), FirstFailing(outcomes);
                f.Some? && f.value < c ==>
                  r == Failure(outcomes[f.value].error)
                  && progress == (if f.value == 0 then old(progress) else ZipProgress(f.value, |outcomes|) as real)
      ensures entries.Success? ==>
                var c, f := CancelPoint(cancelled, cancelFrom), FirstFailing(outcomes);
                f.None? && |outcomes| <= c ==>
                  r == Success(NewOutFile(ReplaceExtension(name, ".zip"), ".zip", Archive(Repacked(outcomes))))
                  && progress == (if |outcomes| == 0 then old(progress) else 100.0)
    {
      if entries.Failure? {
        return Failure(entries.error);
      }
      var n := |outcomes|;
      var fileProgress := new int[n](_ => 0);
      assert fileProgress[..] == Slots(0, n);
      var done: seq<Member> := [];
      var i := 0;
      while i < n
        invariant 0 <= i <= n
        invariant fileProgress[..] == Slots(i, n)
        invariant forall j :: 0 <= j < i ==> outcomes[j].Success?
        invariant |done| == i && forall j :: 0 <= j < i ==> done[j] == Packed(outcomes[j].value)
        invariant progress == if i == 0 then old(progress) else ZipProgress(i, n) as real
        invariant i <= CancelPoint(cancelled, cancelFrom)
      {
        if cancelled || cancelFrom <= i {
          assert CancelPoint(cancelled, cancelFrom) == i;
          assert FirstFailing(outcomes).None? || i <= FirstFailing(outcomes).value;
          return Failure("Conversion cancelled");
        }
        assert i < CancelPoint(cancelled, cancelFrom);
        var out := outcomes[i];
        if out.Failure? {
          FirstFailingAt(outcomes, i);
          return Failure(out.error);
        }
        done := done + [Packed(out.value)];
        var p := MarkDone(fileProgress, i);
        progress := p as real;
        i := i + 1;
      }
      assert done == Repacked(outcomes);
      assert FirstFailing(outcomes).None? && n <= CancelPoint(cancelled, cancelFrom);
      r := Success(NewOutFile(ReplaceExtension(name, ".zip"), ".zip", Archive(done)));
    }

    /** `cancel`, up to the await on the backend: nothing happens unless a job is running; a
        file without a route refuses; otherwise the file is marked cancelled first. */
    method BeginCancel() returns (r: Result<Option<Converter>, string>)
      modifies this`cancelled
      ensures !old(processing) ==> r == Success(None) && cancelled == old(cancelled)
      ensures old(processing) && FindConverter().None? ==> r == Failure("No converter found") && cancelled == old(cancelled)
      ensures old(processing) && FindConverter().Some? ==> r == Success(FindConverter()) && cancelled
    {
      if !processing {
        return Success(None);
      }
      var c := FindConverter();
      if c.None? {
        return Failure("No converter found");
      }
      cancelled := true;
      r := Success(c);
    }

    /** `cancel`, after the backend's cancel settled: on success the job stops without a
        result; a failure is reported and changes nothing. */
    method FinishCancel(outcome: Result<(), string>) returns (reported: Option<string>)
      modifies this
      ensures outcome.Success? ==> !processing && result == None && reported == None
      ensures outcome.Failure? ==> processing == old(processing) && result == old(result) && reported == Some(outcome.error)
      ensures cancelled == old(cancelled) && progress == old(progress) && to == old(to)
    {
      if outcome.Success? {
        processing := false;
        result := None;
        reported := None;
      } else {
        reported := Some(outcome.error);
      }
    }

    /** `hash`: the digests of the stream's chunks (`chunks`, in read order) are collected in
        an insertion-ordered set, then sorted and joined. */
    method Hash(chunks: seq<seq<bv8>>, digest: seq<bv8> -> string) returns (h: string)
      ensures h == CombineDigests(Digests(chunks, digest))
    {
      var hashes: seq<string> := [];
      var i := 0;
      while i < |chunks|
        invariant 0 <= i <= |chunks|
        invariant hashes == Dedup(Digests(chunks[..i], digest))
      {
        var hex := digest(chunks[i]);
        assert Digests(chunks[..i + 1], digest) == Digests(chunks[..i], digest) + [hex];
        if hex !in hashes {
          hashes := hashes + [hex];
        }
        i := i + 1;
      }
      assert chunks[..|chunks|] == chunks;
      h := Concat(SortBy(hashes, LexCompare));
    }

    /** The name `download` gives the result: the stored template (or the default one) with
        `%date%`, `%name%` (the name without its extension) and `%extension%` filled in,
        followed by the dot-prefixed result format. Without a result it refuses. */
    function DownloadName(storedTemplate: string, date: string): (r: Result<string, string>)
      reads this`result
      ensures r.Failure? <==> result.None?
      ensures r.Failure? ==> r.error == "No result found"
      ensures r.Success? ==> EndsWith(r.value, DotPrefixed(result.value.to))
    {
      match result
      case None => Failure("No result found")
      case Some(res) =>
        var template := if storedTemplate == "" then "Toolkitlife_%name%" else storedTemplate;
        Success(FillTemplate(template, date, ReplaceExtension(name, ""), LastSegment(name)) + DotPrefixed(res.to))
    }
  }

  /** As written, `findConverters` with formats none of the file's converters lists still
      returns all of them; as intended it returns none. */
  lemma FindConvertersKeepsUnlisted(vf: VertFile, byNative: string -> ((Converter, Converter) -> int))
    requires |vf.converters| > 0
    ensures |vf.FindConvertersAsWritten([], byNative)| == |vf.converters| > 0
    ensures vf.FindConverters([], byNative) == []
  {
  }

  /** For a file built by the constructor every converter lists the file's format, so with the
      default argument the intended filter keeps every converter as well. */
  lemma FindConvertersDefault(vf: VertFile, byNative: string -> ((Converter, Converter) -> int))
    requires forall i :: 0 <= i < |vf.converters| ==> vf.converters[i].Lists(vf.From())
    ensures multiset(vf.FindConverters([vf.From()], byNative)) == multiset(vf.converters)
  {
    assert forall i :: 0 <= i < |vf.converters| ==> ListsAny(vf.converters[i], [vf.From()]);
    FilterAll(vf.converters, ListingAny([vf.From()]));
  }

  /** A file records the registry's converters that list its format. */
  lemma ConstructedConvertersList(vf: VertFile, registry: seq<Converter>)
    requires vf.converters == Supporting(registry, vf.From())
    ensures forall i :: 0 <= i < |vf.converters| ==> vf.converters[i].Lists(vf.From())
  {
  }

  lemma PhotoFormat()
    ensures FormatOf("photo.png") == ".png"
  {
    LastDotUnique("photo.png", 5);
    assert "photo.png"[6..] == "png";
  }

  lemma JpegDotted()
    ensures DotPrefixed(".jpg") == ".jpg"
  {
    assert ".jpg"[..1] == ".";
  }

  /** The first converter a non-archive file lists is its route when it is routable. */
  lemma RouteThroughOnly(vf: VertFile, c: Converter)
    requires vf.converters == [c] && vf.From() != ".zip" && Routable(c, vf.From(), vf.to)
    ensures vf.FindConverter() == Some(c)
  {
    assert vf.converters[0] == c;
  }

  /** A fresh job converting "photo.png" to ".jpg" through one converter. */
  method NewPhotoJob() returns (vf: VertFile, c: Converter)
    ensures fresh(vf) && !vf.processing && !vf.cancelled && vf.result == None
    ensures |vf.converters| > 0 && vf.FindConverter() == Some(c)
  {
    c := PngJpegConverter();
    PhotoFormat();
    SupportingOnly(c, ".png");
    vf := new VertFile(InputFile("photo.png", "image/png", []), ".jpg", [c]);
    JpegDotted();
    RouteThroughOnly(vf, c);
  }

  /** A job cancelled while the backend runs ends without a result and without an error
      report, whatever the backend's pending conversion then rejects with. */
  method CancelledJobReportsNothing(backendError: string) returns (ret: Option<OutFile>, reported: Option<string>, processing: bool)
    ensures ret == None && reported == None && !processing
  {
    var vf, c := NewPhotoJob();
    var started := vf.StartConversion();
    var step := vf.BeginCancel();
    var _ := vf.FinishCancel(Success(()));
    ret, reported := vf.FinishConversion(Failure(backendError));
    processing := vf.processing;
  }

  /** The same job, not cancelled, reports the backend's error. */
  method FailedJobReportsError(backendError: string) returns (ret: Option<OutFile>, reported: Option<string>)
    ensures ret == None && reported == Some(backendError)
  {
    var vf, c := NewPhotoJob();
    var started := vf.StartConversion();
    ret, reported := vf.FinishConversion(Failure(backendError));
  }
}
