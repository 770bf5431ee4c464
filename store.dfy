/** The file list of src/lib/store/index.svelte.ts: how added files are routed (source format,
    default target, archives converted as one job or expanded), the derived `ready` and
    `results` flags, the batch download, and the locale fallback. */
module FileStore {
  import opened Wrappers
  import opened Text
  import opened Sorting
  import opened ConverterBase
  import opened VertFiles
  import AppSettings

  /** `_add`'s archive test: the lowercased name ends in ".zip", or the MIME type is one of
      the two zip types. */
  predicate IsZipInput(f: InputFile) {
    EndsWith(ToLower(f.name), ".zip") || f.mime == "application/zip" || f.mime == "application/x-zip-compressed"
  }

  /** The archive test ignores the letter case of the extension and the MIME type. */
  lemma ZipByExtension(f: InputFile)
    requires EndsWith(f.name, ".zip") || EndsWith(f.name, ".ZIP")
    ensures IsZipInput(f)
  {
    var n := |f.name|;
    var low := ToLower(f.name);
    assert low[n - 4..] == ".zip";
  }

  /** `.find((c) => c.formatStrings().includes(format))`: the first converter listing a format. */
  function FirstListing(cs: seq<Converter>, format: string): (r: Option<Converter>)
    ensures r.Some? ==> exists k :: 0 <= k < |cs| && cs[k] == r.value && cs[k].Lists(format)
                                    && forall j :: 0 <= j < k ==> !cs[j].Lists(format)
    ensures r.None? ==> forall j :: 0 <= j < |cs| ==> !cs[j].Lists(format)
  {
    var k := FirstIndex(cs, (c: Converter) => c.Lists(format));
    if k.Some? then Some(cs[k.value]) else None
  }

  /** Whether some converter lists a format does not depend on the registry's order. */
  lemma FirstListingPermutation(a: seq<Converter>, b: seq<Converter>, format: string)
    requires multiset(a) == multiset(b)
    ensures FirstListing(a, format).None? <==> FirstListing(b, format).None?
  {
    if FirstListing(a, format).Some? {
      var k :| 0 <= k < |a| && a[k].Lists(format);
      assert a[k] in multiset(b);
    }
    if FirstListing(b, format).Some? {
      var k :| 0 <= k < |b| && b[k].Lists(format);
      assert b[k] in multiset(a);
    }
  }

  /** `converter.formatStrings().find((f) => f !== format)`: the default target. */
  function DefaultTarget(c: Converter, format: string): (r: Option<string>)
    ensures r.Some? ==> c.Lists(r.value) && r.value != format
    ensures r.Some? ==> exists k :: 0 <= k < |c.supportedFormats| && c.supportedFormats[k].name == r.value
                                    && forall j :: 0 <= j < k ==> c.supportedFormats[j].name == format
    ensures r.None? ==> forall j :: 0 <= j < |c.supportedFormats| ==> c.supportedFormats[j].name == format
  {
    var names := Names(c.supportedFormats);
    var k := FirstIndex(names, (f: string) => f != format);
    if k.Some? then Some(names[k.value]) else None
  }

  /** The target a regular file is added with, given the registry after sorting, or None when
      it is not added: no converter means the file keeps its own format; a converter whose
      only format is the file's own means nothing to convert to. */
  function RegularTarget(sorted: seq<Converter>, format: string): (r: Option<string>)
    ensures FirstListing(sorted, format).None? ==> r == Some(format)
    ensures FirstListing(sorted, format).Some? ==> r == DefaultTarget(FirstListing(sorted, format).value, format)
  {
    match FirstListing(sorted, format)
    case None => Some(format)
    case Some(c) => DefaultTarget(c, format)
  }

  /** A job as the regular route lists it: its name, target, converters and bytes. */
  datatype Listed = Listed(name: string, to: string, converters: seq<Converter>, data: seq<bv8>)

  /** The job the regular route lists for `file` once the registry is sorted to `sorted`, or
      None when the file is not listed. */
  function NewJob(sorted: seq<Converter>, file: InputFile): Option<Listed> {
    var format := FormatOf(file.name);
    match RegularTarget(sorted, format)
    case None => None
    case Some(t) => Some(Listed(NormalizeExtension(file.name), DotPrefixed(t), Supporting(sorted, format), file.data))
  }

  /** The job an archive converted as one becomes: the archive's own name and bytes, target
      ".zip", and the converters it is restricted to. */
  function ArchiveJob(file: InputFile, converters: seq<Converter>): Listed {
    Listed(NormalizeExtension(file.name), ".zip", converters, file.data)
  }

  /** `vf` is an idle job holding exactly what `l` describes. */
  predicate IsListed(vf: VertFile, l: Listed)
    reads vf
  {
    vf.name == l.name && vf.to == l.to && vf.converters == l.converters && vf.data == l.data
    && vf.result == None && !vf.processing
  }

  /** `fs` is `base` followed by one job per entry of `listed`, in order. */
  predicate ListsAfter(fs: seq<VertFile>, base: seq<VertFile>, listed: seq<Listed>)
    reads set f | f in fs
  {
    |fs| == |base| + |listed| && fs[..|base|] == base
    && forall i :: 0 <= i < |listed| ==> IsListed(fs[|base| + i], listed[i])
  }

  lemma ListsAfterSnoc(fs: seq<VertFile>, base: seq<VertFile>, listed: seq<Listed>, vf: VertFile, l: Listed)
    requires ListsAfter(fs, base, listed) && IsListed(vf, l)
    ensures ListsAfter(fs + [vf], base, listed + [l])
  {
    var fs' := fs + [vf];
    assert fs'[..|base|] == fs[..|base|];
    assert forall i :: |base| <= i < |fs| ==> fs'[i] == fs[i];
  }

  /** Where the member-by-member fallback stands: the registry as last sorted, the jobs listed
      so far, and the nested archives left pending. */
  datatype Expansion = Expansion(registry: seq<Converter>, listed: seq<Listed>, pending: seq<InputFile>)

  /** One member of the fallback: a nested archive is left pending; any other member sorts the
      registry by its format and is listed as the regular route lists it. */
  function ExpandStep(ex: Expansion, m: InputFile, byNative: string -> ((Converter, Converter) -> int)): (r: Expansion)
    ensures multiset(r.registry) == multiset(ex.registry)
  {
    if IsZipInput(m) then ex.(pending := ex.pending + [m])
    else
      var sorted := SortBy(ex.registry, byNative(FormatOf(m.name)));
      match NewJob(sorted, m)
      case None => ex.(registry := sorted)
      case Some(l) => Expansion(sorted, ex.listed + [l], ex.pending)
  }

  /** The fallback over the members, in order, from the registry `reg`. */
  function Expand(reg: seq<Converter>, members: seq<InputFile>, byNative: string -> ((Converter, Converter) -> int)): (ex: Expansion)
    ensures multiset(ex.registry) == multiset(reg)
    ensures |ex.listed| + |ex.pending| <= |members|
    decreases |members|
  {
    if members == [] then Expansion(reg, [], [])
    else ExpandStep(Expand(reg, members[..|members| - 1], byNative), members[|members| - 1], byNative)
  }

  /** The fallback leaves exactly the nested archives pending, in member order. */
  lemma {:induction false} ExpandPending(reg: seq<Converter>, members: seq<InputFile>, byNative: string -> ((Converter, Converter) -> int))
    ensures Expand(reg, members, byNative).pending == Filter(members, IsZipInput)
    decreases |members|
  {
    if members != [] {
      var init, m := members[..|members| - 1], members[|members| - 1];
      ExpandPending(reg, init, byNative);
    }
  }

  lemma ExpandSnoc(reg: seq<Converter>, members: seq<InputFile>, i: nat, byNative: string -> ((Converter, Converter) -> int))
    requires i < |members|
    ensures Expand(reg, members[..i + 1], byNative) == ExpandStep(Expand(reg, members[..i], byNative), members[i], byNative)
  {
    assert members[..i + 1][..i] == members[..i];
  }

  /** The job of a file no converter lists: its normalised name, its own format, no converter. */
  function OwnJob(m: InputFile): Listed {
    Listed(NormalizeExtension(m.name), FormatOf(m.name), [], m.data)
  }

  /** A member whose format no converter lists is listed as its own job. */
  lemma NewJobUnlisted(sorted: seq<Converter>, m: InputFile)
    requires FirstListing(sorted, FormatOf(m.name)).None?
    ensures NewJob(sorted, m) == Some(OwnJob(m))
  {
    SupportingEmpty(sorted, FormatOf(m.name));
  }

  /** One step of the fallback on a member no converter lists appends that member's job. */
  lemma ExpandStepUnlisted(prev: Expansion, m: InputFile, byNative: string -> ((Converter, Converter) -> int))
    requires !IsZipInput(m)
    requires FirstListing(prev.registry, FormatOf(m.name)).None?
    ensures var ex := ExpandStep(prev, m, byNative);
            ex.pending == prev.pending && ex.listed == prev.listed + [OwnJob(m)]
  {
    var format := FormatOf(m.name);
    var sorted := SortBy(prev.registry, byNative(format));
    FirstListingPermutation(prev.registry, sorted, format);
    NewJobUnlisted(sorted, m);
  }

  /** `listed` holds the own job of every member, in member order. */
  predicate OwnJobs(listed: seq<Listed>, members: seq<InputFile>) {
    |listed| == |members| && forall i :: 0 <= i < |members| ==> listed[i] == OwnJob(members[i])
  }

  /** Own jobs for all members but the last, followed by the last member's. */
  lemma OwnJobsSnoc(prev: seq<Listed>, members: seq<InputFile>)
    requires members != [] && OwnJobs(prev, members[..|members| - 1])
    ensures OwnJobs(prev + [OwnJob(members[|members| - 1])], members)
  {
    assert forall i :: 0 <= i < |prev| ==> prev[i] == OwnJob(members[i]);
    MappedSnoc(members, prev, OwnJob);
  }

  /** With no converter for any member, every member is listed on its own, keeping its own
      format and with no converter, in member order. */
  lemma {:induction false} ExpandUnlisted(reg: seq<Converter>, members: seq<InputFile>, byNative: string -> ((Converter, Converter) -> int))
    requires forall i :: 0 <= i < |members| ==> !IsZipInput(members[i])
    requires forall i :: 0 <= i < |members| ==> FirstListing(reg, FormatOf(members[i].name)).None?
    ensures var ex := Expand(reg, members, byNative);
            OwnJobs(ex.listed, members) && ex.pending == []
    decreases |members|
  {
    if members != [] {
      var init := members[..|members| - 1];
      assert forall i :: 0 <= i < |init| ==> init[i] == members[i];
      ExpandUnlisted(reg, init, byNative);
      var prev := Expand(reg, init, byNative);
      FirstListingPermutation(reg, prev.registry, FormatOf(members[|members| - 1].name));
      ExpandStepUnlisted(prev, members[|members| - 1], byNative);
      OwnJobsSnoc(prev.listed, members);
    }
  }

  /** Where the archive scan stands: the registry as last sorted, the names of the converters
      found so far (a set, in insertion order), and whether some member is incompatible. */
  datatype ScanState = ScanState(registry: seq<Converter>, used: seq<string>, incompatible: bool)

  /** The filter `(c) => c.name === name`. */
  function NameIs(name: string): Converter -> bool {
    (c: Converter) => c.name == name
  }

  /** `convertersUsed.add(name)`. */
  function AddName(used: seq<string>, n: string): (r: seq<string>)
    ensures forall x :: x in r <==> x in used || x == n
  {
    if n in used then used else used + [n]
  }

  /** One member of the scan: a nested archive is incompatible; otherwise the registry is
      sorted by `byNative(format)` and the first converter listing the format is recorded, or
      the member is incompatible. */
  function ScanStep(st: ScanState, format: string, byNative: string -> ((Converter, Converter) -> int)): (r: ScanState)
    ensures multiset(r.registry) == multiset(st.registry)
  {
    if format == ".zip" then st.(incompatible := true)
    else
      var sorted := SortBy(st.registry, byNative(format));
      match FirstListing(sorted, format)
      case None => ScanState(sorted, st.used, true)
      case Some(c) => ScanState(sorted, AddName(st.used, c.name), st.incompatible)
  }

  /** A member is incompatible when it is an archive itself or no converter lists its format. */
  predicate Incompatible(reg: seq<Converter>, format: string) {
    format == ".zip" || forall j :: 0 <= j < |reg| ==> !reg[j].Lists(format)
  }

  /** Some member format is incompatible (member by member, in scan order). */
  predicate AnyIncompatible(reg: seq<Converter>, formats: seq<string>)
    decreases |formats|
  {
    formats != [] && (AnyIncompatible(reg, formats[..|formats| - 1]) || Incompatible(reg, formats[|formats| - 1]))
  }

  /** `AnyIncompatible` is: some member is incompatible. */
  lemma {:induction false} AnyIncompatibleIff(reg: seq<Converter>, formats: seq<string>)
    ensures AnyIncompatible(reg, formats) <==> exists i :: 0 <= i < |formats| && Incompatible(reg, formats[i])
    decreases |formats|
  {
    if formats != [] {
      var init, last := formats[..|formats| - 1], formats[|formats| - 1];
      AnyIncompatibleIff(reg, init);
      if exists i :: 0 <= i < |formats| && Incompatible(reg, formats[i]) {
        var i :| 0 <= i < |formats| && Incompatible(reg, formats[i]);
        if i < |init| {
          assert formats[i] == init[i];
        }
      }
      if exists i :: 0 <= i < |init| && Incompatible(reg, init[i]) {
        var i :| 0 <= i < |init| && Incompatible(reg, init[i]);
        assert formats[i] == init[i];
      }
    }
  }

  /** One step marks the archive incompatible exactly when it already was or the member is,
      judged against any permutation of the registry. */
  lemma StepIncompatible(reg: seq<Converter>, st: ScanState, format: string, byNative: string -> ((Converter, Converter) -> int))
    requires multiset(st.registry) == multiset(reg)
    ensures ScanStep(st, format, byNative).incompatible <==> st.incompatible || Incompatible(reg, format)
  {
    if format != ".zip" {
      var sorted := SortBy(st.registry, byNative(format));
      FirstListingPermutation(sorted, reg, format);
      if FirstListing(reg, format).Some? {
        var k :| 0 <= k < |reg| && reg[k].Lists(format);
      }
    }
  }

  /** The scan over the members' formats, from the registry `reg`. It only reorders the
      registry, and it marks the archive incompatible exactly when some member is, so the
      verdict does not depend on `byNative`. */
  function Scan(reg: seq<Converter>, formats: seq<string>, byNative: string -> ((Converter, Converter) -> int)): (r: ScanState)
    ensures multiset(r.registry) == multiset(reg)
    ensures r.incompatible <==> AnyIncompatible(reg, formats)
    decreases |formats|
  {
    if formats == [] then ScanState(reg, [], false)
    else
      var init, last := formats[..|formats| - 1], formats[|formats| - 1];
      var st := Scan(reg, init, byNative);
      StepIncompatible(reg, st, last, byNative);
      ScanStep(st, last, byNative)
  }

  lemma ScanSnoc(reg: seq<Converter>, formats: seq<string>, i: nat, byNative: string -> ((Converter, Converter) -> int))
    requires i < |formats|
    ensures Scan(reg, formats[..i + 1], byNative) == ScanStep(Scan(reg, formats[..i], byNative), formats[i], byNative)
  {
    assert formats[..i + 1][..i] == formats[..i];
  }

  /** The member formats of an archive, as `_handleZipFile` derives them. */
  function EntryFormats(es: seq<ZipEntry>): (r: seq<string>)
    ensures |r| == |es| && forall i :: 0 <= i < |es| ==> r[i] == FormatOf(es[i].filename)
  {
    seq(|es|, i requires 0 <= i < |es| => FormatOf(es[i].filename))
  }

  /** Every recorded name is the name of a registry converter listing some member's format. */
  lemma {:induction false} ScanUsedNames(reg: seq<Converter>, formats: seq<string>, byNative: string -> ((Converter, Converter) -> int))
    ensures forall x :: x in Scan(reg, formats, byNative).used ==>
              exists j, i :: 0 <= j < |reg| && 0 <= i < |formats| && reg[j].name == x && reg[j].Lists(formats[i])
    decreases |formats|
  {
    if formats != [] {
      var init, last := formats[..|formats| - 1], formats[|formats| - 1];
      var st := Scan(reg, init, byNative);
      ScanUsedNames(reg, init, byNative);
      assert forall i :: 0 <= i < |init| ==> formats[i] == init[i];
      forall x | x in Scan(reg, formats, byNative).used
        ensures exists j, i :: 0 <= j < |reg| && 0 <= i < |formats| && reg[j].name == x && reg[j].Lists(formats[i])
      {
        if x in st.used {
          var j, i :| 0 <= j < |reg| && 0 <= i < |init| && reg[j].name == x && reg[j].Lists(init[i]);
          assert formats[i] == init[i];
        } else {
          var sorted := SortBy(st.registry, byNative(last));
          var c := FirstListing(sorted, last).value;
          assert x == c.name;
          var k :| 0 <= k < |sorted| && sorted[k] == c && c.Lists(last);
          assert c in multiset(reg);
          var j :| 0 <= j < |reg| && reg[j] == c;
          assert formats[|formats| - 1] == last;
        }
      }
    }
  }

  /** An archive is one job when exactly one converter name was recorded and no member is
      incompatible. */
  predicate ConvertAsOne(st: ScanState) {
    |st.used| == 1 && !st.incompatible
  }

  /** A downloadable entry of the batch archive. */
  datatype DownloadEntry = DownloadEntry(name: string, content: Content)

  /** The batch download: the archive's name and its entries. */
  datatype Download = Download(archiveName: string, entries: seq<DownloadEntry>)

  /** What `downloadAll` reads of a listed file: its name and its result. */
  datatype Job = Job(name: string, result: Option<OutFile>)

  /** A finished file's entry: its name without the last extension, plus the dot-prefixed
      result format, with the result's content. */
  function EntryOf(name: string, res: OutFile): (e: DownloadEntry)
    ensures ExtensionMatch(name).Some? ==> e.name == InitSegments(name) + DotPrefixed(res.to)
    ensures ExtensionMatch(name).None? ==> e.name == name + DotPrefixed(res.to)
    ensures EndsWith(e.name, DotPrefixed(res.to)) && e.content == res.content
  {
    var a, b := ReplaceExtension(name, ""), DotPrefixed(res.to);
    StripExtension(name);
    SuffixOfConcat(a, b);
    DownloadEntry(a + b, res.content)
  }

  /** A job's entry, if it has a result. */
  function Candidate(j: Job): (r: Option<DownloadEntry>)
    ensures r.Some? <==> j.result.Some?
    ensures j.result.Some? ==> r.value == EntryOf(j.name, j.result.value)
  {
    if j.result.Some? then Some(EntryOf(j.name, j.result.value)) else None
  }

  /** Each job's entry, if it has a result. */
  function Candidates(js: seq<Job>): (r: seq<Option<DownloadEntry>>)
    ensures |r| == |js| && forall i :: 0 <= i < |js| ==> r[i] == Candidate(js[i])
  {
    seq(|js|, i requires 0 <= i < |js| => Candidate(js[i]))
  }

  /** The test "has a result". */
  function HasResult(): Job -> bool {
    (j: Job) => j.result.Some?
  }

  /** The entries of `downloadAll`: one for each job with a result, in list order; the others
      are skipped. */
  function Entries(js: seq<Job>): (r: seq<DownloadEntry>)
    ensures |r| == |Positions(js, HasResult())|
    ensures forall i :: 0 <= i < |r| ==>
              var j := js[Positions(js, HasResult())[i]];
              j.result.Some? && r[i] == EntryOf(j.name, j.result.value)
  {
    var cs := Candidates(js);
    PositionsAgree(cs, IsPresent(), js, HasResult());
    SomesPositions(cs);
    Somes(cs)
  }

  lemma EntriesAreSomes(js: seq<Job>)
    ensures Entries(js) == Somes(Candidates(js))
  {
  }

  /** With every job finished, there is one entry per job, in list order. */
  lemma EntriesAll(js: seq<Job>)
    requires forall i :: 0 <= i < |js| ==> js[i].result.Some?
    ensures |Entries(js)| == |js|
    ensures forall i :: 0 <= i < |js| ==> Entries(js)[i] == EntryOf(js[i].name, js[i].result.value)
  {
    SomesAll(Candidates(js));
  }

  /** With no job finished, there is nothing to pack. */
  lemma EntriesNone(js: seq<Job>)
    requires forall i :: 0 <= i < |js| ==> js[i].result.None?
    ensures Entries(js) == []
  {
    SomesNone(Candidates(js));
  }

  /** Every entry is that of some finished job. */
  lemma EntriesFinished(js: seq<Job>)
    ensures forall e :: e in Entries(js) ==>
              exists i :: 0 <= i < |js| && js[i].result.Some? && e == EntryOf(js[i].name, js[i].result.value)
  {
    var r, idx := Entries(js), Positions(js, HasResult());
    forall e | e in r
      ensures exists i :: 0 <= i < |js| && js[i].result.Some? && e == EntryOf(js[i].name, js[i].result.value)
    {
      var k :| 0 <= k < |r| && r[k] == e;
      var i := idx[k];
      assert js[i].result.Some? && e == EntryOf(js[i].name, js[i].result.value);
    }
  }

  /** In a mixed list, every finished job has its entry, and two finished jobs keep their
      order. */
  lemma EntriesKeepOrder(js: seq<Job>, a: nat, b: nat)
    requires a < b < |js| && js[a].result.Some? && js[b].result.Some?
    ensures exists x, y :: 0 <= x < y < |Entries(js)|
              && Entries(js)[x] == EntryOf(js[a].name, js[a].result.value)
              && Entries(js)[y] == EntryOf(js[b].name, js[b].result.value)
  {
    var idx := Positions(js, HasResult());
    assert HasResult()(js[a]) && HasResult()(js[b]);
    assert a in idx && b in idx;
    var x :| 0 <= x < |idx| && idx[x] == a;
    var y :| 0 <= y < |idx| && idx[y] == b;
    IncreasingOrder(idx, x, y);
    EntryAt(js, x, a);
    EntryAt(js, y, b);
    assert 0 <= x < y < |Entries(js)|;
  }

  /** In a strictly increasing sequence a smaller value sits at an earlier index. */
  lemma IncreasingOrder(idx: seq<nat>, x: nat, y: nat)
    requires x < |idx| && y < |idx| && idx[x] < idx[y]
    requires forall i, j :: 0 <= i < j < |idx| ==> idx[i] < idx[j]
    ensures x < y
  {
  }

  lemma EntryAt(js: seq<Job>, x: nat, a: nat)
    requires x < |Positions(js, HasResult())| && Positions(js, HasResult())[x] == a
    ensures a < |js| && x < |Entries(js)| && js[a].result.Some?
    ensures Entries(js)[x] == EntryOf(js[a].name, js[a].result.value)
  {
  }

  /** The batch archive name: the stored template (or "ConvertOnline_%name%") with `%date%`
      filled in, `%name%` replaced by "Multi" and `%extension%` dropped, plus ".zip". */
  function ArchiveName(storedTemplate: string, date: string): (r: string)
    ensures EndsWith(r, ".zip")
    ensures storedTemplate == "" ==> r == "ConvertOnline_Multi.zip"
    ensures storedTemplate != "" && '%' !in storedTemplate ==> r == storedTemplate + ".zip"
  {
    var template := if storedTemplate == "" then "ConvertOnline_%name%" else storedTemplate;
    var filled := FillTemplate(template, date, "Multi", "");
    DefaultArchiveName(date);
    assert storedTemplate != "" && '%' !in storedTemplate ==> filled == storedTemplate by {
      if storedTemplate != "" && '%' !in storedTemplate { MarklessTemplateFilled(storedTemplate, date); }
    }
    SuffixOfConcat(filled, ".zip");
    filled + ".zip"
  }

  /** A template without a '%' is left as it is. */
  lemma MarklessTemplateFilled(t: string, date: string)
    requires '%' !in t
    ensures FillTemplate(t, date, "Multi", "") == t
  {
    ReplaceAllSkips(t, "%date%", date);
    ReplaceAllSkips(t, "%name%", "Multi");
    ReplaceAllSkips(t, "%extension%", "");
  }

  lemma DefaultArchiveName(date: string)
    ensures FillTemplate("ConvertOnline_%name%", date, "Multi", "") + ".zip" == "ConvertOnline_Multi.zip"
  {
    DefaultTemplateFilled(date);
    MultiZip();
  }

  lemma MultiZip()
    ensures "ConvertOnline_Multi" + ".zip" == "ConvertOnline_Multi.zip"
  {
  }

  /** The default template has no `%date%` or `%extension%` and one `%name%`. */
  lemma DefaultTemplateFilled(date: string)
    ensures FillTemplate("ConvertOnline_%name%", date, "Multi", "") == "ConvertOnline_Multi"
  {
    DefaultHasNoDate(date);
    DefaultNameFilled();
    FilledHasNoExtension();
  }

  lemma DefaultHasNoDate(date: string)
    ensures ReplaceAll("ConvertOnline_%name%", "%date%", date) == "ConvertOnline_%name%"
  {
    var a, pn := "ConvertOnline_", "%name%";
    assert a + pn == "ConvertOnline_%name%";
    assert '%' !in a;
    ReplaceAllPrefix(a, pn, "%date%", date);
    assert pn[1] != "%date%"[1];
    ReplaceAllMismatch(pn, "%date%", date);
  }

  lemma DefaultNameFilled()
    ensures ReplaceAll("ConvertOnline_%name%", "%name%", "Multi") == "ConvertOnline_Multi"
  {
    var a, pn := "ConvertOnline_", "%name%";
    assert a + pn == "ConvertOnline_%name%";
    assert '%' !in a;
    ReplaceAllPrefix(a, pn, pn, "Multi");
    ReplaceAllWhole(pn, "Multi");
    MultiStem();
  }

  lemma MultiStem()
    ensures "ConvertOnline_" + "Multi" == "ConvertOnline_Multi"
  {
  }

  lemma FilledHasNoExtension()
    ensures ReplaceAll("ConvertOnline_Multi", "%extension%", "") == "ConvertOnline_Multi"
  {
    assert '%' !in "ConvertOnline_Multi";
    ReplaceAllSkips("ConvertOnline_Multi", "%extension%", "");
  }

  /** A template with one `%name%` and no other '%' gets "Multi" in its place. */
  lemma ArchiveNameFillsName(a: string, b: string, date: string)
    requires '%' !in a && '%' !in b
    ensures ArchiveName(a + "%name%" + b, date) == a + "Multi" + b + ".zip"
  {
    var t := a + "%name%" + b;
    DateSkipsNameMark(a, b, date);
    NameMarkFilled(a, b);
    var v := a + "Multi" + b;
    assert '%' !in "Multi";
    assert '%' !in v;
    ReplaceAllSkips(v, "%extension%", "");
  }

  /** A `%name%` mark between two '%'-free strings holds no `%date%`. */
  lemma DateSkipsNameMark(a: string, b: string, date: string)
    requires '%' !in a && '%' !in b
    ensures ReplaceAll(a + "%name%" + b, "%date%", date) == a + "%name%" + b
  {
    var u := "%name%" + b;
    ConcatAssoc(a, "%name%", b);
    ReplaceAllPrefix(a, u, "%date%", date);
    NameMarkSkipsDate(b, date);
  }

  lemma NameMarkSkipsDate(b: string, date: string)
    requires '%' !in b
    ensures ReplaceAll("%name%" + b, "%date%", date) == "%name%" + b
  {
    var u := "%name%" + b;
    assert !StartsWith(u, "%date%") by { assert u[..6][1] != "%date%"[1]; }
    assert u[1..] == "name" + ("%" + b);
    ReplaceAllPrefix("name", "%" + b, "%date%", date);
    ReplaceAllLoneMark(b, "%date%", date);
    FirstSplit(u);
  }

  /** A `%name%` mark between two '%'-free strings becomes "Multi". */
  lemma NameMarkFilled(a: string, b: string)
    requires '%' !in a && '%' !in b
    ensures ReplaceAll(a + "%name%" + b, "%name%", "Multi") == a + "Multi" + b
  {
    forall k | 0 <= k < |a| ensures !StartsWith((a + "%name%" + b)[k..], "%name%") {
      assert (a + "%name%" + b)[k..][0] == a[k];
    }
    ReplaceAllLeftmost(a, b, "%name%", "Multi");
    ReplaceAllSkips(b, "%name%", "Multi");
  }

  /** The template the settings start with names the same archive as the fallback used when
      no template is stored. */
  lemma DefaultSettingsArchiveName(pubVertdUrl: string, date: string)
    ensures ArchiveName(AppSettings.Defaults(pubVertdUrl).filenameFormat, date) == ArchiveName("", date)
    ensures ArchiveName(AppSettings.Defaults(pubVertdUrl).filenameFormat, date) == "ConvertOnline_Multi.zip"
  {
    assert AppSettings.Defaults(pubVertdUrl).filenameFormat == "ConvertOnline_%name%";
  }

  /** The locales the interface is translated into. */
  const AvailableLocales: seq<string> := ["en", "es", "fr", "de", "it", "hr", "id", "tr", "ja", "ko", "el", "zh-Hans", "zh-Hant", "pt-BR"]

  /** `updateLocale`'s choice: a translated locale is kept, any other falls back to English. */
  function ResolveLocale(requested: string): (r: string)
    ensures r in AvailableLocales
    ensures requested in AvailableLocales ==> r == requested
    ensures requested !in AvailableLocales ==> r == "en"
  {
    if requested in AvailableLocales then requested else "en"
  }

  /** Resolving a resolved locale changes nothing. */
  lemma ResolveLocaleIdempotent(requested: string)
    ensures ResolveLocale(ResolveLocale(requested)) == ResolveLocale(requested)
  {
  }

  /** `files`: the list of jobs and the shared converter registry, which routing sorts in
      place. */
  class Files {
    var files: seq<VertFile>
    var registry: seq<Converter>

    constructor (registry: seq<Converter>)
      ensures files == [] && this.registry == registry
    {
      files := [];
      this.registry := registry;
    }

    /** Every converter any file may use (`requiredConverters`): the flattened lists without
        repetitions. */
    function RequiredConverters(): (r: seq<Converter>)
      reads this
      ensures forall i, j :: 0 <= i < |files| && 0 <= j < |files[i].converters| ==> files[i].converters[j] in r
      ensures forall k :: 0 <= k < |r| ==> ListedBySome(files, r[k])
      ensures forall a, b :: 0 <= a < b < |r| ==> r[a] != r[b]
    {
      Dedup(Flatten(files))
    }

    /** `ready`: some file is listed, every required converter is "ready" and no file is
        processing. */
    predicate Ready()
      reads this, set f | f in files, set i, j | 0 <= i < |files| && 0 <= j < |files[i].converters| :: files[i].converters[j]
    {
      var req := RequiredConverters();
      |files| > 0 && (forall k :: 0 <= k < |req| ==> req[k].status == WorkerStatus.Ready)
      && forall i :: 0 <= i < |files| ==> !files[i].processing
    }

    /** `results`: some file is listed and every file has a result. */
    predicate Results()
      reads this, set f | f in files
    {
      |files| > 0 && forall i :: 0 <= i < |files| ==> files[i].result.Some?
    }

    /** `_add(vertFile)`: an existing job is listed as is. */
    method AddVertFile(vf: VertFile)
      modifies this
      ensures files == old(files) + [vf] && registry == old(registry)
    {
      files := files + [vf];
    }

    /** `_add(file)` for a file that is not an archive: the registry is sorted by
        `byNative(format)`, then the file is listed with its default target, with its own
        format when no converter lists it, or not at all when its converter offers nothing
        else. */
    method AddRegular(file: InputFile, byNative: string -> ((Converter, Converter) -> int)) returns (added: Option<VertFile>)
      modifies this
      ensures registry == SortBy(old(registry), byNative(FormatOf(file.name)))
      ensures old(files) <= files
      ensures RegularTarget(registry, FormatOf(file.name)).None? ==> added.None? && files == old(files)
      ensures RegularTarget(registry, FormatOf(file.name)).Some? ==>
                added.Some? && fresh(added.value) && files == old(files) + [added.value]
                && added.value.to == DotPrefixed(RegularTarget(registry, FormatOf(file.name)).value)
      ensures added.Some? ==> added.value.name == NormalizeExtension(file.name) && added.value.data == file.data
      ensures added.Some? ==> added.value.converters == Supporting(registry, FormatOf(file.name))
      ensures added.Some? ==> added.value.result == None && !added.value.processing
      ensures added.None? <==> NewJob(registry, file).None?
      ensures added.Some? ==> IsListed(added.value, NewJob(registry, file).value)
    {
      var format := FormatOf(file.name);
      registry := SortBy(registry, byNative(format));
      var target := RegularTarget(registry, format);
      if target.None? {
        return None;
      }
      var vf := new VertFile(file, target.value, registry);
      files := files + [vf];
      added := Some(vf);
    }

    /** One member of the scan loop of `_handleZipFile`, as `ScanStep` describes it. */
    method ScanMember(format: string, byNative: string -> ((Converter, Converter) -> int), used: seq<string>, incompatible: bool)
      returns (used': seq<string>, incompatible': bool)
      modifies this
      ensures ScanState(registry, used', incompatible') == ScanStep(ScanState(old(registry), used, incompatible), format, byNative)
      ensures files == old(files)
    {
      used', incompatible' := used, incompatible;
      if format == ".zip" {
        incompatible' := true;
      } else {
        registry := SortBy(registry, byNative(format));
        var c := FirstListing(registry, format);
        if c.Some? {
          used' := AddName(used, c.value.name);
        } else {
          incompatible' := true;
        }
      }
    }

    /** The scan loop of `_handleZipFile`: it sorts the registry for every member that is not
        an archive and records the converter found, or that the archive is incompatible. */
    method ScanMembers(es: seq<ZipEntry>, byNative: string -> ((Converter, Converter) -> int))
      returns (used: seq<string>, incompatible: bool)
      modifies this
      ensures Scan(old(registry), EntryFormats(es), byNative) == ScanState(registry, used, incompatible)
      ensures files == old(files)
    {
      var formats := EntryFormats(es);
      used, incompatible := [], false;
      var i := 0;
      while i < |es|
        invariant 0 <= i <= |es|
        invariant Scan(old(registry), formats[..i], byNative) == ScanState(registry, used, incompatible)
        invariant files == old(files)
      {
        ScanSnoc(old(registry), formats, i, byNative);
        used, incompatible := ScanMember(formats[i], byNative, used, incompatible);
        i := i + 1;
      }
      assert formats[..|es|] == formats;
    }

    /** `this._add(member)` in the fallback loop: a nested archive is handed back as pending
        (its extraction is not awaited); any other member takes the regular route. */
    method AddMember(m: InputFile, byNative: string -> ((Converter, Converter) -> int), ghost ex: Expansion, ghost base: seq<VertFile>, pending: seq<InputFile>)
      returns (pending': seq<InputFile>)
      requires registry == ex.registry && pending == ex.pending && ListsAfter(files, base, ex.listed)
      modifies this
      ensures var next := ExpandStep(ex, m, byNative);
              registry == next.registry && pending' == next.pending && ListsAfter(files, base, next.listed)
      ensures old(files) <= files && forall i :: |old(files)| <= i < |files| ==> fresh(files[i])
    {
      if IsZipInput(m) {
        pending' := pending + [m];
      } else {
        pending' := pending;
        ghost var fs0 := files;
        var added := AddRegular(m, byNative);
        assert ListsAfter(fs0, base, ex.listed);
        if added.Some? {
          ListsAfterSnoc(fs0, base, ex.listed, added.value, NewJob(registry, m).value);
        }
      }
    }

    /** The loop of `_handleZipFile`'s fallback: every member is added on its own, in order. */
    method AddMembers(members: seq<InputFile>, byNative: string -> ((Converter, Converter) -> int))
      returns (pending: seq<InputFile>)
      modifies this
      ensures var ex := Expand(old(registry), members, byNative);
              registry == ex.registry && pending == ex.pending && ListsAfter(files, old(files), ex.listed)
      ensures pending == Filter(members, IsZipInput)
    {
      pending := [];
      var k := 0;
      ghost var ex := Expand(old(registry), [], byNative);
      assert files[..|old(files)|] == old(files);
      while k < |members|
        invariant 0 <= k <= |members|
        invariant ex == Expand(old(registry), members[..k], byNative)
        invariant registry == ex.registry && pending == ex.pending && ListsAfter(files, old(files), ex.listed)
      {
        ExpandSnoc(old(registry), members, k, byNative);
        var m := members[k];
        ghost var next := ExpandStep(ex, m, byNative);
        pending := AddMember(m, byNative, ex, old(files), pending);
        ex, k := next, k + 1;
      }
      assert members[..|members|] == members;
      ExpandPending(old(registry), members, byNative);
    }

    /** An archive converted as one job: listed with target ".zip" and restricted to the
        registry's converters of the given name. */
    method AddArchiveJob(file: InputFile, name: string)
      modifies this
      ensures registry == old(registry)
      ensures ListsAfter(files, old(files), [ArchiveJob(file, Filter(registry, NameIs(name)))])
      ensures fresh(files[|old(files)|]) && forall i :: |old(files)| <= i < |files| ==> fresh(files[i])
    {
      var vf := new VertFile.WithConverters(file, ".zip", Filter(registry, NameIs(name)));
      assert vf.to == ".zip";
      files := files + [vf];
      assert files[..|old(files)|] == old(files);
    }

    /** The body of `_handleZipFile` once the members are extracted: an archive whose members
        all go through one converter is listed as one job restricted to the converters of that
        name; otherwise every member is added on its own, and the members that are archives
        themselves are returned, their extraction still pending. */
    method AddExtracted(file: InputFile, es: seq<ZipEntry>, byNative: string -> ((Converter, Converter) -> int))
      returns (pending: seq<InputFile>)
      modifies this
      ensures old(files) <= files
      ensures var st := Scan(old(registry), EntryFormats(es), byNative);
              if ConvertAsOne(st) then
                pending == [] && registry == st.registry
                && ListsAfter(files, old(files), [ArchiveJob(file, Filter(st.registry, NameIs(st.used[0])))])
              else
                var ex := Expand(st.registry, Members(es), byNative);
                pending == ex.pending && registry == ex.registry && ListsAfter(files, old(files), ex.listed)
                && pending == Filter(Members(es), IsZipInput)
    {
      var used, incompatible := ScanMembers(es, byNative);
      if |used| == 1 && !incompatible {
        AddArchiveJob(file, used[0]);
        return [];
      }
      pending := AddMembers(Members(es), byNative);
    }

    /** `_handleZipFile`: a failed extraction changes nothing and is handed on; otherwise the
        extracted members are added as `AddExtracted` says. */
    method HandleZipFile(file: InputFile, entries: Result<seq<ZipEntry>, string>, byNative: string -> ((Converter, Converter) -> int))
      returns (r: Result<seq<InputFile>, string>)
      modifies this
      ensures entries.Failure? ==> r == Failure(entries.error) && files == old(files) && registry == old(registry)
      ensures entries.Success? ==> r.Success? && old(files) <= files
      ensures entries.Success? && ConvertAsOne(Scan(old(registry), EntryFormats(entries.value), byNative)) ==>
                var st := Scan(old(registry), EntryFormats(entries.value), byNative);
                r == Success([]) && registry == st.registry
                && ListsAfter(files, old(files), [ArchiveJob(file, Filter(st.registry, NameIs(st.used[0])))])
      ensures entries.Success? && !ConvertAsOne(Scan(old(registry), EntryFormats(entries.value), byNative)) ==>
                var ex := Expand(Scan(old(registry), EntryFormats(entries.value), byNative).registry, Members(entries.value), byNative);
                r == Success(ex.pending) && registry == ex.registry && ListsAfter(files, old(files), ex.listed)
                && r.value == Filter(Members(entries.value), IsZipInput)
    {
      if entries.Failure? {
        return Failure(entries.error);
      }
      var pending := AddExtracted(file, entries.value, byNative);
      r := Success(pending);
    }

    /** `_add(file)`: an archive is scanned (`entries` is its extraction; other files ignore
        it) and a failed extraction is reported; any other file takes the regular route. The
        nested archives whose handling is still pending are returned. */
    method Add(file: InputFile, entries: Result<seq<ZipEntry>, string>, byNative: string -> ((Converter, Converter) -> int))
      returns (pending: seq<InputFile>, reported: Option<string>)
      modifies this
      ensures !IsZipInput(file) ==>
                var sorted := SortBy(old(registry), byNative(FormatOf(file.name)));
                pending == [] && reported == None && registry == sorted
                && (NewJob(sorted, file).None? ==> files == old(files))
                && (NewJob(sorted, file).Some? ==> ListsAfter(files, old(files), [NewJob(sorted, file).value]))
      ensures IsZipInput(file) && entries.Failure? ==>
                pending == [] && reported == Some(entries.error) && files == old(files) && registry == old(registry)
      ensures IsZipInput(file) && entries.Success? && ConvertAsOne(Scan(old(registry), EntryFormats(entries.value), byNative)) ==>
                var st := Scan(old(registry), EntryFormats(entries.value), byNative);
                pending == [] && reported == None && registry == st.registry
                && ListsAfter(files, old(files), [ArchiveJob(file, Filter(st.registry, NameIs(st.used[0])))])
      ensures IsZipInput(file) && entries.Success? && !ConvertAsOne(Scan(old(registry), EntryFormats(entries.value), byNative)) ==>
                var ex := Expand(Scan(old(registry), EntryFormats(entries.value), byNative).registry, Members(entries.value), byNative);
                pending == ex.pending && reported == None && registry == ex.registry && ListsAfter(files, old(files), ex.listed)
      ensures IsZipInput(file) && entries.Success? ==> forall i :: 0 <= i < |pending| ==> IsZipInput(pending[i])
      ensures old(files) <= files
    {
      pending, reported := [], None;
      if IsZipInput(file) {
        var r := HandleZipFile(file, entries, byNative);
        if r.Failure? {
          reported := Some(r.error);
        } else {
          pending := r.value;
        }
      } else {
        var added := AddRegular(file, byNative);
        if added.Some? {
          assert files[..|old(files)|] == old(files);
        }
      }
    }

    /** What `downloadAll` reads of the listed files. */
    function Jobs(): (r: seq<Job>)
      reads this, set f | f in files
      ensures |r| == |files| && forall i :: 0 <= i < |files| ==> r[i] == Job(files[i].name, files[i].result)
    {
      seq(|files|, i reads this, files requires 0 <= i < |files| => Job(files[i].name, files[i].result))
    }

    /** `downloadAll`: nothing for an empty list; otherwise the entries of the files with a
        result and the archive name. */
    method DownloadAll(storedTemplate: string, date: string) returns (r: Option<Download>)
      ensures |files| == 0 ==> r.None?
      ensures |files| > 0 ==> r == Some(Download(ArchiveName(storedTemplate, date), Entries(Jobs())))
    {
      if |files| == 0 {
        return None;
      }
      ghost var js := Jobs();
      ghost var cs := Candidates(js);
      var dl: seq<DownloadEntry> := [];
      var i := 0;
      while i < |files|
        invariant 0 <= i <= |files|
        invariant dl == Somes(cs[..i])
      {
        SomesPrefix(cs, i, dl);
        var f := files[i];
        assert js[i] == Job(f.name, f.result);
        if f.result.Some? {
          assert cs[i] == Some(EntryOf(f.name, f.result.value));
          dl := dl + [EntryOf(f.name, f.result.value)];
        } else {
          assert cs[i] == None;
        }
        i := i + 1;
      }
      assert cs[..|files|] == cs;
      EntriesAreSomes(js);
      r := Some(Download(ArchiveName(storedTemplate, date), dl));
    }
  }

  /** The members of an archive as `_handleZipFile` re-adds them. */
  function Members(es: seq<ZipEntry>): (r: seq<InputFile>)
    ensures |r| == |es| && forall i :: 0 <= i < |es| ==> r[i] == InputFile(es[i].filename, "application/octet-stream", es[i].data)
  {
    seq(|es|, i requires 0 <= i < |es| => InputFile(es[i].filename, "application/octet-stream", es[i].data))
  }

  lemma PrefixTransitive<T>(a: seq<T>, b: seq<T>, c: seq<T>)
    requires a <= b && b <= c
    ensures a <= c
  {
    assert c[..|a|] == b[..|a|];
  }

  /** `c` is one of the converters of one of the files. */
  ghost predicate ListedBySome(fs: seq<VertFile>, c: Converter) {
    exists i, j :: 0 <= i < |fs| && 0 <= j < |fs[i].converters| && c == fs[i].converters[j]
  }

  /** Every file's converters, one list after another. */
  function Flatten(fs: seq<VertFile>): (r: seq<Converter>)
    ensures forall i, j :: 0 <= i < |fs| && 0 <= j < |fs[i].converters| ==> fs[i].converters[j] in r
    ensures forall k :: 0 <= k < |r| ==> ListedBySome(fs, r[k])
  {
    if fs == [] then []
    else
      var rest := Flatten(fs[1..]);
      assert forall i :: 0 < i < |fs| ==> fs[i] == fs[1..][i - 1];
      var head := fs[0].converters;
      var r := head + rest;
      assert forall j :: 0 <= j < |head| ==> r[j] == head[j];
      forall k | 0 <= k < |r|
        ensures ListedBySome(fs, r[k])
      {
        if k < |head| {
          assert r[k] == fs[0].converters[k];
        } else {
          assert r[k] == rest[k - |head|];
          var i, j :| 0 <= i < |fs[1..]| && 0 <= j < |fs[1..][i].converters| && rest[k - |head|] == fs[1..][i].converters[j];
          assert fs[1..][i] == fs[i + 1];
        }
      }
      r
  }

  /** `ready` in terms of the files themselves: deduplicating the converter lists loses
      nothing. */
  lemma ReadyIff(store: Files)
    ensures store.Ready() <==>
      |store.files| > 0
      && (forall i, j :: 0 <= i < |store.files| && 0 <= j < |store.files[i].converters| ==> store.files[i].converters[j].status == WorkerStatus.Ready)
      && (forall i :: 0 <= i < |store.files| ==> !store.files[i].processing)
  {
    var fs := store.files;
    var flat := Flatten(fs);
    var req := store.RequiredConverters();
    if forall k :: 0 <= k < |req| ==> req[k].status == WorkerStatus.Ready {
      forall i, j | 0 <= i < |fs| && 0 <= j < |fs[i].converters|
        ensures fs[i].converters[j].status == WorkerStatus.Ready
      {
        var c := fs[i].converters[j];
        assert c in flat;
        var m :| 0 <= m < |flat| && flat[m] == c;
        assert c in req;
      }
    }
    if forall i, j :: 0 <= i < |fs| && 0 <= j < |fs[i].converters| ==> fs[i].converters[j].status == WorkerStatus.Ready {
      forall k | 0 <= k < |req| ensures req[k].status == WorkerStatus.Ready {
        assert req[k] in flat;
        var m :| 0 <= m < |flat| && flat[m] == req[k];
      }
    }
  }

  /** When every file has a result, `downloadAll` packs every file. */
  lemma ResultsDownloadEverything(store: Files)
    requires store.Results()
    ensures |Entries(store.Jobs())| == |store.files|
    ensures forall i :: 0 <= i < |store.files| ==>
              Entries(store.Jobs())[i] == EntryOf(store.files[i].name, store.files[i].result.value)
  {
    EntriesAll(store.Jobs());
  }
}
