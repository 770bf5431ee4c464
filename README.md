# ConvertOnline conversion core, modelled in Dafny

ConvertOnline is a browser file converter. A dropped file becomes a job (`VertFile`). The
job is routed to one of four backends, and the backend's output becomes the job's result:

- **ffmpeg** converts audio in the page (WebAssembly).
- **ImageMagick** converts images in a Web Worker.
- **Pandoc** converts documents in a Web Worker.
- **vertd** converts video on a remote server, over HTTP and a WebSocket.

This project models the orchestration around the backends and proves properties of it:

- which formats each backend lists;
- how a file picks its backend and its default target;
- how a job moves between processing, cancelled and done;
- how a zip archive is converted as one job or expanded into its members;
- the arguments built for ffmpeg;
- the message exchanges with the workers and with the remote server;
- the remote server's rate-limit blocklist and instance selection;
- the detection of the largest allocatable buffer.

One Dafny module per source file:

| module | file | models |
|---|---|---|
| `ConverterBase` | `converter.dfy` | `FormatInfo`, the `Converter` base class and its readiness timer (src/lib/converters/converter.svelte.ts) |
| `VertFiles` | `file.dfy` | `VertFile`: routing, conversion, zip conversion, cancel, hash, download name (src/lib/types/file.svelte.ts) |
| `FileStore` | `store.dfy` | the file list: adding files, zip handling, `ready`/`results`, `downloadAll`, locale fallback (src/lib/store/index.svelte.ts) |
| `Vertd` | `vertd.dfy` | the vertd backend: progress estimate, blocklist, `vertdFetch`, socket protocol, cancel (src/lib/converters/vertd.svelte.ts) |
| `VertdSettings` | `vertd_settings.dfy` | `VertdInstance`: instance selection, load/set/save (src/lib/sections/settings/vertdSettings.svelte.ts) |
| `FFmpeg` | `ffmpeg.dfy` | the ffmpeg backend: command building, codec table, log classification, conversion and cancel (src/lib/converters/ffmpeg.svelte.ts) |
| `Magick` | `magick.dfy` | the ImageMagick backend: quality default, SVG path, worker exchange, cleanup (src/lib/converters/magick.svelte.ts) |
| `Pandoc` | `pandoc.dfy` | the Pandoc backend: worker exchange, error mapping, result format (src/lib/converters/pandoc.svelte.ts) |
| `Consts` | `consts.dfy` | `findFirstPositive`, `getMaxArrayBufferSize` and its memo (src/lib/util/consts.ts) |

Helper modules:

- `Wrappers`: `Option` and `Result`.
- `Text`: string operations modelled on the JavaScript ones used (the differences are under "## Left out").
- `Sorting`: `filter`, `find` and a stable sort.
- `Workers`: a Web Worker handle and the delivery of its events.
- `AppSettings`: the settings record.

How the model is built:

- State the source mutates is in classes with `modifies` clauses: a job, a backend, its active-conversion registry, the blocklist, a socket, a worker.
- What the source computes without mutation is in pure functions.
- Every `await` on something outside the page is a parameter of the method that models what follows it. Examples are a worker's replies, an upload's response, a clock reading, a digest, or a reachability probe.
- An event handler is a method of its own (`OnOpen`, `OnMessage`, `TimeoutElapsed`, ...).

Where the code differs from what its design promises, the model follows the code:

- A format descriptor's name is dot-prefixed but not lowercased (converter.svelte.ts:15-17). Only a file's own format is lowercased.
- A job's progress is reset to 0 when a conversion starts. Under a zip it can reach 100 before the last member finishes, because the mean is rounded. It is not monotone across conversions.
- `findConverters` does not filter at all (see Findings).

## Model

| member | source | states |
|---|---|---|
| Text.DotPrefixed | src/lib/types/file.svelte.ts:89 | the result starts with "."; a dotted string is kept, any other gains exactly one leading dot |
| Text.StripLeadingDot | src/lib/converters/vertd.svelte.ts:323 | a leading dot is removed (putting it back gives the input); a string without one is kept |
| Text.LastDot | src/lib/types/file.svelte.ts:13 | the index found holds a '.' with no '.' after it; none is found only when the string has no '.' |
| Text.LastSegment | src/lib/types/file.svelte.ts:13 | `split(".").pop()`: a dot-free suffix of the name, the whole name when it has no dot |
| Text.InitSegments | src/lib/converters/ffmpeg.svelte.ts:182 | `split(".").slice(0, -1).join(".")`: the name is this, a dot and the last segment; "" without a dot |
| Text.SegmentsJoin | src/lib/types/file.svelte.ts:83-87 | splitting `a + "." + b` with a dot-free `b` gives back `b` as last segment and `a` as the rest |
| Text.ExtensionMatch | src/lib/types/file.svelte.ts:204 | where `/\.[^/.]+$/` matches: at the last '.' (`LastDot`), which has at least one character after it and no '.' or '/' among them; no match means every '.' is followed by another '.' or a '/', or ends the name |
| Text.ReplaceExtension | src/lib/types/file.svelte.ts:204 | without a match the name is unchanged; with one, the text from the match on is replaced |
| Text.FormatOf | src/lib/types/file.svelte.ts:12-14 | a file's format always starts with "." |
| Text.FormatOfShape | src/lib/store/index.svelte.ts:267 | a format is a dot followed by a lowercase, dot-free text that ends the lowercased name |
| Text.FormatIsLoweredTail | src/lib/types/file.svelte.ts:12-14 | for a name with a dot, the format is the lowercased text from its last dot on |
| Text.ReplaceFormat | src/lib/types/file.svelte.ts:83-87 | replacing the text after the last dot by a lowercase dot-free extension gives a name of that format |
| Text.NormalizeExtension | src/lib/types/file.svelte.ts:83-87 | the rebuilt file name always has a dot and keeps the original's format |
| Text.NormalizeExtensionShape | src/lib/types/file.svelte.ts:83-87 | a name with a dot keeps its length and everything up to its extension; a name without one becomes "." plus its lowercase |
| Text.NormalizeExtensionIdempotent | src/lib/types/file.svelte.ts:83-87 | wrapping an already wrapped file keeps its name |
| Text.ReplaceAll | src/lib/types/file.svelte.ts:284-287 | a text without the pattern is unchanged |
| Text.ReplaceAllPrefix | src/lib/store/index.svelte.ts:390-393 | a prefix without the pattern's first character is kept and the replacement goes on after it |
| Text.ReplaceAllSkips | src/lib/store/index.svelte.ts:390-393 | a text without the pattern's first character is unchanged |
| Text.ReplaceAllLoneMark | src/lib/store/index.svelte.ts:390-393 | a '%' followed by '%'-free text holds no `%...%` marker and is unchanged |
| Text.ReplaceAllLeftmost | src/lib/store/index.svelte.ts:390-393 | the leftmost occurrence is replaced and the replacement goes on after it |
| Text.ReplaceAllWhole | src/lib/store/index.svelte.ts:390-393 | the pattern alone becomes the replacement |
| Text.ReplaceAllMismatch | src/lib/store/index.svelte.ts:390-393 | a text of the pattern's length that differs from it is unchanged |
| Text.StripExtension | src/lib/store/index.svelte.ts:376 | removing the matched extension leaves the text before the last '.', or the whole name when there is no match |
| Text.ReplaceFirst | src/lib/converters/vertd.svelte.ts:342 | a string pattern replaces only its first occurrence: a text without it is unchanged, a text starting with it has that prefix replaced |
| Text.NatToString | src/lib/converters/ffmpeg.svelte.ts:360-430 | the decimal text of a number is non-empty and made of digits |
| Text.NatToStringRoundTrip | src/lib/converters/ffmpeg.svelte.ts:360-430 | reading the decimal text back gives the number |
| Text.LexLessIrreflexive | src/lib/types/file.svelte.ts:315 | the default string order never puts a string before itself |
| Text.LexLessTotal | src/lib/types/file.svelte.ts:315 | of two different strings one comes first |
| Text.LexLessAsymmetric | src/lib/types/file.svelte.ts:315 | two strings are never each before the other |
| Text.LexLessTransitive | src/lib/types/file.svelte.ts:315 | the default string order is transitive |
| Text.ToLower | src/lib/types/file.svelte.ts:13 | lowering keeps the length and lowers each character in place |
| Text.ToLowerIdempotent | src/lib/types/file.svelte.ts:13 | lowering a lowered string changes nothing |
| Sorting.FirstIndex | src/lib/types/file.svelte.ts:50-67 | `find`/`findIndex`: the position found satisfies the test and no earlier one does; none is found only when no element does |
| Sorting.Positions | src/lib/types/file.svelte.ts:90-92 | the positions passing the test, strictly increasing, each inside the sequence, and every passing position among them |
| Sorting.FilterMembers | src/lib/types/file.svelte.ts:90-92 | every kept element is from the input and passes the test, and every passing element is kept |
| Sorting.PermutedSelection | src/lib/types/file.svelte.ts:35-44 | any reordering of a selection holding exactly the passing elements still holds exactly them |
| Sorting.Filter | src/lib/types/file.svelte.ts:90-92 | `filter`: the result is the elements at the passing positions (`Positions`), one for one and in input order |
| Sorting.FilterAll | src/lib/types/file.svelte.ts:35-44 | a filter whose test every element passes returns the sequence unchanged |
| Sorting.SomesPositions | src/lib/store/index.svelte.ts:367-370 | the present values are the values at the positions holding one, one for one and in input order |
| Sorting.SomesAll | src/lib/store/index.svelte.ts:367-370 | with every value present, the values come out one for one, in order |
| Sorting.SomesFrom | src/lib/store/index.svelte.ts:367-370 | every value that comes out was present in the input |
| Sorting.SomesSnoc | src/lib/store/index.svelte.ts:363-370 | one more option adds its value at the end when it is present and nothing otherwise |
| Sorting.SomesPrefix | src/lib/store/index.svelte.ts:363-370 | the values of one more element of a prefix: the previous values, plus this one when present |
| Sorting.SomesNone | src/lib/store/index.svelte.ts:367-370 | with every value absent, nothing comes out |
| Sorting.PositionsAgree | src/lib/store/index.svelte.ts:363-370 | two tests that agree position by position select the same positions |
| Sorting.Dedup | src/lib/types/file.svelte.ts:309 | a `Set` of the values: exactly the input's values, each once |
| Sorting.Insert | src/lib/types/file.svelte.ts:42 | inserting adds exactly the one element |
| Sorting.SortBy | src/lib/types/file.svelte.ts:42 | `sort(cmp)`: the result is a permutation of the input |
| Sorting.InsertSorted | src/lib/types/file.svelte.ts:42 | inserting into a sorted sequence by a consistent comparator keeps it sorted |
| Sorting.SortBySorted | src/lib/types/file.svelte.ts:42 | with a consistent comparator, the sorted result has no element comparing strictly below one in front of it |
| Sorting.LexCompareConsistent | src/lib/types/file.svelte.ts:315 | the default string comparison is a consistent comparator |
| Sorting.SortedStringsIncrease | src/lib/types/file.svelte.ts:315 | sorting distinct strings by the default comparison gives a strictly increasing sequence |
| Sorting.IncreasingUnique | src/lib/types/file.svelte.ts:315 | two strictly increasing string sequences holding the same strings are equal |
| ConverterBase.NewFormatInfo | src/lib/converters/converter.svelte.ts:8-22 | construction succeeds exactly when one direction is supported, else fails with "Format must support at least one direction"; a built descriptor's name is the dot-prefixed name and its three flags are the ones given |
| ConverterBase.NewFormatInfoDefaults | src/lib/converters/converter.svelte.ts:8-13 | with only a name, the descriptor supports both directions and is native |
| ConverterBase.NewFormatInfoNameIdempotent | src/lib/converters/converter.svelte.ts:14-17 | rebuilding a descriptor from a built descriptor's name gives the same descriptor: an already-dotted name is kept |
| ConverterBase.Fmt | src/lib/converters/converter.svelte.ts:8-22 | a backend table entry supporting at least one direction is a well-formed descriptor (dotted name) |
| ConverterBase.NewOutFile | src/lib/types/file.svelte.ts:89-92 | wrapping a backend's output keeps the file's format and content, and its target starts with "." (kept as given when it already does) |
| ConverterBase.Names | src/lib/converters/converter.svelte.ts:93 | the names of all formats, one per format, in list order |
| ConverterBase.NamesWhere | src/lib/converters/converter.svelte.ts:91 | the names of the formats at the passing positions, one for one and in list order; a name occurs exactly when some format with that name passes |
| ConverterBase.NamesWhereAll | src/lib/converters/converter.svelte.ts:89-94 | filtering with a predicate that always holds gives the same list as no predicate |
| ConverterBase.NamesWhereSound | src/lib/converters/converter.svelte.ts:91 | every filtered name belongs to a format that passes |
| ConverterBase.NamesWhereComplete | src/lib/converters/converter.svelte.ts:91 | every passing format's name is among the filtered names |
| ConverterBase.NamesWhereOrdered | src/lib/converters/converter.svelte.ts:91 | two selected formats appear in the filtered names in their list order |
| ConverterBase.Converter.constructor | src/lib/converters/converter.svelte.ts:28-51 | a new backend is "not-ready" with its readiness timer pending under the handle the runtime returned |
| ConverterBase.Converter.TimeoutElapsed | src/lib/converters/converter.svelte.ts:47-51 | when the pending timer fires, any status but "ready" becomes "not-ready"; "ready" stays; a cleared timer changes nothing |
| ConverterBase.Converter.ClearTimeout | src/lib/converters/converter.svelte.ts:53-58 | the pending revert is cancelled and the handle unset; the status is untouched |
| ConverterBase.Converter.PreloadStarted | src/lib/converters/magick.svelte.ts:91 | a backend fetching its engine is "downloading"; the timer is left as it was |
| ConverterBase.Converter.PreloadSucceeded | src/lib/converters/magick.svelte.ts:100-101 | a loaded backend clears its timer and becomes "ready" |
| ConverterBase.Converter.PreloadFailed | src/lib/converters/magick.svelte.ts:103-104 | a failed load clears the timer and becomes "error" |
| ConverterBase.Converter.FormatStrings | src/lib/converters/converter.svelte.ts:89-94 | without a predicate, every format's name, one per format, in list order; with one, the names of the passing formats, one for one in list order, so a name occurs exactly when a format with that name passes |
| ConverterBase.Converter.BaseConvert | src/lib/converters/converter.svelte.ts:65-74 | the base conversion fails with "Not implemented" |
| ConverterBase.Converter.BaseCancel | src/lib/converters/converter.svelte.ts:81-83 | the base cancel fails with "Not implemented" |
| ConverterBase.Converter.IsValid | src/lib/converters/converter.svelte.ts:85-87 | the base health check always answers true |
| ConverterBase.ListsIff | src/lib/converters/converter.svelte.ts:93 | a converter lists a format exactly when the format is among its format strings |
| ConverterBase.Supporting | src/lib/types/file.svelte.ts:89-92 | the registry members listing the format, one for one at their positions and in registry order; so every kept converter lists it and every registry member listing it is kept |
| ConverterBase.SupportingOnly | src/lib/types/file.svelte.ts:89-92 | a one-converter registry whose converter lists the format keeps that converter |
| ConverterBase.SupportingEmpty | src/lib/types/file.svelte.ts:89-92 | no converter is kept exactly when no registry member lists the format |
| ConverterBase.StuckDownloadReverts | src/lib/converters/converter.svelte.ts:47-51 | a backend still "downloading" when its timer fires ends "not-ready" |
| ConverterBase.LoadedStaysReady | src/lib/converters/magick.svelte.ts:99-101 | a backend that finished loading stays "ready" whatever happens to the timer |
| ConverterBase.FailedStaysError | src/lib/converters/magick.svelte.ts:102-104 | a backend whose load failed stays "error" |
| VertFiles.FindUniqueName | src/lib/types/file.svelte.ts:58-63 | in a list without repeated names, the descriptor search for a name finds that name's own descriptor |
| VertFiles.RoutableWitness | src/lib/types/file.svelte.ts:50-67 | a converter that passes the route test has a descriptor for each format, one of the two native |
| VertFiles.WitnessRoutable | src/lib/types/file.svelte.ts:50-67 | with each name listed once, any two descriptors, one of them native, make the converter pass the route test |
| VertFiles.RoutableUniqueNames | src/lib/types/file.svelte.ts:50-67 | for a converter listing each name once: it passes the route test if and only if it lists both formats and one of the two is native |
| VertFiles.ZipProgress | src/lib/types/file.svelte.ts:136-139 | zip progress lies in 0..100, is 100 once every member is done, and stays 0 exactly while the finished share is below one half percent |
| VertFiles.ZipProgressMonotone | src/lib/types/file.svelte.ts:136-139 | more finished members never lower the zip progress |
| VertFiles.SlotsStep | src/lib/types/file.svelte.ts:136-139 | setting the next member's slot to 100 gives the slots of one more finished member, whose rounded mean is the zip progress |
| VertFiles.SlotsSum | src/lib/types/file.svelte.ts:137 | the slots of `done` finished members sum to 100·done |
| VertFiles.FirstFailing | src/lib/types/file.svelte.ts:142-200 | the member found failed and every earlier one succeeded; none is found only when all succeeded |
| VertFiles.FirstFailingAt | src/lib/types/file.svelte.ts:142-200 | a failed member preceded only by successes is the one found |
| VertFiles.Repacked | src/lib/types/file.svelte.ts:171-203 | the archive holds one member per converted file, with the name and bytes the backend gave it |
| VertFiles.Digests | src/lib/types/file.svelte.ts:320-329 | one digest per chunk, in stream order |
| VertFiles.CombineDigestsSetOnly | src/lib/types/file.svelte.ts:309-316 | the combined hash depends only on the set of digests: order and repetition do not matter |
| VertFiles.CombineDigestsRepeat | src/lib/types/file.svelte.ts:329 | a digest seen again adds nothing to the combined hash |
| VertFiles.HashIgnoresChunkOrder | src/lib/types/file.svelte.ts:307-339 | the same chunks read in another order hash to the same value |
| VertFiles.SortedFilterMembers | src/lib/types/file.svelte.ts:35-44 | any reordering of the filtered converters holds exactly the converters listing one of the formats |
| VertFiles.VertFile.constructor | src/lib/types/file.svelte.ts:82-96 | the stored name has its extension lowercased and keeps the format; the target is dot-prefixed; the converters are exactly the registry's converters listing the format; the job is idle |
| VertFiles.VertFile.WithConverters | src/lib/types/file.svelte.ts:151-152 | the archive member's file is built the same way, with the converter list replaced by the one given |
| VertFiles.VertFile.SetTarget | src/lib/types/file.svelte.ts:23 | choosing another target changes the target only |
| VertFiles.VertFile.FindConverter | src/lib/types/file.svelte.ts:46-69 | an archive gets its first converter; any other file gets the first converter that passes the route test, and none only when no converter does |
| VertFiles.VertFile.FindConvertersAsWritten | src/lib/types/file.svelte.ts:35-44 | as written, the result is a reordering of all the file's converters, whatever formats are asked for |
| VertFiles.VertFile.FindConverters | src/lib/types/file.svelte.ts:35-44 | as intended, the result holds exactly the file's converters that list one of the formats |
| VertFiles.VertFile.StartConversion | src/lib/types/file.svelte.ts:99-106 | no converters fails with "No converters found" and no route with "No converter found", both touching no state; otherwise the result is cleared, progress is 0, the job is processing and not cancelled, and the routed converter is returned |
| VertFiles.VertFile.FinishConversion | src/lib/types/file.svelte.ts:107-120 | the job stops processing; a success is stored and returned; a failure clears the result and is reported unless the job was cancelled |
| VertFiles.VertFile.MarkDone | src/lib/types/file.svelte.ts:176-177 | the member's slot becomes 100 and the progress is the zip progress of one more finished member |
| VertFiles.VertFile.ConvertZip | src/lib/types/file.svelte.ts:123-210 | a failed extraction fails and leaves the progress; the cancel check runs before every member, so a job cancelled before member `c` (`CancelPoint`: 0 when already cancelled, else `cancelFrom`) fails with "Conversion cancelled" there unless an earlier member failed; the first failing member before that point ends the job with its error; in both cases the progress is that of the members finished before; otherwise the result is the archive named like the input with ".zip" in place of its extension, its members the converted files, and the progress 100 |
| VertFiles.CancelPoint | src/lib/types/file.svelte.ts:144-146 | the member before which the cancel check first sees the flag: the first one when the job is already cancelled, `cancelFrom` otherwise |
| VertFiles.VertFile.BeginCancel | src/lib/types/file.svelte.ts:212-216 | nothing happens unless the job is processing; without a route it fails with "No converter found"; otherwise the job is marked cancelled before the backend is asked |
| VertFiles.VertFile.FinishCancel | src/lib/types/file.svelte.ts:217-223 | a successful backend cancel stops the job without a result; a failure is reported and changes nothing |
| VertFiles.VertFile.Hash | src/lib/types/file.svelte.ts:307-339 | the hash is the sorted, joined set of the chunks' digests |
| VertFiles.VertFile.DownloadName | src/lib/types/file.svelte.ts:270-298 | without a result the download fails with "No result found"; otherwise the name ends with the dot-prefixed result format |
| VertFiles.VertFile.From | src/lib/types/file.svelte.ts:12-14 | a job's format starts with '.', has no other '.', and is lowercase |
| VertFiles.FindConvertersKeepsUnlisted | src/lib/types/file.svelte.ts:35-44 | asked for no format at all, the code as written still returns every converter while the intended filter returns none |
| VertFiles.FindConvertersDefault | src/lib/types/file.svelte.ts:35-44 | with the default argument, a constructed file's intended filter keeps all its converters |
| VertFiles.ConstructedConvertersList | src/lib/types/file.svelte.ts:90-92 | every converter a constructed file keeps lists the file's format |
| VertFiles.RouteThroughOnly | src/lib/types/file.svelte.ts:50-67 | a non-archive file whose only converter passes the route test is routed to it |
| VertFiles.NewPhotoJob | src/lib/types/file.svelte.ts:82-96 | a new "photo.png" job towards ".jpg" is idle and routed to its one converter |
| VertFiles.CancelledJobReportsNothing | src/lib/types/file.svelte.ts:212-220 | a job cancelled while its backend runs ends without a result and reports no error |
| VertFiles.FailedJobReportsError | src/lib/types/file.svelte.ts:115-119 | the same job, not cancelled, reports the backend's error |
| FileStore.FirstListing | src/lib/store/index.svelte.ts:272-274 | the converter found is the first one listing the format; none is found only when no converter lists it |
| FileStore.FirstListingPermutation | src/lib/store/index.svelte.ts:272-275 | whether some converter is found does not depend on how the registry was sorted |
| FileStore.DefaultTarget | src/lib/store/index.svelte.ts:280 | the default target is a listed format other than the file's own, the first such in list order; there is none only when every listed format is the file's own |
| FileStore.RegularTarget | src/lib/store/index.svelte.ts:275-285 | without a converter, the target is the file's own format; with one, it is that converter's default target (none when only the file's own format remains) |
| FileStore.AddName | src/lib/store/index.svelte.ts:173 | adding a name to the insertion-ordered set of converter names holds exactly the old names and the new one |
| FileStore.ScanStep | src/lib/store/index.svelte.ts:162-175 | one member of the archive scan re-sorts the registry without adding or removing converters |
| FileStore.AnyIncompatibleIff | src/lib/store/index.svelte.ts:162-175 | the scan's verdict is: some member is an archive itself or has no converter listing its format |
| FileStore.StepIncompatible | src/lib/store/index.svelte.ts:164-174 | a member marks the archive incompatible exactly when it already was or the member is, whatever order the registry was sorted into before |
| FileStore.Scan | src/lib/store/index.svelte.ts:159-178 | after the scan the registry is a permutation of the original, and the archive is incompatible exactly when some member is |
| FileStore.ScanSnoc | src/lib/store/index.svelte.ts:162-175 | scanning one more member is one more scan step |
| FileStore.EntryFormats | src/lib/store/index.svelte.ts:163 | each member's format is derived from its file name as for a regular file |
| FileStore.ScanUsedNames | src/lib/store/index.svelte.ts:169-173 | every recorded converter name belongs to a registry converter that lists the format of some member |
| FileStore.EntryOf | src/lib/store/index.svelte.ts:372-379 | an entry is named by the file's name without its matched extension (the text before the last '.', or the whole name when `/\.[^/.]+$/` does not match) plus the dot-prefixed result format, and holds the result's content |
| FileStore.Candidate | src/lib/store/index.svelte.ts:365-379 | a file gets an entry exactly when it has a result, and that entry is built from the result |
| FileStore.Candidates | src/lib/store/index.svelte.ts:363-380 | one candidate per file, in list order |
| FileStore.Entries | src/lib/store/index.svelte.ts:363-380 | one entry per file that has a result, at those files' positions and in list order, each the file's `EntryOf` |
| FileStore.EntriesAreSomes | src/lib/store/index.svelte.ts:363-380 | the entries are the present candidates, in order |
| FileStore.EntriesKeepOrder | src/lib/store/index.svelte.ts:363-380 | two finished files come out as entries in their list order |
| FileStore.EntriesAll | src/lib/store/index.svelte.ts:363-380 | when every file has a result, there is one entry per file, in list order |
| FileStore.EntriesNone | src/lib/store/index.svelte.ts:367-370 | when no file has a result, there are no entries |
| FileStore.EntriesFinished | src/lib/store/index.svelte.ts:367-379 | every entry belongs to some file that has a result |
| FileStore.ArchiveName | src/lib/store/index.svelte.ts:385-398 | the batch archive's name ends in ".zip"; with no stored template it is "ConvertOnline_Multi.zip"; a stored template without '%' is used as it is, followed by ".zip" |
| FileStore.DefaultTemplateFilled | src/lib/store/index.svelte.ts:386-394 | the default template fills to "ConvertOnline_Multi" whatever the date |
| FileStore.DefaultHasNoDate | src/lib/store/index.svelte.ts:391 | the default template has no `%date%` marker, so the date leaves it unchanged |
| FileStore.DefaultNameFilled | src/lib/store/index.svelte.ts:392 | the default template's `%name%` becomes "Multi" |
| FileStore.FilledHasNoExtension | src/lib/store/index.svelte.ts:393 | the filled default name has no `%extension%` marker left to remove |
| FileStore.DefaultArchiveName | src/lib/store/index.svelte.ts:386-398 | the default template gives the archive name "ConvertOnline_Multi.zip" |
| FileStore.MarklessTemplateFilled | src/lib/store/index.svelte.ts:388-394 | a template without '%' is left as it is |
| FileStore.DateSkipsNameMark | src/lib/store/index.svelte.ts:391 | replacing `%date%` leaves a template whose only marker is `%name%` unchanged |
| FileStore.NameMarkFilled | src/lib/store/index.svelte.ts:392 | the one `%name%` marker becomes "Multi" |
| FileStore.ArchiveNameFillsName | src/lib/store/index.svelte.ts:385-398 | a template whose only marker is one `%name%` gives the template with "Multi" in its place, followed by ".zip" |
| FileStore.DefaultSettingsArchiveName | src/lib/store/index.svelte.ts:386 | the default settings' `filenameFormat` names the archive as no stored template does: "ConvertOnline_Multi.zip" |
| FileStore.ResolveLocale | src/lib/store/index.svelte.ts:441-459 | the chosen locale is a translated one: the requested locale when it is one, "en" otherwise |
| FileStore.ResolveLocaleIdempotent | src/lib/store/index.svelte.ts:459 | resolving a resolved locale changes nothing |
| FileStore.Files.constructor | src/lib/store/index.svelte.ts:15-16 | the store starts with no files and the given registry |
| FileStore.Files.AddVertFile | src/lib/store/index.svelte.ts:239-241 | an existing job is appended as it is |
| FileStore.Files.AddRegular | src/lib/store/index.svelte.ts:266-287 | the registry is re-sorted by `byNative` of the file's format; a file with a converter but no other format is dropped; otherwise one new, freshly allocated idle job is appended, with the default target (its own format when no converter lists it), the normalised name, the file's bytes and the registry's converters listing its format; it is the job `NewJob` describes |
| FileStore.Files.AddMember | src/lib/store/index.svelte.ts:214-220 | one member of the fallback loop: the state moves by one `ExpandStep`; a nested archive is added to the pending ones and lists nothing; the appended jobs are freshly allocated |
| FileStore.Files.AddExtracted | src/lib/store/index.svelte.ts:158-230 | after the scan, an archive whose members all go through one converter is one idle ".zip" job holding the archive's name and bytes, restricted to that converter's name; otherwise the members are added as `Expand` says and exactly the nested archives are pending |
| FileStore.Files.ScanMembers | src/lib/store/index.svelte.ts:159-178 | the loop leaves the registry, the recorded names and the verdict of the scan specification, and lists no file |
| FileStore.Files.ScanMember | src/lib/store/index.svelte.ts:163-174 | one member of the scan loop moves the registry, the recorded names and the verdict by one `ScanStep`, and lists no file |
| FileStore.Files.AddMembers | src/lib/store/index.svelte.ts:212-220 | the members are added one by one as `Expand` describes: the registry ends as the last sort left it, the jobs appended after the existing files are exactly the listed ones in member order, and exactly the members that are archives themselves come back, in order, still pending |
| FileStore.Files.AddArchiveJob | src/lib/store/index.svelte.ts:185-202 | one fresh idle job is appended, holding the archive's normalised name and its bytes, with target ".zip" and the registry's converters of the recorded name |
| FileStore.Files.HandleZipFile | src/lib/store/index.svelte.ts:142-235 | a failed extraction changes nothing and hands its error on; one recorded converter and no incompatible member make one idle ".zip" job with the archive's name and bytes, restricted to the converters of that name; otherwise the members are added one by one as `Expand` describes and the nested archives are returned |
| FileStore.Files.Add | src/lib/store/index.svelte.ts:238-287 | a regular file is routed after sorting the registry and appends at most its `NewJob`; an archive that cannot be extracted is reported and changes nothing; an archive is otherwise handled as `HandleZipFile` says (one idle ".zip" job with its name and bytes, or its members one by one), with only nested archives left pending; files are only ever appended |
| FileStore.Files.Jobs | src/lib/store/index.svelte.ts:363-366 | one job per listed file, with its name and result |
| FileStore.Files.DownloadAll | src/lib/store/index.svelte.ts:359-398 | nothing for an empty list; otherwise the archive named from the template, holding the entries of the files that have a result |
| FileStore.Members | src/lib/store/index.svelte.ts:214-218 | each entry is re-added as a file of its own name and bytes, typed "application/octet-stream" |
| FileStore.Expand | src/lib/store/index.svelte.ts:212-220 | the fallback keeps the registry a permutation of the one it started from and lists or leaves pending at most one job per member |
| FileStore.ExpandStep | src/lib/store/index.svelte.ts:214-220 | one member of the fallback keeps the registry a permutation of the one before |
| FileStore.ExpandPending | src/lib/store/index.svelte.ts:214-220 | exactly the members that are archives are left pending, in member order |
| FileStore.NewJobUnlisted | src/lib/store/index.svelte.ts:275-278 | a member no converter lists becomes a job of its own format with no converter |
| FileStore.ExpandStepUnlisted | src/lib/store/index.svelte.ts:214-220 | one fallback step on a member no converter lists appends that member's own job and leaves the pending ones |
| FileStore.ExpandUnlisted | src/lib/store/index.svelte.ts:212-220 | when no converter lists any member and none is an archive, every member is listed as its own job, in member order, and nothing is pending |
| FileStore.ZipByExtension | src/lib/store/index.svelte.ts:244-247 | a name ending in ".zip" or ".ZIP" is taken as an archive |
| Sorting.FilterSnoc | src/lib/store/index.svelte.ts:214-220 | filtering one more member keeps it at the end exactly when it passes |
| FileStore.Flatten | src/lib/store/index.svelte.ts:18-20 | the flattened list holds every converter of every file and nothing else |
| FileStore.Files.RequiredConverters | src/lib/store/index.svelte.ts:18-20 | every converter of every file is there, each one is some file's, and none is there twice |
| FileStore.ReadyIff | src/lib/store/index.svelte.ts:18-27 | `ready` holds if and only if there is a file, every converter of every file is "ready", and no file is processing |
| FileStore.ResultsDownloadEverything | src/lib/store/index.svelte.ts:359-380 | when `results` holds, the batch download has one entry per file, in list order |
| Vertd.Rank | src/lib/converters/vertd.svelte.ts:146-157 | a phase's index is its position in the key order upload, convert, download |
| Vertd.PhasePrefixWeights | src/lib/converters/vertd.svelte.ts:146-158 | the weights before upload, convert and download add up to 0, 25 and 75, and all three to 100 |
| Vertd.ProgressEstimate | src/lib/converters/vertd.svelte.ts:152-160 | a fraction between 0 and 1 gives a progress between 0 and 100 |
| Vertd.ProgressEstimateValues | src/lib/converters/vertd.svelte.ts:146-160 | upload reports 25·p, conversion 25 + 50·p, download 75 + 25·p |
| Vertd.ProgressPhasesChain | src/lib/converters/vertd.svelte.ts:146-160 | each phase starts where the previous one ends; the job runs from 0 to 100 |
| Vertd.ProgressOrdered | src/lib/converters/vertd.svelte.ts:152-160 | a later phase never reports less than an earlier one, and within a phase progress is monotone |
| Vertd.Recent | src/lib/converters/vertd.svelte.ts:297-299 | the kept timestamps are exactly those less than an hour before now, and never more than there were |
| Vertd.RecentIdempotent | src/lib/converters/vertd.svelte.ts:297-299 | filtering the recent timestamps again keeps all of them |
| Vertd.RecentSnoc | src/lib/converters/vertd.svelte.ts:297-299 | one more failure time is kept at the end exactly when it is less than an hour old |
| Vertd.RecentAllOld | src/lib/converters/vertd.svelte.ts:297-299 | failures all at least an hour old are all dropped |
| Vertd.Checked | src/lib/converters/vertd.svelte.ts:292-308 | after a check the hash's entry holds its recent timestamps, or is gone when none are recent; every other hash is untouched |
| Vertd.IsBlocked | src/lib/converters/vertd.svelte.ts:301-310 | a hash is blocked exactly when it has at least three failures in the last hour |
| Vertd.WithFailure | src/lib/converters/vertd.svelte.ts:313-320 | a failure appends exactly one timestamp to that hash's list (starting one when absent); every other hash is untouched |
| Vertd.CheckedIdempotent | src/lib/converters/vertd.svelte.ts:292-310 | checking twice at the same instant leaves the same map and gives the same answer as checking once |
| Vertd.ThreeStrikesBlock | src/lib/converters/vertd.svelte.ts:310-320 | three failures within the last hour block the hash, whatever it held before |
| Vertd.StrikesExpire | src/lib/converters/vertd.svelte.ts:297-303 | a hash whose failures are all at least an hour old is not blocked and its entry is deleted |
| Vertd.FailureIsolated | src/lib/converters/vertd.svelte.ts:313-320 | a failure of one hash never changes whether another hash is blocked |
| Vertd.Blocklist.constructor | src/lib/converters/vertd.svelte.ts:293 | the list of failures starts empty |
| Vertd.Blocklist.Blocked | src/lib/converters/vertd.svelte.ts:292-311 | the answer is whether the hash is blocked, and the stored map becomes the checked one |
| Vertd.Blocklist.Failure | src/lib/converters/vertd.svelte.ts:313-320 | the stored map gains exactly one timestamp for the hash |
| Vertd.FetchRequest | src/lib/converters/vertd.svelte.ts:42-54 | the request goes to domain + path; without a body the headers are the caller's; with one, a JSON content type is added and the caller's own headers win |
| Vertd.FetchOutcome | src/lib/converters/vertd.svelte.ts:56-68 | unparseable text fails with that text; the call succeeds exactly when the reply parses and is not an error, yielding its data, and an error reply fails with its data |
| Vertd.HttpsSocketUrl | src/lib/converters/vertd.svelte.ts:340-343 | an instance "https://host" is reached at "wss://host/api/ws" |
| Vertd.HttpsStripped | src/lib/converters/vertd.svelte.ts:342 | removing the first "http://" and then the first "https://" from an https URL leaves its host, when the host holds no "http://" |
| Vertd.HttpSocketUrl | src/lib/converters/vertd.svelte.ts:340-343 | an instance "http://host" is reached at "ws://host/api/ws" |
| Vertd.SocketUrl | src/lib/converters/vertd.svelte.ts:340-343 | an https URL gives a "wss://" socket address, any other a "ws://" one, and the address ends with "/api/ws" |
| Vertd.DownloadUrl | src/lib/converters/vertd.svelte.ts:388 | the download address starts with the instance's download route and ends with the job's auth token |
| Vertd.Socket.constructor | src/lib/converters/vertd.svelte.ts:341-343 | a new socket is connecting, at its address, with nothing sent |
| Vertd.Socket.Send | src/lib/converters/vertd.svelte.ts:442-451 | an open socket records the message; a closed one drops it; the state does not change |
| Vertd.Socket.Close | src/lib/converters/vertd.svelte.ts:454 | the socket is closed and what was sent stays as it was |
| Vertd.Session.constructor | src/lib/converters/vertd.svelte.ts:339-349 | a conversion's handlers capture the file, hash, target, instance, upload response and socket; the promise is unsettled |
| Vertd.Session.Settle | src/lib/converters/vertd.svelte.ts:339-422 | only the first resolve or reject settles the promise |
| Vertd.VertdFormats | src/lib/converters/vertd.svelte.ts:249-278 | 28 native formats in table order, each dot-prefixed and readable; exactly "rm" and "rmvb" cannot be written |
| Vertd.VertdConverter.constructor | src/lib/converters/vertd.svelte.ts:235-290 | the backend is named "vertd", reports progress, lists the video formats, has no active job, and is ready at once with its timer cleared |
| Vertd.VertdConverter.Admit | src/lib/converters/vertd.svelte.ts:322-334 | the conversion is refused (naming the file) exactly when the hash is blocked; otherwise the target loses its leading dot; the blocklist is pruned either way |
| Vertd.VertdConverter.Connect | src/lib/converters/vertd.svelte.ts:336-349 | a failed upload rejects and registers nothing; otherwise a fresh connecting socket is opened at the socket address and the job registered under the file's id with its id and token |
| Vertd.VertdConverter.OnOpen | src/lib/converters/vertd.svelte.ts:351-367 | once open, exactly one start request is sent with the job, token, target and the current speed and metadata settings |
| Vertd.VertdConverter.OnProgress | src/lib/converters/vertd.svelte.ts:373-382 | a frame count sets the conversion-phase progress from frame / total frames; an fps report changes nothing |
| Vertd.VertdConverter.OnFinished | src/lib/converters/vertd.svelte.ts:384-394 | the socket is closed, the job removed, the result downloaded from the job's address and the promise resolved with the downloaded bytes under the input's name and the target |
| Vertd.VertdConverter.OnCancelled | src/lib/converters/vertd.svelte.ts:396-402 | the socket is closed, the job removed and the promise rejected with "Conversion cancelled" |
| Vertd.VertdConverter.OnError | src/lib/converters/vertd.svelte.ts:404-418 | the job is removed, one strike recorded against the hash and the promise rejected with the job id, token, formats and message |
| Vertd.VertdConverter.OnMessage | src/lib/converters/vertd.svelte.ts:369-421 | a settled promise stays settled; a frame update sets the convert-phase progress; a finished job closes the socket, downloads from its address and resolves with the fetched file; a cancelled job closes the socket and rejects with "Conversion cancelled"; an error records one strike for the file's hash and rejects with the job's details; finished, cancelled and error remove the job; progress and unknown messages settle nothing; nothing is sent |
| Vertd.VertdConverter.OnTransferProgress | src/lib/converters/vertd.svelte.ts:170-175 | a computable length sets the phase's progress from loaded / total; otherwise progress is unchanged |
| Vertd.VertdConverter.Cancel | src/lib/converters/vertd.svelte.ts:425-456 | without an active job nothing changes; otherwise a cancel request is sent only if the socket is open, and the socket is closed and the job removed in any case |
| Vertd.VertdConverter.Valid | src/lib/converters/vertd.svelte.ts:458-472 | the backend is usable exactly when an instance address is set and the version request answers without an error |
| VertdSettings.FirstClosestUnique | src/lib/sections/settings/vertdSettings.svelte.ts:131-155 | the first nearest location is unique |
| VertdSettings.FirstClosest | src/lib/sections/settings/vertdSettings.svelte.ts:131-155 | the index found is a nearest location and every location before it is strictly farther |
| VertdSettings.GeographicallyOptimalInstance | src/lib/sections/settings/vertdSettings.svelte.ts:131-155 | the scan returns the address of the first nearest location (a strictly closer one replaces the best, so ties keep the earlier) |
| VertdSettings.FallbackUrl | src/lib/sections/settings/vertdSettings.svelte.ts:107-114 | the fallback is a listed location that is not the primary and is reachable, or the configured address; the configured one whenever no other listed location is usable |
| VertdSettings.FallbackSkipsOnlyUnusable | src/lib/sections/settings/vertdSettings.svelte.ts:108-111 | whenever some listed location is usable, the fallback is a usable one no later in the list |
| VertdSettings.VertdInstance.constructor | src/lib/sections/settings/vertdSettings.svelte.ts:42-49 | a fresh instance is in auto mode with no cached IP |
| VertdSettings.VertdInstance.Save | src/lib/sections/settings/vertdSettings.svelte.ts:51-53 | the stored item becomes the current mode; nothing else changes |
| VertdSettings.VertdInstance.Set | src/lib/sections/settings/vertdSettings.svelte.ts:80-83 | the mode is replaced and saved |
| VertdSettings.VertdInstance.Load | src/lib/sections/settings/vertdSettings.svelte.ts:55-74 | without a stored item, a deployment with its own instance address switches to custom and any other keeps its mode; a stored item's type overrides the current mode |
| VertdSettings.VertdInstance.Url | src/lib/sections/settings/vertdSettings.svelte.ts:85-129 | auto looks the IP up only once and answers the nearest instance if reachable, else the fallback; eu, us and custom answer their fixed or configured address without a lookup |
| VertdSettings.AutoUrlChoice | src/lib/sections/settings/vertdSettings.svelte.ts:98-115 | a reachable nearest instance is used; otherwise the first listed instance if it is another reachable one; the configured address only when neither instance answers |
| VertdSettings.SetThenLoad | src/lib/sections/settings/vertdSettings.svelte.ts:55-83 | a mode that was set is the mode a later load restores |
| VertdSettings.CustomDeploymentStartsCustom | src/lib/sections/settings/vertdSettings.svelte.ts:58-65 | a deployment built with its own instance address and nothing stored starts in custom mode |
| VertdSettings.FixedModesSkipLookup | src/lib/sections/settings/vertdSettings.svelte.ts:117-127 | the eu, us and custom modes never look up the IP and answer their own address |
| FFmpeg.FFmpegFormats | src/lib/converters/ffmpeg.svelte.ts:43-74 | 50 formats: the 28 audio formats in table order, native and readable, with their own writability; then the 22 video formats, readable, writable and not native |
| FFmpeg.NormalizeTarget | src/lib/converters/ffmpeg.svelte.ts:111-114 | the target is dot-prefixed; ".alac" becomes ".m4a" with the ALAC flag set, and the flag is set exactly for ".alac" |
| FFmpeg.NormalizeTargetIdempotent | src/lib/converters/ffmpeg.svelte.ts:111-114 | normalising a normalised target changes nothing and sets no flag |
| FFmpeg.GetCodecs | src/lib/converters/ffmpeg.svelte.ts:638-701 | ".m4a" uses libx264 with alac or aac by the flag; any extension outside the table uses libx264 and aac |
| FFmpeg.GetCodecsAlacOnlyM4a | src/lib/converters/ffmpeg.svelte.ts:688-692 | the ALAC flag changes the codecs of no extension but ".m4a" |
| FFmpeg.VideoArgs | src/lib/converters/ffmpeg.svelte.ts:601-626 | the video part starts with the encoder; libx264 adds the still-image preset, libvpx switches to VP9, and MXF's mpeg2video forces 48 kHz |
| FFmpeg.AudioArgs | src/lib/converters/ffmpeg.svelte.ts:628-630 | the audio part names the encoder, with "-strict experimental" exactly for aac |
| FFmpeg.CodecArgs | src/lib/converters/ffmpeg.svelte.ts:599-636 | DivX gets "-f avi" in front, MXF "-strict unofficial" at the end, everything else the video then audio parts |
| FFmpeg.CodecArgsShape | src/lib/converters/ffmpeg.svelte.ts:599-636 | the codec arguments start with the video encoder (behind "-f avi" for DivX) and end with MXF's flag or the aac flag |
| FFmpeg.MxfCodecArgs | src/lib/converters/ffmpeg.svelte.ts:621-633 | the MXF arguments in full: mpeg2video at 48 kHz, pcm_s16le, "-strict unofficial" |
| FFmpeg.ToArgs | src/lib/converters/ffmpeg.svelte.ts:599-636 | building the list by pushes and one unshift gives the codec arguments of the extension's codecs |
| FFmpeg.BitrateArgs | src/lib/converters/ffmpeg.svelte.ts:360-388 | a user bitrate is used as "<n>k"; auto uses 128k from lossless to lossy; no bitrate argument exactly when auto, not lossless-to-lossy and nothing non-zero was detected |
| FFmpeg.RateArgs | src/lib/converters/ffmpeg.svelte.ts:390-430 | auto uses 48000 (opus) or 44100 from lossless to lossy; a detected 44100 becomes 48000 for opus; the argument is absent or a numeral |
| FFmpeg.BuildConversionCommand | src/lib/converters/ffmpeg.svelte.ts:317-529 | reassigning the argument lists step by step gives the command defined for the source kind, target kind, settings and probe results |
| FFmpeg.CommandEndsWithOutput | src/lib/converters/ffmpeg.svelte.ts:433-528 | every command ends with the output file "output" + target |
| FFmpeg.CommandVideoSource | src/lib/converters/ffmpeg.svelte.ts:433-448 | a video source is reduced to its first audio stream |
| FFmpeg.CommandAlbumArtIff | src/lib/converters/ffmpeg.svelte.ts:451-507 | from audio to video the cover art is the picture exactly when metadata is kept and the probe found one |
| FFmpeg.TailStripsMetadataIff | src/lib/converters/ffmpeg.svelte.ts:349-358 | the shared ending strips metadata exactly when metadata is not to be kept |
| FFmpeg.CommandTail | src/lib/converters/ffmpeg.svelte.ts:349-430 | every command tail ends with the output name, and starts with the metadata-stripping arguments when metadata is not kept |
| FFmpeg.CommandStripsMetadataIff | src/lib/converters/ffmpeg.svelte.ts:341-528 | the whole command holds the metadata-stripping flag exactly when metadata is not to be kept |
| FFmpeg.ClassifyLog | src/lib/converters/ffmpeg.svelte.ts:122-144 | a sample-rate message and a missing-audio message always overwrite; a general error is recorded only if nothing is yet; other lines record nothing |
| FFmpeg.ErrorSticks | src/lib/converters/ffmpeg.svelte.ts:122-144 | once an error is recorded, later lines never clear it |
| FFmpeg.FirstGeneralErrorWins | src/lib/converters/ffmpeg.svelte.ts:134-143 | without specific errors, the first general error line is the one reported |
| FFmpeg.NoErrorYet | src/lib/converters/ffmpeg.svelte.ts:122-144 | lines of no error kind record nothing |
| FFmpeg.SpecificErrorOverwrites | src/lib/converters/ffmpeg.svelte.ts:124-133 | a specific error on the last line is what is reported, whatever came before |
| FFmpeg.OutputName | src/lib/converters/ffmpeg.svelte.ts:181-182 | the output name is the stem (`split(".").slice(0, -1).join(".")`) followed by the target: for a dotted input the input is that stem, a '.' and its last extension; an input without a dot gives just the target |
| FFmpeg.FFmpegConverter.constructor | src/lib/converters/ffmpeg.svelte.ts:36-108 | outside a browser the status stays "not-ready"; in a browser it is "downloading" while the engine loads, or "error" with the timer cleared when creating it fails |
| FFmpeg.FFmpegConverter.EngineLoaded | src/lib/converters/ffmpeg.svelte.ts:96-97 | the loaded engine makes the backend ready and clears the timer |
| FFmpeg.FFmpegConverter.OnProgress | src/lib/converters/ffmpeg.svelte.ts:217-219 | the file's progress is the engine's fraction times 100; nothing else changes |
| FFmpeg.FFmpegConverter.ScanLogs | src/lib/converters/ffmpeg.svelte.ts:122-146 | the listener's result over the log lines is the error recorded after them |
| FFmpeg.FFmpegConverter.Convert | src/lib/converters/ffmpeg.svelte.ts:110-193 | a failed load is reported; otherwise a fresh engine is registered and the command is the one built for the normalised target; a recorded error fails first; then an unreadable output file rejects with the engine left running and listening, the only path that leaves it so; after a recorded error, an empty output or a success the engine is terminated and its listener detached; success is exactly a clean log with a non-empty readable output, giving the stem + target file |
| FFmpeg.FFmpegConverter.Cancel | src/lib/converters/ffmpeg.svelte.ts:195-212 | without a registered engine nothing happens; otherwise it is terminated and deregistered |
| Magick.MagickFormats | src/lib/converters/magick.svelte.ts:19-78 | the hand-listed formats come first, native and dot-prefixed, readable unless write-only and writable unless read-only; the generated formats follow unchanged |
| Magick.Compression | src/lib/converters/magick.svelte.ts:123-130 | a non-zero quality argument wins; otherwise the user's quality; otherwise 100 |
| Magick.PngName | src/lib/converters/magick.svelte.ts:138 | renaming ".svg" to ".png" keeps the name's length |
| Magick.PngNameOfSvg | src/lib/converters/magick.svelte.ts:134-142 | an SVG file's renamed copy is a dotted name whose format is ".png", so the second conversion does not take the SVG branch again |
| Magick.UntypedWaitTakesFirst | src/lib/converters/magick.svelte.ts:257-283 | a wait without a type settles on the very first event |
| Magick.TypedWaitSkips | src/lib/converters/magick.svelte.ts:257-283 | a wait with a type settles on the first message of that type, "error" message or crash; other messages before it are dropped |
| Magick.ReactIgnores | src/lib/converters/magick.svelte.ts:257-279 | the wait ignores exactly a message of another type, not an error, while a type is awaited; a worker crash rejects with "Worker error: " and its message |
| Magick.Interpret | src/lib/converters/magick.svelte.ts:214-230 | a failed wait fails with its error; "finished" gives the output bytes under the input's name, in ".zip" or the target; "error" fails with the worker's error; anything else fails with "Unknown message type" |
| Magick.Exchange | src/lib/converters/magick.svelte.ts:152-214 | the requests posted are none, the load request, or load then convert; fewer than both only when the conversion failed |
| Magick.Loading | src/lib/converters/magick.svelte.ts:173-193 | after "ready", load is posted; convert follows only after "loaded", otherwise the conversion failed |
| Magick.Converting | src/lib/converters/magick.svelte.ts:196-214 | after "loaded", both requests have been posted |
| Magick.ExchangeInOrder | src/lib/converters/magick.svelte.ts:152-214 | a worker answering "ready", "loaded" and then its reply ends in that reply, after both requests were posted |
| Magick.ExchangeEarlyError | src/lib/converters/magick.svelte.ts:158-171 | a worker that reports an error before "ready" fails the conversion with that error, and nothing is posted |
| Magick.ExchangeNeverReady | src/lib/converters/magick.svelte.ts:158-171 | a worker that never says "ready" (and never errs) times out after the ready wait, and nothing is posted |
| Magick.Finish | src/lib/converters/magick.svelte.ts:214-230 | the conversion settles exactly when the exchange settled |
| Magick.Talk | src/lib/converters/magick.svelte.ts:158-214 | the three waits on a worker post and settle exactly as the exchange says, and an unsettled last wait leaves the listener attached |
| Magick.TalkLoaded | src/lib/converters/magick.svelte.ts:178-214 | the second and third waits post and settle as the loading stage says |
| Magick.MagickConverter.constructor | src/lib/converters/magick.svelte.ts:12-91 | the backend is "imagemagick", reports no progress, lists its formats and is "downloading" in a browser and "not-ready" outside one |
| Magick.MagickConverter.WasmFetched | src/lib/converters/magick.svelte.ts:89-114 | the engine fetch makes the backend ready when it succeeded and "error" otherwise, clearing the timer either way |
| Magick.MagickConverter.Convert | src/lib/converters/magick.svelte.ts:117-235 | a non-SVG file runs the exchange in a fresh worker, posting a convert request that carries the file's bytes, the resolved quality and the metadata setting; an SVG takes the SVG path; any worker is cleaned up once settled |
| Magick.MagickConverter.ConvertRaster | src/lib/converters/magick.svelte.ts:152-235 | the quality is resolved and the file, its bytes included in the convert request, converted in a fresh worker, which is cleaned up once settled |
| Magick.MagickConverter.ConvertSvg | src/lib/converters/magick.svelte.ts:134-150 | a failed rasterisation fails with its error; a ".png" target returns the PNG without a worker; any other target converts the PNG in a worker |
| Magick.MagickConverter.ConvertPng | src/lib/converters/magick.svelte.ts:137-142 | the PNG made from the SVG is converted in a fresh worker under the ".png" format, its rasterised bytes carried in the convert request |
| Magick.MagickConverter.Rasterised | src/lib/converters/magick.svelte.ts:137-140 | the PNG file carries the renamed name (format ".png"), the input's target and the rasterised bytes |
| Magick.MagickConverter.ConvertInWorker | src/lib/converters/magick.svelte.ts:152-235 | the worker is registered under the file's id; once the conversion settles it is deregistered and terminated on every path; while unsettled it stays registered and listening |
| Magick.MagickConverter.Cancel | src/lib/converters/magick.svelte.ts:237-254 | without a registered worker nothing happens; otherwise it is terminated and deregistered |
| Workers.Worker.constructor | src/lib/converters/magick.svelte.ts:152-154 | a new worker has posted nothing, has no listener and is running |
| Workers.Worker.Post | src/lib/converters/magick.svelte.ts:173-178 | posting appends exactly the request; nothing else changes |
| Workers.Worker.Terminate | src/lib/converters/magick.svelte.ts:252 | the worker is terminated; nothing else changes |
| Workers.Settle | src/lib/converters/magick.svelte.ts:257-283 | the settling event is the first one the listener reacts to, with the outcome of that reaction; none settles only when the listener reacts to no event |
| Workers.SettleUnique | src/lib/converters/magick.svelte.ts:257-283 | any event that is reacted to with no reaction before it is the settling one |
| Workers.SettleSkipsIgnored | src/lib/converters/magick.svelte.ts:259-272 | an ignored event in front changes only the index of the settling event |
| Workers.Wait | src/lib/converters/magick.svelte.ts:257-284 | the events are delivered in order until one settles the wait, which is then detached and leaves the later events queued; when none settles, the listener stays attached |
| Pandoc.PandocFormats | src/lib/converters/pandoc.svelte.ts:134-147 | the twelve document formats in table order, each dot-prefixed, readable, writable and native |
| Pandoc.WaitTakesFirstMessage | src/lib/converters/pandoc.svelte.ts:151-164 | a wait settles exactly when some message arrives, on the first one, resolving with its reply whatever its type; crashes are not noticed; the messages after it are left for the next wait |
| Pandoc.Exchange | src/lib/converters/pandoc.svelte.ts:48-70 | the load request is always posted; convert follows it, and a reply exists only once both were posted |
| Pandoc.ExchangeIsSecondMessage | src/lib/converters/pandoc.svelte.ts:151-164 | convert is posted exactly when a first message arrived, and the reply is the second message, if any |
| Pandoc.LoadedWaitAcceptsAnyMessage | src/lib/converters/pandoc.svelte.ts:151-164 | the "loaded" wait accepts any first message, an error reply included, and the exchange goes on to the convert request |
| Pandoc.Classify | src/lib/converters/pandoc.svelte.ts:75-103 | an unknown reader names the input format, an unknown writer the target, and a parse error about missing pandoc-api-version is the pandoc-JSON error; other parse errors fall through to the default |
| Pandoc.ErrorText | src/lib/converters/pandoc.svelte.ts:77-102 | an unknown reader names the input format and an unknown writer the target, each with its fixed sentence; any other error ends with the worker's error text |
| Pandoc.ErrorTextKeepsError | src/lib/converters/pandoc.svelte.ts:96-102 | outside the rewritten cases the message ends with the worker's error, tagged "[kind] " when the reply names a kind and bare otherwise |
| Pandoc.Interpret | src/lib/converters/pandoc.svelte.ts:71-112 | an error reply fails with its classified error; any other reply gives its output under the input's name, in ".zip" when it says so and in the dot-prefixed target otherwise |
| Pandoc.Talk | src/lib/converters/pandoc.svelte.ts:48-70 | driving the worker posts and settles exactly as the exchange says, and an unsettled wait leaves its listener attached |
| Pandoc.PandocConverter.constructor | src/lib/converters/pandoc.svelte.ts:9-41 | the backend is "pandoc", reports no progress, lists its formats and is "downloading" in a browser and "not-ready" outside one |
| Pandoc.PandocConverter.WasmFetched | src/lib/converters/pandoc.svelte.ts:22-30 | the engine fetch makes the backend ready when it succeeded and "error" otherwise, clearing the timer either way |
| Pandoc.PandocConverter.Convert | src/lib/converters/pandoc.svelte.ts:43-113 | a fresh worker runs the exchange, with the file's bytes in the convert request, and the result is what its reply gives; after a reply the worker is terminated, and only a non-error reply deregisters it |
| Pandoc.PandocConverter.Release | src/lib/converters/pandoc.svelte.ts:71-108 | an error reply terminates the worker and leaves it registered; another reply deregisters and terminates it; no reply leaves it running |
| Pandoc.PandocConverter.Cancel | src/lib/converters/pandoc.svelte.ts:115-132 | without a registered worker nothing happens; otherwise it is terminated and deregistered |
| Consts.Shr1 | src/lib/util/consts.ts:44-54 | `>> 1n` halves its argument, rounding towards minus infinity (Euclidean division by 2) |
| Consts.SearchShape | src/lib/util/consts.ts:44-51 | the search gives -1 or a point of the interval where the probe is positive and, unless it is the interval's start, not positive just before |
| Consts.SearchFindsThreshold | src/lib/util/consts.ts:44-51 | on a monotone probe, searching an interval that reaches the threshold finds the threshold, or the interval's start when the threshold lies before it |
| Consts.SearchAllPositive | src/lib/util/consts.ts:44-51 | an interval lying wholly past the threshold gives its start |
| Consts.SearchInside | src/lib/util/consts.ts:44-51 | an interval holding the threshold after its start gives the threshold |
| Consts.SearchInsideLeft | src/lib/util/consts.ts:47-50 | when the threshold lies at or before the midpoint, the search narrows to the left half and still finds it |
| Consts.SearchInsideRight | src/lib/util/consts.ts:47-51 | when the threshold lies after the midpoint, the search narrows to the right half and still finds it |
| Consts.SearchGoesLeft | src/lib/util/consts.ts:47-50 | a positive midpoint after a positive point moves the search to the left half |
| Consts.SearchGoesRight | src/lib/util/consts.ts:47-51 | a non-positive midpoint moves the search to the right half |
| Consts.SearchWithoutPositive | src/lib/util/consts.ts:44-51 | an interval where the probe is nowhere positive gives -1 |
| Consts.FirstDoublingFrom | src/lib/util/consts.ts:53 | the doubling stops at the first power of two, from the start, at which the probe is positive |
| Consts.FindFirstPositive | src/lib/util/consts.ts:41-55 | the doubling loop followed by the search between its last half and it returns the value defined by the first positive power of two and the search |
| Consts.FirstPositiveIsBelowThreshold | src/lib/util/consts.ts:41-55 | on a monotone probe with threshold n the result is n - 1, the largest natural at which the probe is not positive |
| Consts.AllocationThreshold | src/lib/util/consts.ts:69-76 | when allocation succeeds exactly below n, the allocation probe is monotone with threshold n |
| Consts.MaxSizeCases | src/lib/util/consts.ts:57-83 | without a window the size is 2 GiB; a usable cached value is positive; otherwise the size is one less than the first size that cannot be allocated |
| Consts.CacheHitSkipsProbe | src/lib/util/consts.ts:61-66 | a usable cached value is returned whatever allocation would do |
| Consts.BufferLimit.constructor | src/lib/util/consts.ts:86 | nothing is memoised on a fresh page |
| Consts.BufferLimit.GetMaxArrayBufferSize | src/lib/util/consts.ts:57-83 | the size is the one defined for the environment; a detected size is written back to storage as its decimal text, and otherwise storage is unchanged |
| Consts.BufferLimit.GetMax | src/lib/util/consts.ts:86-92 | the first call computes and memoises the size; later calls return the memo and change nothing |
| Consts.MemoisedOnce | src/lib/util/consts.ts:86-92 | two calls answer the same size even when allocation behaves differently the second time |
| Consts.DetectedSizeIsCached | src/lib/util/consts.ts:61-79 | a detected positive size written to storage is what the next page reads back, without probing |

## Left out

- Network transport is not modelled. Its results are parameters:
  - XHR upload and download, and `fetch`.
  - JSON parsing: a reply is either parsed or not.
  - The WebSocket connection itself: a socket is a state and a list of sent messages.
  - The reachability probe: it is an oracle `reachable`.
- Web Workers, ffmpeg.wasm and the ImageMagick and Pandoc WebAssembly are not modelled:
  - A worker's behaviour is the sequence of events it delivers.
  - An ffmpeg run is its log lines and its output file: its bytes, or a failed read.
  - A load succeeds or fails as a parameter says.
- Timers are events. In ImageMagick's `Promise.race`, a timeout wins exactly when the awaited message never arrives; no real time is modelled.
- Magick.Talk: the final untyped wait has no timeout, so a worker that never replies leaves the conversion unsettled (`None`).
- After a timeout wins a race, the source leaves the message listener attached. The model does not track that listener.
- Haversine distance is a floating-point function, so it is an abstract `distance` parameter. Only the argmin and fallback logic is modelled.
- The IP lookup and geolocation are a parameter.
- SVG rasterisation with a canvas, and its dimension sniffing, are not modelled. Its result is a parameter `raster`.
- Magick.MagickConverter.ConvertSvg: the PNG built from the SVG gets a fresh id, passed in as `pngId`.
- Magick.MagickConverter.ConvertSvg: the second `convert` call on the PNG is modelled directly as the raster path. It is proved that the PNG's format is ".png" (`Magick.PngNameOfSvg`), so the call cannot take the SVG branch again.
- Magick.MagickConverter.Convert requires the input name to contain a dot. Every `VertFile` name has one after construction (`Text.NormalizeExtension`).
- Album-art extraction and the bitrate and sample-rate probes are parameters of the command builder. They are the probe results `albumArt`, `detectedBitrate` and `detectedRate`.
- The ffprobe listeners are not modelled.
- FFmpeg.FFmpegConverter.Convert: as in the source, the engine's entry in the active registry is never removed after a conversion. It is only replaced by the next conversion of the same file id, or removed by `cancel`.
- Text.LexLess compares Unicode scalar values, while the default JavaScript sort compares UTF-16 code units. The two orders differ only between a character above U+FFFF and one in U+E000 to U+FFFF. The strings the model sorts this way are hexadecimal digests, which hold neither.
- Vertd.VertdConverter.OnFinished: a failed download leaves the promise unsettled. This follows the source, where the throw escapes the message handler.
- Vertd.VertdConverter.OnProgress and Vertd.VertdConverter.OnTransferProgress leave progress unchanged when the total is 0.
  - The source divides by `totalFrames` whatever its value, which gives Infinity or NaN.
  - An upload or download event without a computable length is likewise ignored there.
- Pandoc.PandocConverter.Convert follows the source in two places:
  - The "loaded" wait accepts any message and ignores a worker crash.
  - An error reply terminates the worker but leaves it in the active registry.
- Pandoc.PandocConverter.Convert and Magick.MagickConverter.Convert: the engine's `wasm` buffer is not modelled, so the `load` request carries only the file id. Pandoc's `ready` flag is not modelled either.
- Pandoc.Interpret and Magick.Interpret: the result file keeps the input's name, with no new extension, as in the source.
- PQueue concurrency is not modelled. In `convertZip` the members are converted one after another in list order. The 100 ms progress polling is left out too.
- Hashing with `crypto.subtle` and the reading of the stream are not modelled. A digest is an opaque function over chunks, and only the combining step (set, sort, join) is modelled.
- The zip codec (`extractZip`, `createZip`) is not modelled. An archive is a list of (name, bytes) entries.
- The `byNative` comparator lives in a file that is not part of this model. It is a comparator parameter, and only consistent comparators are assumed where sortedness is claimed.
- The generated `imageFormats` list is not part of this model. It is a parameter of Magick.MagickFormats.
- VertFiles.VertFile.FindConverter follows the source: it checks only that both formats are listed and that one is native. It ignores the `fromSupported`/`toSupported` flags.
- FileStore.Files.AddMembers: when an archive is expanded, the source calls `_add` again on each member. A member that is itself an archive is returned as pending, and its own extraction (a further `_add` with its entries) is not modelled.
- Text.ToLower: lowers ASCII letters only. JavaScript's `toLowerCase` follows Unicode, so a name with a non-ASCII capital (the Kelvin sign, a dotted capital I, which lowers to two code units) gets another format in the source than in the model.
- Text.ReplaceAll: the replacement text is inserted literally. JavaScript's `replace` with a string replacement expands `$&`, `$$` and the other `$` patterns, so a file name holding one of them is filled differently by `DownloadName`. The archive name is not affected: its replacements ("Multi", "", an ISO date) hold no '$'.
- FileStore.Files.AddMembers, FileStore.Files.HandleZipFile and FileStore.Files.Add do not state that the jobs they append are newly allocated objects. `FileStore.Files.AddRegular`, `FileStore.Files.AddMember` and `FileStore.Files.AddArchiveJob` state it for each job they append.
- Vertd.VertdConverter.OnMessage does not require the socket to be open. A closed WebSocket delivers no messages, so the runtime, not the handler, rules that case out; the model lets the caller decide which messages arrive.
- UI work is not modelled: thumbnails, canvas and DOM work, toasts, dialogs, theme and effects, HTML sanitising and download anchors.
- Settings persistence and localStorage are not modelled. Settings are a plain record built from the defaults. The stored blocklist and the stored instance mode are fields of their classes.
- Consts.MaxSize: `Number()` parsing of the cached text is an oracle `parse`, with `None` for NaN. The text written back is the decimal form of the integer result (`IntString`).
- Consts.FindFirstPositive requires a power of two at which the probe is positive. Without one the source loops forever.
- JavaScript numbers are not modelled as floating point:
  - Sizes, progress and fractions are Dafny `real`s.
  - Bigints are `int`s.
  - `Math.round`, used in the zip progress, is written out for the non-negative values it receives.
- Log output (`log`, `error`, `console.log`) is left out: it does not affect behaviour.
- Build and server configuration (vite.config.ts, src/hooks.server.ts) is not part of this model.

## Findings

| source | as written | input that shows it | evidently intended | confidence | as-written member | corrected member |
|---|---|---|---|---|---|---|
| src/lib/types/file.svelte.ts:35-44 | the `filter` callback of `findConverters` returns the array of supported formats, and an array is always truthy, so every converter is kept and the result is only a reordering (VertFiles.FindConvertersKeepsUnlisted exhibits it) | a file whose converters list none of the requested formats, e.g. `findConverters([])` | keep only the converters listing one of the requested formats (`.some(...)` in the callback) | not executed | VertFiles.VertFile.FindConvertersAsWritten | VertFiles.VertFile.FindConverters |
