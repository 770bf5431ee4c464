/** The local audio backend of src/lib/converters/ffmpeg.svelte.ts: the target normalisation,
    the codec table and codec arguments, the command line for each kind of conversion, the
    classification of the engine's log lines, and the run of one conversion with its
    cancellation. The engine itself (loading, probing, executing) is an oracle. */
module FFmpeg {
  import opened Wrappers
  import opened Text
  import opened ConverterBase
  import opened AppSettings
  import opened VertFiles

  // ---------------------------------------------------------------- formats

  /** The audio formats with whether each can be written, in table order. */
  const AudioTable: seq<(string, bool)> := [
    ("mp3", true), ("wav", true), ("flac", true), ("ogg", true), ("mogg", false), ("oga", true),
    ("opus", true), ("aac", true), ("alac", true), ("m4a", true), ("caf", false), ("wma", true),
    ("amr", true), ("ac3", true), ("aiff", true), ("aifc", true), ("aif", true), ("mp1", false),
    ("mp2", true), ("mpc", false), ("dsd", false), ("dsf", false), ("dff", false), ("mqa", false),
    ("au", true), ("m4b", true), ("voc", true), ("weba", true)]

  /** `videoFormats`. */
  const VideoFormats: seq<string> := [
    "mkv", "mp4", "avi", "mov", "webm", "ts", "mts", "m2ts", "wmv", "mpg", "mpeg", "flv", "f4v",
    "vob", "m4v", "3gp", "3g2", "mxf", "ogv", "rm", "rmvb", "divx"]

  /** The extensions (without dot) whose audio is lossless. */
  const Lossless: seq<string> := ["flac", "m4a", "caf", "alac", "wav", "dsd", "dsf", "dff"]

  /** The audio formats, readable and natively handled, followed by the video formats, which
      are readable and writable but not native. */
  function FFmpegFormats(): (r: seq<FormatInfo>)
    ensures |r| == |AudioTable| + |VideoFormats| == 50
    ensures forall i :: 0 <= i < |r| ==> WellFormed(r[i]) && r[i].fromSupported
    ensures forall i :: 0 <= i < |AudioTable| ==> r[i].isNative && r[i].name == DotPrefixed(AudioTable[i].0) && r[i].toSupported == AudioTable[i].1
    ensures forall i :: 0 <= i < |VideoFormats| ==>
              var f := r[|AudioTable| + i];
              !f.isNative && f.toSupported && f.name == DotPrefixed(VideoFormats[i])
  {
    var audio := seq(|AudioTable|, i requires 0 <= i < |AudioTable| => Fmt(AudioTable[i].0, true, AudioTable[i].1));
    var video := seq(|VideoFormats|, i requires 0 <= i < |VideoFormats| => Fmt(VideoFormats[i], true, true, false));
    audio + video
  }

  // ---------------------------------------------------------------- targets and codecs

  /** The target as `convert` uses it: dot-prefixed, with ".alac" written as ".m4a" and the
      ALAC flag set. */
  function NormalizeTarget(to: string): (r: (string, bool))
    ensures StartsWith(r.0, ".") && r.0 != ".alac"
    ensures r.1 <==> DotPrefixed(to) == ".alac"
    ensures !r.1 ==> r.0 == DotPrefixed(to)
    ensures r.1 ==> r.0 == ".m4a"
  {
    var t := DotPrefixed(to);
    if t == ".alac" then (".m4a", true) else (t, false)
  }

  /** Normalising a normalised target changes nothing and sets no flag. */
  lemma NormalizeTargetIdempotent(to: string)
    ensures NormalizeTarget(NormalizeTarget(to).0) == (NormalizeTarget(to).0, false)
  {
  }

  datatype Codecs = Codecs(video: string, audio: string)

  /** `getCodecs(ext, isAlac)`: a total table from a dotted extension to its video and audio
      encoders. */
  function GetCodecs(ext: string, isAlac: bool): (r: Codecs)
    ensures ext == ".m4a" ==> r == Codecs("libx264", if isAlac then "alac" else "aac")
    ensures ext !in KnownTargets ==> r == Codecs("libx264", "aac")
  {
    if ext in {".mp4", ".mkv", ".mov", ".mts", ".ts", ".m2ts", ".flv", ".f4v", ".m4v", ".3gp", ".3g2"} then Codecs("libx264", "aac")
    else if ext == ".wmv" then Codecs("wmv2", "wmav2")
    else if ext in {".webm", ".ogv"} then Codecs(if ext == ".webm" then "libvpx" else "libtheora", "libvorbis")
    else if ext in {".avi", ".divx"} then Codecs("mpeg4", "libmp3lame")
    else if ext in {".mpg", ".mpeg", ".vob"} then Codecs("mpeg2video", "mp2")
    else if ext == ".mxf" then Codecs("mpeg2video", "pcm_s16le")
    else if ext == ".mp3" then Codecs("libx264", "libmp3lame")
    else if ext == ".flac" then Codecs("libx264", "flac")
    else if ext == ".wav" then Codecs("libx264", "pcm_s16le")
    else if ext in {".ogg", ".oga"} then Codecs("libx264", "libvorbis")
    else if ext == ".opus" then Codecs("libx264", "libopus")
    else if ext == ".aac" then Codecs("libx264", "aac")
    else if ext == ".m4a" then Codecs("libx264", if isAlac then "alac" else "aac")
    else if ext == ".alac" then Codecs("libx264", "alac")
    else if ext == ".wma" then Codecs("libx264", "wmav2")
    else Codecs("libx264", "aac")
  }

  /** The extensions the codec table names. */
  const KnownTargets: set<string> := {
    ".mp4", ".mkv", ".mov", ".mts", ".ts", ".m2ts", ".flv", ".f4v", ".m4v", ".3gp", ".3g2", ".wmv",
    ".webm", ".ogv", ".avi", ".divx", ".mpg", ".mpeg", ".vob", ".mxf", ".mp3", ".flac", ".wav",
    ".ogg", ".oga", ".opus", ".aac", ".m4a", ".alac", ".wma"}

  /** The ALAC flag only matters for ".m4a". */
  lemma GetCodecsAlacOnlyM4a(ext: string)
    requires ext != ".m4a"
    ensures GetCodecs(ext, true) == GetCodecs(ext, false)
  {
  }

  const X264Preset: seq<string> := ["-preset", "ultrafast", "-crf", "18", "-tune", "stillimage"]

  /** The encoder arguments for the video stream: the encoder, then the x264 preset, the
      VP9 variant of libvpx, or the 48 kHz rate that MXF requires. */
  function VideoArgs(ext: string, c: Codecs): (r: seq<string>)
    ensures |r| >= 2 && r[..2] == ["-c:v", c.video]
    ensures c.video == "libx264" ==> r == ["-c:v", c.video] + X264Preset
    ensures c.video == "libvpx" ==> r == ["-c:v", c.video, "-c:v", "libvpx-vp9"]
    ensures c.video == "mpeg2video" && ext == ".mxf" ==> r == ["-c:v", c.video, "-ar", "48000"]
  {
    var extra: seq<string> :=
      if c.video == "libx264" then X264Preset
      else if c.video == "libvpx" then ["-c:v", "libvpx-vp9"]
      else if c.video == "mpeg2video" && ext == ".mxf" then ["-ar", "48000"]
      else [];
    ["-c:v", c.video] + extra
  }

  /** The encoder arguments for the audio stream; the aac encoder needs "-strict experimental". */
  function AudioArgs(c: Codecs): (r: seq<string>)
    ensures c.audio == "aac" ==> r == ["-c:a", "aac", "-strict", "experimental"]
    ensures c.audio != "aac" ==> r == ["-c:a", c.audio]
  {
    ["-c:a", c.audio] + (if c.audio == "aac" then ["-strict", "experimental"] else [])
  }

  /** The codec arguments `toArgs(ext, isAlac)` produces for the codecs `c` of `ext`: DivX is
      forced into an AVI container in front, MXF gets "-strict unofficial" at the end. */
  function CodecArgs(ext: string, c: Codecs): (r: seq<string>)
    ensures ext == ".divx" ==> r == ["-f", "avi"] + VideoArgs(ext, c) + AudioArgs(c)
    ensures ext == ".mxf" ==> r == VideoArgs(ext, c) + AudioArgs(c) + ["-strict", "unofficial"]
    ensures ext != ".divx" && ext != ".mxf" ==> r == VideoArgs(ext, c) + AudioArgs(c)
  {
    var lead: seq<string> := if ext == ".divx" then ["-f", "avi"] else [];
    var tail: seq<string> := if ext == ".mxf" then ["-strict", "unofficial"] else [];
    lead + VideoArgs(ext, c) + AudioArgs(c) + tail
  }

  /** The arguments start with the video encoder (behind "-f avi" for DivX) and end with the
      audio encoder, its aac flag, or MXF's flag. */
  lemma CodecArgsShape(ext: string, c: Codecs)
    ensures var r := CodecArgs(ext, c);
            (ext == ".divx" ==> r[..4] == ["-f", "avi", "-c:v", c.video])
            && (ext != ".divx" ==> r[..2] == ["-c:v", c.video])
            && (ext == ".mxf" ==> r[|r| - 2..] == ["-strict", "unofficial"])
            && (ext != ".mxf" && c.audio == "aac" ==> r[|r| - 4..] == ["-c:a", "aac", "-strict", "experimental"])
  {
    var v, a := VideoArgs(ext, c), AudioArgs(c);
    var r := CodecArgs(ext, c);
    if ext == ".divx" {
      assert r[..4] == (["-f", "avi"] + v)[..4];
      assert r[2..4] == v[..2];
    } else {
      assert r[..2] == v[..2];
    }
    if ext != ".mxf" && c.audio == "aac" {
      assert r[|r| - 4..] == a;
    }
  }

  /** The MXF line in full. */
  lemma MxfCodecArgs(isAlac: bool)
    ensures CodecArgs(".mxf", GetCodecs(".mxf", isAlac))
            == ["-c:v", "mpeg2video", "-ar", "48000", "-c:a", "pcm_s16le", "-strict", "unofficial"]
  {
    assert GetCodecs(".mxf", isAlac) == Codecs("mpeg2video", "pcm_s16le");
  }

  /** `toArgs(ext, isAlac)`, building the list with `push` and one `unshift`. */
  method ToArgs(ext: string, isAlac: bool) returns (args: seq<string>)
    ensures args == CodecArgs(ext, GetCodecs(ext, isAlac))
  {
    var c := GetCodecs(ext, isAlac);
    args := ["-c:v", c.video];
    if c.video == "libx264" {
      args := args + X264Preset;
    } else if c.video == "libvpx" {
      args := args + ["-c:v", "libvpx-vp9"];
    } else if c.video == "mpeg2video" {
      if ext == ".mxf" {
        args := args + ["-ar", "48000"];
      }
    }
    assert args == VideoArgs(ext, c);
    args := args + ["-c:a", c.audio];
    if c.audio == "aac" {
      args := args + ["-strict", "experimental"];
    }
    assert args == VideoArgs(ext, c) + AudioArgs(c);
    if ext == ".divx" {
      args := ["-f", "avi"] + args;
    }
    if ext == ".mxf" {
      args := args + ["-strict", "unofficial"];
    }
  }

  // ---------------------------------------------------------------- command line

  const StripMetadata: seq<string> := ["-map_metadata", "-1", "-map_chapters", "-1", "-map", "a"]

  /** `s.slice(1)`. */
  function Drop1(s: string): string {
    if |s| > 0 then s[1..] else ""
  }

  /** Whether the conversion goes from a lossless to a lossy format. */
  predicate LosslessToLossy(from: string, to: string) {
    Drop1(from) in Lossless && Drop1(to) !in Lossless
  }

  /** The audio bitrate arguments: the user's setting; in auto mode 128k when going lossless
      to lossy, else the detected bitrate if there is a non-zero one. */
  function BitrateArgs(setting: Bitrate, lossy: bool, detected: Option<nat>): (r: seq<string>)
    ensures setting.Kbps? ==> r == ["-b:a", NatToString(setting.kbps) + "k"]
    ensures setting.AutoBitrate? && lossy ==> r == ["-b:a", "128k"]
    ensures r == [] || (|r| == 2 && r[0] == "-b:a" && EndsWith(r[1], "k"))
    ensures r == [] <==> setting.AutoBitrate? && !lossy && (detected.None? || detected.value == 0)
  {
    match setting
    case Kbps(k) => ["-b:a", NatToString(k) + "k"]
    case AutoBitrate =>
      if lossy then ["-b:a", "128k"]
      else if detected.Some? && detected.value != 0 then ["-b:a", NatToString(detected.value) + "k"]
      else []
  }

  predicate Numeral(s: string) {
    |s| > 0 && forall i :: 0 <= i < |s| ==> IsDigit(s[i])
  }

  /** The sample-rate arguments: the user's fixed or custom rate (44100 when no custom rate
      is set); in auto mode 48000 for opus or 44100 otherwise when going lossless to lossy,
      else the detected rate if there is a non-zero one, with 44100 raised to 48000 for opus. */
  function RateArgs(setting: SampleRate, custom: Option<nat>, lossy: bool, to: string, detected: Option<nat>): (r: seq<string>)
    ensures setting.AutoRate? && lossy ==> r == ["-ar", if to == ".opus" then "48000" else "44100"]
    ensures setting.AutoRate? && !lossy && to == ".opus" && detected == Some(44100) ==> r == ["-ar", NatToString(48000)]
    ensures r == [] || (|r| == 2 && r[0] == "-ar" && Numeral(r[1]))
  {
    match setting
    case FixedRate(hz) => ["-ar", NatToString(hz)]
    case CustomRate => ["-ar", NatToString(custom.GetOr(44100))]
    case AutoRate =>
      if lossy then
        var rate := if to == ".opus" then "48000" else "44100";
        assert Numeral(rate);
        ["-ar", rate]
      else
        var d := if to == ".opus" && detected == Some(44100) then Some(48000) else detected;
        if d.Some? && d.value != 0 then ["-ar", NatToString(d.value)] else []
  }

  const AlbumArtLead: seq<string> := [
    "-loop", "1", "-i", "cover.jpg", "-i", "input", "-vf", "scale=trunc(iw/2)*2:trunc(ih/2)*2",
    "-shortest", "-pix_fmt", "yuv420p", "-r", "1"]

  const SolidLead: seq<string> := [
    "-f", "lavfi", "-i", "color=c=black:s=512x512:rate=1", "-i", "input", "-shortest", "-pix_fmt",
    "yuv420p", "-r", "1"]

  /** The part of the command that depends on the kind of conversion. A video source keeps
      its first audio stream; an audio source going to video gets a still picture (its cover
      art when metadata is kept and the probe found one, else a black frame) and the codec
      arguments; audio to audio selects the target's audio encoder, copying the cover stream
      into m4a when metadata is kept. */
  function CommandLead(from: string, to: string, isAlac: bool, keep: bool, albumArt: bool): seq<string> {
    if Drop1(from) in VideoFormats then ["-i", "input", "-map", "0:a:0"]
    else if Drop1(to) in VideoFormats then
      (if keep && albumArt then AlbumArtLead else SolidLead) + CodecArgs(to, GetCodecs(to, isAlac))
    else
      var m4a := isAlac || to == ".m4a";
      ["-i", "input"] + (if m4a && keep then ["-c:v", "copy"] else []) + ["-c:a", GetCodecs(to, isAlac).audio]
  }

  /** The part every command ends with: metadata stripping, bitrate, sample rate, output. */
  function CommandTail(from: string, to: string, settings: Settings, detectedBitrate: Option<nat>, detectedRate: Option<nat>): (r: seq<string>)
    ensures |r| > 0 && r[|r| - 1] == "output" + to
    ensures !settings.metadata ==> |r| > |StripMetadata| && r[..|StripMetadata|] == StripMetadata
  {
    var lossy := LosslessToLossy(from, to);
    (if settings.metadata then [] else StripMetadata)
    + BitrateArgs(settings.ffmpegQuality, lossy, detectedBitrate)
    + RateArgs(settings.ffmpegSampleRate, settings.ffmpegCustomSampleRate, lossy, to, detectedRate)
    + ["output" + to]
  }

  /** The command `buildConversionCommand` returns. `detectedBitrate`, `detectedRate` and
      `albumArt` are what the engine's probes report when they are consulted. */
  function Command(from: string, to: string, isAlac: bool, settings: Settings, detectedBitrate: Option<nat>, detectedRate: Option<nat>, albumArt: bool): seq<string> {
    CommandLead(from, to, isAlac, settings.metadata, albumArt) + CommandTail(from, to, settings, detectedBitrate, detectedRate)
  }

  /** A command is its lead followed by its tail. */
  lemma CommandOfParts(from: string, to: string, isAlac: bool, settings: Settings, detectedBitrate: Option<nat>, detectedRate: Option<nat>, albumArt: bool, lead: seq<string>, tail: seq<string>)
    requires lead == CommandLead(from, to, isAlac, settings.metadata, albumArt)
    requires tail == CommandTail(from, to, settings, detectedBitrate, detectedRate)
    ensures Command(from, to, isAlac, settings, detectedBitrate, detectedRate, albumArt) == lead + tail
  {
  }

  /** `buildConversionCommand`, reassigning its argument lists as the source does. */
  method BuildConversionCommand(from: string, to: string, isAlac: bool, settings: Settings, detectedBitrate: Option<nat>, detectedRate: Option<nat>, albumArt: bool)
    returns (command: seq<string>)
    ensures command == Command(from, to, isAlac, settings, detectedBitrate, detectedRate, albumArt)
  {
    var inputFormat := Drop1(from);
    var outputFormat := Drop1(to);
    var m4a := isAlac || to == ".m4a";
    var keepMetadata := settings.metadata;
    var metadataArgs: seq<string> := [];
    var m4aArgs: seq<string> := [];
    if !keepMetadata {
      metadataArgs := StripMetadata;
    }
    var lossy := inputFormat in Lossless && outputFormat !in Lossless;
    var audioBitrateArgs := BitrateArgs(settings.ffmpegQuality, lossy, detectedBitrate);
    var sampleRateArgs := RateArgs(settings.ffmpegSampleRate, settings.ffmpegCustomSampleRate, lossy, to, detectedRate);
    var tail := metadataArgs + audioBitrateArgs + sampleRateArgs + ["output" + to];
    assert tail == CommandTail(from, to, settings, detectedBitrate, detectedRate);
    if inputFormat in VideoFormats {
      CommandOfParts(from, to, isAlac, settings, detectedBitrate, detectedRate, albumArt, ["-i", "input", "-map", "0:a:0"], tail);
      return ["-i", "input", "-map", "0:a:0"] + tail;
    }
    if outputFormat in VideoFormats {
      var hasAlbumArt := if keepMetadata then albumArt else false;
      var codecArgs := ToArgs(to, isAlac);
      var lead := if hasAlbumArt then AlbumArtLead else SolidLead;
      assert lead + codecArgs == CommandLead(from, to, isAlac, keepMetadata, albumArt);
      CommandOfParts(from, to, isAlac, settings, detectedBitrate, detectedRate, albumArt, lead + codecArgs, tail);
      return lead + codecArgs + tail;
    }
    var audioCodec := GetCodecs(to, isAlac).audio;
    if m4a && keepMetadata {
      m4aArgs := ["-c:v", "copy"];
    }
    assert ["-i", "input"] + m4aArgs + ["-c:a", audioCodec] == CommandLead(from, to, isAlac, keepMetadata, albumArt);
    CommandOfParts(from, to, isAlac, settings, detectedBitrate, detectedRate, albumArt, ["-i", "input"] + m4aArgs + ["-c:a", audioCodec], tail);
    command := ["-i", "input"] + m4aArgs + ["-c:a", audioCodec] + tail;
  }

  /** Every command ends by naming the output file "output" + target. */
  lemma CommandEndsWithOutput(from: string, to: string, isAlac: bool, settings: Settings, detectedBitrate: Option<nat>, detectedRate: Option<nat>, albumArt: bool)
    ensures var c := Command(from, to, isAlac, settings, detectedBitrate, detectedRate, albumArt);
            |c| > 0 && c[|c| - 1] == "output" + to
  {
    var lead := CommandLead(from, to, isAlac, settings.metadata, albumArt);
    var tail := CommandTail(from, to, settings, detectedBitrate, detectedRate);
    assert tail[|tail| - 1] == "output" + to;
    assert (lead + tail)[|lead + tail| - 1] == tail[|tail| - 1];
  }

  /** A video source is reduced to its first audio stream. */
  lemma CommandVideoSource(from: string, to: string, isAlac: bool, settings: Settings, detectedBitrate: Option<nat>, detectedRate: Option<nat>, albumArt: bool)
    requires Drop1(from) in VideoFormats
    ensures Command(from, to, isAlac, settings, detectedBitrate, detectedRate, albumArt)[..4] == ["-i", "input", "-map", "0:a:0"]
  {
  }

  /** An audio source going to video shows its cover art exactly when metadata is kept and
      the probe found one. */
  lemma CommandAlbumArtIff(from: string, to: string, isAlac: bool, settings: Settings, detectedBitrate: Option<nat>, detectedRate: Option<nat>, albumArt: bool)
    requires Drop1(from) !in VideoFormats && Drop1(to) in VideoFormats
    ensures var c := Command(from, to, isAlac, settings, detectedBitrate, detectedRate, albumArt);
            (c[3] == "cover.jpg") <==> settings.metadata && albumArt
  {
    assert AlbumArtLead[3] == "cover.jpg" && SolidLead[3] != "cover.jpg";
  }

  /** The still-picture leads hold no metadata flag. */
  lemma NoStripFlagInLeads()
    ensures "-map_metadata" !in AlbumArtLead && "-map_metadata" !in SolidLead
  {
  }

  /** Neither do the codec arguments. */
  lemma NoStripFlagInCodecArgs(ext: string, c: Codecs)
    requires c.video != "-map_metadata" && c.audio != "-map_metadata"
    ensures "-map_metadata" !in CodecArgs(ext, c)
  {
  }

  /** Nor the bitrate and sample-rate arguments. */
  lemma NoStripFlagInRateArgs(br: seq<string>, ar: seq<string>)
    requires br == [] || (|br| == 2 && br[0] == "-b:a" && EndsWith(br[1], "k"))
    requires ar == [] || (|ar| == 2 && ar[0] == "-ar" && Numeral(ar[1]))
    ensures "-map_metadata" !in br && "-map_metadata" !in ar
  {
    if |ar| == 2 {
      assert ar[1][0] != '-';
    }
    if |br| == 2 {
      assert br[1][|br[1]| - 1] == 'k';
    }
  }

  /** No encoder name in the codec table is the metadata flag. */
  lemma CodecNamesAreNotFlags(ext: string, isAlac: bool)
    ensures GetCodecs(ext, isAlac).video != "-map_metadata" && GetCodecs(ext, isAlac).audio != "-map_metadata"
  {
  }

  /** The kind-dependent part never holds the metadata flag. */
  lemma NoStripFlagInLead(from: string, to: string, isAlac: bool, keep: bool, albumArt: bool)
    ensures "-map_metadata" !in CommandLead(from, to, isAlac, keep, albumArt)
  {
    CodecNamesAreNotFlags(to, isAlac);
    var c := GetCodecs(to, isAlac);
    if Drop1(from) !in VideoFormats && Drop1(to) in VideoFormats {
      NoStripFlagInLeads();
      NoStripFlagInCodecArgs(to, c);
    }
  }

  /** The shared ending holds the metadata flag iff metadata is not to be kept. */
  lemma TailStripsMetadataIff(from: string, to: string, settings: Settings, detectedBitrate: Option<nat>, detectedRate: Option<nat>)
    ensures "-map_metadata" in CommandTail(from, to, settings, detectedBitrate, detectedRate) <==> !settings.metadata
  {
    var lossy := LosslessToLossy(from, to);
    var br := BitrateArgs(settings.ffmpegQuality, lossy, detectedBitrate);
    var ar := RateArgs(settings.ffmpegSampleRate, settings.ffmpegCustomSampleRate, lossy, to, detectedRate);
    NoStripFlagInRateArgs(br, ar);
    var out := "output" + to;
    assert out[0] == 'o';
    var meta: seq<string> := if settings.metadata then [] else StripMetadata;
    assert CommandTail(from, to, settings, detectedBitrate, detectedRate) == meta + br + ar + [out];
    assert StripMetadata[0] == "-map_metadata";
  }

  /** The metadata-stripping arguments appear iff metadata is not to be kept. */
  lemma CommandStripsMetadataIff(from: string, to: string, isAlac: bool, settings: Settings, detectedBitrate: Option<nat>, detectedRate: Option<nat>, albumArt: bool)
    ensures "-map_metadata" in Command(from, to, isAlac, settings, detectedBitrate, detectedRate, albumArt) <==> !settings.metadata
  {
    NoStripFlagInLead(from, to, isAlac, settings.metadata, albumArt);
    TailStripsMetadataIff(from, to, settings, detectedBitrate, detectedRate);
  }

  // ---------------------------------------------------------------- log classification

  /** What the log listener records. The first two carry localised messages. */
  datatype ConversionError = InvalidRate(rate: Option<nat>) | NoAudio | General(message: string)

  predicate IsRateError(msg: string) {
    Contains(msg, "Specified sample rate") && Contains(msg, "is not supported")
  }

  predicate IsNoAudio(msg: string) {
    Contains(msg, "Stream map '0:a:0' matches no streams.")
  }

  predicate IsGeneralError(msg: string) {
    Contains(msg, "Error initializing output stream")
    || Contains(msg, "Error while opening encoder")
    || Contains(msg, "Error while opening decoder")
    || (Contains(msg, "Error") && Contains(msg, "stream"))
    || Contains(msg, "Conversion failed!")
  }

  /** One call of the log listener: the sample-rate and missing-audio messages always
      overwrite; a general error is recorded only if nothing is recorded yet. */
  function ClassifyLog(current: Option<ConversionError>, msg: string, rate: Option<nat>): (r: Option<ConversionError>)
    ensures IsRateError(msg) ==> r == Some(InvalidRate(rate))
    ensures !IsRateError(msg) && IsNoAudio(msg) ==> r == Some(NoAudio)
    ensures current.Some? && !IsRateError(msg) && !IsNoAudio(msg) ==> r == current
    ensures current.None? ==> (r.None? <==> !IsRateError(msg) && !IsNoAudio(msg) && !IsGeneralError(msg))
  {
    if IsRateError(msg) then Some(InvalidRate(rate))
    else if IsNoAudio(msg) then Some(NoAudio)
    else if IsGeneralError(msg) then (if current.None? then Some(General(msg)) else current)
    else current
  }

  /** The recorded error after the listener has seen `logs`, starting from nothing. */
  function ErrorAfter(logs: seq<string>, rate: Option<nat>): Option<ConversionError> {
    if logs == [] then None else ClassifyLog(ErrorAfter(logs[..|logs| - 1], rate), logs[|logs| - 1], rate)
  }

  /** Once something is recorded, later lines never clear it. */
  lemma {:induction false} ErrorSticks(logs: seq<string>, more: seq<string>, rate: Option<nat>)
    requires ErrorAfter(logs, rate).Some?
    ensures ErrorAfter(logs + more, rate).Some?
    decreases |more|
  {
    if more == [] {
      assert logs + more == logs;
    } else {
      var init := more[..|more| - 1];
      ErrorSticks(logs, init, rate);
      assert (logs + more)[..|logs + more| - 1] == logs + init;
    }
  }

  /** The first general error is what is reported when no specific error follows. */
  lemma {:induction false} FirstGeneralErrorWins(logs: seq<string>, k: nat, rate: Option<nat>)
    requires k < |logs| && IsGeneralError(logs[k])
    requires forall i :: 0 <= i < |logs| ==> !IsRateError(logs[i]) && !IsNoAudio(logs[i])
    requires forall i :: 0 <= i < k ==> !IsGeneralError(logs[i])
    ensures ErrorAfter(logs, rate) == Some(General(logs[k]))
    decreases |logs|
  {
    var init := logs[..|logs| - 1];
    if k < |logs| - 1 {
      FirstGeneralErrorWins(init, k, rate);
    } else {
      NoErrorYet(init, rate);
    }
  }

  /** Lines of no error kind record nothing. */
  lemma {:induction false} NoErrorYet(logs: seq<string>, rate: Option<nat>)
    requires forall i :: 0 <= i < |logs| ==> !IsRateError(logs[i]) && !IsNoAudio(logs[i]) && !IsGeneralError(logs[i])
    ensures ErrorAfter(logs, rate) == None
    decreases |logs|
  {
    if logs != [] {
      NoErrorYet(logs[..|logs| - 1], rate);
    }
  }

  /** A specific error on the last line is what is reported, whatever came before. */
  lemma SpecificErrorOverwrites(logs: seq<string>, msg: string, rate: Option<nat>)
    requires IsRateError(msg) || IsNoAudio(msg)
    ensures ErrorAfter(logs + [msg], rate) == Some(if IsRateError(msg) then InvalidRate(rate) else NoAudio)
  {
    assert (logs + [msg])[..|logs + [msg]| - 1] == logs;
  }

  // ---------------------------------------------------------------- conversion

  datatype FFmpegError = LoadFailed | Classified(error: ConversionError) | ReadFailed | EmptyOutput

  /** The text a failed conversion throws, where the source has a literal one. */
  function ErrorText(e: FFmpegError): Option<string> {
    match e
    case EmptyOutput => Some("empty file returned")
    case Classified(General(msg)) => Some(msg)
    case _ => None
  }

  /** The output file name: the input name without its last extension, plus the target. */
  function OutputName(inputName: string, to: string): (r: string)
    ensures EndsWith(r, to)
    ensures '.' in inputName ==> inputName == r[..|r| - |to|] + "." + LastSegment(inputName)
    ensures '.' !in inputName ==> r == to
  {
    var r := InitSegments(inputName) + to;
    assert r[|r| - |to|..] == to && r[..|r| - |to|] == InitSegments(inputName);
    r
  }

  /** An engine instance: whether it was terminated and whether the error listener is still
      attached. */
  class Engine {
    var terminated: bool
    var listening: bool

    constructor ()
      ensures !terminated && !listening
    {
      terminated := false;
      listening := false;
    }

    method Terminate()
      modifies this
      ensures terminated && listening == old(listening)
    {
      terminated := true;
    }
  }

  /** `FFmpegConverter`. The engine is fetched at construction in the browser. */
  class FFmpegConverter {
    const converter: Converter
    var active: map<string, Engine>

    /** `inBrowser` says whether the page runs in a browser, `engineCreated` whether creating
        the preloading engine succeeds. Only that synchronous failure is caught; a failed load
        leaves the status at "downloading" until the readiness timer reverts it. */
    constructor (inBrowser: bool, engineCreated: bool, timerId: nat)
      ensures fresh(converter) && active == map[]
      ensures converter.name == "ffmpeg" && converter.reportsProgress && converter.supportedFormats == FFmpegFormats()
      ensures converter.Valid()
      ensures !inBrowser ==> converter.status == NotReady && converter.timerPending
      ensures inBrowser && engineCreated ==> converter.status == Downloading && converter.timerPending
      ensures inBrowser && !engineCreated ==> converter.status == Error && !converter.timerPending
    {
      var formats := FFmpegFormats();
      var c := new Converter("ffmpeg", formats, true, 30, timerId);
      if inBrowser {
        if engineCreated {
          c.PreloadStarted();
        } else {
          c.PreloadFailed();
        }
      }
      converter := c;
      active := map[];
    }

    /** The preloading engine finished loading. */
    method EngineLoaded()
      requires converter.Valid()
      modifies converter
      ensures converter.Valid() && converter.status == Ready && !converter.timerPending
    {
      converter.PreloadSucceeded();
    }

    /** A "progress" event of the conversion's engine. */
    method OnProgress(input: VertFile, fraction: real)
      modifies input
      ensures input.progress == fraction * 100.0
      ensures input.to == old(input.to) && input.result == old(input.result)
      ensures input.processing == old(input.processing) && input.cancelled == old(input.cancelled)
    {
      input.progress := fraction * 100.0;
    }

    /** The "log" listener attached during `exec`: each line is classified in turn. */
    static method ScanLogs(logs: seq<string>, customRate: Option<nat>) returns (conversionError: Option<ConversionError>)
      ensures conversionError == ErrorAfter(logs, customRate)
    {
      conversionError := None;
      var i := 0;
      while i < |logs|
        invariant 0 <= i <= |logs|
        invariant conversionError == ErrorAfter(logs[..i], customRate)
      {
        assert logs[..i + 1][..i] == logs[..i];
        conversionError := ClassifyLog(conversionError, logs[i], customRate);
        i := i + 1;
      }
      assert logs[..|logs|] == logs;
    }

    /** `convert(input, to)` with the engine's behaviour given: `loaded` whether the fresh
        engine loads, the probe results, `logs` every line its log listener hears (from the
        probe and album-art runs as well as from `command`), and `output` the bytes of the
        output file, `None` when reading it fails. The engine is registered under the file's
        id (and stays registered). After a recorded error, an empty output or a success it is
        terminated and its log listener detached; a failed read rejects before either, so the
        engine is left running and listening. */
    method Convert(fileId: string, input: VertFile, to: string, settings: Settings, loaded: bool,
                   detectedBitrate: Option<nat>, detectedRate: Option<nat>, albumArt: bool,
                   logs: seq<string>, output: Option<seq<bv8>>)
      returns (r: Result<OutFile, FFmpegError>, command: seq<string>)
      modifies this
      ensures var t := NormalizeTarget(to);
              loaded ==> command == Command(input.From(), t.0, t.1, settings, detectedBitrate, detectedRate, albumArt)
      ensures !loaded ==> r == Failure(LoadFailed) && active == old(active) && command == []
      ensures loaded ==> fileId in active && fresh(active[fileId])
      ensures loaded ==> active == old(active)[fileId := active[fileId]]
      ensures loaded ==> (r == Failure(ReadFailed) <==> !active[fileId].terminated && active[fileId].listening)
      ensures loaded && r != Failure(ReadFailed) ==> active[fileId].terminated && !active[fileId].listening
      ensures var e := ErrorAfter(logs, settings.ffmpegCustomSampleRate);
              loaded && e.Some? ==> r == Failure(Classified(e.value))
      ensures loaded && ErrorAfter(logs, settings.ffmpegCustomSampleRate).None? && output.None? ==> r == Failure(ReadFailed)
      ensures loaded && ErrorAfter(logs, settings.ffmpegCustomSampleRate).None? && output == Some([]) ==> r == Failure(EmptyOutput)
      ensures r.Success? <==> loaded && ErrorAfter(logs, settings.ffmpegCustomSampleRate).None? && output.Some? && output.value != []
      ensures var t := NormalizeTarget(to).0;
              r.Success? ==> r.value == NewOutFile(OutputName(input.name, t), t, Bytes(output.value))
    {
      var (target, isAlac) := NormalizeTarget(to);
      command := [];
      if !loaded {
        return Failure(LoadFailed), command;
      }
      var engine := new Engine();
      active := active[fileId := engine];
      engine.listening := true;
      command := BuildConversionCommand(input.From(), target, isAlac, settings, detectedBitrate, detectedRate, albumArt);
      var conversionError := ScanLogs(logs, settings.ffmpegCustomSampleRate);
      if conversionError.Some? {
        engine.listening := false;
        engine.Terminate();
        return Failure(Classified(conversionError.value)), command;
      }
      if output.None? {
        return Failure(ReadFailed), command;
      }
      engine.listening := false;
      engine.Terminate();
      if output.value == [] {
        return Failure(EmptyOutput), command;
      }
      r := Success(NewOutFile(OutputName(input.name, target), target, Bytes(output.value)));
    }

    /** `cancel`: without a registered engine nothing happens; otherwise it is terminated
        and deregistered. */
    method Cancel(fileId: string)
      modifies this, (if fileId in active then {active[fileId]} else {})
      ensures fileId !in old(active) ==> active == old(active)
      ensures fileId in old(active) ==> active == old(active) - {fileId} && old(active[fileId]).terminated
    {
      if fileId !in active {
        return;
      }
      var engine := active[fileId];
      engine.Terminate();
      active := active - {fileId};
    }
  }
}
