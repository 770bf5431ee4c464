/** The settings record the converters read (src/lib/sections/settings/index.svelte.ts), passed
    around as a plain value. Its persistence is not part of this model. */
module AppSettings {
  import opened Wrappers

  datatype ConversionSpeed = VerySlow | Slower | Slow | Medium | Fast | UltraFast

  /** `ffmpegQuality`: "auto" or one of the kbps values of CONVERSION_BITRATES. */
  datatype Bitrate = AutoBitrate | Kbps(kbps: nat)

  /** `ffmpegSampleRate`: "auto", "custom" or one of the fixed rates of SAMPLE_RATES (all of
      them decimal numerals, kept here as their value). */
  datatype SampleRate = AutoRate | CustomRate | FixedRate(hz: nat)

  datatype DefaultFormats = DefaultFormats(image: string, video: string, audio: string, document: string)

  datatype Settings = Settings(
    filenameFormat: string,
    defaultFormat: DefaultFormats,
    useDefaultFormat: bool,
    metadata: bool,
    plausible: bool,
    vertdURL: string,
    vertdSpeed: ConversionSpeed,
    magickQuality: Option<int>,
    ffmpegQuality: Bitrate,
    ffmpegSampleRate: SampleRate,
    ffmpegCustomSampleRate: Option<nat>)

  /** The initial settings; `vertdURL` defaults to the build-time PUB_VERTD_URL. */
  function Defaults(pubVertdUrl: string): Settings {
    Settings(
      "ConvertOnline_%name%",
      DefaultFormats(".png", ".mp4", ".mp3", ".docx"),
      false, true, true, pubVertdUrl, Slow, Some(100), AutoBitrate, AutoRate, Some(44100))
  }
}
