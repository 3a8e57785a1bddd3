/**
 * The daemon's settings: the built-in defaults, the validation every loaded
 * configuration must pass, and the outcome of loading. The layering of
 * defaults, configuration files and `SPEECH_*` environment variables is done
 * by a configuration library; its result is a parameter here.
 */
module ConfigLoader {
  import opened Wrappers

  newtype I16 = x: int | -0x8000 <= x < 0x8000

  /** The `Settings` record; f32 fields are reals, unsigned fields naturals. */
  datatype Settings = Settings(
    ollamaUrl: string,
    ollamaModel: string,
    enableAi: bool,
    passiveConfidenceThreshold: real,
    piperModel: string,
    piperBinary: string,
    ttsBackend: string,
    memorySize: nat,
    enableAudio: bool,
    wakeWord: string,
    enableWakeWord: bool,
    vadSpeechThreshold: I16,
    vadSilenceThreshold: I16,
    vadSilenceDurationMs: nat,
    vadMaxDurationMs: nat,
    sttBackend: string,
    wyomingHost: string,
    wyomingPort: nat,
    wyomingAutoStart: bool,
    wyomingDevice: string,
    wyomingModel: string,
    whisperModelPath: string,
    whisperLanguage: string,
    maxAudioSizeMb: nat,
    playbackTimeoutSecs: nat,
    playbackVolume: real,
    rateLimitTts: nat,
    rateLimitAi: nat,
    rateLimitAudio: nat,
    rateLimitListen: nat)

  /** `Settings::default`, with `HOME` (None when unset) as a parameter. */
  function DefaultSettings(home: Option<string>): (s: Settings)
    ensures s.memorySize == 50 && s.playbackVolume == 1.0 && s.vadSpeechThreshold == 500
    ensures s.whisperModelPath == home.GetOr(".") + "/.cache/whisper/ggml-tiny.en.bin"
  {
    Settings(
      "http://localhost:11434", "llama3", true, 0.1,
      "en_US-lessac-medium", "piper", "espeak", 50, true,
      "startuz", false,
      500, 400, 1500, 15000,
      "vosk", "127.0.0.1", 10301, true, "cpu", "tiny",
      home.GetOr(".") + "/.cache/whisper/ggml-tiny.en.bin", "en",
      50, 30, 1.0,
      30, 10, 20, 30)
  }

  /** Why `validate` refused a configuration. */
  datatype ValidationError =
    | InvalidPlaybackVolume(volume: real)   // "Invalid playback_volume: ... Must be between 0.0 and 1.0"
    | MemorySizeZero                        // "memory_size must be greater than 0"
    | VadThresholdNotPositive               // "vad_speech_threshold must be positive"

  /** `validate`: the volume check, then the memory size, then the speech threshold; the first failure is reported. */
  function Validate(s: Settings): (r: Result<(), ValidationError>)
    ensures r.Ok? <==> 0.0 <= s.playbackVolume <= 1.0 && s.memorySize > 0 && s.vadSpeechThreshold > 0
    ensures !(0.0 <= s.playbackVolume <= 1.0) ==> r == Err(InvalidPlaybackVolume(s.playbackVolume))
    ensures 0.0 <= s.playbackVolume <= 1.0 && s.memorySize == 0 ==> r == Err(MemorySizeZero)
    ensures 0.0 <= s.playbackVolume <= 1.0 && s.memorySize > 0 && s.vadSpeechThreshold <= 0 ==> r == Err(VadThresholdNotPositive)
  {
    if s.playbackVolume < 0.0 || s.playbackVolume > 1.0 then Err(InvalidPlaybackVolume(s.playbackVolume))
    else if s.memorySize == 0 then Err(MemorySizeZero)
    else if s.vadSpeechThreshold <= 0 then Err(VadThresholdNotPositive)
    else Ok(())
  }

  /** The built-in defaults pass validation, whatever `HOME` is. */
  lemma DefaultsValid(home: Option<string>)
    ensures Validate(DefaultSettings(home)).Ok?
  {
    var s := DefaultSettings(home);
    assert s.memorySize == 50 && s.playbackVolume == 1.0 && s.vadSpeechThreshold == 500;
  }

  /** Validation looks only at the volume, the memory size and the speech threshold. */
  lemma ValidateReadsThreeFields(s: Settings, t: Settings)
    requires s.playbackVolume == t.playbackVolume && s.memorySize == t.memorySize
    requires s.vadSpeechThreshold == t.vadSpeechThreshold
    ensures Validate(s) == Validate(t)
  {
  }

  /** Why loading failed: the configuration library's own error, or a validation failure. */
  datatype LoadError = BuildError(message: string) | Invalid(error: ValidationError)

  /** `Settings::new`, given what the layered configuration deserialized to. */
  function Load(built: Result<Settings, string>): (r: Result<Settings, LoadError>)
    ensures built.Err? ==> r == Err(BuildError(built.error))
    ensures r.Ok? <==> built.Ok? && Validate(built.value).Ok?
    ensures r.Ok? ==> r.value == built.value
  {
    if built.Err? then Err(BuildError(built.error))
    else match Validate(built.value)
      case Err(e) => Err(Invalid(e))
      case Ok(_) => Ok(built.value)
  }

  /** Loaded settings always have a positive memory size, a volume within [0, 1] and a positive speech threshold. */
  lemma LoadedSettingsSound(built: Result<Settings, string>)
    requires Load(built).Ok?
    ensures var s := Load(built).value;
      s.memorySize > 0 && 0.0 <= s.playbackVolume <= 1.0 && s.vadSpeechThreshold > 0
  {
  }

  /** With nothing overriding them, the defaults load. */
  lemma DefaultsLoad(home: Option<string>)
    ensures Load(Ok(DefaultSettings(home))) == Ok(DefaultSettings(home))
  {
    DefaultsValid(home);
  }
}
