/**
 * The Piper backend's bookkeeping around the `piper` process: the model
 * files a voice needs, the voice record read from a model's JSON config,
 * the local voice listing, the downloadable catalog and its order, the files
 * a download fetches, and the process invocation `synthesize` makes.
 *
 * The models directory is given as the list of file names it holds (in the
 * order the directory listing yields them), None when it is missing or
 * unreadable; a file exists when its name is listed. Parsed JSON documents
 * are given as datatypes holding just the fields the backend reads.
 */
module Piper {
  import opened Wrappers
  import opened Text
  import Sorting

  /** A text-to-speech voice, as every backend reports it. */
  datatype Voice = Voice(id: string, name: string, language: string)

  datatype ErrorKind = NotFound | InvalidData | Other

  datatype IoError = IoError(kind: ErrorKind, message: string)

  const DefaultVoice := "en_US-lessac-medium"
  const Unknown := "unknown"

  function OnnxFile(id: string): string { id + ".onnx" }

  function ConfigFile(id: string): string { id + ".onnx.json" }

  /** `find_model_files`: the model and its config, when both exist. */
  function FindModelFiles(id: string, dir: seq<string>): (r: Option<(string, string)>)
    ensures r.Some? <==> OnnxFile(id) in dir && ConfigFile(id) in dir
    ensures r.Some? ==> r.value == (OnnxFile(id), ConfigFile(id))
  {
    if OnnxFile(id) in dir && ConfigFile(id) in dir then Some((OnnxFile(id), ConfigFile(id))) else None
  }

  /** Different voices never share a model file or a config file. */
  lemma ModelFilesDistinguishVoices(id1: string, id2: string)
    ensures OnnxFile(id1) == OnnxFile(id2) ==> id1 == id2
    ensures ConfigFile(id1) == ConfigFile(id2) ==> id1 == id2
    ensures OnnxFile(id1) != ConfigFile(id2)
  {
    if OnnxFile(id1) == OnnxFile(id2) {
      assert id1 == OnnxFile(id1)[..|id1|];
    }
    if ConfigFile(id1) == ConfigFile(id2) {
      assert id1 == ConfigFile(id1)[..|id1|];
    }
    if |OnnxFile(id1)| == |ConfigFile(id2)| {
      assert OnnxFile(id1)[|OnnxFile(id1)| - 1] == 'x';
      assert ConfigFile(id2)[|ConfigFile(id2)| - 1] == 'n';
    }
  }

  // ---------------------------------------------------------------------------
  // Voice metadata

  /** The fields of a model's `.onnx.json` config the backend reads: `audio.quality` and `espeak.voice`, when strings. */
  datatype VoiceConfig = VoiceConfig(quality: Option<string>, espeakVoice: Option<string>)

  /** The voice id made readable: every '_' becomes a space. */
  function Readable(id: string): (r: string)
    ensures |r| == |id| && '_' !in r
  {
    ReplaceChar(id, '_', ' ')
  }

  /**
   * The voice `parse_voice_metadata` reports for a model, from its config
   * (None when the file cannot be read or is not JSON).
   */
  function VoiceFromConfig(config: Option<VoiceConfig>, id: string): (v: Voice)
    ensures v.id == id
    ensures StartsWith(v.name, Readable(id))
    ensures v.name == Readable(id) <==> config.None? || config.value.quality.None?
    ensures config.Some? && config.value.quality.Some? ==> v.name[|id|..] == " (" + config.value.quality.value + ")"
    ensures v.language == if config.Some? && config.value.espeakVoice.Some? then config.value.espeakVoice.value else Unknown
  {
    var name := if config.Some? && config.value.quality.Some? then Readable(id) + (" (" + config.value.quality.value + ")") else Readable(id);
    Voice(id, name, if config.Some? && config.value.espeakVoice.Some? then config.value.espeakVoice.value else Unknown)
  }

  /** `parse_voice_metadata`: starts from the plain voice and overwrites the name and the language from the config. */
  method ParseVoiceMetadata(config: Option<VoiceConfig>, id: string) returns (voice: Voice)
    ensures voice == VoiceFromConfig(config, id)
  {
    voice := Voice(id, Readable(id), Unknown);
    if config.Some? {
      var json := config.value;
      if json.quality.Some? {
        voice := voice.(name := Readable(id) + (" (" + json.quality.value + ")"));
      }
      if json.espeakVoice.Some? {
        voice := voice.(language := json.espeakVoice.value);
      }
    }
  }

  // ---------------------------------------------------------------------------
  // Local voices

  /** A file whose extension is "onnx": a name ending ".onnx" with something before the dot. */
  predicate IsModelFile(name: string) {
    |name| > 5 && EndsWith(name, ".onnx")
  }

  /** The file stem of a model file. */
  function Stem(name: string): (r: string)
    requires IsModelFile(name)
    ensures r != [] && name == r + ".onnx"
  {
    name[..|name| - 5]
  }

  lemma StemOfOnnxFile(id: string)
    requires id != []
    ensures IsModelFile(OnnxFile(id)) && Stem(OnnxFile(id)) == id
  {
    assert OnnxFile(id)[|id|..] == ".onnx";
  }

  /** The voice listed for the model file `name`: read from its config when that exists, else the plain voice. */
  function LocalVoice(name: string, dir: seq<string>, configs: map<string, VoiceConfig>): (v: Voice)
    requires IsModelFile(name)
    ensures v.id == Stem(name) && StartsWith(v.name, Readable(v.id))
    ensures ConfigFile(v.id) !in dir ==> v.name == Readable(v.id) && v.language == Unknown
    ensures ConfigFile(v.id) in dir && ConfigFile(v.id) !in configs ==> v.language == Unknown
  {
    var id := Stem(name);
    if ConfigFile(id) in dir then
      VoiceFromConfig(if ConfigFile(id) in configs then Some(configs[ConfigFile(id)]) else None, id)
    else Voice(id, Readable(id), Unknown)
  }

  /** The voices listed for the entries `names` of the directory `dir`, in listing order. */
  function LocalVoices(names: seq<string>, dir: seq<string>, configs: map<string, VoiceConfig>): (r: seq<Voice>)
    ensures |r| <= |names|
    ensures forall v :: v in r ==> v.id != [] && StartsWith(v.name, Readable(v.id))
    decreases |names|
  {
    if names == [] then []
    else
      var name := names[|names| - 1];
      LocalVoices(names[..|names| - 1], dir, configs) + (if IsModelFile(name) then [LocalVoice(name, dir, configs)] else [])
  }

  /**
   * A voice is listed exactly for each model file: its id is the stem, its
   * name starts with the readable id, and a model whose config is missing
   * gets the language "unknown".
   */
  lemma {:induction false} LocalVoicesListModels(names: seq<string>, dir: seq<string>, configs: map<string, VoiceConfig>, id: string)
    ensures (exists v :: v in LocalVoices(names, dir, configs) && v.id == id) <==> id != [] && OnnxFile(id) in names
    ensures forall v :: v in LocalVoices(names, dir, configs) ==>
      StartsWith(v.name, Readable(v.id)) && (ConfigFile(v.id) !in dir ==> v.language == Unknown)
    decreases |names|
  {
    if names != [] {
      var init, name := names[..|names| - 1], names[|names| - 1];
      LocalVoicesListModels(init, dir, configs, id);
      assert names == init + [name];
      if IsModelFile(name) {
        assert name == OnnxFile(Stem(name));
      }
      if id != [] && name == OnnxFile(id) {
        StemOfOnnxFile(id);
        var v := LocalVoice(name, dir, configs);
        assert v in LocalVoices(names, dir, configs) && v.id == id;
      }
    }
  }

  /** Every listed voice whose config exists can be synthesized: both its model files are found. */
  lemma ListedVoicesHaveModels(names: seq<string>, dir: seq<string>, configs: map<string, VoiceConfig>, v: Voice)
    requires forall n :: n in names ==> n in dir
    requires v in LocalVoices(names, dir, configs) && ConfigFile(v.id) in dir
    ensures FindModelFiles(v.id, dir).Some?
  {
    LocalVoicesListModels(names, dir, configs, v.id);
  }

  /** `list_voices`: one voice per model file of the directory, nothing when the directory is missing. */
  method ListVoices(dir: Option<seq<string>>, configs: map<string, VoiceConfig>) returns (voices: seq<Voice>)
    ensures voices == if dir.None? then [] else LocalVoices(dir.value, dir.value, configs)
  {
    voices := [];
    if dir.None? {
      return;
    }
    var names := dir.value;
    var i := 0;
    while i < |names|
      invariant 0 <= i <= |names|
      invariant voices == LocalVoices(names[..i], names, configs)
    {
      assert names[..i + 1][..i] == names[..i];
      var name := names[i];
      if IsModelFile(name) {
        var id := Stem(name);
        if ConfigFile(id) in names {
          var v := ParseVoiceMetadata(if ConfigFile(id) in configs then Some(configs[ConfigFile(id)]) else None, id);
          voices := voices + [v];
        } else {
          voices := voices + [Voice(id, Readable(id), Unknown)];
        }
      }
      i := i + 1;
    }
    assert names[..|names|] == names;
  }

  // ---------------------------------------------------------------------------
  // The downloadable catalog

  /**
   * One entry of the published `voices.json`: `language.name_english`,
   * `quality`, `name` and the keys of `files`, each None when missing or of
   * the wrong JSON type.
   */
  datatype CatalogEntry = CatalogEntry(
    languageName: Option<string>,
    quality: Option<string>,
    name: Option<string>,
    files: Option<seq<string>>)

  /** The voice offered for the catalog entry `key`. */
  function CatalogVoice(key: string, e: CatalogEntry): (v: Voice)
    ensures v.id == key
    ensures StartsWith(v.name, e.name.GetOr(key))
    ensures e.quality.None? ==> EndsWith(v.name, " (unknown)")
    ensures v.language == Unknown <==> e.languageName.None? || e.languageName == Some(Unknown)
  {
    Voice(key, e.name.GetOr(key) + (" (" + e.quality.GetOr(Unknown) + ")"), e.languageName.GetOr(Unknown))
  }

  /** The catalog voices in the catalog's order. */
  function CatalogVoices(entries: seq<(string, CatalogEntry)>): (vs: seq<Voice>)
    ensures |vs| == |entries|
    ensures forall i :: 0 <= i < |entries| ==> vs[i] == CatalogVoice(entries[i].0, entries[i].1)
    decreases |entries|
  {
    if entries == [] then []
    else
      var last := entries[|entries| - 1];
      CatalogVoices(entries[..|entries| - 1]) + [CatalogVoice(last.0, last.1)]
  }

  /** The comparator of `list_downloadable_voices`: by language, then by name. */
  function VoiceBefore(a: Voice, b: Voice): (r: bool)
    ensures a.language != b.language ==> (r <==> LexLe(a.language, b.language))
    ensures a.language == b.language ==> (r <==> LexLe(a.name, b.name))
  {
    (a.language != b.language && LexLe(a.language, b.language)) || (a.language == b.language && LexLe(a.name, b.name))
  }

  lemma VoiceBeforeIsTotalPreorder()
    ensures Sorting.TotalPreorder(VoiceBefore)
  {
    forall a: Voice, b: Voice
      ensures VoiceBefore(a, b) || VoiceBefore(b, a)
    {
      LexLeTotal(a.language, b.language);
      LexLeTotal(a.name, b.name);
    }
    forall a: Voice, b: Voice, c: Voice | VoiceBefore(a, b) && VoiceBefore(b, c)
      ensures VoiceBefore(a, c)
    {
      if a.language == b.language && b.language == c.language {
        LexLeTransitive(a.name, b.name, c.name);
      } else if a.language != b.language && b.language != c.language {
        LexLeTransitive(a.language, b.language, c.language);
        if a.language == c.language {
          LexLeAntisymmetric(a.language, b.language);
        }
      }
    }
  }

  /** The downloadable voices: every catalog entry once, ordered by language and then name. */
  function DownloadableVoices(entries: seq<(string, CatalogEntry)>): seq<Voice> {
    Sorting.SortBy(CatalogVoices(entries), VoiceBefore)
  }

  /** The listing holds each catalog voice as often as the catalog does, ordered by language and then name. */
  lemma DownloadableVoicesOrdered(entries: seq<(string, CatalogEntry)>)
    ensures multiset(DownloadableVoices(entries)) == multiset(CatalogVoices(entries))
    ensures Sorting.Sorted(DownloadableVoices(entries), VoiceBefore)
  {
    VoiceBeforeIsTotalPreorder();
    Sorting.SortBySorted(CatalogVoices(entries), VoiceBefore);
  }

  /**
   * `list_downloadable_voices`, given the fetched catalog (an error when the
   * fetch or the JSON parse failed; no entries when the document is not an
   * object).
   */
  method ListDownloadableVoices(catalog: Result<seq<(string, CatalogEntry)>, IoError>) returns (r: Result<seq<Voice>, IoError>)
    ensures catalog.Err? ==> r == Err(catalog.error)
    ensures catalog.Ok? ==> r == Ok(DownloadableVoices(catalog.value))
  {
    if catalog.Err? {
      return Err(catalog.error);
    }
    var entries := catalog.value;
    var available: seq<Voice> := [];
    var i := 0;
    while i < |entries|
      invariant 0 <= i <= |entries|
      invariant available == CatalogVoices(entries[..i])
    {
      assert entries[..i + 1][..i] == entries[..i];
      available := available + [CatalogVoice(entries[i].0, entries[i].1)];
      i := i + 1;
    }
    assert entries[..|entries|] == entries;
    r := Ok(Sorting.SortBy(available, VoiceBefore));
  }

  // ---------------------------------------------------------------------------
  // Downloading

  const DownloadBase := "https://huggingface.co/rhasspy/piper-voices/resolve/main/"

  /** The final component of a '/'-separated path. */
  function FileName(path: string): (r: string)
    ensures '/' !in r && EndsWith(path, r)
    decreases |path|
  {
    if path == [] || path[|path| - 1] == '/' then []
    else
      var r := FileName(path[..|path| - 1]) + [path[|path| - 1]];
      assert path[..|path| - 1][|path| - 1 - (|r| - 1)..] == r[..|r| - 1];
      r
  }

  /** A suffix without '/' stays on the file name. */
  lemma {:induction false} FileNameKeepsSuffix(path: string, suffix: string)
    requires '/' !in suffix && EndsWith(path, suffix)
    ensures EndsWith(FileName(path), suffix)
    decreases |path|
  {
    if suffix != [] {
      var init := path[..|path| - 1];
      assert path[|path| - 1] == suffix[|suffix| - 1];
      assert init[|init| - (|suffix| - 1)..] == suffix[..|suffix| - 1];
      FileNameKeepsSuffix(init, suffix[..|suffix| - 1]);
      assert FileName(path) == FileName(init) + [path[|path| - 1]];
    }
  }

  /** The catalog files `download_voice` fetches: the model and its config, not the model card. */
  predicate Wanted(path: string) {
    EndsWith(path, ".onnx") || EndsWith(path, ".onnx.json")
  }

  /** One fetch: the URL downloaded and the file name it is saved under in the models directory. */
  datatype Fetch = Fetch(url: string, saveAs: string)

  function FetchOf(path: string): Fetch {
    Fetch(DownloadBase + path, FileName(path))
  }

  /** The fetches for the wanted files among `paths`, in order. */
  function Fetches(paths: seq<string>): (r: seq<Fetch>)
    ensures |r| <= |paths|
    ensures forall f :: f in r ==> StartsWith(f.url, DownloadBase)
    decreases |paths|
  {
    if paths == [] then []
    else
      var path := paths[|paths| - 1];
      Fetches(paths[..|paths| - 1]) + (if Wanted(path) then [FetchOf(path)] else [])
  }

  /** Each wanted file is fetched once, nothing else is, and it is saved under a name of the same kind. */
  lemma {:induction false} FetchesAreWanted(paths: seq<string>)
    ensures forall f :: f in Fetches(paths) ==>
      (exists p :: p in paths && Wanted(p) && f == FetchOf(p))
      && '/' !in f.saveAs && (EndsWith(f.saveAs, ".onnx") || EndsWith(f.saveAs, ".onnx.json"))
    ensures forall p :: p in paths && Wanted(p) ==> FetchOf(p) in Fetches(paths)
    decreases |paths|
  {
    if paths != [] {
      var init, path := paths[..|paths| - 1], paths[|paths| - 1];
      FetchesAreWanted(init);
      assert paths == init + [path];
      if EndsWith(path, ".onnx") {
        FileNameKeepsSuffix(path, ".onnx");
      }
      if EndsWith(path, ".onnx.json") {
        FileNameKeepsSuffix(path, ".onnx.json");
      }
    }
  }

  /** What `download_voice` fetches for `voiceId`, or why it fails before fetching. */
  function DownloadPlan(catalog: map<string, CatalogEntry>, voiceId: string): (r: Result<seq<Fetch>, IoError>)
    ensures r.Err? <==> voiceId !in catalog || catalog[voiceId].files.None?
    ensures voiceId !in catalog ==> r.Err? && r.error.kind == NotFound
    ensures voiceId in catalog && catalog[voiceId].files.None? ==> r.Err? && r.error.kind == InvalidData
  {
    if voiceId !in catalog then Err(IoError(NotFound, "Voice " + voiceId + " not found in catalog"))
    else if catalog[voiceId].files.None? then Err(IoError(InvalidData, "No files found for voice"))
    else Ok(Fetches(catalog[voiceId].files.value))
  }

  /** `download_voice` up to the transfers: looks the voice up and walks its files, keeping the wanted ones. */
  method DownloadVoice(catalog: Result<map<string, CatalogEntry>, IoError>, voiceId: string) returns (r: Result<seq<Fetch>, IoError>)
    ensures catalog.Err? ==> r == Err(catalog.error)
    ensures catalog.Ok? ==> r == DownloadPlan(catalog.value, voiceId)
  {
    if catalog.Err? {
      return Err(catalog.error);
    }
    if voiceId !in catalog.value {
      return Err(IoError(NotFound, "Voice " + voiceId + " not found in catalog"));
    }
    var files := catalog.value[voiceId].files;
    if files.None? {
      return Err(IoError(InvalidData, "No files found for voice"));
    }
    var paths := files.value;
    var fetches: seq<Fetch> := [];
    var i := 0;
    while i < |paths|
      invariant 0 <= i <= |paths|
      invariant fetches == Fetches(paths[..i])
    {
      assert paths[..i + 1][..i] == paths[..i];
      var path := paths[i];
      if EndsWith(path, ".onnx") || EndsWith(path, ".onnx.json") {
        fetches := fetches + [Fetch(DownloadBase + path, FileName(path))];
      }
      i := i + 1;
    }
    assert paths[..|paths|] == paths;
    r := Ok(fetches);
  }

  // ---------------------------------------------------------------------------
  // Synthesis

  /** The `piper` invocation: its arguments and what is written to its standard input. */
  datatype PiperRun = PiperRun(args: seq<string>, input: string)

  /** What `synthesize` runs for `text`, or the NotFound error when the voice's model files are not both present. */
  function Synthesize(text: string, voice: Option<string>, dir: seq<string>): (r: Result<PiperRun, IoError>)
    ensures var id := voice.GetOr(DefaultVoice);
      && (r.Ok? <==> OnnxFile(id) in dir && ConfigFile(id) in dir)
      && (r.Ok? ==> r.value.args == ["-m", OnnxFile(id), "--output_file", "-"] && r.value.input == text + "\n")
      && (r.Err? ==> r.error.kind == NotFound)
  {
    var id := voice.GetOr(DefaultVoice);
    match FindModelFiles(id, dir)
    case None => Err(IoError(NotFound, "Piper model not found locally for voice: " + id + ". Please download it first."))
    case Some((onnx, _)) => Ok(PiperRun(["-m", onnx, "--output_file", "-"], text + "\n"))
  }

  /** Without a voice the default voice's model is run, and only when it is installed. */
  lemma DefaultVoiceUsed(text: string, dir: seq<string>)
    ensures Synthesize(text, None, dir).Ok? <==> "en_US-lessac-medium.onnx" in dir && "en_US-lessac-medium.onnx.json" in dir
    ensures Synthesize(text, None, dir).Ok? ==> Synthesize(text, None, dir).value.args[1] == "en_US-lessac-medium.onnx"
  {
    assert OnnxFile(DefaultVoice) == "en_US-lessac-medium.onnx";
    assert ConfigFile(DefaultVoice) == "en_US-lessac-medium.onnx.json";
  }
}
