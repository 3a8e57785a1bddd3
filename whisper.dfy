/**
 * The Whisper speech-to-text backend around the inference call: where the
 * model is loaded from, whether a language is forced, how the recognised
 * segments become one transcript, and how a WAV file's samples are reduced
 * to one channel before resampling. The environment, the WAV reader, the
 * model and the resampler are parameters; samples are reals.
 */
module Whisper {
  import opened Wrappers
  import opened Text

  // ---------------------------------------------------------------------------
  // Model path

  /** The model path with a leading "~/" expanded: the '~' becomes `HOME`, or "." when `HOME` is unset. */
  function ExpandPath(path: string, home: Option<string>): (r: string)
    ensures !StartsWith(path, "~/") ==> r == path
    ensures StartsWith(path, "~/") ==> r == home.GetOr(".") + path[1..] && StartsWith(r, home.GetOr(".") + "/")
  {
    if StartsWith(path, "~/") then home.GetOr(".") + path[1..] else path
  }

  /** Expanding an expanded path changes nothing, unless `HOME` itself is "~" or starts with "~/". */
  lemma ExpandPathIdempotent(path: string, home: Option<string>)
    requires home.GetOr(".") != "~" && !StartsWith(home.GetOr("."), "~/")
    ensures ExpandPath(ExpandPath(path, home), home) == ExpandPath(path, home)
  {
    var h := home.GetOr(".");
    if StartsWith(path, "~/") {
      var r := ExpandPath(path, home);
      assert r == h + path[1..];
      assert path[1..][0] == '/';
      if |h| >= 2 {
        assert r[0] == h[0] && r[1] == h[1];
        assert r[..2] == h[..2];
      } else if |h| == 1 {
        assert r[0] == h[0] && h == [h[0]];
      } else {
        assert r[0] == '/';
      }
    }
  }

  // ---------------------------------------------------------------------------
  // Language

  /** The language passed to the model: the configured one unless it is empty or "auto", which leave detection on. */
  function ForcedLanguage(language: string): (r: Option<string>)
    ensures r.Some? <==> language != "" && language != "auto"
    ensures r.Some? ==> r.value == language
  {
    if language != "" && language != "auto" then Some(language) else None
  }

  // ---------------------------------------------------------------------------
  // Transcript

  /** The text collected from the segments: each readable segment followed by a space, unreadable ones skipped. */
  function SegmentText(segments: seq<Option<string>>): (r: string)
    ensures r == [] <==> forall i :: 0 <= i < |segments| ==> segments[i].None?
    ensures r != [] ==> r[|r| - 1] == ' '
    decreases |segments|
  {
    if segments == [] then []
    else
      var last := segments[|segments| - 1];
      assert forall i :: 0 <= i < |segments| - 1 ==> segments[..|segments| - 1][i] == segments[i];
      SegmentText(segments[..|segments| - 1]) + (if last.Some? then last.value + " " else [])
  }

  /** The readable segments, in order. */
  function Readable(segments: seq<Option<string>>): (r: seq<string>)
    ensures |r| <= |segments|
    decreases |segments|
  {
    if segments == [] then []
    else
      var last := segments[|segments| - 1];
      Readable(segments[..|segments| - 1]) + (if last.Some? then [last.value] else [])
  }

  /** The transcript `transcribe` returns. */
  function Transcript(segments: seq<Option<string>>): (r: string)
    ensures |r| < |SegmentText(segments)| || r == []
    ensures r == [] || (!IsWhite(r[0]) && !IsWhite(r[|r| - 1]))
    ensures (forall i :: 0 <= i < |segments| ==> segments[i].None?) ==> r == []
  {
    TrimIsCore(SegmentText(segments));
    Trim(SegmentText(segments))
  }

  /** The collected text is the readable segments joined by spaces, plus one trailing space. */
  lemma {:induction false} SegmentTextIsJoin(segments: seq<Option<string>>)
    ensures SegmentText(segments) == if Readable(segments) == [] then [] else Join(Readable(segments), " ") + " "
    decreases |segments|
  {
    if segments != [] {
      var init := segments[..|segments| - 1];
      SegmentTextIsJoin(init);
      var last := segments[|segments| - 1];
      if last.Some? {
        assert Readable(segments) == Readable(init) + [last.value];
        if Readable(init) != [] {
          JoinSnoc(Readable(init), last.value, " ");
        }
      } else {
        assert Readable(segments) == Readable(init);
      }
    }
  }

  /**
   * Segments that are already trimmed and non-empty come out joined by single
   * spaces, with nothing around them.
   */
  lemma TranscriptOfTrimmedSegments(segments: seq<Option<string>>)
    requires forall i :: 0 <= i < |segments| && segments[i].Some? ==>
      segments[i].value != [] && !IsWhite(segments[i].value[0]) && !IsWhite(segments[i].value[|segments[i].value| - 1])
    ensures Transcript(segments) == Join(Readable(segments), " ")
  {
    SegmentTextIsJoin(segments);
    ReadableFrom(segments);
    var parts := Readable(segments);
    if parts != [] {
      JoinKeepsTrimmedEnds(parts, " ");
      TrimPadded([], Join(parts, " "), " ");
      assert [] + Join(parts, " ") + " " == Join(parts, " ") + " ";
    }
  }

  /** Joining parts whose outer ends are not whitespace gives a text whose ends are not whitespace. */
  lemma JoinKeepsTrimmedEnds(parts: seq<string>, sep: string)
    requires parts != [] && parts[0] != [] && parts[|parts| - 1] != []
    requires !IsWhite(parts[0][0]) && !IsWhite(parts[|parts| - 1][|parts[|parts| - 1]| - 1])
    ensures var j := Join(parts, sep); j != [] && !IsWhite(j[0]) && !IsWhite(j[|j| - 1])
  {
    JoinEnds(parts, sep);
    var j, first, last := Join(parts, sep), parts[0], parts[|parts| - 1];
    assert j[0] == j[..|first|][0] == first[0];
    assert j[|j| - 1] == j[|j| - |last|..][|last| - 1] == last[|last| - 1];
  }

  lemma {:induction false} ReadableFrom(segments: seq<Option<string>>)
    ensures forall k :: 0 <= k < |Readable(segments)| ==> exists i :: 0 <= i < |segments| && segments[i] == Some(Readable(segments)[k])
    decreases |segments|
  {
    if segments != [] {
      var init := segments[..|segments| - 1];
      ReadableFrom(init);
      var last := segments[|segments| - 1];
      assert Readable(segments) == Readable(init) + (if last.Some? then [last.value] else []);
      forall k | 0 <= k < |Readable(segments)|
        ensures exists i :: 0 <= i < |segments| && segments[i] == Some(Readable(segments)[k])
      {
        if k < |Readable(init)| {
          var i :| 0 <= i < |init| && init[i] == Some(Readable(init)[k]);
          assert segments[i] == init[i];
        } else {
          assert segments[|segments| - 1] == Some(Readable(segments)[k]);
        }
      }
    } else {
      assert Readable(segments) == [];
    }
  }

  /** The segment loop of `transcribe`: appends each readable segment and a space, then trims once. */
  method CollectSegments(segments: seq<Option<string>>) returns (transcript: string)
    ensures transcript == Transcript(segments)
  {
    var text: string := [];
    var i := 0;
    while i < |segments|
      invariant 0 <= i <= |segments|
      invariant text == SegmentText(segments[..i])
    {
      assert segments[..i + 1][..i] == segments[..i];
      if segments[i].Some? {
        text := text + segments[i].value;
        text := text + " ";
      }
      i := i + 1;
    }
    assert segments[..|segments|] == segments;
    transcript := Trim(text);
  }

  // ---------------------------------------------------------------------------
  // Down-mixing

  function Sum(xs: seq<real>): real
    decreases |xs|
  {
    if xs == [] then 0.0 else Sum(xs[..|xs| - 1]) + xs[|xs| - 1]
  }

  /** `samples.chunks(channels).map(|c| c.iter().sum() / channels)`: one value per frame; a short last frame is still divided by `channels`. */
  function Downmix(samples: seq<real>, channels: nat): (r: seq<real>)
    requires channels > 1
    ensures |r| <= |samples|
    ensures r == [] <==> samples == []
    decreases |samples|
  {
    if samples == [] then []
    else if |samples| <= channels then [Sum(samples) / channels as real]
    else [Sum(samples[..channels]) / channels as real] + Downmix(samples[channels..], channels)
  }

  /** `count` frames of `channels` samples are the fewest that hold `n` samples: `count` is n / channels rounded up. */
  predicate FramesFor(count: nat, n: nat, channels: nat) {
    if n == 0 then count == 0 else count >= 1 && (count - 1) * channels < n <= count * channels
  }

  /** The mono signal `load_audio` works on: down-mixed when there is more than one channel, untouched otherwise. */
  function Mono(samples: seq<real>, channels: nat): (r: seq<real>)
    ensures channels > 1 ==> FramesFor(|r|, |samples|, channels)
    ensures channels <= 1 ==> r == samples
  {
    if channels > 1 then
      DownmixLength(samples, channels);
      Downmix(samples, channels)
    else samples
  }

  /** One output sample per frame, a trailing partial frame included. */
  lemma {:induction false} DownmixLength(samples: seq<real>, channels: nat)
    requires channels > 1
    ensures FramesFor(|Downmix(samples, channels)|, |samples|, channels)
    decreases |samples|
  {
    if |samples| > channels {
      var rest := samples[channels..];
      DownmixLength(rest, channels);
      var k := |Downmix(rest, channels)|;
      assert (k + 1) * channels == k * channels + channels;
      assert k * channels == (k - 1) * channels + channels;
    } else if samples != [] {
      assert 1 * channels == channels;
    }
  }

  lemma {:induction false} SumConstant(xs: seq<real>, x: real)
    requires forall k :: 0 <= k < |xs| ==> xs[k] == x
    ensures Sum(xs) == |xs| as real * x
    decreases |xs|
  {
    if xs != [] {
      SumConstant(xs[..|xs| - 1], x);
    }
  }

  /** A signal that is the same on every channel of `frames` whole frames keeps its level through the down-mix. */
  lemma {:induction false} WholeFramesKeepLevel(samples: seq<real>, channels: nat, frames: nat, x: real)
    requires channels > 1 && |samples| == frames * channels
    requires forall k :: 0 <= k < |samples| ==> samples[k] == x
    ensures |Downmix(samples, channels)| == frames
    ensures forall k :: 0 <= k < frames ==> Downmix(samples, channels)[k] == x
    decreases frames
  {
    if frames > 0 {
      var c := channels as real;
      SumConstant(samples[..channels], x);
      assert Sum(samples[..channels]) / c == x;
      if frames > 1 {
        assert |samples| == (frames - 1) * channels + channels;
        WholeFramesKeepLevel(samples[channels..], channels, frames - 1, x);
      } else {
        assert samples[..channels] == samples;
      }
    }
  }

  /** A trailing frame that holds only some of the channels comes out scaled by the share it holds. */
  lemma PartialFrameScaled(samples: seq<real>, channels: nat, x: real)
    requires channels > 1 && 0 < |samples| < channels
    requires forall k :: 0 <= k < |samples| ==> samples[k] == x
    ensures Downmix(samples, channels) == [|samples| as real * x / channels as real]
  {
    SumConstant(samples, x);
  }

  // ---------------------------------------------------------------------------
  // Loading audio

  const WhisperRate: nat := 16000

  /**
   * `load_audio` after the samples are read: the mono signal, passed to
   * `resample` (given as a parameter) only when the file is not at 16 kHz.
   */
  function LoadAudio(samples: seq<real>, channels: nat, sampleRate: nat, resample: (seq<real>, nat) -> seq<real>): (r: seq<real>)
    ensures sampleRate == WhisperRate && channels <= 1 ==> r == samples
    ensures sampleRate == WhisperRate && channels > 1 ==> FramesFor(|r|, |samples|, channels)
    ensures sampleRate != WhisperRate ==> r == resample(Mono(samples, channels), sampleRate)
  {
    var mono := Mono(samples, channels);
    if sampleRate != WhisperRate then resample(mono, sampleRate) else mono
  }
}
