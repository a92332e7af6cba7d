/**
 * The stream classifier: one ordered pass over the probed streams that
 * describes every audio stream and picks the mono ones that pass the codec
 * and language filters.
 */
module Streams {
  import opened Maybe
  import opened Text
  import opened Options

  /**
   * One probed stream. Missing text fields are `""`; a missing `channels` is
   * `None`; `tags` and `disposition` are empty when the probe has none.
   */
  datatype StreamProbe = StreamProbe(
    codecType: string,
    codecName: string,
    channels: Option<int>,
    bitRate: string,
    tags: map<string, string>,
    disposition: map<string, int>)

  /** The `streamInfo` record built for each audio stream. */
  datatype AudioStream = AudioStream(
    absoluteIndex: nat,   // position in the probe, as ffmpeg addresses it
    audioIndex: nat,      // position among the audio streams
    codec: string,        // lower-cased codec name
    channels: int,
    bitrate: int,         // kbps; 0 when absent
    language: string,     // the raw language tag, or ""
    title: string,        // the raw title tag, or ""
    isDefault: bool,
    isMonoToConvert: bool)

  /**
   * What the classification reports about each audio stream. A stream to
   * convert is reported with its codec, its language (`unknown` when it has
   * none), and its bitrate and title when it has them.
   */
  datatype Note =
    | WillConvert(track: nat, codec: string, language: string, bitrate: Option<int>, title: Option<string>)
    | SkipFilters(track: nat)
    | SkipChannels(track: nat, channels: int)

  predicate IsAudio(s: StreamProbe) {
    Lower(s.codecType) == "audio"
  }

  /** `stream.channels || 0`. */
  function ChannelsOf(s: StreamProbe): int {
    match s.channels
    case Some(c) => c
    case None => 0
  }

  /** A tag's value when it is present and non-empty, and `""` otherwise. */
  function Tag(s: StreamProbe, key: string): string {
    if key in s.tags && s.tags[key] != "" then s.tags[key] else ""
  }

  /**
   * `Math.round(parseInt(bit_rate, 10) / 1000)` when `bit_rate` is set; a
   * value `parseInt` cannot read counts as 0, which is how `NaN` behaves in
   * every later use.
   */
  function Kbps(bitRate: string): int {
    if bitRate == "" then 0
    else match ParseInt(bitRate)
      case None => 0
      case Some(bits) => (bits + 500) / 1000
  }

  /** A bit rate written in decimal is read as that many bits per second, rounded to kbps. */
  lemma KbpsOfDecimal(bits: nat)
    ensures Kbps(NatToString(bits)) == (bits + 500) / 1000
    ensures bits % 1000 == 0 ==> Kbps(NatToString(bits)) == bits / 1000
  {
    assert Kbps(NatToString(bits)) == (bits + 500) / 1000 by {
      ParseIntNatToString(bits);
    }
    if bits % 1000 == 0 {
      var q := bits / 1000;
      assert bits == 1000 * q;
      assert (1000 * q + 500) / 1000 == q;
    }
  }

  /** `stream.disposition?.default === 1`. */
  predicate IsDefault(s: StreamProbe) {
    "default" in s.disposition && s.disposition["default"] == 1
  }

  /** The selection test applied to a descriptor's fields. */
  predicate Selects(cfg: Config, channels: int, codec: string, language: string) {
    channels == 1 && CodecMatches(cfg, codec) && LanguageMatches(cfg, language)
  }

  /** The descriptor of the audio stream at position `index`, the `ordinal`-th audio stream. */
  function Describe(s: StreamProbe, index: nat, ordinal: nat, cfg: Config): AudioStream {
    var codec := Lower(s.codecName);
    var language := Tag(s, "language");
    AudioStream(index, ordinal, codec, ChannelsOf(s), Kbps(s.bitRate), language, Tag(s, "title"),
                IsDefault(s), Selects(cfg, ChannelsOf(s), codec, language))
  }

  /** The descriptors of all audio streams, in probe order. */
  function AudioStreams(streams: seq<StreamProbe>, cfg: Config): seq<AudioStream>
    decreases |streams|
  {
    if |streams| == 0 then []
    else
      var n := |streams| - 1;
      var before := AudioStreams(streams[..n], cfg);
      if IsAudio(streams[n]) then before + [Describe(streams[n], n, |before|, cfg)] else before
  }

  /** The descriptors marked for conversion, in order. */
  function Qualifying(audio: seq<AudioStream>): seq<AudioStream>
    decreases |audio|
  {
    if |audio| == 0 then []
    else
      var n := |audio| - 1;
      Qualifying(audio[..n]) + if audio[n].isMonoToConvert then [audio[n]] else []
  }

  /** `monoStreamsToConvert`. */
  function Selection(streams: seq<StreamProbe>, cfg: Config): seq<AudioStream> {
    Qualifying(AudioStreams(streams, cfg))
  }

  function TrackNote(a: AudioStream): Note {
    if a.isMonoToConvert then
      WillConvert(a.absoluteIndex, a.codec, if a.language != "" then a.language else "unknown",
                  if a.bitrate != 0 then Some(a.bitrate) else None, if a.title != "" then Some(a.title) else None)
    else if a.channels == 1 then SkipFilters(a.absoluteIndex)
    else SkipChannels(a.absoluteIndex, a.channels)
  }

  function Notes(audio: seq<AudioStream>): seq<Note>
    decreases |audio|
  {
    if |audio| == 0 then [] else Notes(audio[..|audio| - 1]) + [TrackNote(audio[|audio| - 1])]
  }

  /**
   * The classification loop: the descriptors of the audio streams, the ones to
   * convert, and one note per audio stream.
   */
  method Classify(streams: seq<StreamProbe>, cfg: Config)
    returns (audioStreams: seq<AudioStream>, monoStreamsToConvert: seq<AudioStream>, notes: seq<Note>)
    ensures audioStreams == AudioStreams(streams, cfg)
    ensures monoStreamsToConvert == Qualifying(audioStreams)
    ensures notes == Notes(audioStreams)
  {
    audioStreams, monoStreamsToConvert, notes := [], [], [];
    for i := 0 to |streams|
      invariant audioStreams == AudioStreams(streams[..i], cfg)
      invariant monoStreamsToConvert == Qualifying(audioStreams)
      invariant notes == Notes(audioStreams)
    {
      var stream := streams[i];
      AudioStreamsStep(streams, i, cfg);
      if Lower(stream.codecType) == "audio" {
        var info, note := DescribeStream(stream, i, |audioStreams|, cfg);
        if info.isMonoToConvert {
          monoStreamsToConvert := monoStreamsToConvert + [info];
        }
        AppendStep(audioStreams, info);
        notes := notes + [note];
        audioStreams := audioStreams + [info];
      }
    }
    assert streams[..|streams|] == streams;
  }

  /** One audio stream's `streamInfo` record, its selection test and its log note. */
  method DescribeStream(stream: StreamProbe, i: nat, ordinal: nat, cfg: Config) returns (info: AudioStream, note: Note)
    ensures info == Describe(stream, i, ordinal, cfg)
    ensures note == TrackNote(info)
  {
    var codec := Lower(stream.codecName);
    var channels := if stream.channels.Some? then stream.channels.value else 0;
    var bitrate := 0;
    if stream.bitRate != "" {
      bitrate := Kbps(stream.bitRate);
    }
    var language := "";
    if "language" in stream.tags && stream.tags["language"] != "" {
      language := stream.tags["language"];
    }
    var title := "";
    if "title" in stream.tags && stream.tags["title"] != "" {
      title := stream.tags["title"];
    }
    var isDefault := "default" in stream.disposition && stream.disposition["default"] == 1;
    assert codec == Lower(stream.codecName) && channels == ChannelsOf(stream);
    assert bitrate == Kbps(stream.bitRate);
    assert language == Tag(stream, "language") && title == Tag(stream, "title");
    info := AudioStream(i, ordinal, codec, channels, bitrate, language, title, isDefault, false);
    if channels == 1 {
      var codecMatches := cfg.codecs == "" || cfg.codecs == "all" || codec in cfg.codecsToProcess;
      var languageMatches := |cfg.languages| == 0 || (language != "" && Lower(language) in cfg.languages);
      if codecMatches && languageMatches {
        info := info.(isMonoToConvert := true);
        note := WillConvert(i, codec, if language != "" then language else "unknown",
                            if bitrate != 0 then Some(bitrate) else None, if title != "" then Some(title) else None);
      } else {
        note := SkipFilters(i);
      }
    } else {
      note := SkipChannels(i, channels);
    }
  }

  lemma AudioStreamsStep(streams: seq<StreamProbe>, i: nat, cfg: Config)
    requires i < |streams|
    ensures var before := AudioStreams(streams[..i], cfg);
      AudioStreams(streams[..i + 1], cfg) ==
        if IsAudio(streams[i]) then before + [Describe(streams[i], i, |before|, cfg)] else before
  {
    assert streams[..i + 1][..i] == streams[..i];
  }

  lemma AppendStep(audio: seq<AudioStream>, x: AudioStream)
    ensures Qualifying(audio + [x]) == Qualifying(audio) + if x.isMonoToConvert then [x] else []
    ensures Notes(audio + [x]) == Notes(audio) + [TrackNote(x)]
  {
    assert (audio + [x])[..|audio|] == audio;
  }

  // ------------------------------------------------------------ properties

  /** The selection test on the probe itself. */
  predicate Qualifies(s: StreamProbe, cfg: Config) {
    IsAudio(s) && Selects(cfg, ChannelsOf(s), Lower(s.codecName), Tag(s, "language"))
  }

  /** An independent reference: the positions of the qualifying streams, in order. */
  function QualifyingPositions(streams: seq<StreamProbe>, cfg: Config): seq<nat>
    decreases |streams|
  {
    if |streams| == 0 then []
    else
      var n := |streams| - 1;
      QualifyingPositions(streams[..n], cfg) + if Qualifies(streams[n], cfg) then [n] else []
  }

  function Positions(audio: seq<AudioStream>): (r: seq<nat>)
    ensures |r| == |audio|
    ensures forall k :: 0 <= k < |audio| ==> r[k] == audio[k].absoluteIndex
  {
    seq(|audio|, k requires 0 <= k < |audio| => audio[k].absoluteIndex)
  }

  predicate StrictlyIncreasing(xs: seq<nat>) {
    forall j, k :: 0 <= j < k < |xs| ==> xs[j] < xs[k]
  }

  /** Every audio descriptor describes the probe stream at its position, and they come in probe order. */
  lemma {:induction false} AudioStreamsDescribe(streams: seq<StreamProbe>, cfg: Config)
    ensures var audio := AudioStreams(streams, cfg);
      && StrictlyIncreasing(Positions(audio))
      && forall k :: 0 <= k < |audio| ==>
           && audio[k].absoluteIndex < |streams|
           && IsAudio(streams[audio[k].absoluteIndex])
           && audio[k] == Describe(streams[audio[k].absoluteIndex], audio[k].absoluteIndex, k, cfg)
    decreases |streams|
  {
    if |streams| > 0 {
      var n := |streams| - 1;
      AudioStreamsDescribe(streams[..n], cfg);
    }
  }

  lemma PositionsAppend(a: seq<AudioStream>, b: seq<AudioStream>)
    ensures Positions(a + b) == Positions(a) + Positions(b)
  {
    assert forall k :: 0 <= k < |a + b| ==> Positions(a + b)[k] == (Positions(a) + Positions(b))[k];
  }

  /** The selected descriptors are exactly the descriptors of the qualifying positions, in order. */
  lemma {:induction false} SelectionPositions(streams: seq<StreamProbe>, cfg: Config)
    ensures Positions(Selection(streams, cfg)) == QualifyingPositions(streams, cfg)
    decreases |streams|
  {
    if |streams| > 0 {
      var n := |streams| - 1;
      var before := AudioStreams(streams[..n], cfg);
      SelectionPositions(streams[..n], cfg);
      if IsAudio(streams[n]) {
        var x := Describe(streams[n], n, |before|, cfg);
        var extra := if Qualifies(streams[n], cfg) then [x] else [];
        assert Qualifying(before + [x]) == Qualifying(before) + extra by {
          AppendStep(before, x);
        }
        PositionsAppend(Qualifying(before), extra);
        assert Positions(extra) == if Qualifies(streams[n], cfg) then [n] else [];
      }
    }
  }

  /** The reference positions are increasing and hold exactly the positions whose stream qualifies. */
  lemma {:induction false} QualifyingPositionsExact(streams: seq<StreamProbe>, cfg: Config)
    ensures var ps := QualifyingPositions(streams, cfg);
      && StrictlyIncreasing(ps)
      && (forall k :: 0 <= k < |ps| ==> ps[k] < |streams|)
      && forall i :: 0 <= i < |streams| ==> (i in ps <==> Qualifies(streams[i], cfg))
  {
    QualifyingPositionsBounded(streams, cfg);
    QualifyingPositionsMembers(streams, cfg);
  }

  lemma {:induction false} QualifyingPositionsBounded(streams: seq<StreamProbe>, cfg: Config)
    ensures var ps := QualifyingPositions(streams, cfg);
      StrictlyIncreasing(ps) && forall k :: 0 <= k < |ps| ==> ps[k] < |streams|
    decreases |streams|
  {
    if |streams| > 0 {
      QualifyingPositionsBounded(streams[..|streams| - 1], cfg);
    }
  }

  lemma {:induction false} QualifyingPositionsMembers(streams: seq<StreamProbe>, cfg: Config)
    ensures var ps := QualifyingPositions(streams, cfg);
      forall i :: 0 <= i < |streams| ==> (i in ps <==> Qualifies(streams[i], cfg))
    decreases |streams|
  {
    if |streams| > 0 {
      var n := |streams| - 1;
      var prev := QualifyingPositions(streams[..n], cfg);
      assert forall i :: 0 <= i < n ==> (i in prev <==> Qualifies(streams[i], cfg)) by {
        QualifyingPositionsMembers(streams[..n], cfg);
        assert forall i :: 0 <= i < n ==> streams[..n][i] == streams[i];
      }
      assert n !in prev by {
        QualifyingPositionsBounded(streams[..n], cfg);
      }
    }
  }

  /** Each selected descriptor describes its probe stream, which qualifies. */
  lemma {:induction false} SelectionDescribes(streams: seq<StreamProbe>, cfg: Config)
    ensures var sel := Selection(streams, cfg);
      forall k :: 0 <= k < |sel| ==>
        && sel[k].absoluteIndex < |streams|
        && Qualifies(streams[sel[k].absoluteIndex], cfg)
        && sel[k] == Describe(streams[sel[k].absoluteIndex], sel[k].absoluteIndex, sel[k].audioIndex, cfg)
  {
    var sel := Selection(streams, cfg);
    SelectionPositions(streams, cfg);
    QualifyingPositionsExact(streams, cfg);
    QualifyingAreMarkedAudio(AudioStreams(streams, cfg));
    AudioStreamsDescribe(streams, cfg);
    forall k | 0 <= k < |sel|
      ensures sel[k].absoluteIndex < |streams|
      ensures Qualifies(streams[sel[k].absoluteIndex], cfg)
      ensures sel[k] == Describe(streams[sel[k].absoluteIndex], sel[k].absoluteIndex, sel[k].audioIndex, cfg)
    {
      assert Positions(sel)[k] == sel[k].absoluteIndex;
      assert QualifyingPositions(streams, cfg)[k] in QualifyingPositions(streams, cfg);
    }
  }

  /** Every qualifying descriptor is a descriptor of the full list, marked for conversion. */
  lemma {:induction false} QualifyingAreMarkedAudio(audio: seq<AudioStream>)
    ensures forall k :: 0 <= k < |Qualifying(audio)| ==>
      Qualifying(audio)[k].isMonoToConvert && Qualifying(audio)[k] in audio
    decreases |audio|
  {
    if |audio| > 0 {
      QualifyingAreMarkedAudio(audio[..|audio| - 1]);
    }
  }

  /** A stream whose channel count is not 1 is never selected, whatever the filters. */
  lemma NonMonoNeverSelected(streams: seq<StreamProbe>, cfg: Config, i: nat)
    requires i < |streams| && ChannelsOf(streams[i]) != 1
    ensures i !in Positions(Selection(streams, cfg))
    ensures forall k :: 0 <= k < |Selection(streams, cfg)| ==> Selection(streams, cfg)[k].channels == 1
  {
    SelectionPositions(streams, cfg);
    QualifyingPositionsExact(streams, cfg);
    SelectionDescribes(streams, cfg);
  }

  lemma {:induction false} NotesExact(audio: seq<AudioStream>)
    ensures |Notes(audio)| == |audio|
    ensures forall k :: 0 <= k < |audio| ==> Notes(audio)[k] == TrackNote(audio[k])
    decreases |audio|
  {
    if |audio| > 0 {
      NotesExact(audio[..|audio| - 1]);
    }
  }

  /**
   * One note per audio stream, in probe order: a conversion note exactly for
   * the streams that qualify, a channel-count skip exactly for the streams
   * that are not mono, and a filter skip for the rest.
   */
  lemma NotesReport(streams: seq<StreamProbe>, cfg: Config)
    ensures var audio := AudioStreams(streams, cfg);
      var notes := Notes(audio);
      && |notes| == |audio|
      && forall k :: 0 <= k < |audio| ==>
        && notes[k].track == audio[k].absoluteIndex < |streams|
        && (notes[k].WillConvert? <==> Qualifies(streams[audio[k].absoluteIndex], cfg))
        && (notes[k].SkipChannels? <==> ChannelsOf(streams[audio[k].absoluteIndex]) != 1)
  {
    AudioStreamsDescribe(streams, cfg);
    NotesExact(AudioStreams(streams, cfg));
  }
}
