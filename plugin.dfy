/**
 * The plugin entry point: checks the file is a video, normalises the
 * options, classifies the streams, and when there are mono streams to
 * convert builds the ffmpeg fragment and sets the response to process the
 * file. The information log is modelled as a list of structured entries.
 */
module Upmix {
  import opened Maybe
  import opened Text
  import opened Options
  import opened Streams
  import opened Command

  /** The parts of the host's file object the plugin reads. */
  datatype FileInfo = FileInfo(container: string, fileMedium: string, streams: seq<StreamProbe>)

  /** The entries of the information log, in the order the plugin writes them. */
  datatype LogLine =
    | NotVideo
    | Parameters(codecs: string, amount: real, bitrate: Option<int>, removeOriginal: bool,
                 languages: string, upmixMode: string)   // `bitrate` is `None` when keeping the original
    | Track(note: Note)
    | ConvertCount(count: nat)
    | RemovalPolicy(removeOriginal: bool)
    | Enhancement(amount: real)
    | BitratePolicy(bitrate: Option<int>)                 // `None`: original bitrates where available
    | Algorithm(speedMode: bool)
    | NoMonoTracks

  datatype Response = Response(
    processFile: bool,
    preset: string,
    container: string,
    handBrakeMode: bool,
    ffmpegMode: bool,
    reQueueAfter: bool,
    infoLog: seq<LogLine>)

  /** The response before any decision. */
  function Initial(file: FileInfo): Response {
    Response(false, "", "." + file.container, false, true, false, [])
  }

  /** The parameter summary: an empty codec option and an empty language list show as `all`. */
  function ParametersLine(cfg: Config): LogLine {
    Parameters(if cfg.codecs == "" then "all" else cfg.codecs, cfg.amount,
               if cfg.useOriginalBitrate then None else Some(cfg.bitrate), cfg.removeOriginal,
               if |cfg.languages| > 0 then Join(cfg.languages, ',') else "all", cfg.upmixMode)
  }

  function Tracks(notes: seq<Note>): seq<LogLine> {
    seq(|notes|, i requires 0 <= i < |notes| => Track(notes[i]))
  }

  function Summary(count: nat, cfg: Config): seq<LogLine> {
    [ConvertCount(count), RemovalPolicy(cfg.removeOriginal), Enhancement(cfg.amount),
     BitratePolicy(if cfg.useOriginalBitrate then None else Some(cfg.bitrate)), Algorithm(cfg.speedMode)]
  }

  /**
   * What the plugin answers for a file and its options; `render` is
   * JavaScript's number-to-text conversion of the enhancement amount, as the
   * filter template writes it.
   */
  function Outcome(file: FileInfo, inputs: RawInputs, render: real -> string): Response {
    if file.fileMedium != "video" then Initial(file).(infoLog := [NotVideo])
    else Decide(file, Normalize(inputs), render)
  }

  /** The answer for a video under the normalised options. */
  function Decide(file: FileInfo, cfg: Config, render: real -> string): Response {
    var audio := AudioStreams(file.streams, cfg);
    var mono := Qualifying(audio);
    var log := [ParametersLine(cfg)] + Tracks(Notes(audio));
    if |mono| > 0 then
      Initial(file).(processFile := true, preset := ", " + Fragment(mono, cfg, render(cfg.amount)),
                     infoLog := log + Summary(|mono|, cfg))
    else Initial(file).(infoLog := log + [NoMonoTracks])
  }

  /** `plugin(file, librarySettings, inputs, otherArguments)`. */
  method Plugin(file: FileInfo, inputs: RawInputs, render: real -> string) returns (response: Response)
    ensures response == Outcome(file, inputs, render)
  {
    response := Initial(file);
    if file.fileMedium != "video" {
      response := response.(infoLog := response.infoLog + [NotVideo], processFile := false);
      return;
    }
    var cfg := Normalize(inputs);
    response := ProcessVideo(file, cfg, render);
  }

  /** The body of `plugin` after the video check, under the normalised options. */
  method ProcessVideo(file: FileInfo, cfg: Config, render: real -> string) returns (response: Response)
    ensures response == Decide(file, cfg, render)
  {
    response := Initial(file).(infoLog := [ParametersLine(cfg)]);

    var audioStreams, monoStreamsToConvert, notes := Classify(file.streams, cfg);
    response := response.(infoLog := response.infoLog + Tracks(notes));
    ghost var log := [ParametersLine(cfg)] + Tracks(Notes(audioStreams));
    assert response == Initial(file).(infoLog := log);

    if |monoStreamsToConvert| > 0 {
      response := response.(processFile := true);
      var filterComplex := BuildFilterComplex(monoStreamsToConvert, cfg.speedMode, render(cfg.amount));
      var ffmpegCommandInsert := AssembleCommand(monoStreamsToConvert, filterComplex, cfg);
      response := response.(preset := ", " + ffmpegCommandInsert);
      response := response.(infoLog := response.infoLog + Summary(|monoStreamsToConvert|, cfg));
      assert ffmpegCommandInsert == Fragment(monoStreamsToConvert, cfg, render(cfg.amount));
      assert Qualifying(AudioStreams(file.streams, cfg)) == monoStreamsToConvert;
    } else {
      response := response.(infoLog := response.infoLog + [NoMonoTracks]);
    }
  }

  // ------------------------------------------------------------ properties

  /** The container, the modes and the re-queue flag are the same for every file. */
  lemma OutcomeFixedFields(file: FileInfo, inputs: RawInputs, render: real -> string)
    ensures var r := Outcome(file, inputs, render);
      && r.container == "." + file.container
      && !r.handBrakeMode && r.ffmpegMode && !r.reQueueAfter
  {
  }

  /** A file that is not a video is left alone, with one log entry. */
  lemma OutcomeNotVideo(file: FileInfo, inputs: RawInputs, render: real -> string)
    requires file.fileMedium != "video"
    ensures var r := Outcome(file, inputs, render);
      !r.processFile && r.preset == "" && r.infoLog == [NotVideo]
  {
  }

  /** A video is processed exactly when some stream qualifies for conversion; otherwise the preset stays empty. */
  lemma OutcomeProcessesIff(file: FileInfo, inputs: RawInputs, render: real -> string)
    requires file.fileMedium == "video"
    ensures var r := Outcome(file, inputs, render);
      var cfg := Normalize(inputs);
      && (r.processFile <==> exists i :: 0 <= i < |file.streams| && Qualifies(file.streams[i], cfg))
      && (!r.processFile ==> r.preset == "")
  {
    var cfg := Normalize(inputs);
    var ps := QualifyingPositions(file.streams, cfg);
    SelectionPositions(file.streams, cfg);
    QualifyingPositionsExact(file.streams, cfg);
    if |ps| > 0 {
      assert ps[0] in ps;
    }
  }

  /**
   * When the file is processed, the preset is `, ` and the fragment for the
   * selected streams; when no user text holds a `#`, that is the plan's text
   * with every stream address written `a`.
   */
  lemma OutcomePreset(file: FileInfo, inputs: RawInputs, render: real -> string)
    requires file.fileMedium == "video"
    ensures var r := Outcome(file, inputs, render);
      var cfg := Normalize(inputs);
      var mono := Selection(file.streams, cfg);
      && (r.processFile ==> r.preset == ", " + Fragment(mono, cfg, render(cfg.amount)))
      && (r.processFile && UserTextFree(mono, render(cfg.amount)) ==>
            r.preset == ", " + Serialize(Plan(mono, Segments(mono, cfg.speedMode, render(cfg.amount)), cfg), Resolved))
  {
    var cfg := Normalize(inputs);
    var mono := Selection(file.streams, cfg);
    if UserTextFree(mono, render(cfg.amount)) {
      FragmentResolved(mono, cfg, render(cfg.amount));
    }
  }

  /**
   * The `k`-th filter segment reads the `k`-th qualifying stream, and with
   * `removeOriginal` exactly the qualifying streams are unmapped, in order.
   */
  lemma OutcomeTargetsQualifying(file: FileInfo, inputs: RawInputs, render: real -> string)
    ensures var cfg := Normalize(inputs);
      var mono := Selection(file.streams, cfg);
      var ps := QualifyingPositions(file.streams, cfg);
      var filters := Segments(mono, cfg.speedMode, render(cfg.amount));
      && |filters| == |ps|
      && (forall k :: 0 <= k < |ps| ==> ParseInputLabel(filters[k]) == Some(ps[k]))
      && Pick(Plan(mono, filters, cfg), UnmapIndex) == (if cfg.removeOriginal then ps else [])
  {
    var cfg := Normalize(inputs);
    var mono := Selection(file.streams, cfg);
    var ps := QualifyingPositions(file.streams, cfg);
    var filters := Segments(mono, cfg.speedMode, render(cfg.amount));
    SelectionPositions(file.streams, cfg);
    forall k | 0 <= k < |ps| ensures ParseInputLabel(filters[k]) == Some(ps[k]) {
      SegmentInput(mono[k].absoluteIndex, k, cfg.speedMode, render(cfg.amount));
      assert Positions(mono)[k] == mono[k].absoluteIndex;
    }
    PlanExclusions(mono, filters, cfg);
  }

  /**
   * With a fixed bitrate every new stream gets the one chosen in the options,
   * whatever its own; with "Keep Original" each gets its own (0 when unknown).
   */
  lemma OutcomeBitrates(file: FileInfo, inputs: RawInputs, render: real -> string)
    ensures var cfg := Normalize(inputs);
      var mono := Selection(file.streams, cfg);
      var bitrates := Pick(Plan(mono, Segments(mono, cfg.speedMode, render(cfg.amount)), cfg), BitrateValue);
      && (inputs.audioBitrate != KeepOriginal ==>
            bitrates == seq(|mono|, k requires 0 <= k < |mono| => AudioBitrate(inputs.audioBitrate)))
      && (inputs.audioBitrate == KeepOriginal ==>
            bitrates == seq(|mono|, k requires 0 <= k < |mono| => mono[k].bitrate))
  {
    var cfg := Normalize(inputs);
    var mono := Selection(file.streams, cfg);
    PlanBitrateModes(mono, Segments(mono, cfg.speedMode, render(cfg.amount)), cfg);
    assert cfg.bitrate == AudioBitrate(inputs.audioBitrate);
  }

  /**
   * The log of a video starts with the parameters, then one entry per audio
   * stream, and ends with the conversion summary, whose count is the number
   * of qualifying streams, or with the note that there is nothing to convert.
   */
  lemma OutcomeLog(file: FileInfo, inputs: RawInputs, render: real -> string)
    requires file.fileMedium == "video"
    ensures var r := Outcome(file, inputs, render);
      var cfg := Normalize(inputs);
      var audio := AudioStreams(file.streams, cfg);
      var n := |QualifyingPositions(file.streams, cfg)|;
      && |r.infoLog| > |audio|
      && r.infoLog[0] == ParametersLine(cfg)
      && r.infoLog[1..|audio| + 1] == Tracks(Notes(audio))
      && (n > 0 ==> r.infoLog[|audio| + 1..] == Summary(n, cfg))
      && (n == 0 ==> r.infoLog[|audio| + 1..] == [NoMonoTracks])
  {
    var cfg := Normalize(inputs);
    var audio := AudioStreams(file.streams, cfg);
    var log := [ParametersLine(cfg)] + Tracks(Notes(audio));
    SelectionPositions(file.streams, cfg);
    assert |Notes(audio)| == |audio| by { NotesExact(audio); }
    assert |log| == |audio| + 1;
    var tail := if |Selection(file.streams, cfg)| > 0 then Summary(|Selection(file.streams, cfg)|, cfg) else [NoMonoTracks];
    assert Outcome(file, inputs, render).infoLog == log + tail;
    assert (log + tail)[1..|audio| + 1] == log[1..];
    assert (log + tail)[|audio| + 1..] == tail;
  }
}
