/**
 * The filter graph and the ffmpeg argument fragment. One labelled filter
 * segment per stream to convert; then the fragment, in a fixed order: the
 * filter graph, the stream maps, the blanket copy, and per new stream its
 * codec, bitrate, metadata and disposition. The fragment is built as text
 * with the `#STREAMIDX#` placeholder in every per-stream directive, which a
 * final global replacement turns into `a`.
 *
 * `Directive` names the pieces the fragment is made of; `Render` gives each
 * one's text, so the properties of the fragment are stated on `Plan`, its
 * directive list, and tied to the text by `Serialize`.
 */
module Command {
  import opened Maybe
  import opened Text
  import opened Options
  import opened Streams

  const Placeholder: string := "#STREAMIDX#"
  const Resolved: string := "a"

  /** Speed mode: duplicate the mono channel, no resampling, no enhancement. */
  const SpeedChain: string := "aformat=channel_layouts=stereo," + "pan=stereo|c0=c0|c1=c0"
  /** Quality mode: resample to 48 kHz float planar stereo, then widen by the amount that follows. */
  const QualityChain: string := "aformat=sample_fmts=fltp:sample_rates=48000:" + "channel_layouts=stereo," + "extrastereo=m="

  // ------------------------------------------------------- filter segments

  function InputLabel(index: nat): string {
    "[0:" + NatToString(index) + "]"
  }

  function OutputLabel(k: nat): string {
    "[stereo" + NatToString(k) + "]"
  }

  /** The filter segment for the `k`-th stream to convert, found at `index` in the input. */
  function Segment(index: nat, k: nat, speedMode: bool, amountText: string): string {
    InputLabel(index) + (if speedMode then SpeedChain else QualityChain + amountText) + OutputLabel(k)
  }

  function Segments(mono: seq<AudioStream>, speedMode: bool, amountText: string): (r: seq<string>)
    ensures |r| == |mono|
  {
    seq(|mono|, k requires 0 <= k < |mono| => Segment(mono[k].absoluteIndex, k, speedMode, amountText))
  }

  /** The `filterComplex` loop. */
  method BuildFilterComplex(mono: seq<AudioStream>, speedMode: bool, amountText: string)
    returns (filterComplex: seq<string>)
    ensures filterComplex == Segments(mono, speedMode, amountText)
  {
    filterComplex := [];
    for idx := 0 to |mono|
      invariant |filterComplex| == idx
      invariant forall k :: 0 <= k < idx ==>
        filterComplex[k] == Segment(mono[k].absoluteIndex, k, speedMode, amountText)
    {
      var stream := mono[idx];
      if speedMode {
        filterComplex := filterComplex + [InputLabel(stream.absoluteIndex) + SpeedChain + OutputLabel(idx)];
      } else {
        filterComplex := filterComplex + [InputLabel(stream.absoluteIndex) + (QualityChain + amountText) + OutputLabel(idx)];
      }
    }
  }

  /** Read the input label `[0:<index>]` at the start of a segment. */
  function ParseInputLabel(segment: string): Option<nat> {
    if |segment| < 3 || segment[..3] != "[0:" then None
    else
      var digits := DigitPrefix(segment[3..]);
      if digits == "" || |segment| <= 3 + |digits| || segment[3 + |digits|] != ']' then None
      else Some(DigitsValue(digits))
  }

  /** A segment reads its input from the absolute position of its stream. */
  lemma SegmentInput(index: nat, k: nat, speedMode: bool, amountText: string)
    ensures ParseInputLabel(Segment(index, k, speedMode, amountText)) == Some(index)
  {
    var seg := Segment(index, k, speedMode, amountText);
    var digits := NatToString(index);
    var chain := if speedMode then SpeedChain else QualityChain + amountText;
    var rest := ("]" + chain) + OutputLabel(k);
    ConcatAssoc("[0:" + digits, "]", chain);
    ConcatAssoc("[0:" + digits, "]" + chain, OutputLabel(k));
    ConcatAssoc("[0:", digits, rest);
    assert seg == "[0:" + (digits + rest);
    assert seg[..3] == "[0:";
    assert seg[3..] == digits + rest;
    DigitPrefixOfDigits(digits, rest);
    assert seg[3 + |digits|] == ']';
    NatToStringValue(index);
  }

  /** A segment ends with its output label, and distinct positions get distinct labels. */
  lemma SegmentOutput(index: nat, k: nat, speedMode: bool, amountText: string, j: nat)
    ensures var seg := Segment(index, k, speedMode, amountText);
      |OutputLabel(k)| <= |seg| && seg[|seg| - |OutputLabel(k)|..] == OutputLabel(k)
    ensures OutputLabel(j) == OutputLabel(k) ==> j == k
  {
    if OutputLabel(j) == OutputLabel(k) {
      var a, b := NatToString(j), NatToString(k);
      assert |a| == |b|;
      assert a == OutputLabel(j)[7..7 + |a|];
      assert b == OutputLabel(k)[7..7 + |b|];
      NatToStringInjective(j, k);
    }
  }

  /** The labels hold only brackets, `0:`, `stereo` and digits. */
  lemma LabelChars(index: nat, k: nat, c: char)
    requires c == '#' || c == 'x'
    ensures c !in InputLabel(index) && c !in OutputLabel(k)
  {
    IntToStringChars(index, c);
    IntToStringChars(k, c);
  }

  /** The speed chain holds no `#` and no `x`. */
  lemma SpeedChainChars()
    ensures '#' !in SpeedChain && 'x' !in SpeedChain
  {
    var format, pan := "aformat=channel_layouts=stereo,", "pan=stereo|c0=c0|c1=c0";
    assert '#' !in format && '#' !in pan;
    assert 'x' !in format && 'x' !in pan;
  }

  /** The quality chain's literal parts hold no `#`. */
  lemma QualityChainChars()
    ensures '#' !in QualityChain
  {
    var resample, layout, widen := "aformat=sample_fmts=fltp:sample_rates=48000:", "channel_layouts=stereo,", "extrastereo=m=";
    assert '#' !in resample && '#' !in layout && '#' !in widen;
  }

  /** Speed mode has no enhancement stage; quality mode widens by the given amount. */
  lemma SegmentChain(index: nat, k: nat, speedMode: bool, amountText: string)
    ensures speedMode ==> !Contains(Segment(index, k, speedMode, amountText), "extrastereo")
    ensures !speedMode ==> Contains(Segment(index, k, speedMode, amountText), "extrastereo=m=" + amountText)
  {
    var seg := Segment(index, k, speedMode, amountText);
    if speedMode {
      assert 'x' !in seg by {
        LabelChars(index, k, 'x');
        SpeedChainChars();
      }
      AbsentCharNotContained(seg, "extrastereo", 1);
    } else {
      var pre := InputLabel(index) + ("aformat=sample_fmts=fltp:sample_rates=48000:" + "channel_layouts=stereo,");
      assert seg == pre + ("extrastereo=m=" + amountText) + OutputLabel(k);
      assert "extrastereo=m=" + amountText <= seg[|pre|..];
    }
  }

  // ------------------------------------------------------------ directives

  datatype Directive =
    | FilterGraph(segments: seq<string>)  // -filter_complex "<segments joined by ;>"
    | MapAll                              // -map 0
    | Unmap(index: nat)                   // -map -0:<index>
    | MapStereo(k: nat)                   // -map "[stereo<k>]"
    | CopyAll                             // -c copy
    | Threads                             // -threads 0
    | Codec                               // -c:a:<addr> aac
    | Bitrate(kbps: int)                  // -b:a:<addr> <kbps>k
    | Language(tag: string)               // -metadata:s:a:<addr> language=<tag>
    | Title(text: string)                 // -metadata:s:a:<addr> title="<text>"
    | MarkDefault                         // -disposition:a:<addr> default

  /** The text of one directive, with the per-stream address `addr`. */
  function Render(d: Directive, addr: string): string {
    match d
    case FilterGraph(segments) => "-filter_complex \"" + Join(segments, ';') + "\" "
    case MapAll => "-map 0 "
    case Unmap(index) => "-map -0:" + NatToString(index) + " "
    case MapStereo(k) => "-map \"[stereo" + NatToString(k) + "]\" "
    case CopyAll => "-c copy "
    case Threads => "-threads 0 "
    case Codec => "-c:a:" + addr + " aac "
    case Bitrate(kbps) => "-b:a:" + addr + " " + IntToString(kbps) + "k "
    case Language(tag) => "-metadata:s:a:" + addr + " language=" + tag + " "
    case Title(text) => "-metadata:s:a:" + addr + " title=\"" + text + "\" "
    case MarkDefault => "-disposition:a:" + addr + " default "
  }

  function Serialize(ds: seq<Directive>, addr: string): string
    decreases |ds|
  {
    if |ds| == 0 then "" else Serialize(ds[..|ds| - 1], addr) + Render(ds[|ds| - 1], addr)
  }

  /** `stream.bitrate || safeAudioBitrate` when keeping the original, else the fixed bitrate. */
  function NewBitrate(s: AudioStream, cfg: Config): int {
    if cfg.useOriginalBitrate then (if s.bitrate != 0 then s.bitrate else cfg.bitrate) else cfg.bitrate
  }

  /** The new stream's title. */
  function NewTitle(title: string): string {
    if title == "" then "Stereo"
    else if Contains(title, "Stereo") then title
    else title + " (Stereo)"
  }

  /** The directives for one new stream. */
  function StreamDirectives(s: AudioStream, cfg: Config): seq<Directive> {
    [Codec, Bitrate(NewBitrate(s, cfg))]
    + (if s.language != "" then [Language(s.language)] else [])
    + [Title(NewTitle(s.title))]
    + (if s.isDefault then [MarkDefault] else [])
  }

  function Exclusions(mono: seq<AudioStream>): seq<Directive>
    decreases |mono|
  {
    if |mono| == 0 then [] else Exclusions(mono[..|mono| - 1]) + [Unmap(mono[|mono| - 1].absoluteIndex)]
  }

  function StereoMaps(n: nat): seq<Directive> {
    if n == 0 then [] else StereoMaps(n - 1) + [MapStereo(n - 1)]
  }

  function StreamSection(mono: seq<AudioStream>, cfg: Config): seq<Directive>
    decreases |mono|
  {
    if |mono| == 0 then []
    else StreamSection(mono[..|mono| - 1], cfg) + StreamDirectives(mono[|mono| - 1], cfg)
  }

  function Header(filters: seq<string>): seq<Directive> {
    (if |filters| > 0 then [FilterGraph(filters)] else []) + [MapAll]
  }

  function Maps(mono: seq<AudioStream>, cfg: Config): seq<Directive> {
    (if cfg.removeOriginal then Exclusions(mono) else []) + StereoMaps(|mono|)
  }

  /** The directives of the fragment, in the order they are written. */
  function Plan(mono: seq<AudioStream>, filters: seq<string>, cfg: Config): seq<Directive> {
    Header(filters) + Maps(mono, cfg) + [CopyAll, Threads] + StreamSection(mono, cfg)
  }

  /** The fragment for the streams to convert: the plan's text with every placeholder replaced. */
  function Fragment(mono: seq<AudioStream>, cfg: Config, amountText: string): string {
    ReplaceAll(Serialize(Plan(mono, Segments(mono, cfg.speedMode, amountText), cfg), Placeholder),
               Placeholder, Resolved)
  }

  // -------------------------------------------------------------- assembly

  lemma SerializeSnoc(ds: seq<Directive>, d: Directive, addr: string)
    ensures Serialize(ds + [d], addr) == Serialize(ds, addr) + Render(d, addr)
  {
    assert (ds + [d])[..|ds|] == ds;
  }

  lemma {:induction false} SerializeAppend(a: seq<Directive>, b: seq<Directive>, addr: string)
    ensures Serialize(a + b, addr) == Serialize(a, addr) + Serialize(b, addr)
    decreases |b|
  {
    if |b| == 0 {
      assert a + b == a;
    } else {
      var n := |b| - 1;
      assert (a + b)[..|a + b| - 1] == a + b[..n];
      assert (a + b)[|a + b| - 1] == b[n];
      SerializeAppend(a, b[..n], addr);
      ConcatAssoc(Serialize(a, addr), Serialize(b[..n], addr), Render(b[n], addr));
    }
  }

  lemma ExclusionsStep(mono: seq<AudioStream>, k: nat)
    requires k < |mono|
    ensures Exclusions(mono[..k + 1]) == Exclusions(mono[..k]) + [Unmap(mono[k].absoluteIndex)]
  {
    assert mono[..k + 1][..k] == mono[..k];
  }

  lemma StreamSectionStep(mono: seq<AudioStream>, cfg: Config, k: nat)
    requires k < |mono|
    ensures StreamSection(mono[..k + 1], cfg) == StreamSection(mono[..k], cfg) + StreamDirectives(mono[k], cfg)
  {
    assert mono[..k + 1][..k] == mono[..k];
  }

  /** The arguments one stream to convert adds (the body of the per-stream `forEach`). */
  method StreamArguments(stream: AudioStream, cfg: Config) returns (arguments: string)
    ensures arguments == Serialize(StreamDirectives(stream, cfg), Placeholder)
  {
    var head := HeadArguments(stream, cfg);
    var languageArgument := LanguageArgument(stream.language);
    var titleArgument := TitleArgument(stream.title);
    var defaultArgument := DefaultArgument(stream.isDefault);
    arguments := head + languageArgument + titleArgument + defaultArgument;

    ghost var a := [Codec, Bitrate(NewBitrate(stream, cfg))];
    ghost var b := if stream.language != "" then [Language(stream.language)] else [];
    ghost var c := [Title(NewTitle(stream.title))];
    ghost var d := if stream.isDefault then [MarkDefault] else [];
    assert StreamDirectives(stream, cfg) == a + b + c + d;
    SerializeAppend(a, b, Placeholder);
    SerializeAppend(a + b, c, Placeholder);
    SerializeAppend(a + b + c, d, Placeholder);
  }

  /** The codec option and the bitrate option, which every converted stream gets. */
  method HeadArguments(stream: AudioStream, cfg: Config) returns (text: string)
    ensures text == Serialize([Codec, Bitrate(NewBitrate(stream, cfg))], Placeholder)
  {
    var bitrateArgument := BitrateArgument(stream, cfg);
    text := "-c:a:" + Placeholder + " aac " + bitrateArgument;
    SerializeSnoc([], Codec, Placeholder);
    assert [Codec] + [Bitrate(NewBitrate(stream, cfg))] == [Codec, Bitrate(NewBitrate(stream, cfg))];
    SerializeSnoc([Codec], Bitrate(NewBitrate(stream, cfg)), Placeholder);
  }

  /** The language option, present only when the stream has a language tag. */
  method LanguageArgument(language: string) returns (text: string)
    ensures text == Serialize(if language != "" then [Language(language)] else [], Placeholder)
  {
    if language != "" {
      text := "-metadata:s:a:" + Placeholder + " language=" + language + " ";
      SerializeSnoc([], Language(language), Placeholder);
    } else {
      text := "";
    }
  }

  /** The disposition option, present only for the default stream. */
  method DefaultArgument(isDefault: bool) returns (text: string)
    ensures text == Serialize(if isDefault then [MarkDefault] else [], Placeholder)
  {
    if isDefault {
      text := "-disposition:a:" + Placeholder + " default ";
      SerializeSnoc([], MarkDefault, Placeholder);
    } else {
      text := "";
    }
  }

  /** The `-b:a` option: the stream's own bitrate or the fallback when keeping originals, else the fixed one. */
  method BitrateArgument(stream: AudioStream, cfg: Config) returns (text: string)
    ensures text == Render(Bitrate(NewBitrate(stream, cfg)), Placeholder)
  {
    if cfg.useOriginalBitrate {
      text := "-b:a:" + Placeholder + " " + IntToString(if stream.bitrate != 0 then stream.bitrate else cfg.bitrate) + "k ";
    } else {
      text := "-b:a:" + Placeholder + " " + IntToString(cfg.bitrate) + "k ";
    }
  }

  /** The title option: the original title marked as stereo, or `Stereo` for an untitled stream. */
  method TitleArgument(title: string) returns (text: string)
    ensures text == Serialize([Title(NewTitle(title))], Placeholder)
  {
    SerializeSnoc([], Title(NewTitle(title)), Placeholder);
    if title != "" {
      var newTitle := if Contains(title, "Stereo") then title else title + " (Stereo)";
      text := "-metadata:s:a:" + Placeholder + " title=\"" + newTitle + "\" ";
    } else {
      text := "-metadata:s:a:" + Placeholder + " title=\"" + "Stereo" + "\" ";
    }
  }

  /** Building the fragment text by appending, then replacing the placeholder everywhere. */
  method AssembleCommand(mono: seq<AudioStream>, filterComplex: seq<string>, cfg: Config)
    returns (ffmpegCommandInsert: string)
    ensures ffmpegCommandInsert == ReplaceAll(Serialize(Plan(mono, filterComplex, cfg), Placeholder), Placeholder, Resolved)
  {
    var cmd := "";
    if |filterComplex| > 0 {
      cmd := cmd + ("-filter_complex \"" + Join(filterComplex, ';') + "\" ");
    }
    cmd := cmd + "-map 0 ";
    assert cmd == Serialize(Header(filterComplex), Placeholder) by {
      HeaderShape(filterComplex);
      if |filterComplex| > 0 {
        SerializeSnoc([FilterGraph(filterComplex)], MapAll, Placeholder);
        assert [FilterGraph(filterComplex)] + [MapAll] == [FilterGraph(filterComplex), MapAll];
      }
    }
    ghost var ds := Header(filterComplex);

    if cfg.removeOriginal {
      var exclusions := ExclusionArguments(mono);
      cmd := cmd + exclusions;
      SerializeAppend(ds, Exclusions(mono), Placeholder);
      ds := ds + Exclusions(mono);
    } else {
      assert ds == Header(filterComplex) + [];
    }
    var stereoMaps := StereoMapArguments(|mono|);
    cmd := cmd + stereoMaps;
    SerializeAppend(ds, StereoMaps(|mono|), Placeholder);
    ds := ds + StereoMaps(|mono|);
    assert ds == Header(filterComplex) + Maps(mono, cfg) by {
      ConcatAssoc(Header(filterComplex), if cfg.removeOriginal then Exclusions(mono) else [], StereoMaps(|mono|));
    }

    cmd := cmd + "-c copy ";
    SerializeSnoc(ds, CopyAll, Placeholder);
    ds := ds + [CopyAll];
    cmd := cmd + "-threads 0 ";
    SerializeSnoc(ds, Threads, Placeholder);
    ds := ds + [Threads];
    assert ds == Header(filterComplex) + Maps(mono, cfg) + [CopyAll, Threads] by {
      ConcatAssoc(Header(filterComplex) + Maps(mono, cfg), [CopyAll], [Threads]);
      assert [CopyAll] + [Threads] == [CopyAll, Threads];
    }

    var section := SectionArguments(mono, cfg);
    cmd := cmd + section;
    SerializeAppend(ds, StreamSection(mono, cfg), Placeholder);

    ffmpegCommandInsert := ReplaceAll(cmd, Placeholder, Resolved);
  }

  /** The `-map -0:<index>` exclusions of the streams to convert. */
  method ExclusionArguments(mono: seq<AudioStream>) returns (text: string)
    ensures text == Serialize(Exclusions(mono), Placeholder)
  {
    text := "";
    for k := 0 to |mono|
      invariant text == Serialize(Exclusions(mono[..k]), Placeholder)
    {
      var stream := mono[k];
      text := text + ("-map -0:" + NatToString(stream.absoluteIndex) + " ");
      SerializeSnoc(Exclusions(mono[..k]), Unmap(stream.absoluteIndex), Placeholder);
      ExclusionsStep(mono, k);
    }
    assert mono[..|mono|] == mono;
  }

  /** The `-map "[stereo<k>]"` maps of the `n` new streams. */
  method StereoMapArguments(n: nat) returns (text: string)
    ensures text == Serialize(StereoMaps(n), Placeholder)
  {
    text := "";
    for k := 0 to n
      invariant text == Serialize(StereoMaps(k), Placeholder)
    {
      text := text + ("-map \"[stereo" + NatToString(k) + "]\" ");
      SerializeSnoc(StereoMaps(k), MapStereo(k), Placeholder);
    }
  }

  /** The per-stream arguments of every stream to convert, in order. */
  method SectionArguments(mono: seq<AudioStream>, cfg: Config) returns (text: string)
    ensures text == Serialize(StreamSection(mono, cfg), Placeholder)
  {
    text := "";
    for k := 0 to |mono|
      invariant text == Serialize(StreamSection(mono[..k], cfg), Placeholder)
    {
      var stream := mono[k];
      var arguments := StreamArguments(stream, cfg);
      text := text + arguments;
      SerializeAppend(StreamSection(mono[..k], cfg), StreamDirectives(stream, cfg), Placeholder);
      StreamSectionStep(mono, cfg, k);
    }
    assert mono[..|mono|] == mono;
  }

  // ------------------------------------------------------------ properties

  /** The payloads of the directives `f` selects, in order. */
  function Pick<T>(ds: seq<Directive>, f: Directive -> Option<T>): seq<T>
    decreases |ds|
  {
    if |ds| == 0 then []
    else Pick(ds[..|ds| - 1], f) + (match f(ds[|ds| - 1]) case Some(x) => [x] case None => [])
  }

  lemma {:induction false} PickAppend<T>(a: seq<Directive>, b: seq<Directive>, f: Directive -> Option<T>)
    ensures Pick(a + b, f) == Pick(a, f) + Pick(b, f)
    decreases |b|
  {
    if |b| == 0 {
      assert a + b == a;
    } else {
      var n := |b| - 1;
      assert (a + b)[..|a + b| - 1] == a + b[..n];
      assert (a + b)[|a + b| - 1] == b[n];
      PickAppend(a, b[..n], f);
      ConcatAssoc(Pick(a, f), Pick(b[..n], f), match f(b[n]) case Some(x) => [x] case None => []);
    }
  }

  lemma {:induction false} PickNone<T>(ds: seq<Directive>, f: Directive -> Option<T>)
    requires forall i :: 0 <= i < |ds| ==> f(ds[i]).None?
    ensures Pick(ds, f) == []
    decreases |ds|
  {
    if |ds| > 0 {
      PickNone(ds[..|ds| - 1], f);
    }
  }

  function UnmapIndex(d: Directive): Option<nat> { if d.Unmap? then Some(d.index) else None }
  function StereoIndex(d: Directive): Option<nat> { if d.MapStereo? then Some(d.k) else None }
  function FilterSegments(d: Directive): Option<seq<string>> { if d.FilterGraph? then Some(d.segments) else None }
  function CodecMark(d: Directive): Option<()> { if d.Codec? then Some(()) else None }
  function BitrateValue(d: Directive): Option<int> { if d.Bitrate? then Some(d.kbps) else None }
  function TitleText(d: Directive): Option<string> { if d.Title? then Some(d.text) else None }

  /** The per-stream directives come after everything else. */
  predicate PerStream(d: Directive) {
    d.Codec? || d.Bitrate? || d.Language? || d.Title? || d.MarkDefault?
  }

  /** The position of each kind of directive in the fragment's fixed order. */
  function Rank(d: Directive): nat {
    match d
    case FilterGraph(_) => 0
    case MapAll => 1
    case Unmap(_) => 2
    case MapStereo(_) => 3
    case CopyAll => 4
    case Threads => 5
    case _ => 6
  }

  predicate InOrder(ds: seq<Directive>) {
    forall i, j :: 0 <= i < j < |ds| ==> Rank(ds[i]) <= Rank(ds[j])
  }

  predicate RanksWithin(ds: seq<Directive>, lo: nat, hi: nat) {
    forall i :: 0 <= i < |ds| ==> lo <= Rank(ds[i]) <= hi
  }

  lemma ConcatInOrder(a: seq<Directive>, b: seq<Directive>, lo: nat, mid: nat, hi: nat)
    requires lo <= mid <= hi
    requires InOrder(a) && RanksWithin(a, lo, mid)
    requires InOrder(b) && RanksWithin(b, mid, hi)
    ensures InOrder(a + b) && RanksWithin(a + b, lo, hi)
  {
    forall i, j | 0 <= i < j < |a + b| ensures Rank((a + b)[i]) <= Rank((a + b)[j]) {
      if j < |a| {
        assert (a + b)[i] == a[i] && (a + b)[j] == a[j];
      } else if i < |a| {
        assert (a + b)[i] == a[i] && (a + b)[j] == b[j - |a|];
      } else {
        assert (a + b)[i] == b[i - |a|] && (a + b)[j] == b[j - |a|];
      }
    }
    forall i | 0 <= i < |a + b| ensures lo <= Rank((a + b)[i]) <= hi {
      if i < |a| {
        assert (a + b)[i] == a[i];
      } else {
        assert (a + b)[i] == b[i - |a|];
      }
    }
  }

  lemma {:induction false} ExclusionsShape(mono: seq<AudioStream>)
    ensures |Exclusions(mono)| == |mono|
    ensures forall i :: 0 <= i < |mono| ==> Exclusions(mono)[i] == Unmap(mono[i].absoluteIndex)
    decreases |mono|
  {
    if |mono| > 0 {
      ExclusionsShape(mono[..|mono| - 1]);
    }
  }

  lemma {:induction false} StereoMapsShape(n: nat)
    ensures |StereoMaps(n)| == n
    ensures forall i :: 0 <= i < n ==> StereoMaps(n)[i] == MapStereo(i)
    decreases n
  {
    if n > 0 {
      StereoMapsShape(n - 1);
    }
  }

  lemma {:induction false} StreamSectionPerStream(mono: seq<AudioStream>, cfg: Config)
    ensures forall i :: 0 <= i < |StreamSection(mono, cfg)| ==> PerStream(StreamSection(mono, cfg)[i])
    decreases |mono|
  {
    if |mono| > 0 {
      var init := StreamSection(mono[..|mono| - 1], cfg);
      var group := StreamDirectives(mono[|mono| - 1], cfg);
      StreamSectionPerStream(mono[..|mono| - 1], cfg);
      assert forall i :: 0 <= i < |group| ==> PerStream(group[i]);
      assert forall i :: 0 <= i < |init + group| ==>
        (init + group)[i] == if i < |init| then init[i] else group[i - |init|];
    }
  }

  /**
   * The fragment keeps the source's fixed order: filter graph, `-map 0`, the
   * exclusions, the stereo maps, `-c copy`, `-threads 0`, then the per-stream
   * options.
   */
  lemma PlanInOrder(mono: seq<AudioStream>, filters: seq<string>, cfg: Config)
    ensures InOrder(Plan(mono, filters, cfg))
  {
    PreludeInOrder(mono, filters, cfg);
    assert InOrder(StreamSection(mono, cfg)) && RanksWithin(StreamSection(mono, cfg), 5, 6) by {
      StreamSectionPerStream(mono, cfg);
    }
    ConcatInOrder(Header(filters) + Maps(mono, cfg) + [CopyAll, Threads], StreamSection(mono, cfg), 0, 5, 6);
  }

  lemma MapsInOrder(mono: seq<AudioStream>, cfg: Config)
    ensures InOrder(Maps(mono, cfg)) && RanksWithin(Maps(mono, cfg), 2, 3)
  {
    var e := if cfg.removeOriginal then Exclusions(mono) else [];
    assert InOrder(e) && RanksWithin(e, 2, 3) by {
      ExclusionsShape(mono);
    }
    assert InOrder(StereoMaps(|mono|)) && RanksWithin(StereoMaps(|mono|), 3, 3) by {
      StereoMapsShape(|mono|);
    }
    ConcatInOrder(e, StereoMaps(|mono|), 2, 3, 3);
  }

  lemma PreludeInOrder(mono: seq<AudioStream>, filters: seq<string>, cfg: Config)
    ensures var p := Header(filters) + Maps(mono, cfg) + [CopyAll, Threads];
      InOrder(p) && RanksWithin(p, 0, 5)
  {
    var h := Header(filters);
    assert InOrder(h) && RanksWithin(h, 0, 1) by {
      HeaderShape(filters);
    }
    MapsInOrder(mono, cfg);
    ConcatInOrder(h, Maps(mono, cfg), 0, 1, 3);
    assert InOrder([CopyAll, Threads]) && RanksWithin([CopyAll, Threads], 3, 5);
    ConcatInOrder(h + Maps(mono, cfg), [CopyAll, Threads], 0, 3, 5);
  }

  lemma HeaderShape(filters: seq<string>)
    ensures |Header(filters)| == if |filters| > 0 then 2 else 1
    ensures |filters| > 0 ==> Header(filters) == [FilterGraph(filters), MapAll]
    ensures |filters| == 0 ==> Header(filters) == [MapAll]
  {
  }

  /** What a selector picks from the plan, piece by piece. */
  lemma PickPlan<T>(mono: seq<AudioStream>, filters: seq<string>, cfg: Config, f: Directive -> Option<T>)
    ensures Pick(Plan(mono, filters, cfg), f) ==
      Pick(Header(filters), f) + Pick(if cfg.removeOriginal then Exclusions(mono) else [], f)
      + Pick(StereoMaps(|mono|), f) + Pick([CopyAll, Threads], f) + Pick(StreamSection(mono, cfg), f)
  {
    var h := Header(filters);
    var e := if cfg.removeOriginal then Exclusions(mono) else [];
    var m := StereoMaps(|mono|);
    var c := [CopyAll, Threads];
    var g := StreamSection(mono, cfg);
    PickAppend(h + (e + m) + c, g, f);
    PickAppend(h + (e + m), c, f);
    PickAppend(h, e + m, f);
    PickAppend(e, m, f);
    ConcatAssoc(Pick(h, f), Pick(e, f), Pick(m, f));
  }

  /** Nothing the plan writes before the stream section is a per-stream option. */
  lemma PreludeNotPerStream(mono: seq<AudioStream>, filters: seq<string>, cfg: Config)
    ensures var p := Header(filters) + Maps(mono, cfg) + [CopyAll, Threads];
      forall i :: 0 <= i < |p| ==> !PerStream(p[i])
  {
    HeaderShape(filters);
    ExclusionsShape(mono);
    StereoMapsShape(|mono|);
  }

  /** The pieces of the plan other than the stream section select nothing per stream. */
  lemma PlanPick<T>(mono: seq<AudioStream>, filters: seq<string>, cfg: Config, f: Directive -> Option<T>)
    requires forall d :: f(d).Some? ==> PerStream(d)
    ensures Pick(Plan(mono, filters, cfg), f) == Pick(StreamSection(mono, cfg), f)
  {
    var p := Header(filters) + Maps(mono, cfg) + [CopyAll, Threads];
    PreludeNotPerStream(mono, filters, cfg);
    PickNone(p, f);
    PickAppend(p, StreamSection(mono, cfg), f);
  }

  lemma {:induction false} ExclusionsPositions(mono: seq<AudioStream>)
    ensures Pick(Exclusions(mono), UnmapIndex) == Positions(mono)
    decreases |mono|
  {
    if |mono| > 0 {
      var n := |mono| - 1;
      ExclusionsPositions(mono[..n]);
      assert Positions(mono[..n]) + [mono[n].absoluteIndex] == Positions(mono);
    }
  }

  /**
   * With `removeOriginal` the fragment drops exactly the converted streams,
   * by their absolute positions and in order; otherwise it drops nothing.
   */
  lemma PlanExclusions(mono: seq<AudioStream>, filters: seq<string>, cfg: Config)
    ensures Pick(Plan(mono, filters, cfg), UnmapIndex) == if cfg.removeOriginal then Positions(mono) else []
  {
    assert Pick(Header(filters), UnmapIndex) == [] by {
      HeaderShape(filters);
      PickNone(Header(filters), UnmapIndex);
    }
    assert Pick(StereoMaps(|mono|), UnmapIndex) == [] by {
      StereoMapsShape(|mono|);
      PickNone(StereoMaps(|mono|), UnmapIndex);
    }
    assert Pick([CopyAll, Threads], UnmapIndex) == [] by {
      PickNone([CopyAll, Threads], UnmapIndex);
    }
    assert Pick(StreamSection(mono, cfg), UnmapIndex) == [] by {
      StreamSectionPerStream(mono, cfg);
      PickNone(StreamSection(mono, cfg), UnmapIndex);
    }
    ghost var excluded := Pick(if cfg.removeOriginal then Exclusions(mono) else [], UnmapIndex);
    PickPlan(mono, filters, cfg, UnmapIndex);
    assert [] + excluded + [] + [] + [] == excluded;
    assert Pick(Plan(mono, filters, cfg), UnmapIndex) == excluded;
    if cfg.removeOriginal {
      ExclusionsPositions(mono);
    }
  }

  lemma {:induction false} StereoPick(n: nat)
    ensures Pick(StereoMaps(n), StereoIndex) == seq(n, k => k)
    decreases n
  {
    if n > 0 {
      StereoPick(n - 1);
      assert seq(n - 1, k => k) + [n - 1] == seq(n, k => k);
    }
  }

  /** One stereo map per converted stream, `[stereo0]` up to `[stereo<n-1>]`, in order. */
  lemma PlanStereoMaps(mono: seq<AudioStream>, filters: seq<string>, cfg: Config)
    ensures Pick(Plan(mono, filters, cfg), StereoIndex) == seq(|mono|, k => k)
  {
    assert Pick(Header(filters), StereoIndex) == [] by {
      HeaderShape(filters);
      PickNone(Header(filters), StereoIndex);
    }
    assert Pick(if cfg.removeOriginal then Exclusions(mono) else [], StereoIndex) == [] by {
      ExclusionsShape(mono);
      PickNone(if cfg.removeOriginal then Exclusions(mono) else [], StereoIndex);
    }
    assert Pick([CopyAll, Threads], StereoIndex) == [] by {
      PickNone([CopyAll, Threads], StereoIndex);
    }
    assert Pick(StreamSection(mono, cfg), StereoIndex) == [] by {
      StreamSectionPerStream(mono, cfg);
      PickNone(StreamSection(mono, cfg), StereoIndex);
    }
    ghost var mapped := Pick(StereoMaps(|mono|), StereoIndex);
    PickPlan(mono, filters, cfg, StereoIndex);
    assert [] + [] + mapped + [] + [] == mapped;
    assert Pick(Plan(mono, filters, cfg), StereoIndex) == mapped;
    StereoPick(|mono|);
  }

  /** Nothing after the header is a filter graph. */
  lemma RestHasNoGraph(mono: seq<AudioStream>, cfg: Config)
    ensures Pick(Maps(mono, cfg) + [CopyAll, Threads] + StreamSection(mono, cfg), FilterSegments) == []
  {
    ExclusionsShape(mono);
    StereoMapsShape(|mono|);
    StreamSectionPerStream(mono, cfg);
    PickNone(Maps(mono, cfg) + [CopyAll, Threads] + StreamSection(mono, cfg), FilterSegments);
  }

  /** The filter graph is written, first, exactly when there are segments. */
  lemma PlanFilterGraph(mono: seq<AudioStream>, filters: seq<string>, cfg: Config)
    ensures Pick(Plan(mono, filters, cfg), FilterSegments) == if |filters| > 0 then [filters] else []
    ensures |filters| > 0 ==> Plan(mono, filters, cfg)[0] == FilterGraph(filters)
  {
    var h := Header(filters);
    var rest := Maps(mono, cfg) + [CopyAll, Threads] + StreamSection(mono, cfg);
    assert Plan(mono, filters, cfg) == h + rest by {
      ConcatAssoc(h, Maps(mono, cfg), [CopyAll, Threads]);
      ConcatAssoc(h, Maps(mono, cfg) + [CopyAll, Threads], StreamSection(mono, cfg));
    }
    assert Pick(h, FilterSegments) == if |filters| > 0 then [filters] else [] by {
      PickAppend(if |filters| > 0 then [FilterGraph(filters)] else [], [MapAll], FilterSegments);
      PickNone([MapAll], FilterSegments);
      if |filters| > 0 {
        PickNone([], FilterSegments);
      }
    }
    RestHasNoGraph(mono, cfg);
    PickAppend(h, rest, FilterSegments);
    HeaderShape(filters);
  }

  function FixedMark(d: Directive): Option<Directive> {
    if d.MapAll? || d.CopyAll? || d.Threads? then Some(d) else None
  }

  /** Every fragment maps all input streams, copies what it does not convert, and sets the thread count. */
  lemma PlanFixedDirectives(mono: seq<AudioStream>, filters: seq<string>, cfg: Config)
    ensures var p := Plan(mono, filters, cfg);
      MapAll in p && CopyAll in p && Threads in p
  {
    var front := Header(filters) + Maps(mono, cfg);
    assert MapAll in Header(filters);
    assert MapAll in front;
    assert CopyAll in front + [CopyAll, Threads] && Threads in front + [CopyAll, Threads];
  }

  lemma PickSingle<T>(d: Directive, f: Directive -> Option<T>)
    ensures Pick([d], f) == match f(d) case Some(x) => [x] case None => []
  {
    assert [d][..0] == [];
  }

  lemma HeaderFixedMark(filters: seq<string>)
    ensures Pick(Header(filters), FixedMark) == [MapAll]
  {
    HeaderShape(filters);
    PickSingle(MapAll, FixedMark);
    if |filters| > 0 {
      PickAppend([FilterGraph(filters)], [MapAll], FixedMark);
      PickSingle(FilterGraph(filters), FixedMark);
    }
  }

  lemma CopyThreadsFixedMark()
    ensures Pick([CopyAll, Threads], FixedMark) == [CopyAll, Threads]
  {
    var ds := [CopyAll, Threads];
    assert ds[..1] == [CopyAll];
    PickSingle(CopyAll, FixedMark);
  }

  /** The exclusions, the stereo maps and the stream section write none of the fixed directives. */
  lemma RestFixedMarkFree(mono: seq<AudioStream>, cfg: Config)
    ensures Pick(if cfg.removeOriginal then Exclusions(mono) else [], FixedMark) == []
    ensures Pick(StereoMaps(|mono|), FixedMark) == []
    ensures Pick(StreamSection(mono, cfg), FixedMark) == []
  {
    ExclusionsShape(mono);
    PickNone(if cfg.removeOriginal then Exclusions(mono) else [], FixedMark);
    StereoMapsShape(|mono|);
    PickNone(StereoMaps(|mono|), FixedMark);
    StreamSectionPerStream(mono, cfg);
    PickNone(StreamSection(mono, cfg), FixedMark);
  }

  /** `-map 0`, `-c copy` and `-threads 0` are each written exactly once, in that order. */
  lemma PlanFixedOnce(mono: seq<AudioStream>, filters: seq<string>, cfg: Config)
    ensures Pick(Plan(mono, filters, cfg), FixedMark) == [MapAll, CopyAll, Threads]
  {
    PickPlan(mono, filters, cfg, FixedMark);
    HeaderFixedMark(filters);
    CopyThreadsFixedMark();
    RestFixedMarkFree(mono, cfg);
  }

  /** A per-stream selector that finds one payload in every stream's directives. */
  lemma {:induction false} SectionPick<T>(mono: seq<AudioStream>, cfg: Config, f: Directive -> Option<T>, g: AudioStream -> T)
    requires forall s :: Pick(StreamDirectives(s, cfg), f) == [g(s)]
    ensures Pick(StreamSection(mono, cfg), f) == seq(|mono|, k requires 0 <= k < |mono| => g(mono[k]))
    decreases |mono|
  {
    if |mono| > 0 {
      var n := |mono| - 1;
      var init := seq(n, k requires 0 <= k < n => g(mono[..n][k]));
      assert Pick(StreamSection(mono[..n], cfg), f) == init by {
        SectionPick(mono[..n], cfg, f, g);
      }
      assert Pick(StreamSection(mono, cfg), f) == init + [g(mono[n])] by {
        PickAppend(StreamSection(mono[..n], cfg), StreamDirectives(mono[n], cfg), f);
      }
      assert init + [g(mono[n])] == seq(|mono|, k requires 0 <= k < |mono| => g(mono[k])) by {
        forall k | 0 <= k < n ensures init[k] == g(mono[k]) {
          assert mono[..n][k] == mono[k];
        }
      }
    }
  }

  /** The payloads `f` selects in one stream's directives, piece by piece. */
  lemma GroupPick<T>(s: AudioStream, cfg: Config, f: Directive -> Option<T>)
    ensures Pick(StreamDirectives(s, cfg), f) ==
      Pick([Codec], f) + Pick([Bitrate(NewBitrate(s, cfg))], f)
      + Pick(if s.language != "" then [Language(s.language)] else [], f)
      + Pick([Title(NewTitle(s.title))], f)
      + Pick(if s.isDefault then [MarkDefault] else [], f)
  {
    var a := [Codec, Bitrate(NewBitrate(s, cfg))];
    var b := if s.language != "" then [Language(s.language)] else [];
    var c := [Title(NewTitle(s.title))];
    var d := if s.isDefault then [MarkDefault] else [];
    PickAppend(a + b + c, d, f);
    PickAppend(a + b, c, f);
    PickAppend(a, b, f);
    assert a == [Codec] + [Bitrate(NewBitrate(s, cfg))];
    PickAppend([Codec], [Bitrate(NewBitrate(s, cfg))], f);
  }

  /**
   * Each converted stream gets one `aac` codec option, one bitrate and one
   * title, in the order of the streams.
   */
  lemma PlanPerStream(mono: seq<AudioStream>, filters: seq<string>, cfg: Config)
    ensures |Pick(Plan(mono, filters, cfg), CodecMark)| == |mono|
    ensures Pick(Plan(mono, filters, cfg), BitrateValue) == seq(|mono|, k requires 0 <= k < |mono| => NewBitrate(mono[k], cfg))
    ensures Pick(Plan(mono, filters, cfg), TitleText) == seq(|mono|, k requires 0 <= k < |mono| => NewTitle(mono[k].title))
  {
    PlanCodecs(mono, filters, cfg);
    PlanBitrates(mono, filters, cfg);
    PlanTitles(mono, filters, cfg);
  }

  lemma PlanCodecs(mono: seq<AudioStream>, filters: seq<string>, cfg: Config)
    ensures |Pick(Plan(mono, filters, cfg), CodecMark)| == |mono|
  {
    forall s ensures Pick(StreamDirectives(s, cfg), CodecMark) == [()] {
      GroupPick(s, cfg, CodecMark);
    }
    PlanPickSection(mono, filters, cfg, CodecMark, (s: AudioStream) => ());
  }

  lemma PlanBitrates(mono: seq<AudioStream>, filters: seq<string>, cfg: Config)
    ensures Pick(Plan(mono, filters, cfg), BitrateValue) == seq(|mono|, k requires 0 <= k < |mono| => NewBitrate(mono[k], cfg))
  {
    forall s ensures Pick(StreamDirectives(s, cfg), BitrateValue) == [NewBitrate(s, cfg)] {
      GroupPick(s, cfg, BitrateValue);
    }
    PlanPickSection(mono, filters, cfg, BitrateValue, (s: AudioStream) => NewBitrate(s, cfg));
  }

  /**
   * Under a fixed bitrate every new stream gets the configured one; when
   * keeping the original, each gets its own (0 when unknown).
   */
  lemma PlanBitrateModes(mono: seq<AudioStream>, filters: seq<string>, cfg: Config)
    requires ValidConfig(cfg)
    ensures var bitrates := Pick(Plan(mono, filters, cfg), BitrateValue);
      && (!cfg.useOriginalBitrate ==> bitrates == seq(|mono|, k requires 0 <= k < |mono| => cfg.bitrate))
      && (cfg.useOriginalBitrate ==> bitrates == seq(|mono|, k requires 0 <= k < |mono| => mono[k].bitrate))
  {
    PlanBitrates(mono, filters, cfg);
    forall k | 0 <= k < |mono|
      ensures NewBitrate(mono[k], cfg) == if cfg.useOriginalBitrate then mono[k].bitrate else cfg.bitrate
    {
      NewBitrateChoice(mono[k], cfg);
    }
  }

  lemma PlanTitles(mono: seq<AudioStream>, filters: seq<string>, cfg: Config)
    ensures Pick(Plan(mono, filters, cfg), TitleText) == seq(|mono|, k requires 0 <= k < |mono| => NewTitle(mono[k].title))
  {
    forall s ensures Pick(StreamDirectives(s, cfg), TitleText) == [NewTitle(s.title)] {
      GroupPick(s, cfg, TitleText);
    }
    PlanPickSection(mono, filters, cfg, TitleText, (s: AudioStream) => NewTitle(s.title));
  }

  /** A per-stream selector that picks one value from each stream's directives picks those values from the plan, in order. */
  lemma PlanPickSection<T>(mono: seq<AudioStream>, filters: seq<string>, cfg: Config, f: Directive -> Option<T>, g: AudioStream -> T)
    requires forall d :: f(d).Some? ==> PerStream(d)
    requires forall s :: Pick(StreamDirectives(s, cfg), f) == [g(s)]
    ensures Pick(Plan(mono, filters, cfg), f) == seq(|mono|, k requires 0 <= k < |mono| => g(mono[k]))
  {
    SectionPick(mono, cfg, f, g);
    PlanPick(mono, filters, cfg, f);
  }

  /**
   * A stream's directives start with the codec and the bitrate, carry its
   * language exactly when it has one, and mark it default exactly when the
   * original was.
   */
  lemma StreamDirectivesContents(s: AudioStream, cfg: Config)
    ensures var ds := StreamDirectives(s, cfg);
      && ds[0] == Codec && ds[1] == Bitrate(NewBitrate(s, cfg))
      && (forall tag :: Language(tag) in ds <==> s.language != "" && tag == s.language)
      && (MarkDefault in ds <==> s.isDefault)
      && (forall text :: Title(text) in ds <==> text == NewTitle(s.title))
      && var lang := if s.language != "" then 1 else 0;
        && |ds| == 3 + lang + (if s.isDefault then 1 else 0)
        && (s.language != "" ==> ds[2] == Language(s.language))
        && ds[2 + lang] == Title(NewTitle(s.title))
        && (s.isDefault ==> ds[3 + lang] == MarkDefault)
  {
  }

  /**
   * Keep mode reuses the stream's own bitrate, or 0 when it has none; fixed
   * mode gives every stream the configured bitrate, one of the offered
   * values, whatever the stream's own bitrate.
   */
  lemma NewBitrateChoice(s: AudioStream, cfg: Config)
    requires ValidConfig(cfg)
    ensures cfg.useOriginalBitrate && s.bitrate != 0 ==> NewBitrate(s, cfg) == s.bitrate
    ensures cfg.useOriginalBitrate && s.bitrate == 0 ==> NewBitrate(s, cfg) == 0
    ensures !cfg.useOriginalBitrate ==> NewBitrate(s, cfg) == cfg.bitrate && NewBitrate(s, cfg) in AllowedBitrates
    ensures !cfg.useOriginalBitrate ==> forall t: AudioStream :: NewBitrate(t, cfg) == NewBitrate(s, cfg)
  {
  }

  /**
   * Every new title says `Stereo`: an untitled stream is named exactly
   * `Stereo`, a title that already says it is kept, any other gets
   * ` (Stereo)` appended, and renaming twice changes nothing.
   */
  lemma NewTitleSpec(title: string)
    ensures Contains(NewTitle(title), "Stereo")
    ensures title == "" ==> NewTitle(title) == "Stereo"
    ensures Contains(title, "Stereo") ==> NewTitle(title) == title
    ensures title != "" && !Contains(title, "Stereo") ==> NewTitle(title) == title + " (Stereo)"
    ensures NewTitle(NewTitle(title)) == NewTitle(title)
  {
    if title == "" {
      assert "Stereo" <= "Stereo"[0..];
    } else if !Contains(title, "Stereo") {
      var t := title + " (Stereo)";
      assert t[|title| + 2..] == "Stereo)";
      assert "Stereo" <= t[|title| + 2..];
    }
  }

  /** The `k`-th stereo map selects the label the `k`-th segment writes. */
  lemma StereoMapLabel(mono: seq<AudioStream>, speedMode: bool, amountText: string, k: nat, addr: string)
    requires k < |mono|
    ensures var seg := Segments(mono, speedMode, amountText)[k];
      |OutputLabel(k)| <= |seg| && seg[|seg| - |OutputLabel(k)|..] == OutputLabel(k)
    ensures Render(MapStereo(k), addr) == "-map \"" + OutputLabel(k) + "\" "
  {
    SegmentOutput(mono[k].absoluteIndex, k, speedMode, amountText, k);
    var a, b, c, d, n := "-map \"", "[stereo", "]", "\" ", NatToString(k);
    assert "-map \"[stereo" == a + b;
    assert "]\" " == c + d;
    ConcatAssoc(a, b, n);
    ConcatAssoc(a + (b + n), c, d);
    ConcatAssoc(a, b + n, c);
  }

  // ------------------------------------------------ placeholder resolution

  /** The text a user or a probe supplies carries no `#`, the first character of the placeholder. */
  predicate PlaceholderFree(d: Directive) {
    match d
    case FilterGraph(segments) => forall i :: 0 <= i < |segments| ==> '#' !in segments[i]
    case Language(tag) => '#' !in tag
    case Title(text) => '#' !in text
    case _ => true
  }

  predicate AllPlaceholderFree(ds: seq<Directive>) {
    forall i :: 0 <= i < |ds| ==> PlaceholderFree(ds[i])
  }

  lemma NoPlaceholderUntouched(x: string)
    requires '#' !in x
    ensures ReplaceAll(x, Placeholder, Resolved) == x
  {
    ReplaceAllSkips(x, "", Placeholder, Resolved);
    assert x + "" == x;
  }

  /** A placeholder between two `#`-free texts becomes the resolved address. */
  lemma ResolveAround(before: string, after: string)
    requires '#' !in before && '#' !in after
    ensures ReplaceAll(before + Placeholder + after, Placeholder, Resolved) == before + Resolved + after
  {
    ConcatAssoc(before, Placeholder, after);
    ReplaceAllSkips(before, Placeholder + after, Placeholder, Resolved);
    ReplaceAllAtPattern(after, Placeholder, Resolved);
    NoPlaceholderUntouched(after);
    ConcatAssoc(before, Resolved, after);
  }

  lemma Regroup(x: string, a: string, b: string, c: string)
    ensures ((x + a) + b) + c == x + ((a + b) + c)
  {
    ConcatAssoc(x, a, b);
    ConcatAssoc(x, a + b, c);
  }

  /** Resolving one directive's text gives its text with the address `a`. */
  lemma RenderResolved(d: Directive)
    requires PlaceholderFree(d)
    ensures ReplaceAll(Render(d, Placeholder), Placeholder, Resolved) == Render(d, Resolved)
  {
    match d
    case FilterGraph(segments) =>
      JoinAvoids(segments, ';', '#');
      NoPlaceholderUntouched(Render(d, Placeholder));
    case Unmap(index) =>
      IntToStringChars(index, '#');
      NoPlaceholderUntouched(Render(d, Placeholder));
    case MapStereo(k) =>
      IntToStringChars(k, '#');
      NoPlaceholderUntouched(Render(d, Placeholder));
    case MapAll =>
      NoPlaceholderUntouched(Render(d, Placeholder));
    case CopyAll =>
      NoPlaceholderUntouched(Render(d, Placeholder));
    case Threads =>
      NoPlaceholderUntouched(Render(d, Placeholder));
    case Codec =>
      ResolveAround("-c:a:", " aac ");
    case Bitrate(kbps) =>
      IntToStringChars(kbps, '#');
      Regroup("-b:a:" + Placeholder, " ", IntToString(kbps), "k ");
      Regroup("-b:a:" + Resolved, " ", IntToString(kbps), "k ");
      ResolveAround("-b:a:", " " + IntToString(kbps) + "k ");
    case Language(tag) =>
      Regroup("-metadata:s:a:" + Placeholder, " language=", tag, " ");
      Regroup("-metadata:s:a:" + Resolved, " language=", tag, " ");
      ResolveAround("-metadata:s:a:", " language=" + tag + " ");
    case Title(text) =>
      Regroup("-metadata:s:a:" + Placeholder, " title=\"", text, "\" ");
      Regroup("-metadata:s:a:" + Resolved, " title=\"", text, "\" ");
      ResolveAround("-metadata:s:a:", " title=\"" + text + "\" ");
    case MarkDefault =>
      ResolveAround("-disposition:a:", " default ");
  }

  /** Every directive's text ends with a space. */
  lemma RenderEndsWithSpace(d: Directive, addr: string)
    ensures var r := Render(d, addr); |r| > 0 && r[|r| - 1] == ' '
  {
  }

  /** Resolving the placeholders of a `#`-free plan's text addresses every directive as `a`. */
  lemma {:induction false} SerializeResolved(ds: seq<Directive>)
    requires AllPlaceholderFree(ds)
    ensures ReplaceAll(Serialize(ds, Placeholder), Placeholder, Resolved) == Serialize(ds, Resolved)
    ensures var r := Serialize(ds, Placeholder); r == [] || r[|r| - 1] == ' '
    decreases |ds|
  {
    if |ds| > 0 {
      var n := |ds| - 1;
      SerializeResolved(ds[..n]);
      RenderResolved(ds[n]);
      RenderEndsWithSpace(ds[n], Placeholder);
      ResolveSnoc(Serialize(ds[..n], Placeholder), Render(ds[n], Placeholder));
    }
  }

  /** Resolution distributes over a text that ends with a space and what follows it. */
  lemma ResolveSnoc(a: string, b: string)
    requires a == [] || a[|a| - 1] == ' '
    ensures ReplaceAll(a + b, Placeholder, Resolved) == ReplaceAll(a, Placeholder, Resolved) + ReplaceAll(b, Placeholder, Resolved)
  {
    assert ' ' !in Placeholder;
    ReplaceAllSplits(a, b, Placeholder, Resolved);
  }

  lemma AllPlaceholderFreeAppend(a: seq<Directive>, b: seq<Directive>)
    requires AllPlaceholderFree(a) && AllPlaceholderFree(b)
    ensures AllPlaceholderFree(a + b)
  {
    forall i | 0 <= i < |a + b| ensures PlaceholderFree((a + b)[i]) {
      if i < |a| {
        assert (a + b)[i] == a[i];
      } else {
        assert (a + b)[i] == b[i - |a|];
      }
    }
  }

  /** No `#` in the amount's text nor in any stream's language or title. */
  predicate UserTextFree(mono: seq<AudioStream>, amountText: string) {
    && '#' !in amountText
    && forall k :: 0 <= k < |mono| ==> '#' !in mono[k].language && '#' !in mono[k].title
  }

  lemma SegmentFree(index: nat, k: nat, speedMode: bool, amountText: string)
    requires '#' !in amountText
    ensures '#' !in Segment(index, k, speedMode, amountText)
  {
    LabelChars(index, k, '#');
    SpeedChainChars();
    QualityChainChars();
  }

  lemma {:induction false} SectionFree(mono: seq<AudioStream>, cfg: Config, amountText: string)
    requires UserTextFree(mono, amountText)
    ensures AllPlaceholderFree(StreamSection(mono, cfg))
    decreases |mono|
  {
    if |mono| > 0 {
      var n := |mono| - 1;
      assert UserTextFree(mono[..n], amountText);
      SectionFree(mono[..n], cfg, amountText);
      var s := mono[n];
      assert '#' !in NewTitle(s.title);
      AllPlaceholderFreeAppend(StreamSection(mono[..n], cfg), StreamDirectives(s, cfg));
    }
  }

  lemma PlanFree(mono: seq<AudioStream>, cfg: Config, amountText: string)
    requires UserTextFree(mono, amountText)
    ensures AllPlaceholderFree(Plan(mono, Segments(mono, cfg.speedMode, amountText), cfg))
  {
    var filters := Segments(mono, cfg.speedMode, amountText);
    assert AllPlaceholderFree(Header(filters)) by {
      forall k | 0 <= k < |filters| ensures '#' !in filters[k] {
        SegmentFree(mono[k].absoluteIndex, k, cfg.speedMode, amountText);
      }
      HeaderShape(filters);
    }
    assert AllPlaceholderFree(Maps(mono, cfg)) by {
      ExclusionsShape(mono);
      StereoMapsShape(|mono|);
      AllPlaceholderFreeAppend(if cfg.removeOriginal then Exclusions(mono) else [], StereoMaps(|mono|));
    }
    SectionFree(mono, cfg, amountText);
    AllPlaceholderFreeAppend(Header(filters), Maps(mono, cfg));
    AllPlaceholderFreeAppend(Header(filters) + Maps(mono, cfg), [CopyAll, Threads]);
    AllPlaceholderFreeAppend(Header(filters) + Maps(mono, cfg) + [CopyAll, Threads], StreamSection(mono, cfg));
  }

  /**
   * When no user text carries a `#`, the final replacement turns every
   * directive's placeholder into `a` and changes nothing else.
   */
  lemma FragmentResolved(mono: seq<AudioStream>, cfg: Config, amountText: string)
    requires UserTextFree(mono, amountText)
    ensures Fragment(mono, cfg, amountText) ==
      Serialize(Plan(mono, Segments(mono, cfg.speedMode, amountText), cfg), Resolved)
  {
    PlanFree(mono, cfg, amountText);
    SerializeResolved(Plan(mono, Segments(mono, cfg.speedMode, amountText), cfg));
  }

  /** Whatever the input, no placeholder survives in the fragment. */
  lemma FragmentHasNoPlaceholder(mono: seq<AudioStream>, cfg: Config, amountText: string, i: int)
    ensures !OccursAt(Fragment(mono, cfg, amountText), Placeholder, i)
  {
    ReplaceAllLeavesNoPattern(Serialize(Plan(mono, Segments(mono, cfg.speedMode, amountText), cfg), Placeholder),
                              Placeholder, Resolved, i);
  }
}
