/**
 * The plugin's option normaliser: turns the flat string options into the
 * values the rest of the plugin reads (codec and language filters, the
 * clamped enhancement amount, the bitrate policy, the retention flag and the
 * upmix mode). Every input yields a configuration; nothing here fails.
 */
module Options {
  import opened Maybe
  import opened Text

  /** An option the host passes either as a boolean or as text (`remove_original`). */
  datatype Setting = Boolean(b: bool) | Str(s: string)

  /**
   * The options as the host passes them. A missing text option is `""`.
   * `extrastereoAmount` is the number `parseFloat` reads from the option,
   * `None` when the option is empty or missing.
   */
  datatype RawInputs = RawInputs(
    codecs: string,
    extrastereoAmount: Option<real>,
    audioBitrate: string,
    removeOriginal: Setting,
    languages: string,
    upmixMode: string)

  datatype Config = Config(
    codecs: string,                // the codec option, lower-cased and trimmed
    codecsToProcess: seq<string>,  // its comma-separated entries
    amount: real,                  // the clamped enhancement amount
    useOriginalBitrate: bool,
    bitrate: int,                  // the fixed bitrate in kbps; 0 when keeping the original
    removeOriginal: bool,
    languages: seq<string>,        // lower-cased language entries
    upmixMode: string,
    speedMode: bool)

  const KeepOriginal: string := "Keep Original"
  const AllowedBitrates: set<int> := {128, 160, 192, 224, 256, 320}
  const FallbackBitrate: int := 192
  const DefaultAmount: real := 1.7
  const MinAmount: real := 1.0
  const MaxAmount: real := 2.5

  /** An entry of a comma-separated option once trimmed and kept. */
  predicate IsToken(t: string) {
    t != "" && IsTrimmed(t) && ',' !in t
  }

  predicate AllTokens(ts: seq<string>) {
    forall i :: 0 <= i < |ts| ==> IsToken(ts[i])
  }

  /** `.map(x => x.trim()).filter(x => x !== '')` over comma-free pieces. */
  function CleanTokens(parts: seq<string>): (r: seq<string>)
    requires forall i :: 0 <= i < |parts| ==> ',' !in parts[i]
    ensures AllTokens(r)
    ensures |r| <= |parts|
    decreases |parts|
  {
    if |parts| == 0 then []
    else
      var t := Trim(parts[0]);
      (if t == "" then [] else [t]) + CleanTokens(parts[1..])
  }

  /** `s.split(',').map(x => x.trim()).filter(x => x !== '')`. */
  function Tokens(s: string): (r: seq<string>)
    ensures AllTokens(r)
  {
    CleanTokens(Split(s, ','))
  }

  lemma {:induction false} CleanTokensOfTokens(ts: seq<string>)
    requires AllTokens(ts)
    ensures CleanTokens(ts) == ts
    decreases |ts|
  {
    if |ts| > 0 {
      CleanTokensOfTokens(ts[1..]);
      assert [ts[0]] + ts[1..] == ts;
    }
  }

  /** Tokenising a comma-separated list of tokens gives back the list. */
  lemma TokensOfJoin(ts: seq<string>)
    requires |ts| >= 1 && AllTokens(ts)
    ensures Tokens(Join(ts, ',')) == ts
  {
    SplitJoin(ts, ',');
    CleanTokensOfTokens(ts);
  }

  /** `ts` without its empty entries. */
  function NonEmpty(ts: seq<string>): (r: seq<string>)
    ensures |r| <= |ts|
    ensures (forall i :: 0 <= i < |ts| ==> ts[i] != "") ==> r == ts
    decreases |ts|
  {
    if |ts| == 0 then [] else (if ts[0] == "" then [] else [ts[0]]) + NonEmpty(ts[1..])
  }

  /** Each entry `ts[i]` as typed, with blanks `left[i]` before it and `right[i]` after it. */
  function Padded(left: seq<string>, ts: seq<string>, right: seq<string>): (ps: seq<string>)
    requires |left| == |ts| == |right|
    ensures |ps| == |ts|
    ensures forall i :: 0 <= i < |ts| ==> ps[i] == left[i] + ts[i] + right[i]
    decreases |ts|
  {
    if |ts| == 0 then [] else [left[0] + ts[0] + right[0]] + Padded(left[1..], ts[1..], right[1..])
  }

  /** An entry is empty or a token, and the text typed around it is blank. */
  predicate PaddedEntries(left: seq<string>, ts: seq<string>, right: seq<string>) {
    && |left| == |ts| == |right|
    && forall i :: 0 <= i < |ts| ==>
         AllSpace(left[i]) && AllSpace(right[i]) && (ts[i] == "" || IsToken(ts[i]))
  }

  /** Blanks are not commas, so padded entries are comma-free. */
  lemma PaddedCommaFree(left: seq<string>, ts: seq<string>, right: seq<string>)
    requires PaddedEntries(left, ts, right)
    ensures forall i :: 0 <= i < |ts| ==> ',' !in Padded(left, ts, right)[i]
  {
    var ps := Padded(left, ts, right);
    forall i | 0 <= i < |ts| ensures ',' !in ps[i] {
      assert !IsSpace(',');
      assert ps[i] == left[i] + ts[i] + right[i];
    }
  }

  lemma {:induction false} CleanTokensOfPadded(left: seq<string>, ts: seq<string>, right: seq<string>)
    requires PaddedEntries(left, ts, right)
    ensures forall i :: 0 <= i < |ts| ==> ',' !in Padded(left, ts, right)[i]
    ensures CleanTokens(Padded(left, ts, right)) == NonEmpty(ts)
    decreases |ts|
  {
    PaddedCommaFree(left, ts, right);
    if |ts| > 0 {
      var ps := Padded(left, ts, right);
      CleanTokensOfPadded(left[1..], ts[1..], right[1..]);
      assert ps[1..] == Padded(left[1..], ts[1..], right[1..]);
      assert Trim(ps[0]) == ts[0] by {
        TrimPadded(left[0], ts[0], right[0]);
      }
    }
  }

  /**
   * Tokenising a comma-joined list of entries typed with blanks around them
   * (`aac, mp3`) gives the entries trimmed, in order, with blank entries
   * dropped.
   */
  lemma TokensOfPaddedJoin(left: seq<string>, ts: seq<string>, right: seq<string>)
    requires |ts| >= 1 && PaddedEntries(left, ts, right)
    ensures Tokens(Join(Padded(left, ts, right), ',')) == NonEmpty(ts)
  {
    CleanTokensOfPadded(left, ts, right);
    SplitJoin(Padded(left, ts, right), ',');
  }

  /** The codec option `aac, mp3` lists `aac` and `mp3`. */
  lemma SpacedCodecList()
    ensures Tokens("aac, mp3") == ["aac", "mp3"]
  {
    var left, ts, right := ["", " "], ["aac", "mp3"], ["", ""];
    var ps := Padded(left, ts, right);
    assert ps[0] == "aac" && ps[1] == " mp3";
    assert ps == ["aac", " mp3"];
    assert Join(["aac", " mp3"], ',') == "aac, mp3";
    TokensOfPaddedJoin(left, ts, right);
  }

  /** The pieces of a lower-case option give lower-case tokens. */
  lemma {:induction false} CleanTokensLowerCase(parts: seq<string>)
    requires forall i :: 0 <= i < |parts| ==> ',' !in parts[i] && IsLowerCase(parts[i])
    ensures forall i :: 0 <= i < |CleanTokens(parts)| ==> IsLowerCase(CleanTokens(parts)[i])
    decreases |parts|
  {
    if |parts| > 0 {
      CleanTokensLowerCase(parts[1..]);
      TrimLowerCase(parts[0]);
    }
  }

  lemma TokensLowerCase(s: string)
    requires IsLowerCase(s)
    ensures forall i :: 0 <= i < |Tokens(s)| ==> IsLowerCase(Tokens(s)[i])
  {
    SplitLowerCase(s, ',');
    CleanTokensLowerCase(Split(s, ','));
  }

  /** The lower-cased, trimmed codec option (`inputs.codecs.toLowerCase().trim()`). */
  function CodecOption(raw: string): (r: string)
    ensures IsLowerCase(r) && IsTrimmed(r)
  {
    TrimLowerCase(Lower(raw));
    Trim(Lower(raw))
  }

  /**
   * A codec option typed with blanks around it (` AAC `) is compared as its
   * content, lower-cased.
   */
  lemma CodecOptionPadded(a: string, t: string, b: string)
    requires AllSpace(a) && AllSpace(b) && IsTrimmed(t)
    ensures CodecOption(a + t + b) == Lower(t)
  {
    LowerConcat(a + t, b);
    LowerConcat(a, t);
    LowerBlank(a);
    LowerBlank(b);
    LowerTrimmed(t);
    TrimPadded(a, Lower(t), b);
  }

  /** `''` and `'all'` mean "no codec filter"; otherwise the option's entries. */
  function CodecList(codecs: string): (r: seq<string>)
    ensures AllTokens(r)
    ensures codecs == "" || codecs == "all" ==> r == []
  {
    if codecs == "" || codecs == "all" then [] else Tokens(codecs)
  }

  /** The language option's lower-cased entries; `'all'` is not special here. */
  function LanguageList(raw: string): (r: seq<string>)
    ensures AllTokens(r)
    ensures forall i :: 0 <= i < |r| ==> IsLowerCase(r[i])
  {
    TokensLowerCase(Lower(raw));
    Tokens(Lower(raw))
  }

  lemma LowerEachCons(x: string, rest: seq<string>)
    ensures LowerEach([x] + rest) == [Lower(x)] + LowerEach(rest)
  {
    var l, r := LowerEach([x] + rest), [Lower(x)] + LowerEach(rest);
    forall i | 0 <= i < |l| ensures l[i] == r[i] {
      if i > 0 {
        assert ([x] + rest)[i] == rest[i - 1];
      }
    }
  }

  /** Dropping the empty entries commutes with lower-casing. */
  lemma {:induction false} NonEmptyLowerEach(ts: seq<string>)
    ensures NonEmpty(LowerEach(ts)) == LowerEach(NonEmpty(ts))
    decreases |ts|
  {
    if |ts| > 0 {
      var lts := LowerEach(ts);
      assert ts == [ts[0]] + ts[1..];
      assert lts[1..] == LowerEach(ts[1..]);
      assert (lts[0] == "") == (ts[0] == "");
      NonEmptyLowerEach(ts[1..]);
      if ts[0] != "" {
        LowerEachCons(ts[0], NonEmpty(ts[1..]));
      }
    }
  }

  /**
   * A language option typed with blanks around its entries and in any case
   * (`ENG, Jpn`) gives the entries trimmed and lower-cased, in order, with
   * blank entries dropped.
   */
  lemma LanguageListPadded(left: seq<string>, ts: seq<string>, right: seq<string>)
    requires |ts| >= 1 && PaddedEntries(left, ts, right)
    ensures LanguageList(Join(Padded(left, ts, right), ',')) == LowerEach(NonEmpty(ts))
  {
    var ps := Padded(left, ts, right);
    var lts := LowerEach(ts);
    LowerJoin(ps, ',');
    assert LowerEach(ps) == Padded(left, lts, right) by {
      forall i | 0 <= i < |ts| ensures LowerEach(ps)[i] == Padded(left, lts, right)[i] {
        LowerConcat(left[i] + ts[i], right[i]);
        LowerConcat(left[i], ts[i]);
        LowerBlank(left[i]);
        LowerBlank(right[i]);
      }
    }
    assert PaddedEntries(left, lts, right) by {
      forall i | 0 <= i < |ts| ensures lts[i] == "" || IsToken(lts[i]) {
        if ts[i] != "" {
          LowerToken(ts[i]);
        }
      }
    }
    TokensOfPaddedJoin(left, lts, right);
    NonEmptyLowerEach(ts);
  }

  /** `Math.min(Math.max(x, 1.0), 2.5)`. */
  function ClampAmount(x: real): (r: real)
    ensures MinAmount <= r <= MaxAmount
    ensures MinAmount <= x <= MaxAmount ==> r == x
    ensures x < MinAmount ==> r == MinAmount
    ensures x > MaxAmount ==> r == MaxAmount
  {
    var atLeast := if x > MinAmount then x else MinAmount;
    if atLeast < MaxAmount then atLeast else MaxAmount
  }

  /** The effective enhancement amount; an empty option reads as `'1.7'`. */
  function Amount(input: Option<real>): (r: real)
    ensures MinAmount <= r <= MaxAmount
    ensures input.None? ==> r == DefaultAmount
    ensures input.Some? && MinAmount <= input.value <= MaxAmount ==> r == input.value
  {
    ClampAmount(input.GetOr(DefaultAmount))
  }

  /** `inputs.audio_bitrate || '192'`. */
  function BitrateText(raw: string): string {
    if raw == "" then "192" else raw
  }

  /**
   * `safeAudioBitrate`: 0 when keeping the original bitrate; otherwise the
   * integer read from the option (`'192'` when it is empty) if it is one of
   * the allowed values, and 192 if not.
   */
  function AudioBitrate(raw: string): (r: int)
    ensures raw == KeepOriginal ==> r == 0
    ensures raw != KeepOriginal ==> r in AllowedBitrates
    ensures raw != KeepOriginal ==> r == FallbackBitrate || ParseInt(BitrateText(raw)) == Some(r)
    ensures (raw != KeepOriginal && ParseInt(BitrateText(raw)).Some? &&
             ParseInt(BitrateText(raw)).value in AllowedBitrates) ==> r == ParseInt(BitrateText(raw)).value
  {
    if raw == KeepOriginal then 0
    else
      var parsed := ParseInt(BitrateText(raw));
      if parsed.Some? && parsed.value in AllowedBitrates then parsed.value else FallbackBitrate
  }

  /** An empty bitrate option reads as 192. */
  lemma EmptyBitrateIs192()
    ensures AudioBitrate("") == 192
  {
    assert DigitChar(1) == '1' && DigitChar(9) == '9' && DigitChar(2) == '2';
    assert NatToString(1) == "1";
    assert NatToString(19) == "19";
    assert NatToString(192) == "192";
    ParseIntNatToString(192);
    assert ParseInt(BitrateText("")) == Some(192);
  }

  /** Each value the bitrate drop-down offers is taken as it is. */
  lemma DropDownBitrates(n: nat)
    requires n in AllowedBitrates
    ensures AudioBitrate(NatToString(n)) == n
  {
    ParseIntNatToString(n);
    assert NatToString(n) != KeepOriginal by {
      assert IsDigit(NatToString(n)[0]);
    }
  }

  /** `remove_original === true || remove_original === 'true'`. */
  predicate RemoveOriginal(setting: Setting) {
    match setting
    case Boolean(b) => b
    case Str(s) => s == "true"
  }

  /** Only the boolean `true` and the text `'true'` ask for the original to be removed. */
  lemma RemoveOriginalValues(setting: Setting)
    ensures RemoveOriginal(setting) <==> setting == Boolean(true) || setting == Str("true")
  {
    match setting
    case Boolean(b) =>
    case Str(s) =>
  }

  /** `inputs.upmix_mode || 'Quality'`. */
  function UpmixMode(raw: string): string {
    if raw == "" then "Quality" else raw
  }

  /** The configuration invariant every normalised configuration satisfies. */
  predicate ValidConfig(cfg: Config) {
    && MinAmount <= cfg.amount <= MaxAmount
    && (cfg.useOriginalBitrate ==> cfg.bitrate == 0)
    && (!cfg.useOriginalBitrate ==> cfg.bitrate in AllowedBitrates)
    && ((cfg.codecs == "" || cfg.codecs == "all") ==> cfg.codecsToProcess == [])
    && AllTokens(cfg.codecsToProcess)
    && AllTokens(cfg.languages)
    && IsLowerCase(cfg.codecs) && IsTrimmed(cfg.codecs)
    && (forall i :: 0 <= i < |cfg.languages| ==> IsLowerCase(cfg.languages[i]))
    && cfg.speedMode == (cfg.upmixMode == "Speed")
  }

  function Normalize(inputs: RawInputs): (cfg: Config)
    ensures ValidConfig(cfg)
    ensures cfg.useOriginalBitrate <==> inputs.audioBitrate == KeepOriginal
  {
    var codecs := CodecOption(inputs.codecs);
    var mode := UpmixMode(inputs.upmixMode);
    Config(
      codecs, CodecList(codecs), Amount(inputs.extrastereoAmount),
      inputs.audioBitrate == KeepOriginal, AudioBitrate(inputs.audioBitrate),
      RemoveOriginal(inputs.removeOriginal), LanguageList(inputs.languages),
      mode, mode == "Speed")
  }

  /**
   * The switches of the options: the original is removed only for `true` or
   * `'true'`, Speed mode only when asked for by name, and an empty mode is
   * Quality.
   */
  lemma NormalizeSwitches(inputs: RawInputs)
    ensures var cfg := Normalize(inputs);
      && (cfg.removeOriginal <==> inputs.removeOriginal == Boolean(true) || inputs.removeOriginal == Str("true"))
      && (cfg.speedMode <==> inputs.upmixMode == "Speed")
      && (inputs.upmixMode == "" ==> cfg.upmixMode == "Quality" && !cfg.speedMode)
  {
    RemoveOriginalValues(inputs.removeOriginal);
  }

  /**
   * The configured amount is the amount option clamped to [1.0, 2.5]: 1.7
   * when the option is missing, the option itself inside the range, and the
   * nearer bound outside it.
   */
  lemma NormalizeAmount(inputs: RawInputs)
    ensures var amount := Normalize(inputs).amount;
      match inputs.extrastereoAmount
      case None => amount == DefaultAmount
      case Some(v) =>
        && amount == ClampAmount(v)
        && (MinAmount <= v <= MaxAmount ==> amount == v)
        && (v < MinAmount ==> amount == MinAmount)
        && (v > MaxAmount ==> amount == MaxAmount)
  {
  }

  /** The codec test of the classification (`codecs === '' || codecs === 'all' || includes`). */
  predicate CodecMatches(cfg: Config, codec: string) {
    cfg.codecs == "" || cfg.codecs == "all" || codec in cfg.codecsToProcess
  }

  /** The language test: no languages listed, or a non-empty tag whose lower case is listed. */
  predicate LanguageMatches(cfg: Config, language: string) {
    |cfg.languages| == 0 || (language != "" && Lower(language) in cfg.languages)
  }

  // ------------------------------------------------------------- filters

  /** A list of lower-case tokens written as they would be typed into the option. */
  predicate IsFilterList(ts: seq<string>) {
    |ts| >= 1 && AllTokens(ts) && forall i :: 0 <= i < |ts| ==> IsLowerCase(ts[i])
  }

  lemma {:induction false} JoinIsLowerCase(ts: seq<string>)
    requires IsFilterList(ts)
    ensures IsLowerCase(Join(ts, ','))
  {
    var s := Join(ts, ',');
    forall i | 0 <= i < |s| ensures !IsUpper(s[i]) {
      var c := s[i];
      assert c in s;
      JoinChars(ts, ',', c);
      if c != ',' {
        var k :| 0 <= k < |ts| && c in ts[k];
        var j :| 0 <= j < |ts[k]| && ts[k][j] == c;
        assert IsLowerCase(ts[k]);
      }
    }
  }

  lemma JoinIsTrimmed(ts: seq<string>)
    requires IsFilterList(ts)
    ensures IsTrimmed(Join(ts, ',')) && Join(ts, ',') != ""
  {
    JoinEnds(ts, ',');
    assert IsToken(ts[0]) && IsToken(ts[|ts| - 1]);
  }

  lemma JoinIsNormal(ts: seq<string>)
    requires IsFilterList(ts)
    ensures var s := Join(ts, ','); Lower(s) == s && Trim(s) == s && s != ""
  {
    JoinIsLowerCase(ts);
    JoinIsTrimmed(ts);
  }

  /** A codec list typed as `aac,mp3`: a codec passes exactly when it is listed. */
  lemma CodecFilterSelects(inputs: RawInputs, ts: seq<string>, codec: string)
    requires IsFilterList(ts) && ts != ["all"]
    requires inputs.codecs == Join(ts, ',')
    ensures CodecMatches(Normalize(inputs), codec) <==> codec in ts
  {
    var s := Join(ts, ',');
    JoinIsNormal(ts);
    assert CodecOption(inputs.codecs) == s;
    JoinIsNotAll(ts);
    TokensOfJoin(ts);
  }

  /** Only the one-entry list `all` joins to `all`: any longer join holds a comma. */
  lemma JoinIsNotAll(ts: seq<string>)
    requires IsFilterList(ts) && ts != ["all"]
    ensures Join(ts, ',') != "all"
  {
    if |ts| > 1 {
      var s := Join(ts, ',');
      assert s == ts[0] + [','] + Join(ts[1..], ',');
      assert s[|ts[0]|] == ',';
      assert ',' !in "all";
    }
  }

  /** A codec option that is a single comma lets no codec through (unlike an empty one). */
  lemma CommaOnlyCodecsMatchNothing(inputs: RawInputs, codec: string)
    requires inputs.codecs == ","
    ensures !CodecMatches(Normalize(inputs), codec)
  {
    assert Lower(",") == ",";
    assert Trim(",") == ",";
    assert Split(",", ',') == ["", ""] by {
      assert ","[1..] == "";
    }
  }

  /** A language list typed as `eng,jpn`: a tag passes iff it is non-empty and listed, case aside. */
  lemma LanguageFilterSelects(inputs: RawInputs, ts: seq<string>, language: string)
    requires IsFilterList(ts)
    requires inputs.languages == Join(ts, ',')
    ensures LanguageMatches(Normalize(inputs), language) <==> language != "" && Lower(language) in ts
  {
    JoinIsNormal(ts);
    TokensOfJoin(ts);
  }

  /** `'all'` is no wildcard for languages: it admits only streams tagged `all`. */
  lemma AllIsNoLanguageWildcard(inputs: RawInputs)
    requires inputs.languages == "all"
    ensures Normalize(inputs).languages == ["all"]
    ensures !LanguageMatches(Normalize(inputs), "eng")
  {
    var ts := ["all"];
    assert IsLowerCase("all") by {
      forall i | 0 <= i < 3 ensures !IsUpper("all"[i]) {
        assert i == 0 || i == 1 || i == 2;
      }
    }
    assert IsToken("all");
    assert IsFilterList(ts);
    assert Join(ts, ',') == "all";
    JoinIsNormal(ts);
    TokensOfJoin(ts);
    assert LanguageList("all") == ts;
    assert Lower("eng")[0] == 'e';
  }

  // ------------------------------------------------- lists typed in any case

  /** Lower-casing a token keeps it a token. */
  lemma LowerToken(t: string)
    requires IsToken(t)
    ensures IsToken(Lower(t)) && IsLowerCase(Lower(t))
  {
    var l := Lower(t);
    LowerLetters(t);
    assert !IsSpace(l[0]) && !IsSpace(l[|l| - 1]);
    forall i | 0 <= i < |l| ensures l[i] != ',' {
      assert t[i] != ',' by { assert t[i] in t; }
    }
  }

  lemma LowerEachFilterList(ts: seq<string>)
    requires |ts| >= 1 && AllTokens(ts)
    ensures IsFilterList(LowerEach(ts))
  {
    forall i | 0 <= i < |ts| ensures IsToken(LowerEach(ts)[i]) && IsLowerCase(LowerEach(ts)[i]) {
      LowerToken(ts[i]);
    }
  }

  /**
   * A codec list typed in any case (`AAC,Mp3`) is compared lower-cased: a
   * codec passes exactly when it is one of the lower-cased entries, and a
   * list that lower-cases to `all` is the wildcard.
   */
  lemma CodecFilterAnyCase(inputs: RawInputs, ts: seq<string>, codec: string)
    requires |ts| >= 1 && AllTokens(ts) && LowerEach(ts) != ["all"]
    requires inputs.codecs == Join(ts, ',')
    ensures CodecMatches(Normalize(inputs), codec) <==> codec in LowerEach(ts)
  {
    var lts := LowerEach(ts);
    LowerEachFilterList(ts);
    LowerJoin(ts, ',');
    var typed := inputs.(codecs := Join(lts, ','));
    assert Lower(typed.codecs) == Lower(inputs.codecs);
    assert Normalize(typed) == Normalize(inputs);
    CodecFilterSelects(typed, lts, codec);
  }

  /** A language list typed in any case (`ENG,Jpn`): a tag passes iff it is non-empty and, lower-cased, one of the lower-cased entries. */
  lemma LanguageFilterAnyCase(inputs: RawInputs, ts: seq<string>, language: string)
    requires |ts| >= 1 && AllTokens(ts)
    requires inputs.languages == Join(ts, ',')
    ensures LanguageMatches(Normalize(inputs), language) <==> language != "" && Lower(language) in LowerEach(ts)
  {
    var lts := LowerEach(ts);
    LowerEachFilterList(ts);
    LowerJoin(ts, ',');
    var typed := inputs.(languages := Join(lts, ','));
    assert Lower(typed.languages) == Lower(inputs.languages);
    assert Normalize(typed) == Normalize(inputs);
    LanguageFilterSelects(typed, lts, language);
  }
}
