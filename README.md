# Mono-to-stereo upmix plugin, modelled in Dafny

This project models the Tdarr plugin that upmixes mono audio tracks to stereo
(`Community/Tdarr_Plugin_jordy_Upmix_Mono_to_Stereo.js`, function `plugin`).
For each file the host hands it, the plugin:

- gives up on anything that is not a video;
- normalises its options:
  - a codec filter and a language filter;
  - an enhancement amount clamped to 1.0–2.5;
  - a target bitrate from the drop-down list, or "Keep Original";
  - whether to remove the original tracks;
  - a Speed or Quality upmix mode;
- walks the probed streams once and describes every audio stream;
- picks the mono streams that pass both filters;
- when there is at least one, builds an ffmpeg argument fragment and asks the
  host to process the file. The fragment is:
  - a filter graph with one `[0:<index>]…[stereo<k>]` segment per picked stream;
  - `-map 0`;
  - optional `-map -0:<index>` exclusions;
  - one `-map "[stereo<k>]"` per new stream;
  - `-c copy -threads 0`;
  - per-stream codec, bitrate, language, title and default-disposition options;
  - finally every `#STREAMIDX#` placeholder replaced by `a`.

Files and modules:

| file | module | contents |
|---|---|---|
| `text.dfy` | `Maybe`, `Text` | the JavaScript string primitives the plugin uses: `toLowerCase` (ASCII), `trim`, `split`/`join`, `includes`, decimal rendering, `parseInt(_, 10)` and a global literal `replace` |
| `options.dfy` | `Options` | the raw option record and its normalised configuration |
| `streams.dfy` | `Streams` | the stream-classification loop, the per-stream descriptors and the log notes |
| `command.dfy` | `Command` | the filter segments, the ffmpeg fragment as a list of directives (`Plan`), the methods that assemble the text, and the placeholder resolution |
| `plugin.dfy` | `Upmix` | the entry point, its response record and its information log |

Modelling choices:

- The fragment has two layers:
  - Directives: `Plan` is the fragment as an ordered list of `Directive` values, and `Render` gives each its text.
  - Text: `StreamArguments` and `AssembleCommand` build the string by appending those texts in the source's order, and are proved equal to the serialised plan.
- The properties of the fragment are stated on `Plan`: what is excluded, what is mapped, the order, and the values per stream.
- The information log is a list of structured entries (`LogLine`), not emoji text.
- JavaScript's number-to-text conversion of the enhancement amount, which the filter template at line 277 performs, is a parameter `render: real -> string` of the plugin.

Behaviour of the code a reader might not expect (the model follows the code):

- Every per-stream option is addressed as `:a` (for example `-c:a:a`); there is no numeric output index.
  The code writes `#STREAMIDX#` and replaces every occurrence with `a`.
- In "Keep Original" mode, a stream with no known bitrate is given `0k`, because the fallback `safeAudioBitrate` is 0 in that mode.
- The kbps value is rounded (`Math.round`), not truncated.
- The language written to the new stream is the raw tag. Only the filter compares it lower-cased.
- The codec filter treats `all` as "no filter"; the language filter does not, so `all` there admits only streams tagged `all`.
- A codec option that is a single comma (`,`) lets no stream through, while an empty option lets every codec through.

## Model

Source paths are relative to the repository root; the file is
`Community/Tdarr_Plugin_jordy_Upmix_Mono_to_Stereo.js`.

| member | source | states |
|---|---|---|
| Text.Lower | Community/Tdarr_Plugin_jordy_Upmix_Mono_to_Stereo.js:138 | `toLowerCase` keeps the length, leaves no capital letter, and changes nothing in text that is already lower case |
| Text.LowerLetters | Community/Tdarr_Plugin_jordy_Upmix_Mono_to_Stereo.js:138 | lower-casing works letter by letter: each capital becomes the small letter at the same place in the alphabet, and every other character is kept |
| Text.LowerJoin | Community/Tdarr_Plugin_jordy_Upmix_Mono_to_Stereo.js:156 | lower-casing a comma-joined list is joining the lower-cased entries |
| Text.Trim | Community/Tdarr_Plugin_jordy_Upmix_Mono_to_Stereo.js:138-140 | `trim` leaves no white space at either end, changes nothing in trimmed text, and adds no character |
| Text.TrimShape | Community/Tdarr_Plugin_jordy_Upmix_Mono_to_Stereo.js:138-140 | what `trim` leaves lies between a blank prefix and a blank suffix of the text; with `TrimPadded` this fixes the result |
| Text.TrimPadded | Community/Tdarr_Plugin_jordy_Upmix_Mono_to_Stereo.js:140 | trimming an entry typed with blanks around it gives back exactly the entry, and an all-blank entry gives the empty text |
| Text.Split | Community/Tdarr_Plugin_jordy_Upmix_Mono_to_Stereo.js:140 | `split(',')` yields at least one piece, and no piece holds the separator |
| Text.JoinSplit | Community/Tdarr_Plugin_jordy_Upmix_Mono_to_Stereo.js:140 | joining the pieces of a split with the separator gives back the text |
| Text.SplitJoin | Community/Tdarr_Plugin_jordy_Upmix_Mono_to_Stereo.js:156-158 | splitting a join of separator-free pieces gives back the pieces |
| Text.ParseIntNatToString | Community/Tdarr_Plugin_jordy_Upmix_Mono_to_Stereo.js:147 | `parseInt(_, 10)` reads back the decimal rendering of every natural number |
| Text.ReplaceAllLeavesNoPattern | Community/Tdarr_Plugin_jordy_Upmix_Mono_to_Stereo.js:372 | after a global replace whose replacement shares no character with the pattern, the pattern occurs nowhere |
| Text.ReplaceAllSplits | Community/Tdarr_Plugin_jordy_Upmix_Mono_to_Stereo.js:372 | the global replace distributes over a concatenation whose first part does not end inside a possible occurrence |
| Options.Tokens | Community/Tdarr_Plugin_jordy_Upmix_Mono_to_Stereo.js:140 | split, trim and drop-empty yields only non-empty, trimmed, comma-free entries |
| Options.TokensOfJoin | Community/Tdarr_Plugin_jordy_Upmix_Mono_to_Stereo.js:140 | tokenising a comma-joined list of such entries gives back the list |
| Options.TokensOfPaddedJoin | Community/Tdarr_Plugin_jordy_Upmix_Mono_to_Stereo.js:140 | tokenising a comma-joined list of entries typed with blanks around them gives the entries trimmed, in order, with the all-blank ones dropped |
| Options.SpacedCodecList | Community/Tdarr_Plugin_jordy_Upmix_Mono_to_Stereo.js:138-140 | the codec option `aac, mp3` lists exactly `aac` and `mp3` |
| Options.CodecOption | Community/Tdarr_Plugin_jordy_Upmix_Mono_to_Stereo.js:138 | the codec option as compared is lower case with no blank at either end |
| Options.TokensLowerCase | Community/Tdarr_Plugin_jordy_Upmix_Mono_to_Stereo.js:156-158 | the entries of a lower-case option are lower case |
| Options.CodecOptionPadded | Community/Tdarr_Plugin_jordy_Upmix_Mono_to_Stereo.js:138 | a codec option typed with blanks around it (` AAC `) is compared as its content, lower-cased |
| Options.CodecList | Community/Tdarr_Plugin_jordy_Upmix_Mono_to_Stereo.js:139-140 | an empty option and `all` give the empty list; otherwise the entries are proper tokens |
| Options.LanguageList | Community/Tdarr_Plugin_jordy_Upmix_Mono_to_Stereo.js:156-158 | the language entries are proper tokens and lower case |
| Options.LanguageListPadded | Community/Tdarr_Plugin_jordy_Upmix_Mono_to_Stereo.js:156-158 | a language option typed with blanks around its entries and in any case (`ENG, Jpn`) gives the entries trimmed and lower-cased, in order, with blank entries dropped |
| Options.ClampAmount | Community/Tdarr_Plugin_jordy_Upmix_Mono_to_Stereo.js:144 | the result lies in [1.0, 2.5], equals the input inside that range, and is the nearer bound outside it |
| Options.Amount | Community/Tdarr_Plugin_jordy_Upmix_Mono_to_Stereo.js:142-144 | a missing amount reads as 1.7; an amount in range is kept; the result is always in range |
| Options.AudioBitrate | Community/Tdarr_Plugin_jordy_Upmix_Mono_to_Stereo.js:146-150 | "Keep Original" gives 0; otherwise the result is one of 128, 160, 192, 224, 256, 320: the parsed option when it is such a value, else 192 |
| Options.EmptyBitrateIs192 | Community/Tdarr_Plugin_jordy_Upmix_Mono_to_Stereo.js:147 | an empty bitrate option means 192 |
| Options.DropDownBitrates | Community/Tdarr_Plugin_jordy_Upmix_Mono_to_Stereo.js:146-150 | every value offered by the drop-down is taken as given |
| Options.Normalize | Community/Tdarr_Plugin_jordy_Upmix_Mono_to_Stereo.js:138-162 | the normalised configuration satisfies the configuration invariant (amount in range, an allowed bitrate or 0 when keeping the original, no codec list for an empty or `all` option, a trimmed lower-case codec option, lower-case language entries, Speed mode exactly for mode `Speed`), and keeps the original bitrate exactly when "Keep Original" is chosen |
| Options.NormalizeAmount | Community/Tdarr_Plugin_jordy_Upmix_Mono_to_Stereo.js:142-144 | the configured amount is the amount option clamped: 1.7 when missing, the option itself inside [1.0, 2.5], the nearer bound outside |
| Options.RemoveOriginalValues | Community/Tdarr_Plugin_jordy_Upmix_Mono_to_Stereo.js:153 | only the boolean `true` and the text `true` ask for the original to be removed |
| Options.NormalizeSwitches | Community/Tdarr_Plugin_jordy_Upmix_Mono_to_Stereo.js:153-162 | the original is removed exactly for `true` or `'true'`; Speed mode is on exactly when the mode option is `Speed`; an empty mode option means Quality |
| Options.CodecFilterSelects | Community/Tdarr_Plugin_jordy_Upmix_Mono_to_Stereo.js:138-140 | for a codec list typed as `aac,mp3` (anything but `all`), a codec passes the filter if and only if it is listed |
| Options.CodecFilterAnyCase | Community/Tdarr_Plugin_jordy_Upmix_Mono_to_Stereo.js:138-140 | for a codec list typed in any case (`AAC,Mp3`) that does not lower-case to `all`, a codec passes if and only if it is one of the lower-cased entries |
| Options.CommaOnlyCodecsMatchNothing | Community/Tdarr_Plugin_jordy_Upmix_Mono_to_Stereo.js:138-140 | a codec option of only a comma lets no codec through |
| Options.LanguageFilterSelects | Community/Tdarr_Plugin_jordy_Upmix_Mono_to_Stereo.js:156-158 | for a language list typed as `eng,jpn`, a tag passes if and only if it is non-empty and, lower-cased, listed |
| Options.LanguageFilterAnyCase | Community/Tdarr_Plugin_jordy_Upmix_Mono_to_Stereo.js:156-158 | for a language list typed in any case (`ENG,Jpn`), a tag passes if and only if it is non-empty and, lower-cased, one of the lower-cased entries |
| Options.AllIsNoLanguageWildcard | Community/Tdarr_Plugin_jordy_Upmix_Mono_to_Stereo.js:156-158 | the language option `all` is one entry, `all`, and rejects `eng` |
| Streams.KbpsOfDecimal | Community/Tdarr_Plugin_jordy_Upmix_Mono_to_Stereo.js:196-203 | a decimal bit rate becomes kbps rounded to nearest, exact for multiples of 1000 |
| Streams.Classify | Community/Tdarr_Plugin_jordy_Upmix_Mono_to_Stereo.js:176-252 | the loop yields the audio descriptors, the streams marked for conversion, and one note per audio stream, each as the reference functions give them |
| Streams.DescribeStream | Community/Tdarr_Plugin_jordy_Upmix_Mono_to_Stereo.js:182-247 | the loop body builds exactly the reference descriptor of an audio stream and its log note |
| Streams.AudioStreamsDescribe | Community/Tdarr_Plugin_jordy_Upmix_Mono_to_Stereo.js:176-193 | the k-th descriptor describes the audio stream at its probe position as the k-th audio stream, and positions strictly increase |
| Streams.SelectionPositions | Community/Tdarr_Plugin_jordy_Upmix_Mono_to_Stereo.js:224-232 | the selected streams sit exactly at the positions of the independent reference list of qualifying streams, in order |
| Streams.QualifyingPositionsExact | Community/Tdarr_Plugin_jordy_Upmix_Mono_to_Stereo.js:224-232 | the reference list increases, stays inside the probe, and holds a position if and only if the stream there is audio, mono, and passes both filters |
| Streams.QualifyingPositionsBounded | Community/Tdarr_Plugin_jordy_Upmix_Mono_to_Stereo.js:224-232 | the reference positions strictly increase and lie inside the probe |
| Streams.QualifyingPositionsMembers | Community/Tdarr_Plugin_jordy_Upmix_Mono_to_Stereo.js:224-232 | a probe position is in the reference list if and only if the stream there qualifies |
| Streams.SelectionDescribes | Community/Tdarr_Plugin_jordy_Upmix_Mono_to_Stereo.js:224-232 | every selected descriptor describes its probe stream, and that stream qualifies |
| Streams.QualifyingAreMarkedAudio | Community/Tdarr_Plugin_jordy_Upmix_Mono_to_Stereo.js:230-232 | every selected descriptor is an audio descriptor marked for conversion |
| Streams.NonMonoNeverSelected | Community/Tdarr_Plugin_jordy_Upmix_Mono_to_Stereo.js:224-232 | a stream whose channel count is not 1 is never selected, whatever the filters |
| Streams.NotesExact | Community/Tdarr_Plugin_jordy_Upmix_Mono_to_Stereo.js:224-247 | there is one note per audio stream, in order |
| Streams.NotesReport | Community/Tdarr_Plugin_jordy_Upmix_Mono_to_Stereo.js:224-247 | each note names its stream's probe position; it announces conversion if and only if the stream qualifies, and a channel skip if and only if the stream is not mono |
| Command.Segments | Community/Tdarr_Plugin_jordy_Upmix_Mono_to_Stereo.js:263-281 | one filter segment per selected stream |
| Command.BuildFilterComplex | Community/Tdarr_Plugin_jordy_Upmix_Mono_to_Stereo.js:263-281 | the loop builds exactly the segment list |
| Command.SegmentInput | Community/Tdarr_Plugin_jordy_Upmix_Mono_to_Stereo.js:266-279 | the input label of a segment parses back to the stream's probe index |
| Command.SegmentOutput | Community/Tdarr_Plugin_jordy_Upmix_Mono_to_Stereo.js:266-279 | a segment ends with its `[stereo<k>]` label, and distinct k give distinct labels |
| Command.SegmentChain | Community/Tdarr_Plugin_jordy_Upmix_Mono_to_Stereo.js:266-279 | a Speed segment holds no `extrastereo`; a Quality segment holds `extrastereo=m=` followed by the amount |
| Command.StreamArguments | Community/Tdarr_Plugin_jordy_Upmix_Mono_to_Stereo.js:313-368 | the per-stream text is the serialisation of that stream's directives |
| Command.HeadArguments | Community/Tdarr_Plugin_jordy_Upmix_Mono_to_Stereo.js:319-326 | the codec and bitrate text is the serialisation of those two directives |
| Command.BitrateArgument | Community/Tdarr_Plugin_jordy_Upmix_Mono_to_Stereo.js:321-326 | the bitrate text renders the chosen new bitrate |
| Command.LanguageArgument | Community/Tdarr_Plugin_jordy_Upmix_Mono_to_Stereo.js:329-331 | a language option is written if and only if the stream has a language tag |
| Command.TitleArgument | Community/Tdarr_Plugin_jordy_Upmix_Mono_to_Stereo.js:333-342 | the title text renders the new title |
| Command.DefaultArgument | Community/Tdarr_Plugin_jordy_Upmix_Mono_to_Stereo.js:365-367 | a default-disposition option is written if and only if the original stream is the default |
| Command.ExclusionArguments | Community/Tdarr_Plugin_jordy_Upmix_Mono_to_Stereo.js:294-299 | the exclusion text is the serialisation of one exclusion per selected stream |
| Command.StereoMapArguments | Community/Tdarr_Plugin_jordy_Upmix_Mono_to_Stereo.js:301-304 | the stereo map text is the serialisation of the maps of outputs `0 .. n-1` |
| Command.SectionArguments | Community/Tdarr_Plugin_jordy_Upmix_Mono_to_Stereo.js:313-368 | the per-stream section is the serialisation of every selected stream's directives, in order |
| Command.AssembleCommand | Community/Tdarr_Plugin_jordy_Upmix_Mono_to_Stereo.js:284-372 | the fragment is the serialised plan with every placeholder replaced by `a` |
| Command.PlanInOrder | Community/Tdarr_Plugin_jordy_Upmix_Mono_to_Stereo.js:284-368 | the plan's directive kinds come in a fixed order: graph, `-map 0`, exclusions, stereo maps, copy, threads, per-stream options |
| Command.PlanExclusions | Community/Tdarr_Plugin_jordy_Upmix_Mono_to_Stereo.js:294-299 | the excluded indexes are exactly the selected streams' probe positions, in order, with "remove original" set, and there are none without it |
| Command.PlanStereoMaps | Community/Tdarr_Plugin_jordy_Upmix_Mono_to_Stereo.js:301-304 | the stereo outputs mapped are `0 .. n-1`, in order, one per selected stream |
| Command.StereoMapLabel | Community/Tdarr_Plugin_jordy_Upmix_Mono_to_Stereo.js:263-304 | the k-th stereo map names exactly the label the k-th segment ends with |
| Command.PlanFilterGraph | Community/Tdarr_Plugin_jordy_Upmix_Mono_to_Stereo.js:287-289 | the filter graph holding all segments is present, and first, exactly when there are segments |
| Command.PlanFixedDirectives | Community/Tdarr_Plugin_jordy_Upmix_Mono_to_Stereo.js:292-310 | `-map 0`, `-c copy` and `-threads 0` are always in the plan |
| Command.PlanFixedOnce | Community/Tdarr_Plugin_jordy_Upmix_Mono_to_Stereo.js:292-310 | `-map 0`, `-c copy` and `-threads 0` are each written exactly once, in that order |
| Command.PlanPerStream | Community/Tdarr_Plugin_jordy_Upmix_Mono_to_Stereo.js:313-368 | one codec option per selected stream, and the bitrates and titles are those of the selected streams, in order |
| Command.PlanCodecs | Community/Tdarr_Plugin_jordy_Upmix_Mono_to_Stereo.js:313-319 | the plan holds exactly one codec option per selected stream |
| Command.PlanBitrates | Community/Tdarr_Plugin_jordy_Upmix_Mono_to_Stereo.js:321-326 | the plan's bitrates are the new bitrates of the selected streams, in order |
| Command.PlanBitrateModes | Community/Tdarr_Plugin_jordy_Upmix_Mono_to_Stereo.js:321-326 | under a fixed bitrate every new stream in the plan gets the configured bitrate; under "Keep Original" each gets its own, 0 when unknown |
| Command.PlanTitles | Community/Tdarr_Plugin_jordy_Upmix_Mono_to_Stereo.js:333-342 | the plan's titles are the new titles of the selected streams, in order |
| Command.StreamDirectivesContents | Community/Tdarr_Plugin_jordy_Upmix_Mono_to_Stereo.js:313-368 | a stream's options start with codec and bitrate; they set a language exactly when the stream has one (the raw tag), mark the stream default exactly when the original is, and set exactly the new title; there are no other options, and they come in the order codec, bitrate, language, title, default |
| Command.NewBitrateChoice | Community/Tdarr_Plugin_jordy_Upmix_Mono_to_Stereo.js:321-326 | keep mode uses the stream's bitrate when known and 0 otherwise; fixed mode gives every stream the configured bitrate, one of the allowed values, whatever its own |
| Command.NewTitleSpec | Community/Tdarr_Plugin_jordy_Upmix_Mono_to_Stereo.js:333-342 | the new title always contains `Stereo`; an untitled stream is named exactly `Stereo`; a title that has it is kept; any other title gets ` (Stereo)` appended; applying the rule twice changes nothing |
| Command.FragmentResolved | Community/Tdarr_Plugin_jordy_Upmix_Mono_to_Stereo.js:372 | when no tag, title or amount text holds `#`, replacing the placeholder amounts to writing every address as `a` |
| Command.FragmentHasNoPlaceholder | Community/Tdarr_Plugin_jordy_Upmix_Mono_to_Stereo.js:372 | no `#STREAMIDX#` survives in the fragment |
| Upmix.Plugin | Community/Tdarr_Plugin_jordy_Upmix_Mono_to_Stereo.js:116-385 | the entry point returns exactly the response the reference `Outcome` describes |
| Upmix.ProcessVideo | Community/Tdarr_Plugin_jordy_Upmix_Mono_to_Stereo.js:138-382 | for a video, the body returns exactly the response the reference `Decide` describes |
| Upmix.OutcomeFixedFields | Community/Tdarr_Plugin_jordy_Upmix_Mono_to_Stereo.js:120-128 | the container is `.` plus the file's container; ffmpeg mode is on, HandBrake mode and re-queue are off |
| Upmix.OutcomeNotVideo | Community/Tdarr_Plugin_jordy_Upmix_Mono_to_Stereo.js:131-135 | a file that is not a video is not processed, has an empty preset and one log entry |
| Upmix.OutcomeProcessesIff | Community/Tdarr_Plugin_jordy_Upmix_Mono_to_Stereo.js:255-256 | a video is processed if and only if some stream qualifies; otherwise the preset stays empty |
| Upmix.OutcomePreset | Community/Tdarr_Plugin_jordy_Upmix_Mono_to_Stereo.js:374 | the preset is `, ` plus the fragment, which is the plan with addresses written `a` when no user text holds `#` |
| Upmix.OutcomeTargetsQualifying | Community/Tdarr_Plugin_jordy_Upmix_Mono_to_Stereo.js:263-299 | the k-th segment reads the k-th qualifying stream, and with "remove original" exactly the qualifying streams are excluded, in order |
| Upmix.OutcomeBitrates | Community/Tdarr_Plugin_jordy_Upmix_Mono_to_Stereo.js:321-326 | with a fixed bitrate every new stream gets the bitrate chosen in the options; with "Keep Original" each gets its own, 0 when unknown |
| Upmix.OutcomeLog | Community/Tdarr_Plugin_jordy_Upmix_Mono_to_Stereo.js:165-382 | the log holds the parameters, then one note per audio stream, then the five-entry summary when something is converted or the "no mono tracks" entry when nothing is |

## Left out

- `details()` and the option metadata it returns are descriptive data, not behaviour.
- `lib.loadDefaultValues` is not part of this model. The raw options are taken as already defaulted, and the plugin's own `||` defaults are modelled.
- `parseFloat` is not modelled: the amount option arrives as `Option<real>`, with `None` standing for an empty option.
  An option that `parseFloat` reads as `NaN` is not modelled.
- JavaScript's number-to-text conversion of the amount is the `render` parameter.
- The information log is a list of structured entries. Its emoji wording and line breaks are not modelled.
- `toLowerCase` is modelled on ASCII letters only. The model does not do Unicode case folding.
- The `bit_rate` probe field is read with the decimal `parseInt`. A text that reads as `NaN` becomes 0, which every later use of the value treats the same way, through truthiness.
- The `catch` branches of the classification loop are not modelled: nothing in the modelled code throws.
- The extra-tag and extra-disposition copying blocks (lines 345–362) are not modelled. They read `tags` and `disposition` from the stream descriptor, which has neither field, so they never emit anything.
- `librarySettings` and `otherArguments` are not modelled: the plugin never reads them.
- Command.FragmentResolved: states the simple "every address is `a`" reading only when no language tag, title or amount text contains `#`.
  Otherwise the global replace could also meet a placeholder spelled out by user text; `FragmentHasNoPlaceholder` still holds for every input.
