/**
 * The audio converter: its `accepts` test, the dependency check that opens
 * `convert`, the choice of file to transcribe, the choice of transcription
 * backend, the metadata pydub contributes, the markdown sections and the
 * title fallback chain. The speech recognisers and pydub are parameters:
 * what each returns, or whether it raises, is given.
 */
module AudioConverter {
  import opened Wrappers
  import opened Strings
  import opened StreamInfos
  import opened Dicts
  import opened BaseConverter
  import opened ConverterText
  import Decimal
  import Concat

  const Extensions: seq<string> := [".mp3", ".wav", ".flac", ".m4a", ".ogg", ".wma"]
  const Mimetypes: seq<string> := ["audio/mpeg", "audio/wav", "audio/flac", "audio/mp4", "audio/ogg", "audio/x-ms-wma"]
  const Priority: real := 3.0

  /** The attributes `AudioConverter(whisper_model, openai_api_key, korean_support)` sets. */
  function Info(koreanSupport: bool): ConverterInfo
  {
    ConverterInfo("AudioConverter", Some("Audio file converter with speech-to-text"), koreanSupport,
      Priority, Extensions, Mimetypes, "audio")
  }

  /** What `_check_dependencies` finds importable. */
  datatype Backends = Backends(whisper: bool, openai: bool, pydub: bool)

  /** `_check_dependencies`: the OpenAI API counts only when its package imports and an API key is set. */
  function CheckDependencies(whisperImports: bool, openaiImports: bool, pydubImports: bool,
                             apiKey: Option<string>): (b: Backends)
    ensures b.openai <==> openaiImports && Truthy(apiKey)
    ensures b.whisper == whisperImports && b.pydub == pydubImports
  {
    Backends(whisperImports, openaiImports && Truthy(apiKey), pydubImports)
  }

  /** `accepts`: one of the six MIME types or extensions; the stream is not read. */
  predicate Accepts(info: StreamInfo)
  {
    MatchesMimetype(info, Mimetypes) || MatchesExtension(info, Extensions)
  }

  /** A MIME type that starts with a listed one, or one of the listed extensions in any case. */
  lemma AcceptsSpec(info: StreamInfo)
    ensures Accepts(info) <==>
      (Truthy(info.mimetype) && exists i :: 0 <= i < |Mimetypes| && StartsWith(info.mimetype.value, Mimetypes[i]))
      || (Truthy(info.extension) && Lower(info.extension.value) in Extensions)
  {
    MatchesMimetypeSpec(info, Mimetypes);
    forall e | e in Extensions ensures Lower(e) == e {
      LowerNoUpper(e);
    }
    MatchesLowerCaseExtension(info, Extensions);
  }

  // ---------------------------------------------------------------- format information

  /** The feature list `get_format_info` builds: metadata always, then one entry per available capability. */
  function Features(b: Backends, koreanSupport: bool): seq<string>
  {
    ["Audio metadata extraction"]
    + (if b.whisper then ["Local Whisper transcription"] else [])
    + (if b.openai then ["OpenAI API transcription"] else [])
    + (if koreanSupport then ["Korean speech recognition"] else [])
    + (if b.pydub then ["Audio format conversion"] else [])
  }

  /** Metadata extraction always comes first, and each other feature is listed exactly when its capability is there. */
  lemma FeaturesSpec(b: Backends, koreanSupport: bool)
    ensures var fs := Features(b, koreanSupport);
      && fs[0] == "Audio metadata extraction"
      && ("Local Whisper transcription" in fs <==> b.whisper)
      && ("OpenAI API transcription" in fs <==> b.openai)
      && ("Korean speech recognition" in fs <==> koreanSupport)
      && ("Audio format conversion" in fs <==> b.pydub)
      && |fs| == 1 + (if b.whisper then 1 else 0) + (if b.openai then 1 else 0)
                   + (if koreanSupport then 1 else 0) + (if b.pydub then 1 else 0)
  {
  }

  /** `get_format_info` */
  function FormatInfo(koreanSupport: bool, b: Backends): (r: BaseConverter.FormatInfo)
    ensures r.features == Some(Features(b, koreanSupport))
    ensures r.extensions == Extensions && r.mimetypes == Mimetypes && r.category == "audio"
  {
    BaseConverter.FormatInfo("Audio", "Audio converter with speech-to-text transcription",
      Extensions, Mimetypes, "audio", None, None, Some(Features(b, koreanSupport)))
  }

  // ---------------------------------------------------------------- preparing the file

  /** `stream_info.extension or '.mp3'` */
  function ExtensionOrMp3(info: StreamInfo): string
  {
    if Truthy(info.extension) then info.extension.value else ".mp3"
  }

  /** The pydub loader `_prepare_audio` picks for an extension. */
  datatype Decoder = FromMp3 | FromWav | FromFlac | FromM4a | FromOgg | FromAnyFile

  function DecoderFor(extension: string): Decoder
  {
    if extension == ".mp3" then FromMp3
    else if extension == ".wav" then FromWav
    else if extension == ".flac" then FromFlac
    else if extension == ".m4a" then FromM4a
    else if extension == ".ogg" then FromOgg
    else FromAnyFile
  }

  /** The name of the converted copy: the path without its last extension, plus `_converted.wav`. */
  function ConvertedPath(path: string): string
  {
    BeforeLastDot(path) + "_converted.wav"
  }

  /**
   * `_prepare_audio`: the file itself when Whisper reads it directly (MP3
   * or WAV), when pydub is missing, or when pydub's load or export raises
   * (`decodes` says whether the chosen loader and the export succeed);
   * otherwise the converted WAV copy.
   */
  function PrepareAudio(path: string, info: StreamInfo, b: Backends, decodes: Decoder -> bool): string
  {
    var extension := ExtensionOrMp3(info);
    if (extension == ".mp3" || extension == ".wav") && b.whisper then path
    else if !b.pydub then path
    else if !decodes(DecoderFor(extension)) then path
    else ConvertedPath(path)
  }

  /** The converted copy never has the original's name. */
  lemma ConvertedPathDiffers(path: string)
    ensures ConvertedPath(path) != path
  {
    var before := BeforeLastDot(path);
    if '.' in path {
      var tail :| '.' !in tail && path == before + "." + tail;
      assert path[|before|] == '.';
      assert ConvertedPath(path)[|before|] == '_';
    } else {
      assert |ConvertedPath(path)| > |path|;
    }
  }

  /**
   * The file to transcribe is the original or its converted copy, and it is
   * the copy (the one `convert` removes afterwards) exactly when conversion
   * was needed, pydub is there and it succeeded. When no extension is known
   * the file counts as MP3.
   */
  lemma PrepareAudioSpec(path: string, info: StreamInfo, b: Backends, decodes: Decoder -> bool)
    ensures var r := PrepareAudio(path, info, b, decodes);
      var extension := ExtensionOrMp3(info);
      && (r == path || r == ConvertedPath(path))
      && (r != path <==>
            !((extension == ".mp3" || extension == ".wav") && b.whisper) && b.pydub && decodes(DecoderFor(extension)))
      && (!Truthy(info.extension) && b.whisper ==> r == path)
  {
    ConvertedPathDiffers(path);
  }

  // ---------------------------------------------------------------- transcription

  /**
   * `_transcribe_audio`: the OpenAI API first (language "ko" with Korean
   * support, else "en"), then local Whisper (language "ko" with Korean
   * support, else unset); a backend that is unavailable or raises (`None`)
   * is passed over, and with neither the transcription is "".
   */
  function Transcribe(koreanSupport: bool, b: Backends,
                      openai: string -> Option<string>, whisper: Option<string> -> Option<string>): string
  {
    var apiAnswer := openai(if koreanSupport then "ko" else "en");
    var localAnswer := whisper(if koreanSupport then Some("ko") else None);
    if b.openai && apiAnswer.Some? then apiAnswer.value
    else if b.whisper && localAnswer.Some? then localAnswer.value
    else ""
  }

  /** Which backend's text is used, and a non-empty transcription always comes from an available backend. */
  lemma TranscribeSpec(koreanSupport: bool, b: Backends,
                       openai: string -> Option<string>, whisper: Option<string> -> Option<string>)
    ensures var r := Transcribe(koreanSupport, b, openai, whisper);
      var api := openai(if koreanSupport then "ko" else "en");
      var local := whisper(if koreanSupport then Some("ko") else None);
      && (b.openai && api.Some? ==> r == api.value)
      && (!(b.openai && api.Some?) && b.whisper && local.Some? ==> r == local.value)
      && (r != [] ==> (b.openai && api == Some(r)) || (b.whisper && local == Some(r)))
      && (!b.openai && !b.whisper ==> r == [])
  {
  }

  // ---------------------------------------------------------------- metadata

  /** What pydub reports of a loaded file. */
  datatype AudioProps = AudioProps(lengthMs: nat, channels: int, frameRate: int, sampleWidth: int)

  /**
   * `f"{minutes}:{seconds:02d}"` for a length in milliseconds: whole
   * minutes, a colon, and the remaining whole seconds in two digits.
   */
  function DurationFormatted(lengthMs: nat): (s: string)
    ensures var k := |s| - 3;
      && k >= 1 && s[k] == ':' && Decimal.AllDigits(s[..k]) && Decimal.AllDigits(s[k + 1..])
      && Decimal.DigitsValue(s[k + 1..]) < 60
      && Decimal.DigitsValue(s[..k]) * 60 + Decimal.DigitsValue(s[k + 1..]) == lengthMs / 1000
  {
    var seconds := lengthMs / 1000;
    var minutes := Decimal.NatToString(seconds / 60);
    Decimal.NatToStringRoundTrip(seconds / 60);
    var s := minutes + ":" + Decimal.TwoDigits(seconds % 60);
    assert s[..|minutes|] == minutes;
    assert s[|minutes| + 1..] == Decimal.TwoDigits(seconds % 60);
    s
  }

  /** The five entries `_extract_audio_metadata` adds from pydub's report, in order. */
  function PropsEntries(p: AudioProps): seq<(string, MetaValue)>
  {
    [("duration_seconds", Float(p.lengthMs as real / 1000.0)),
     ("channels", Integer(p.channels)),
     ("frame_rate", Integer(p.frameRate)),
     ("sample_width", Integer(p.sampleWidth)),
     ("duration_formatted", Text(DurationFormatted(p.lengthMs)))]
  }

  /**
   * `_extract_audio_metadata`: the base metadata, then pydub's report when
   * pydub is there and loads the file (`props`), then the temporary file's
   * size when the file system answers (`fileSize`).
   */
  function AudioMetadata(base: Dict<string, MetaValue>, b: Backends, props: Option<AudioProps>,
                         fileSize: Option<nat>): Dict<string, MetaValue>
  {
    var d := if b.pydub && props.Some? then Update(base, PropsEntries(props.value)) else base;
    if fileSize.Some? then Set(d, "file_size", Size(fileSize.value)) else d
  }

  /** The keys the markdown reads hold pydub's values when it reported, and the file size when it was read. */
  lemma AudioMetadataGet(base: Dict<string, MetaValue>, b: Backends, props: Option<AudioProps>, fileSize: Option<nat>)
    ensures var d := AudioMetadata(base, b, props, fileSize);
      && (b.pydub && props.Some? ==>
            && TextAt(d, "duration_formatted") == Some(DurationFormatted(props.value.lengthMs))
            && IntAt(d, "channels") == Some(props.value.channels)
            && IntAt(d, "frame_rate") == Some(props.value.frameRate))
      && (!(b.pydub && props.Some?) ==>
            && TextAt(d, "duration_formatted") == TextAt(base, "duration_formatted")
            && IntAt(d, "channels") == IntAt(base, "channels")
            && IntAt(d, "frame_rate") == IntAt(base, "frame_rate"))
      && (fileSize.Some? ==> SizeAt(d, "file_size") == fileSize)
      && (fileSize.None? ==> Get(d, "file_size") == Get(AudioMetadata(base, b, props, None), "file_size"))
  {
    var d := if b.pydub && props.Some? then Update(base, PropsEntries(props.value)) else base;
    if b.pydub && props.Some? {
      PropsEntriesGet(base, props.value);
    }
    if fileSize.Some? {
      SetGet(d, "file_size", Size(fileSize.value), "file_size");
      SetGet(d, "file_size", Size(fileSize.value), "duration_formatted");
      SetGet(d, "file_size", Size(fileSize.value), "channels");
      SetGet(d, "file_size", Size(fileSize.value), "frame_rate");
    }
  }

  lemma PropsEntriesGet(d: Dict<string, MetaValue>, p: AudioProps)
    ensures var r := Update(d, PropsEntries(p));
      && Get(r, "duration_formatted") == Some(Text(DurationFormatted(p.lengthMs)))
      && Get(r, "channels") == Some(Integer(p.channels))
      && Get(r, "frame_rate") == Some(Integer(p.frameRate))
  {
    var e := PropsEntries(p);
    UpdateLast(d, e, 1);
    UpdateLast(d, e, 2);
    UpdateLast(d, e, 4);
  }

  // ---------------------------------------------------------------- markdown

  const NoTranscription: string := "*No transcription available*"

  /** `"Mono" if channels == 1 else "Stereo" if channels == 2 else f"{channels} channels"` */
  function ChannelDescription(channels: int): string
  {
    if channels == 1 then "Mono" else if channels == 2 then "Stereo"
    else Decimal.IntToString(channels) + " channels"
  }

  /** The heading naming the file, when there is a filename. */
  function Reference(filename: Option<string>): (r: string)
    ensures r == [] || StartsWith(r, "# Audio: ")
  {
    if Truthy(filename) then "# Audio: " + filename.value + "\n\n" else ""
  }

  predicate Present(s: Option<string>) { s.Some? && s.value != [] }
  predicate NonZero(n: Option<int>) { n.Some? && n.value != 0 }

  /** Is there anything to list under "Audio Properties"? */
  predicate HasProperties(metadata: Dict<string, MetaValue>)
  {
    Present(TextAt(metadata, "duration_formatted")) || NonZero(IntAt(metadata, "channels"))
    || NonZero(IntAt(metadata, "frame_rate"))
  }

  /** One list line per known property, the file size last, in megabytes to one decimal. */
  function PropertyLines(metadata: Dict<string, MetaValue>): string
  {
    DurationLine(TextAt(metadata, "duration_formatted")) + ChannelsLine(IntAt(metadata, "channels"))
    + RateLine(IntAt(metadata, "frame_rate")) + SizeLine(SizeAt(metadata, "file_size"))
  }

  function DurationLine(duration: Option<string>): string
  {
    if Present(duration) then "- **Duration**: " + duration.value + "\n" else ""
  }

  function ChannelsLine(channels: Option<int>): string
  {
    if NonZero(channels) then "- **Channels**: " + ChannelDescription(channels.value) + "\n" else ""
  }

  function RateLine(frameRate: Option<int>): string
  {
    if NonZero(frameRate) then "- **Sample Rate**: " + Decimal.IntToString(frameRate.value) + " Hz\n" else ""
  }

  function SizeLine(size: Option<nat>): string
  {
    if size.Some? then "- **File Size**: " + Decimal.OneDecimal(size.value, 1024 * 1024) + " MB\n" else ""
  }

  function PropertiesSection(metadata: Dict<string, MetaValue>): (r: string)
    ensures r == [] || StartsWith(r, "## ")
  {
    if HasProperties(metadata) then "## Audio Properties\n\n" + PropertyLines(metadata) + "\n" else ""
  }

  /** The transcription section is always there; an empty transcription is replaced by a notice. */
  function TranscriptionSection(transcription: string): (r: string)
    ensures StartsWith(r, "## ")
  {
    "## Transcription\n\n" + (if transcription != [] then transcription else NoTranscription) + "\n\n"
  }

  /** The three parts of `_create_audio_markdown`, in order. */
  function AudioMarkdown(transcription: string, metadata: Dict<string, MetaValue>, filename: Option<string>): string
  {
    Reference(filename) + PropertiesSection(metadata) + TranscriptionSection(transcription)
  }

  /** `_create_audio_markdown`, appending piece by piece. */
  method CreateAudioMarkdown(transcription: string, metadata: Dict<string, MetaValue>, filename: Option<string>)
    returns (markdown: string)
    ensures markdown == AudioMarkdown(transcription, metadata, filename)
  {
    markdown := "";
    if Truthy(filename) {
      markdown := markdown + "# Audio: " + filename.value + "\n\n";
    }
    assert markdown == Reference(filename);
    var duration := TextAt(metadata, "duration_formatted");
    var channels := IntAt(metadata, "channels");
    var frameRate := IntAt(metadata, "frame_rate");
    if Present(duration) || NonZero(channels) || NonZero(frameRate) {
      var lines := PropertyList(metadata);
      markdown := markdown + "## Audio Properties\n\n";
      markdown := markdown + lines;
      markdown := markdown + "\n";
      Concat.Regroup(Reference(filename), "## Audio Properties\n\n", lines, "\n");
    }
    assert markdown == Reference(filename) + PropertiesSection(metadata);
    ghost var before := markdown;
    if transcription != [] {
      markdown := markdown + "## Transcription\n\n";
      markdown := markdown + transcription + "\n\n";
      Concat.Regroup(before, "## Transcription\n\n", transcription, "\n\n");
    } else {
      markdown := markdown + "## Transcription\n\n";
      markdown := markdown + NoTranscription + "\n\n";
      Concat.Regroup(before, "## Transcription\n\n", NoTranscription, "\n\n");
    }
  }

  /** The list lines of the properties section, appended one by one. */
  method PropertyList(metadata: Dict<string, MetaValue>) returns (lines: string)
    ensures lines == PropertyLines(metadata)
  {
    var duration := TextAt(metadata, "duration_formatted");
    var channels := IntAt(metadata, "channels");
    var frameRate := IntAt(metadata, "frame_rate");
    lines := "";
    if Present(duration) {
      lines := lines + "- **Duration**: " + duration.value + "\n";
    }
    assert lines == DurationLine(duration);
    ghost var before := lines;
    if NonZero(channels) {
      var description := ChannelDescription(channels.value);
      lines := lines + "- **Channels**: " + description + "\n";
      Concat.Regroup(before, "- **Channels**: ", description, "\n");
    }
    assert lines == before + ChannelsLine(channels);
    before := lines;
    if NonZero(frameRate) {
      var rate := Decimal.IntToString(frameRate.value);
      lines := lines + "- **Sample Rate**: " + rate + " Hz\n";
      Concat.Regroup(before, "- **Sample Rate**: ", rate, " Hz\n");
    }
    assert lines == before + RateLine(frameRate);
    before := lines;
    var size := SizeAt(metadata, "file_size");
    if size.Some? {
      var megabytes := Decimal.OneDecimal(size.value, 1024 * 1024);
      lines := lines + "- **File Size**: " + megabytes + " MB\n";
      Concat.Regroup(before, "- **File Size**: ", megabytes, " MB\n");
    }
    assert lines == before + SizeLine(size);
  }

  /** The markdown opens with the file heading exactly when there is a filename. */
  lemma AudioMarkdownOpens(transcription: string, metadata: Dict<string, MetaValue>, filename: Option<string>)
    ensures StartsWith(AudioMarkdown(transcription, metadata, filename), "# Audio: ") <==> Truthy(filename)
  {
    SectionsOpen(Reference(filename), PropertiesSection(metadata), TranscriptionSection(transcription));
  }

  /** After the optional file heading come only second-level sections. */
  lemma SectionsOpen(r: string, p: string, t: string)
    requires r == [] || StartsWith(r, "# Audio: ")
    requires p == [] || StartsWith(p, "## ")
    requires StartsWith(t, "## ")
    ensures StartsWith(r + p + t, "# Audio: ") <==> r != []
  {
    var md := r + p + t;
    if r != [] {
      assert md[..9] == r[..9];
    } else {
      assert md[1] == '#' by {
        if p != [] {
          assert md[1] == p[..3][1];
        } else {
          assert md[1] == t[..3][1];
        }
      }
      assert "# Audio: "[1] == ' ';
    }
  }

  /** The markdown always closes with the transcription section, the notice when nothing was transcribed. */
  lemma AudioMarkdownCloses(transcription: string, metadata: Dict<string, MetaValue>, filename: Option<string>)
    ensures EndsWith(AudioMarkdown(transcription, metadata, filename), TranscriptionSection(transcription))
    ensures transcription == [] ==> TranscriptionSection(transcription) == "## Transcription\n\n" + NoTranscription + "\n\n"
  {
    var t := TranscriptionSection(transcription);
    var md := AudioMarkdown(transcription, metadata, filename);
    assert md[|md| - |t|..] == t;
  }

  /**
   * With the metadata this converter builds (from base metadata without
   * pydub's keys), the properties section appears exactly when pydub
   * reported on the file: the formatted duration is never empty.
   */
  lemma PropertiesShownIffReported(base: Dict<string, MetaValue>, b: Backends, props: Option<AudioProps>,
                                   fileSize: Option<nat>)
    requires !HasKey(base, "duration_formatted") && !HasKey(base, "channels") && !HasKey(base, "frame_rate")
    ensures HasProperties(AudioMetadata(base, b, props, fileSize)) <==> b.pydub && props.Some?
  {
    AudioMetadataGet(base, b, props, fileSize);
    GetSpec(base, "duration_formatted");
    GetSpec(base, "channels");
    GetSpec(base, "frame_rate");
  }

  // ---------------------------------------------------------------- title

  /**
   * `_extract_audio_title`: the transcription's first sentence when it is
   * under 100 characters, else the filename without its extension and with
   * `_` and `-` as spaces, else nothing; either is formatted.
   */
  function AudioTitle(koreanSupport: bool, transcription: string, filename: Option<string>): (r: Option<string>)
    ensures r.Some? ==> |r.value| <= MaxTitle
  {
    if SentenceTitle(transcription) then Some(FormatTitle(koreanSupport, FirstSentence(transcription)))
    else if Truthy(filename) then Some(FormatTitle(koreanSupport, SpacedStem(filename.value)))
    else None
  }

  /** The sentence wins over the filename; there is no title only when neither applies. */
  lemma AudioTitleSpec(koreanSupport: bool, transcription: string, filename: Option<string>)
    ensures var r := AudioTitle(koreanSupport, transcription, filename);
      && (r.None? <==> !SentenceTitle(transcription) && !Truthy(filename))
      && (SentenceTitle(transcription) ==> r == Some(FormatTitle(koreanSupport, FirstSentence(transcription))))
      && (!SentenceTitle(transcription) && Truthy(filename) ==>
            r == Some(FormatTitle(koreanSupport, SpacedStem(filename.value))))
  {
  }

  /**
   * Without Korean normalisation a sentence title is the sentence itself,
   * with no `.` in it, and a filename title has no `_` or `-`.
   */
  lemma PlainAudioTitle(transcription: string, filename: Option<string>)
    ensures var r := AudioTitle(false, transcription, filename);
      && (SentenceTitle(transcription) ==> r == Some(FirstSentence(transcription)) && '.' !in r.value)
      && (!SentenceTitle(transcription) && r.Some? ==> '_' !in r.value && '-' !in r.value)
  {
    if SentenceTitle(transcription) {
      StripIdempotent(Split(transcription, ".")[0]);
    } else if Truthy(filename) {
      FormatTitleChars(SpacedStem(filename.value));
    }
  }

  // ---------------------------------------------------------------- convert

  /** What the steps after the dependency check produce, or the message of the exception one of them raised. */
  datatype Attempt =
    | Attempt(openai: string -> Option<string>, whisper: Option<string> -> Option<string>,
              props: Option<AudioProps>, fileSize: Option<nat>)
    | Failed(detail: string)

  /**
   * `convert`: `MissingDependencyException` when neither Whisper nor the
   * OpenAI API is available; a failure after that becomes a
   * `FileConversionException`; otherwise the cleaned markdown, the title
   * and the metadata.
   */
  function Convert(koreanSupport: bool, b: Backends, info: StreamInfo, base: Dict<string, MetaValue>,
                   attempt: Attempt): (r: Outcome<DocumentConverterResult>)
    ensures (r.Raised? && r.error.MissingDependencyException?) <==> !b.whisper && !b.openai
    ensures (b.whisper || b.openai) && attempt.Failed? ==>
      r == Raised(FileConversionException("Audio conversion failed: " + attempt.detail))
    ensures r.Returned? ==> (
      && attempt.Attempt?
      && r.value.title == AudioTitle(koreanSupport, Transcribe(koreanSupport, b, attempt.openai, attempt.whisper), info.filename)
      && r.value.metadata == Some(AudioMetadata(base, b, attempt.props, attempt.fileSize)))
  {
    if !(b.whisper || b.openai) then
      Raised(MissingDependencyException("OpenAI Whisper or OpenAI API is required for audio conversion"))
    else match attempt
      case Failed(detail) => Raised(FileConversionException("Audio conversion failed: " + detail))
      case Attempt(openai, whisper, props, fileSize) =>
        var transcription := Transcribe(koreanSupport, b, openai, whisper);
        var metadata := AudioMetadata(base, b, props, fileSize);
        Returned(DocumentConverterResult(
          CleanMarkdown(koreanSupport, AudioMarkdown(transcription, metadata, info.filename)),
          AudioTitle(koreanSupport, transcription, info.filename),
          Some(metadata)))
  }
}
