/**
 * The image converter: its `accepts` test, the dependency check that opens
 * `convert`, the choice between the two OCR engines, the metadata it adds,
 * the markdown sections, the title fallback chain and the feature list.
 * Pillow, the OCR engines and the language model are parameters: what each
 * returns, or whether it raises, is given.
 */
module ImageConverter {
  import opened Wrappers
  import opened Strings
  import opened StreamInfos
  import opened Dicts
  import opened BaseConverter
  import opened ConverterText
  import Decimal
  import Concat
  import FormatUtils

  const Extensions: seq<string> := [".jpg", ".jpeg", ".png", ".gif", ".bmp", ".tiff", ".webp"]
  const Mimetypes: seq<string> := ["image/jpeg", "image/png", "image/gif", "image/bmp", "image/tiff", "image/webp"]
  const Priority: real := 1.0

  /** The attributes `ImageConverter(llm_client, llm_model, exiftool_path, korean_support)` sets. */
  function Info(koreanSupport: bool): ConverterInfo
  {
    ConverterInfo("ImageConverter", Some("Image file converter with OCR and AI description"), koreanSupport,
      Priority, Extensions, Mimetypes, "images")
  }

  /** What `_check_dependencies` finds: the importable libraries, and whether a model client and an exiftool path were given. */
  datatype Backends = Backends(pil: bool, tesseract: bool, easyocr: bool, llm: bool, exiftool: bool)

  /** `accepts`: one of the six MIME types or seven extensions; the stream is not read. */
  predicate Accepts(info: StreamInfo)
  {
    MatchesMimetype(info, Mimetypes) || MatchesExtension(info, Extensions)
  }

  /** The listed extensions are lower case already. */
  lemma ExtensionsLower()
    ensures forall e :: e in Extensions ==> Lower(e) == e
  {
    forall e | e in Extensions ensures Lower(e) == e {
      LowerNoUpper(e);
    }
  }

  /** A MIME type that starts with a listed one, or one of the listed extensions in any case. */
  lemma AcceptsSpec(info: StreamInfo)
    ensures Accepts(info) <==>
      (Truthy(info.mimetype) && exists i :: 0 <= i < |Mimetypes| && StartsWith(info.mimetype.value, Mimetypes[i]))
      || (Truthy(info.extension) && Lower(info.extension.value) in Extensions)
  {
    MatchesMimetypeSpec(info, Mimetypes);
    ExtensionsLower();
    MatchesLowerCaseExtension(info, Extensions);
  }

  // ---------------------------------------------------------------- format information

  /** The feature list `get_format_info` builds. */
  function Features(b: Backends, koreanSupport: bool): seq<string>
  {
    ["Image metadata extraction", "AI-powered image description"]
    + (if b.tesseract || b.easyocr then ["OCR text extraction"] else [])
    + (if koreanSupport then ["Korean text recognition"] else [])
  }

  /**
   * Metadata and description are always listed, first and in that order
   * (the description even without a model client); OCR exactly when either
   * engine is there; Korean exactly with Korean support.
   */
  lemma FeaturesSpec(b: Backends, koreanSupport: bool)
    ensures var fs := Features(b, koreanSupport);
      && fs[..2] == ["Image metadata extraction", "AI-powered image description"]
      && ("OCR text extraction" in fs <==> b.tesseract || b.easyocr)
      && ("Korean text recognition" in fs <==> koreanSupport)
      && |fs| == 2 + (if b.tesseract || b.easyocr then 1 else 0) + (if koreanSupport then 1 else 0)
  {
  }

  /** `get_format_info` */
  function FormatInfo(koreanSupport: bool, b: Backends): (r: BaseConverter.FormatInfo)
    ensures r.features == Some(Features(b, koreanSupport))
    ensures r.extensions == Extensions && r.mimetypes == Mimetypes && r.category == "images"
  {
    BaseConverter.FormatInfo("Image", "Image converter with OCR and AI description",
      Extensions, Mimetypes, "images", None, None, Some(Features(b, koreanSupport)))
  }

  // ---------------------------------------------------------------- OCR and description

  /** One EasyOCR reading: the text and the engine's confidence. */
  datatype Reading = Reading(text: string, confidence: real)

  /** The texts of the readings with confidence above 0.5, in order. */
  function Confident(readings: seq<Reading>): (r: seq<string>)
    ensures |r| <= |readings|
    decreases |readings|
  {
    if readings == [] then []
    else
      var last := readings[|readings| - 1];
      Confident(readings[..|readings| - 1]) + (if last.confidence > 0.5 then [last.text] else [])
  }

  /** Every kept text is the text of a confident reading. */
  lemma {:induction false} ConfidentSound(readings: seq<Reading>)
    ensures forall t :: t in Confident(readings) ==>
      exists i :: 0 <= i < |readings| && readings[i].text == t && readings[i].confidence > 0.5
    decreases |readings|
  {
    if readings != [] {
      var n := |readings| - 1;
      ConfidentSound(readings[..n]);
      assert forall i :: 0 <= i < n ==> readings[..n][i] == readings[i];
    }
  }

  /** The text of every confident reading is kept. */
  lemma {:induction false} ConfidentComplete(readings: seq<Reading>)
    ensures forall i :: 0 <= i < |readings| && readings[i].confidence > 0.5 ==> readings[i].text in Confident(readings)
    decreases |readings|
  {
    if readings != [] {
      var n := |readings| - 1;
      ConfidentComplete(readings[..n]);
      assert forall i :: 0 <= i < n ==> readings[..n][i] == readings[i];
    }
  }

  /** When every reading is confident, all texts are kept in their order. */
  lemma {:induction false} ConfidentAll(readings: seq<Reading>)
    requires forall i :: 0 <= i < |readings| ==> readings[i].confidence > 0.5
    ensures Confident(readings) == seq(|readings|, i requires 0 <= i < |readings| => readings[i].text)
    decreases |readings|
  {
    if readings != [] {
      var n := |readings| - 1;
      ConfidentAll(readings[..n]);
    }
  }

  /**
   * `_extract_text_with_ocr`: EasyOCR (only with Korean support) joins its
   * confident readings with spaces; Tesseract is tried only when that gave
   * nothing; a non-empty text is then whitespace-normalised. `None` stands
   * for an engine that raised.
   */
  function OcrText(koreanSupport: bool, b: Backends, easy: Option<seq<Reading>>, tesseract: Option<string>): string
  {
    var first := if b.easyocr && koreanSupport && easy.Some? then Join(" ", Confident(easy.value)) else "";
    var text := if first == [] && b.tesseract && tesseract.Some? then tesseract.value else first;
    if text != [] then FormatUtils.NormalizeWhitespace(text) else ""
  }

  /** Which engine's text is used; Tesseract's only when EasyOCR's is empty or unavailable. */
  lemma OcrTextSpec(koreanSupport: bool, b: Backends, easy: Option<seq<Reading>>, tesseract: Option<string>)
    ensures var r := OcrText(koreanSupport, b, easy, tesseract);
      var first := if b.easyocr && koreanSupport && easy.Some? then Join(" ", Confident(easy.value)) else "";
      && (first != [] ==> r == FormatUtils.NormalizeWhitespace(first))
      && (first == [] && b.tesseract && tesseract.Some? && tesseract.value != [] ==>
            r == FormatUtils.NormalizeWhitespace(tesseract.value))
      && (first == [] && !(b.tesseract && tesseract.Some?) ==> r == [])
      && (!koreanSupport && !b.tesseract ==> r == [])
  {
  }

  /** The prompt sent with the image: the Korean request is added with Korean support. */
  function Prompt(koreanSupport: bool): string
  {
    "Describe this image in detail. Focus on the main content, text, objects, and any notable features."
    + (if koreanSupport then " If there is Korean text, please mention it." else "")
  }

  /**
   * `_generate_ai_description`: "" without a model client; otherwise the
   * model's answer (`llm`, a function of the prompt), or "" when the call
   * raises (`None`).
   */
  function Description(koreanSupport: bool, b: Backends, llm: string -> Option<string>): (r: string)
    ensures !b.llm ==> r == []
  {
    if !b.llm then "" else llm(Prompt(koreanSupport)).UnwrapOr("")
  }

  // ---------------------------------------------------------------- metadata

  /** What Pillow reports of the opened image; the format is `None` for an image Pillow did not read from a file. */
  datatype ImageProps = ImageProps(width: int, height: int, format: Option<string>, mode: string)

  /** The EXIF tags copied, by name and tag number. */
  const ExifTags: seq<(string, int)> :=
    [("DateTime", 306), ("Make", 271), ("Model", 272), ("Software", 305), ("Artist", 315), ("Copyright", 33432)]

  /** The metadata entry for each listed tag present in the EXIF data, named `exif_` and the lower-cased tag name. */
  function ExifEntries(tags: seq<(string, int)>, exif: map<int, string>): (r: seq<(string, MetaValue)>)
    ensures |r| <= |tags|
    decreases |tags|
  {
    if tags == [] then []
    else
      var last := tags[|tags| - 1];
      ExifEntries(tags[..|tags| - 1], exif)
      + (if last.1 in exif then [("exif_" + Lower(last.0), Text(exif[last.1]))] else [])
  }

  /** A tag yields an entry exactly when the EXIF data has it, and every entry's key starts with `exif_`. */
  lemma {:induction false} ExifEntriesSpec(tags: seq<(string, int)>, exif: map<int, string>)
    ensures var r := ExifEntries(tags, exif);
      && (forall e :: e in r ==> StartsWith(e.0, "exif_"))
      && (forall i :: 0 <= i < |tags| && tags[i].1 in exif ==> ("exif_" + Lower(tags[i].0), Text(exif[tags[i].1])) in r)
      && (forall e :: e in r ==> exists i :: 0 <= i < |tags| && tags[i].1 in exif && e == ("exif_" + Lower(tags[i].0), Text(exif[tags[i].1])))
    decreases |tags|
  {
    if tags != [] {
      var n := |tags| - 1;
      var front := tags[..n];
      ExifEntriesSpec(front, exif);
      assert forall i :: 0 <= i < n ==> front[i] == tags[i];
      var r := ExifEntries(tags, exif);
      var tail := if tags[n].1 in exif then [("exif_" + Lower(tags[n].0), Text(exif[tags[n].1]))] else [];
      assert r == ExifEntries(front, exif) + tail;
      forall e | e in r
        ensures exists i :: 0 <= i < |tags| && tags[i].1 in exif && e == ("exif_" + Lower(tags[i].0), Text(exif[tags[i].1]))
      {
        if e !in ExifEntries(front, exif) {
          assert e in tail;
        }
      }
    }
  }

  /** The four entries Pillow's report gives, in order. */
  function PropsEntries(p: ImageProps): seq<(string, MetaValue)>
  {
    [("width", Integer(p.width)),
     ("height", Integer(p.height)),
     ("format", if p.format.Some? then Text(p.format.value) else Null),
     ("mode", Text(p.mode))]
  }

  /**
   * `_extract_image_metadata`: the base metadata, Pillow's report, the
   * listed EXIF tags when there is EXIF data, and the file size, which is
   * the stream's length.
   */
  function ImageMetadata(base: Dict<string, MetaValue>, props: ImageProps, exif: map<int, string>,
                         streamLength: nat): Dict<string, MetaValue>
  {
    var d := Update(Update(base, PropsEntries(props)), ExifEntries(ExifTags, exif));
    Set(d, "file_size", Size(streamLength))
  }

  /** The keys the markdown reads hold Pillow's values, and the size is the stream's length. */
  lemma ImageMetadataGet(base: Dict<string, MetaValue>, props: ImageProps, exif: map<int, string>, streamLength: nat)
    ensures var d := ImageMetadata(base, props, exif, streamLength);
      && IntAt(d, "width") == Some(props.width)
      && IntAt(d, "height") == Some(props.height)
      && TextAt(d, "format") == props.format
      && SizeAt(d, "file_size") == Some(streamLength)
  {
    var e := PropsEntries(props);
    var d1 := Update(base, e);
    var x := ExifEntries(ExifTags, exif);
    var d2 := Update(d1, x);
    UpdateLast(base, e, 0);
    UpdateLast(base, e, 1);
    UpdateLast(base, e, 2);
    ExifEntriesSpec(ExifTags, exif);
    ExifKeysAvoid(x, "width");
    ExifKeysAvoid(x, "height");
    ExifKeysAvoid(x, "format");
    UpdateUntouched(d1, x, "width");
    UpdateUntouched(d1, x, "height");
    UpdateUntouched(d1, x, "format");
    SetGet(d2, "file_size", Size(streamLength), "file_size");
    SetGet(d2, "file_size", Size(streamLength), "width");
    SetGet(d2, "file_size", Size(streamLength), "height");
    SetGet(d2, "file_size", Size(streamLength), "format");
  }

  /** Keys starting with `exif_` are none of Pillow's keys. */
  lemma ExifKeysAvoid(x: seq<(string, MetaValue)>, k: string)
    requires forall e :: e in x ==> StartsWith(e.0, "exif_")
    requires k != [] && k[0] != 'e'
    ensures forall i :: 0 <= i < |x| ==> x[i].0 != k
  {
    forall i | 0 <= i < |x| ensures x[i].0 != k {
      assert x[i] in x;
      assert x[i].0[..5] == "exif_";
      assert x[i].0[0] == 'e';
    }
  }

  // ---------------------------------------------------------------- markdown

  /** The image itself, linked by its filename, when there is one. */
  function Reference(filename: Option<string>): string
  {
    if Truthy(filename) then "![" + filename.value + "](" + filename.value + ")\n\n" else ""
  }

  function DescriptionSection(description: string): string
  {
    if description != [] then "## Image Description\n\n" + description + "\n\n" else ""
  }

  function TextSection(ocrText: string): string
  {
    if ocrText != [] then "## Extracted Text\n\n" + ocrText + "\n\n" else ""
  }

  predicate NonZero(n: Option<int>) { n.Some? && n.value != 0 }
  predicate Present(s: Option<string>) { s.Some? && s.value != [] }

  /** The properties are listed only when width, height and format are all known and non-empty. */
  predicate HasProperties(metadata: Dict<string, MetaValue>)
  {
    NonZero(IntAt(metadata, "width")) && NonZero(IntAt(metadata, "height")) && Present(TextAt(metadata, "format"))
  }

  /** The multiplication sign, U+00D7. */
  const Times: char := '×'

  /** The dimensions line as the source spells it: between the numbers stand U+00C3 and U+2014. */
  function DimensionsLineAsWritten(width: int, height: int): string
  {
    "- **Dimensions**: " + Decimal.IntToString(width) + " Ã— " + Decimal.IntToString(height) + " pixels\n"
  }

  /** The dimensions line with the multiplication sign between the numbers. */
  function DimensionsLine(width: int, height: int): string
  {
    "- **Dimensions**: " + Decimal.IntToString(width) + " " + [Times] + " " + Decimal.IntToString(height) + " pixels\n"
  }

  /**
   * As written, the line never shows a multiplication sign: it shows an
   * A-tilde and an em dash, the two characters the UTF-8 bytes of `×`
   * (0xC3, 0x97) stand for in Windows-1252.
   */
  lemma DimensionsAsWrittenLacksTimes(width: int, height: int)
    ensures Times !in DimensionsLineAsWritten(width, height)
    ensures '—' in DimensionsLineAsWritten(width, height)
  {
    var w := Decimal.IntToString(width);
    var h := Decimal.IntToString(height);
    var line := DimensionsLineAsWritten(width, height);
    assert forall c :: c in w ==> c == '-' || IsDigit(c);
    assert forall c :: c in h ==> c == '-' || IsDigit(c);
    assert line[18 + |w| + 2] == '—';
  }

  /** With the correction the line reads `W × H pixels`: the width, then the sign standing alone, then the height. */
  lemma DimensionsLineShowsTimes(width: int, height: int)
    ensures var line := DimensionsLine(width, height);
      var w := Decimal.IntToString(width);
      var h := Decimal.IntToString(height);
      && line[18..18 + |w|] == w
      && line[18 + |w| .. 18 + |w| + 3] == [' ', Times, ' ']
      && line[18 + |w| + 3 .. 18 + |w| + 3 + |h|] == h
  {
    var w := Decimal.IntToString(width);
    var h := Decimal.IntToString(height);
    assert DimensionsLine(width, height) == "- **Dimensions**: " + w + [' ', Times, ' '] + h + " pixels\n";
  }

  /** The corrected line has the multiplication sign and no em dash. */
  lemma DimensionsLineHasTimes(width: int, height: int)
    ensures Times in DimensionsLine(width, height)
    ensures '—' !in DimensionsLine(width, height)
  {
    var w := Decimal.IntToString(width);
    var h := Decimal.IntToString(height);
    var mid := " " + [Times] + " ";
    assert forall c :: c in w ==> c == '-' || IsDigit(c);
    assert forall c :: c in h ==> c == '-' || IsDigit(c);
    assert '—' !in "- **Dimensions**: " && '—' !in mid && '—' !in " pixels\n";
    assert DimensionsLine(width, height) == ("- **Dimensions**: " + w) + mid + (h + " pixels\n");
    assert Times == mid[1];
  }

  function SizeLine(size: Option<nat>): string
  {
    if size.Some? then "- **File Size**: " + Decimal.OneDecimal(size.value, 1024) + " KB\n" else ""
  }

  /** The properties section: format, dimensions as the source spells them and, when known, the size in kilobytes to one decimal. */
  function PropertiesSection(metadata: Dict<string, MetaValue>): string
  {
    if HasProperties(metadata) then
      "## Image Properties\n\n"
      + ("- **Format**: " + TextAt(metadata, "format").value + "\n")
      + DimensionsLineAsWritten(IntAt(metadata, "width").value, IntAt(metadata, "height").value)
      + SizeLine(SizeAt(metadata, "file_size"))
      + "\n"
    else ""
  }

  /** The four parts of `_create_image_markdown`, in order, each present only when it has content. */
  function ImageMarkdown(ocrText: string, description: string, metadata: Dict<string, MetaValue>,
                         filename: Option<string>): string
  {
    Reference(filename) + DescriptionSection(description) + TextSection(ocrText) + PropertiesSection(metadata)
  }

  /** `_create_image_markdown`, appending piece by piece. */
  method CreateImageMarkdown(ocrText: string, description: string, metadata: Dict<string, MetaValue>,
                             filename: Option<string>) returns (markdown: string)
    ensures markdown == ImageMarkdown(ocrText, description, metadata, filename)
  {
    markdown := "";
    if Truthy(filename) {
      markdown := markdown + ("![" + filename.value + "](" + filename.value + ")\n\n");
    }
    assert markdown == Reference(filename);
    ghost var before := markdown;
    if description != [] {
      markdown := markdown + "## Image Description\n\n" + description + "\n\n";
      Concat.Regroup(before, "## Image Description\n\n", description, "\n\n");
    }
    assert markdown == Reference(filename) + DescriptionSection(description);
    before := markdown;
    if ocrText != [] {
      markdown := markdown + "## Extracted Text\n\n" + ocrText + "\n\n";
      Concat.Regroup(before, "## Extracted Text\n\n", ocrText, "\n\n");
    }
    assert markdown == Reference(filename) + DescriptionSection(description) + TextSection(ocrText);
    var width := IntAt(metadata, "width");
    var height := IntAt(metadata, "height");
    var format := TextAt(metadata, "format");
    if NonZero(width) && NonZero(height) && Present(format) {
      var section := PropertyList(metadata);
      markdown := markdown + section;
    }
  }

  /** The properties section, appended line by line. */
  method PropertyList(metadata: Dict<string, MetaValue>) returns (section: string)
    requires HasProperties(metadata)
    ensures section == PropertiesSection(metadata)
  {
    var width := IntAt(metadata, "width").value;
    var height := IntAt(metadata, "height").value;
    var format := TextAt(metadata, "format").value;
    section := "## Image Properties\n\n";
    section := section + ("- **Format**: " + format + "\n");
    section := section + DimensionsLineAsWritten(width, height);
    var size := SizeAt(metadata, "file_size");
    if size.Some? {
      var kilobytes := Decimal.OneDecimal(size.value, 1024);
      Concat.Regroup(section, "- **File Size**: ", kilobytes, " KB\n");
      section := section + "- **File Size**: " + kilobytes + " KB\n";
    }
    section := section + "\n";
  }

  /** The markdown is empty exactly when there is no filename, no description, no OCR text and no complete set of properties. */
  lemma ImageMarkdownEmpty(ocrText: string, description: string, metadata: Dict<string, MetaValue>,
                           filename: Option<string>)
    ensures ImageMarkdown(ocrText, description, metadata, filename) == [] <==>
      !Truthy(filename) && description == [] && ocrText == [] && !HasProperties(metadata)
  {
    var r := Reference(filename);
    var d := DescriptionSection(description);
    var t := TextSection(ocrText);
    var p := PropertiesSection(metadata);
    assert |r + d + t + p| == |r| + |d| + |t| + |p|;
    assert Truthy(filename) ==> |r| > 0;
    assert description != [] ==> |d| > 0;
    assert ocrText != [] ==> |t| > 0;
    assert HasProperties(metadata) ==> |p| > 0;
  }

  // ---------------------------------------------------------------- title

  /** The first OCR line, stripped, that is non-empty and under 100 characters, when there is OCR text. */
  function OcrLine(ocrText: string): Option<string>
  {
    if ocrText != [] then FirstShortLine(Split(ocrText, "\n")) else None
  }

  /**
   * `_extract_image_title`: the first short OCR line, else the
   * description's first sentence when under 100 characters, else the
   * filename without its extension and with `_` and `-` as spaces, else
   * nothing; whichever is chosen is formatted.
   */
  function ImageTitle(koreanSupport: bool, ocrText: string, description: string, filename: Option<string>): (r: Option<string>)
    ensures r.Some? ==> |r.value| <= MaxTitle
  {
    var line := OcrLine(ocrText);
    if line.Some? then Some(FormatTitle(koreanSupport, line.value))
    else if SentenceTitle(description) then Some(FormatTitle(koreanSupport, FirstSentence(description)))
    else if Truthy(filename) then Some(FormatTitle(koreanSupport, SpacedStem(filename.value)))
    else None
  }

  /** `_extract_image_title`, its loop over the OCR lines being the short-line search. */
  method ExtractImageTitle(koreanSupport: bool, ocrText: string, description: string, filename: Option<string>)
    returns (r: Option<string>)
    ensures r == ImageTitle(koreanSupport, ocrText, description, filename)
  {
    if ocrText != [] {
      var line := FindShortLine(Split(ocrText, "\n"));
      if line.Some? {
        return Some(FormatTitle(koreanSupport, line.value));
      }
    }
    if SentenceTitle(description) {
      return Some(FormatTitle(koreanSupport, FirstSentence(description)));
    }
    if Truthy(filename) {
      return Some(FormatTitle(koreanSupport, SpacedStem(filename.value)));
    }
    return None;
  }

  /**
   * The OCR text wins, then the description, then the filename; there is
   * no title only when none applies. Without Korean normalisation an OCR
   * title is the line itself, and a title from a non-empty OCR line is
   * never empty.
   */
  lemma ImageTitleSpec(koreanSupport: bool, ocrText: string, description: string, filename: Option<string>)
    ensures var r := ImageTitle(koreanSupport, ocrText, description, filename);
      && (r.None? <==> OcrLine(ocrText).None? && !SentenceTitle(description) && !Truthy(filename))
      && (OcrLine(ocrText).Some? ==> r.Some? && r.value != [])
      && (!koreanSupport && OcrLine(ocrText).Some? ==> r == OcrLine(ocrText))
  {
    var line := OcrLine(ocrText);
    if line.Some? {
      StripIdempotent(line.value);
      TrimStartNoop(line.value, IsSpace);
      TrimEndNoop(line.value, IsSpace);
      FormatTitleNonEmpty(koreanSupport, line.value);
    }
  }

  // ---------------------------------------------------------------- convert

  /** What the steps after the dependency check produce, or the message of the exception one of them raised. */
  datatype Attempt =
    | Attempt(props: ImageProps, exif: map<int, string>, easy: Option<seq<Reading>>, tesseract: Option<string>,
              llm: string -> Option<string>, streamLength: nat)
    | Failed(detail: string)

  /**
   * `convert`: `MissingDependencyException` without Pillow; a failure after
   * that becomes a `FileConversionException`; otherwise the cleaned
   * markdown, the title and the metadata.
   */
  function Convert(koreanSupport: bool, b: Backends, info: StreamInfo, base: Dict<string, MetaValue>,
                   attempt: Attempt): (r: Outcome<DocumentConverterResult>)
    ensures (r.Raised? && r.error.MissingDependencyException?) <==> !b.pil
    ensures b.pil && attempt.Failed? ==>
      r == Raised(FileConversionException("Image conversion failed: " + attempt.detail))
    ensures r.Returned? ==> (
      && attempt.Attempt?
      && r.value.title == ImageTitle(koreanSupport, OcrText(koreanSupport, b, attempt.easy, attempt.tesseract),
                                     Description(koreanSupport, b, attempt.llm), info.filename)
      && r.value.metadata == Some(ImageMetadata(base, attempt.props, attempt.exif, attempt.streamLength)))
  {
    if !b.pil then Raised(MissingDependencyException("Pillow is required for image conversion"))
    else match attempt
      case Failed(detail) => Raised(FileConversionException("Image conversion failed: " + detail))
      case Attempt(props, exif, easy, tesseract, llm, streamLength) =>
        var ocrText := OcrText(koreanSupport, b, easy, tesseract);
        var description := Description(koreanSupport, b, llm);
        var metadata := ImageMetadata(base, props, exif, streamLength);
        Returned(DocumentConverterResult(
          CleanMarkdown(koreanSupport, ImageMarkdown(ocrText, description, metadata, info.filename)),
          ImageTitle(koreanSupport, ocrText, description, info.filename),
          Some(metadata)))
  }
}
