/**
 * The PDF converter: its `accepts` test, the choice between Azure Document
 * Intelligence and pdfminer, and the markdown and title it makes of the
 * text pdfminer extracts. Paragraphs are split on, and closed by, the
 * four characters `\n\n` written with literal backslashes.
 */
module PdfConverter {
  import opened Wrappers
  import opened Strings
  import opened StreamInfos
  import opened ConverterText
  import BaseConverter
  import FormatUtils
  import Concat

  const Extensions: seq<string> := [".pdf"]
  const Mimetypes: seq<string> := ["application/pdf"]
  const Priority: real := 0.0

  /** The paragraph separator: backslash, `n`, backslash, `n`. */
  const ParagraphSep: string := "\\n\\n"

  /** The line separator of the title search: backslash, then `n`. */
  const LineSep: string := "\\n"

  /** The attributes `PdfConverter(docintel_endpoint, docintel_key, korean_support)` sets. */
  function Info(koreanSupport: bool): BaseConverter.ConverterInfo
  {
    BaseConverter.ConverterInfo("PdfConverter", Some("PDF file converter"), koreanSupport,
      Priority, Extensions, Mimetypes, "documents")
  }

  /** `get_format_info`, which this converter replaces with its own dictionary. */
  function FormatInfo(c: BaseConverter.ConverterInfo): BaseConverter.FormatInfo
  {
    BaseConverter.FormatInfo("PDF", "PDF document converter with Azure Document Intelligence support",
      c.supportedExtensions, c.supportedMimetypes, c.category, None, None,
      Some(["Text extraction", "Layout preservation", "Azure Document Intelligence integration",
            "Metadata extraction"]))
  }

  /** `accepts`: the PDF MIME type or the `.pdf` extension; the stream is not read. */
  predicate Accepts(info: StreamInfo)
  {
    MatchesMimetype(info, Mimetypes) || MatchesExtension(info, Extensions)
  }

  /** The PDF MIME type or any type it starts, or the extension `.pdf` in any case. */
  lemma AcceptsSpec(info: StreamInfo)
    ensures Accepts(info) <==>
      (Truthy(info.mimetype) && StartsWith(info.mimetype.value, "application/pdf"))
      || (Truthy(info.extension) && Lower(info.extension.value) == ".pdf")
  {
    MatchesMimetypeSpec(info, Mimetypes);
    MatchesExtensionSpec(info, Extensions);
    assert Lower(".pdf") == ".pdf";
  }

  // ---------------------------------------------------------------- backend selection

  /** `_check_dependencies`: Azure is used only with both an endpoint and a key. */
  predicate AzureAvailable(endpoint: Option<string>, key: Option<string>)
  {
    Truthy(endpoint) && Truthy(key)
  }

  /**
   * `convert`: Azure first when it is configured, and a failure there is
   * only logged; then pdfminer when it is importable; otherwise
   * `MissingDependencyException`. What each backend produces is given.
   */
  function Convert(azureAvailable: bool, pdfminerAvailable: bool,
                   azure: Outcome<BaseConverter.DocumentConverterResult>,
                   pdfminer: Outcome<BaseConverter.DocumentConverterResult>): (r: Outcome<BaseConverter.DocumentConverterResult>)
    ensures azureAvailable && azure.Returned? ==> r == azure
    ensures (!azureAvailable || azure.Raised?) && pdfminerAvailable ==> r == pdfminer
    ensures r.Raised? && r.error.MissingDependencyException? ==> !pdfminerAvailable || pdfminer == r
    ensures (!azureAvailable || azure.Raised?) && !pdfminerAvailable ==> r.Raised? && r.error.MissingDependencyException?
  {
    if azureAvailable && azure.Returned? then azure
    else if pdfminerAvailable then pdfminer
    else Raised(MissingDependencyException(
      "No PDF processing library available. Install pdfminer.six or configure Azure Document Intelligence"))
  }

  /**
   * The converter the dispatcher registers gets an endpoint but never a
   * key, so Azure is never tried: the result is pdfminer's, or the missing
   * dependency error.
   */
  lemma BuiltinNeverUsesAzure(endpoint: Option<string>, pdfminerAvailable: bool,
                              azure: Outcome<BaseConverter.DocumentConverterResult>,
                              pdfminer: Outcome<BaseConverter.DocumentConverterResult>)
    ensures var r := Convert(AzureAvailable(endpoint, None), pdfminerAvailable, azure, pdfminer);
      (pdfminerAvailable ==> r == pdfminer)
      && (!pdfminerAvailable ==> r.Raised? && r.error.MissingDependencyException?)
  {
  }

  // ---------------------------------------------------------------- headings

  /**
   * `_is_heading`: after stripping, over 100 characters is never a heading;
   * under 100 without a closing `.` always is; otherwise (exactly 100, or a
   * closing `.`) only a paragraph starting with a digit is.
   */
  predicate IsHeading(text: string)
  {
    var t := Strip(text);
    if |t| > 100 then false
    else if |t| < 100 && !EndsWith(t, ".") then true
    else StartsWithDigit(t)
  }

  /** `_get_heading_level`: the numbered-heading level of the stripped text. */
  function HeadingLevel(text: string): (level: nat)
    ensures 1 <= level <= 6
    ensures !StartsWithDigit(Strip(text)) ==> level == 2
  {
    NumberedLevel(Strip(text))
  }

  /** A stripped paragraph of at most 100 characters that starts with a digit is a heading at its numbered level. */
  lemma DigitParagraph(t: string)
    requires Strip(t) == t && |t| <= 100 && StartsWithDigit(t)
    ensures IsHeading(t) && HeadingLevel(t) == NumberedLevel(t)
  {
  }

  /** So a paragraph numbered `n1.n2. ... .nk` is a heading of level k, capped at 6. */
  lemma NumberedParagraph(parts: seq<string>, rest: string)
    requires OutlineNumber(parts)
    requires var t := Join(".", parts) + " " + rest; |t| <= 100 && Strip(t) == t
    ensures var t := Join(".", parts) + " " + rest;
      IsHeading(t) && HeadingLevel(t) == if |parts| < 6 then |parts| else 6
  {
    OutlineLevel(parts, rest);
    DigitParagraph(Join(".", parts) + " " + rest);
  }

  // ---------------------------------------------------------------- markdown

  /** One paragraph's block: nothing when blank, else the stripped paragraph, as a heading when it is one, closed by the separator. */
  function Block(paragraph: string): string
  {
    var p := Strip(paragraph);
    if p == [] then []
    else if IsHeading(p) then Repeat('#', HeadingLevel(p)) + " " + p + ParagraphSep
    else p + ParagraphSep
  }

  /** The paragraphs `_text_to_markdown` renders. */
  function Paragraphs(text: string): seq<string>
  {
    Split(FormatUtils.NormalizeWhitespace(text), ParagraphSep)
  }

  /** `_text_to_markdown(text)` */
  function TextToMarkdown(text: string): (r: string)
    ensures text == [] ==> r == []
  {
    if text == [] then [] else Concat.Flatten(Paragraphs(text), Block)
  }

  /** The loop of `_text_to_markdown`. */
  method RenderText(text: string) returns (markdown: string)
    ensures markdown == TextToMarkdown(text)
  {
    if text == [] {
      return [];
    }
    var normalized := FormatUtils.NormalizeWhitespace(text);
    var paragraphs := Split(normalized, ParagraphSep);
    markdown := [];
    for i := 0 to |paragraphs|
      invariant markdown == Concat.Flatten(paragraphs[..i], Block)
    {
      assert paragraphs[..i + 1][..i] == paragraphs[..i];
      assert Concat.Flatten(paragraphs[..i + 1], Block) == markdown + Block(paragraphs[i]);
      var paragraph := Strip(paragraphs[i]);
      if paragraph == [] {
        continue;
      }
      if IsHeading(paragraph) {
        var level := HeadingLevel(paragraph);
        markdown := markdown + (Repeat('#', level) + " " + paragraph + ParagraphSep);
      } else {
        markdown := markdown + (paragraph + ParagraphSep);
      }
    }
    assert paragraphs[..|paragraphs|] == paragraphs;
  }

  /** A block is empty exactly for a blank paragraph, and otherwise ends with the separator. */
  lemma BlockShape(paragraph: string)
    ensures Strip(paragraph) == [] <==> Block(paragraph) == []
    ensures Block(paragraph) != [] ==> EndsWith(Block(paragraph), ParagraphSep)
  {
  }

  /**
   * The markdown is empty exactly when every paragraph is blank, and
   * otherwise it ends with the separator closing the last block.
   */
  lemma TextToMarkdownShape(text: string)
    requires text != []
    ensures var ps := Paragraphs(text);
      && (TextToMarkdown(text) == [] <==> forall i :: 0 <= i < |ps| ==> Strip(ps[i]) == [])
      && (TextToMarkdown(text) != [] ==> EndsWith(TextToMarkdown(text), ParagraphSep))
  {
    var ps := Paragraphs(text);
    forall i | 0 <= i < |ps| ensures (Strip(ps[i]) == [] <==> Block(ps[i]) == []) && (Block(ps[i]) == [] || EndsWith(Block(ps[i]), ParagraphSep)) {
      BlockShape(ps[i]);
    }
    Concat.FlattenEmpty(ps, Block);
    Concat.FlattenEndsWith(ps, Block, ParagraphSep);
  }

  // ---------------------------------------------------------------- title

  /**
   * `_extract_title_from_text`: nothing for empty text; otherwise the first
   * line, stripped, that is non-empty and under 100 characters, formatted;
   * nothing when no line qualifies.
   */
  function TitleFromText(koreanSupport: bool, text: string): (r: Option<string>)
    ensures text == [] ==> r.None?
    ensures r.Some? ==> r.value != [] && |r.value| <= BaseConverter.MaxTitle
  {
    if text == [] then None
    else match FirstShortLine(Split(text, LineSep))
      case None => None
      case Some(line) =>
        StripNonEmpty(line);
        BaseConverter.FormatTitleNonEmpty(koreanSupport, line);
        Some(BaseConverter.FormatTitle(koreanSupport, line))
  }

  /** A string with no white space at its ends strips to itself. */
  lemma StripNonEmpty(s: string)
    requires s != [] && !IsSpace(s[0]) && !IsSpace(s[|s| - 1])
    ensures Strip(s) == s
  {
    TrimStartNoop(s, IsSpace);
    TrimEndNoop(s, IsSpace);
  }

  /** The loop of `_extract_title_from_text`. */
  method ExtractTitleFromText(koreanSupport: bool, text: string) returns (r: Option<string>)
    ensures r == TitleFromText(koreanSupport, text)
  {
    if text == [] {
      return None;
    }
    var line := FindShortLine(Split(text, LineSep));
    if line.None? {
      return None;
    }
    return Some(BaseConverter.FormatTitle(koreanSupport, line.value));
  }

  /**
   * Without Korean normalisation the title is exactly the first qualifying
   * line, stripped (see `FirstShortLineSpec`): formatting a stripped line
   * under 100 characters changes nothing.
   */
  lemma TitleIsFirstShortLine(text: string)
    requires text != []
    ensures TitleFromText(false, text) == FirstShortLine(Split(text, LineSep))
  {
    var f := FirstShortLine(Split(text, LineSep));
    if f.Some? {
      StripNonEmpty(f.value);
    }
  }
}
