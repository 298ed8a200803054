# A verified model of the MarkItDown MCP conversion core

This project models the conversion core shared by the `voidlight_markitdown_mcp` and `markitdown_mcp_enhanced` packages. The core turns a file, a stream or a URI into Markdown. It:

- keeps a priority-ordered list of converters (`MarkItDown.register_converter`);
- guesses a stream's type from its content, filename, extension and MIME type (`FileTypeDetector`, `_get_stream_info_guesses`);
- tries every guess with every converter until one accepts and converts (`_convert_with_guesses`);
- optionally normalises Korean spacing in the result.

Around that loop sit:

- `StreamInfo` and its normalisation;
- the stream helpers (buffering a stream that cannot seek, decoding with fallbacks, copying);
- the text passes of `format_utils.py` and of the base converter (`_clean_markdown`, `_format_title`, `_normalize_korean_text`);
- the plugin manager's registry;
- the enhanced server's configuration manager;
- the pure parts of the six built-in converters: `accepts`, heading heuristics, table rendering, title fallbacks and Markdown section assembly.

Files marked identical in the two packages (`stream_info.py`, `base_converter.py`, `stream_utils.py`, `text_converter.py`, `audio_converter.py`) are modelled once. The table cites the copy that was modelled.

Each Python module becomes a Dafny module (`stream_info.dfy`, `markitdown.dfy`, `pdf_converter.dfy`, ...). The modules follow these conventions:

- Pure code becomes functions and lemmas.
- Code that updates state in place becomes classes and methods, proved against specification functions:
  - `MarkItDown` holds the converter list and the options;
  - `Stream` holds bytes and a position;
  - `PluginManager.Manager` holds the plugin list and registry;
  - `ConfigManager` holds the configuration.
- Every loop of the source that accumulates a result is a method whose loop invariant ties it to its function, for example `register_converter`'s scan, `_convert_with_guesses`' nested loops, `copy_stream`, and the Markdown builders.
- Python exceptions are results: `Outcome<T> = Returned(value) | Raised(error)`.
- Dictionaries are insertion-ordered association lists (`Dicts`).
- Each regular-expression substitution is written out as an explicit string function whose matching behaviour is argued in its comment.

Helper modules that model Python's own library rather than the repository carry no rows below:

- `Strings`: `str` methods and `\s`;
- `Dicts`: dict;
- `Decimal`: `str(int)` and `int(str)`;
- `Paths`: `PurePosixPath.name`, `suffix`, `stem`;
- `Streams`: `io.BytesIO`;
- `Wrappers`, `Concat`, `Search`: loop shapes.

Four behaviours of the registry and the dispatch, as the code has them:

- `register_converter` accepts the same converter object twice. It raises no duplicate-registration error.
- `_convert_with_guesses` never rewinds the stream between attempts. Each `accepts` and `convert` starts where the previous call left the stream.
- A converter that accepts and then raises is recorded and skipped. It does not end the dispatch.
- The only exception the dispatch raises is `UnsupportedFormatException`.

## Model

| member | source | states |
|---|---|---|
| StreamInfos.Make | src/voidlight_markitdown_mcp/core/stream_info.py:11-29 | a non-empty extension gains a leading `.`; with no extension, a non-empty filename supplies its lower-cased suffix; every constructed info is normalised |
| StreamInfos.MakeKeepsNormalised | src/voidlight_markitdown_mcp/core/stream_info.py:21-29 | constructing from already-normalised fields changes nothing |
| StreamInfos.MakeIdempotent | src/voidlight_markitdown_mcp/core/stream_info.py:21-29 | running `__post_init__` on a constructed info again is the identity |
| StreamInfos.EqualIsEquivalence | src/voidlight_markitdown_mcp/core/stream_info.py:42-50 | `__eq__` is reflexive, symmetric and transitive, and ignores charset, local path and URL |
| StreamInfos.MatchesExtensionSpec | src/voidlight_markitdown_mcp/core/stream_info.py:52-56 | `matches_extension` holds iff the extension is set, non-empty and equal, ignoring case, to some listed extension |
| StreamInfos.MatchesLowerCaseExtension | src/voidlight_markitdown_mcp/core/stream_info.py:52-56 | against a lower-case list it is membership of the lower-cased extension |
| StreamInfos.MatchesMimetypeSpec | src/voidlight_markitdown_mcp/core/stream_info.py:58-62 | `matches_mimetype` holds iff the mimetype is set, non-empty and starts with some listed entry |
| StreamInfos.IsEmptyIgnoresCharset | src/voidlight_markitdown_mcp/core/stream_info.py:64-69 | emptiness does not depend on the charset, and an info built with a filename is never empty |
| StreamUtils.FillBuffer | src/voidlight_markitdown_mcp/utils/stream_utils.py:30-37 | the copy loop moves exactly `min(remaining, max_size)` bytes (none for a non-positive cap), in order, into the buffer and consumes them from the source |
| StreamUtils.MakeStreamSeekable | src/voidlight_markitdown_mcp/utils/stream_utils.py:12-46 | a seekable stream is returned untouched; any other becomes a fresh seekable buffer at position 0 holding the capped prefix of what remained |
| StreamUtils.Detected | src/voidlight_markitdown_mcp/utils/stream_utils.py:79-86 | chardet's guess is used only when the detector is importable, names an encoding and is more than 0.8 confident |
| StreamUtils.TryEachFirst | src/voidlight_markitdown_mcp/utils/stream_utils.py:88-93 | the first fallback that decodes, after every earlier one failed, gives the text |
| StreamUtils.TryEachExhausted | src/voidlight_markitdown_mcp/utils/stream_utils.py:88-96 | when every fallback fails, the lossy UTF-8 decoding is returned |
| StreamUtils.DefaultFallbacksDecode | src/voidlight_markitdown_mcp/utils/stream_utils.py:63-64 | with the default fallback list the last resort is never reached: latin-1 decodes anything |
| StreamUtils.GivenEncodingWins | src/voidlight_markitdown_mcp/utils/stream_utils.py:73-77 | a caller's encoding that decodes the content always wins |
| StreamUtils.ReadStreamWithEncoding | src/voidlight_markitdown_mcp/utils/stream_utils.py:49-96 | decodes the whole stream from its start, restores the position, and raises on a stream that cannot tell its position |
| StreamUtils.GetStreamInfo | src/voidlight_markitdown_mcp/utils/stream_utils.py:99-128 | reports the capabilities; size and position only for a seekable stream; the position is unchanged |
| StreamUtils.CopyChunk | src/voidlight_markitdown_mcp/utils/stream_utils.py:146-150 | one round reads a prefix of what remains (empty iff the chunk size is 0 or nothing is left) and writes it after what was already copied |
| StreamUtils.CopyStream | src/voidlight_markitdown_mcp/utils/stream_utils.py:131-152 | copies everything that remained (nothing for a chunk size of 0) into the target at its position and returns the count; a non-empty copy to an unwritable target raises and leaves the target as it was |
| Codecs.DecodesAsText | src/voidlight_markitdown_mcp/utils/file_detector.py:166-190 | the sample is text iff some encoding decodes it after every earlier one failed to |
| Codecs.SniffAlwaysDecodes | src/voidlight_markitdown_mcp/utils/file_detector.py:176-186 | with known codecs the text sniff always succeeds, since latin-1 is last |
| FileDetector.ExtensionsDotted | src/voidlight_markitdown_mcp/utils/file_detector.py:25-66 | every key of the extension table is non-empty and starts with `.` |
| FileDetector.NewDetector | src/voidlight_markitdown_mcp/utils/file_detector.py:16-69 | the detector holds exactly the listed extensions, each mapped to a MIME type listed with it, and the reverse table is the inversion of that dictionary |
| FileDetector.TableEntries | src/voidlight_markitdown_mcp/utils/file_detector.py:25-69 | extension keys are dotted, and the reverse table sends a MIME type to an extension that maps back to it |
| FileDetector.MimetypeMappingRoundTrip | src/voidlight_markitdown_mcp/utils/file_detector.py:69 | the reverse table holds exactly the MIME types of the extension table, each sent to the last extension holding it, and looking that extension up gives the MIME type back |
| FileDetector.NormaliseExtension | src/voidlight_markitdown_mcp/utils/file_detector.py:124-127 | the looked-up extension is dotted and lower case: the argument lower-cased, with a `.` put in front when missing |
| FileDetector.DetectFromExtension | src/voidlight_markitdown_mcp/utils/file_detector.py:122-136 | found exactly when the normalised extension is a key; the result carries that extension and its MIME type and nothing else |
| FileDetector.DetectFromFilename | src/voidlight_markitdown_mcp/utils/file_detector.py:105-120 | found exactly when the lower-cased suffix is a key; the result carries that suffix, its MIME type and the filename |
| FileDetector.FilenameAgreesWithExtension | src/voidlight_markitdown_mcp/utils/file_detector.py:105-136 | a filename and its own suffix detect alike, differing only in the kept filename |
| FileDetector.TypeSegment | src/voidlight_markitdown_mcp/utils/file_detector.py:150 | `split('/')[0]` is the slash-free prefix ending at the first `/` or at the end |
| FileDetector.FirstTypeMatch | src/voidlight_markitdown_mcp/utils/file_detector.py:149-154 | none exactly when no entry's type segment starts the MIME type; otherwise the extension of the first entry whose segment does |
| FileDetector.MimetypeExtension | src/voidlight_markitdown_mcp/utils/file_detector.py:140-156 | the exact reverse hit wins, else the first same-family entry; any extension given is a dotted key of the extension table |
| FileDetector.DetectFromMimetype | src/voidlight_markitdown_mcp/utils/file_detector.py:138-156 | never none: the MIME type with the extension the two searches settle on |
| FileDetector.Head | src/voidlight_markitdown_mcp/utils/file_detector.py:81-82 | the header is the first `min(8192, size)` bytes |
| FileDetector.FromHeader | src/voidlight_markitdown_mcp/utils/file_detector.py:87-103 | a result exactly when the header is non-empty and libmagic does not raise; it carries libmagic's type and the reverse table's extension, which maps back to that type |
| FileDetector.DetectFromStream | src/voidlight_markitdown_mcp/utils/file_detector.py:71-103 | none without libmagic or on a stream that cannot seek, else the header verdict on the first 8192 bytes; the position is restored |
| FileDetector.IsTextFile | src/voidlight_markitdown_mcp/utils/file_detector.py:166-190 | true iff the stream can seek and its head decodes under one of utf-8, cp949, euc-kr, latin-1; with those codecs present, iff it can seek; the position is restored |
| FileDetector.SupportedExtensions | src/voidlight_markitdown_mcp/utils/file_detector.py:158-160 | exactly the keys of the extension table, one per entry |
| FileDetector.SupportedMimetypes | src/voidlight_markitdown_mcp/utils/file_detector.py:162-164 | one MIME type per extension entry, and exactly the types the reverse table knows |
| BaseConverter.NewConverterInfo | src/voidlight_markitdown_mcp/core/base_converter.py:29-36 | a fresh converter has priority 0.0, no extensions or MIME types, category "documents" and the given Korean flag |
| BaseConverter.GetFormatInfo | src/voidlight_markitdown_mcp/core/base_converter.py:68-78 | the name is the class name with "Converter" removed, the description the docstring or "No description", and the remaining keys are the converter's attributes |
| BaseConverter.DefaultFormatInfo | src/voidlight_markitdown_mcp/core/base_converter.py:29-36 | a converter that keeps the base constructor's attributes reports category "documents", priority 0.0 and no formats |
| BaseConverter.PairSpacing | src/voidlight_markitdown_mcp/core/base_converter.py:88 | the substitution as written never makes the text longer and keeps its first character |
| BaseConverter.PairSpacingKeeps | src/voidlight_markitdown_mcp/core/base_converter.py:88 | the substitution as written keeps every non-space character, in order |
| BaseConverter.PairSpacingSkipsEveryOtherGap | src/voidlight_markitdown_mcp/core/base_converter.py:88 | as written, `"a  b  c"` becomes `"a b  c"`: the second gap survives |
| BaseConverter.PairSpacingLast | src/voidlight_markitdown_mcp/core/base_converter.py:88 | the substitution as written keeps a last character that is not white |
| BaseConverter.PairSpacingLeadRun | src/voidlight_markitdown_mcp/core/base_converter.py:88 | the substitution as written copies a leading whitespace run unchanged |
| BaseConverter.PairSpacingCollapsed | src/voidlight_markitdown_mcp/core/base_converter.py:88 | the substitution as written never makes a whitespace run with three or more newlines: each gap it matches becomes one space, and every other run is copied |
| BaseConverter.CollapseGaps | src/voidlight_markitdown_mcp/core/base_converter.py:88 | the intended spacing pass, kept beside the conversion path as its corrected partner: never longer, empty iff the input is, first character kept |
| BaseConverter.CollapseGapsLast | src/voidlight_markitdown_mcp/core/base_converter.py:88 | the intended pass keeps a last character that is not white |
| BaseConverter.CollapseGapsShape | src/voidlight_markitdown_mcp/core/base_converter.py:88 | on a text without edge whitespace, every white character left is a single space between two non-space characters |
| BaseConverter.CollapseGapsKeeps | src/voidlight_markitdown_mcp/core/base_converter.py:88 | the intended pass keeps every non-space character, in order |
| BaseConverter.ReplaceEachPointwise | src/voidlight_markitdown_mcp/core/base_converter.py:96-97 | the replacement loop maps each character independently through the table entries in order |
| BaseConverter.MapThroughTable | src/voidlight_markitdown_mcp/core/base_converter.py:96-97 | when no replacement is itself a key, a character becomes the replacement of its entry, or stays when it is no key |
| BaseConverter.PunctuationTable | src/voidlight_markitdown_mcp/core/base_converter.py:91-94 | no replacement in the punctuation table is itself a key, and no entry involves white space |
| BaseConverter.MapThroughPunctuation | src/voidlight_markitdown_mcp/core/base_converter.py:91-97 | after the table no key character is left, white space is untouched, and a changed character is replaced by its own entry |
| BaseConverter.MapThroughKeepsWhite | src/voidlight_markitdown_mcp/core/base_converter.py:91-97 | the punctuation table leaves every white character as it is |
| BaseConverter.KoreanTextShape | src/voidlight_markitdown_mcp/core/base_converter.py:80-99 | with support on, no punctuation key remains and a text without edge whitespace stays without it; with support off or empty text, nothing changes |
| BaseConverter.KoreanTextCollapsed | src/voidlight_markitdown_mcp/core/base_converter.py:80-99 | normalisation keeps every whitespace run below three newlines when the text had none |
| BaseConverter.NormalizeKoreanText | src/voidlight_markitdown_mcp/core/base_converter.py:80-99 | the spacing substitution as written, then the loop over the punctuation table, computes the normalisation specification |
| BaseConverter.FormatTitle | src/voidlight_markitdown_mcp/core/base_converter.py:126-142 | at most 100 characters, "" for a blank title, no edge whitespace; without Korean support the stripped title, or its first 97 characters plus "..." when longer than 100 |
| BaseConverter.FormatTitleNonEmpty | src/voidlight_markitdown_mcp/core/base_converter.py:126-142 | a title with a non-space character formats to a non-empty one |
| BaseConverter.FormatTitleChars | src/voidlight_markitdown_mcp/core/base_converter.py:126-142 | without Korean normalisation a formatted title holds only characters of the title and `.` |
| BaseConverter.FormatTitleIdempotent | src/voidlight_markitdown_mcp/core/base_converter.py:126-142 | formatting a formatted title again changes nothing |
| BaseConverter.CleanMarkdown | src/voidlight_markitdown_mcp/core/base_converter.py:144-161 | "" for empty input; otherwise no edge whitespace and no whitespace run with three or more newlines, with or without Korean support; with Korean support no punctuation key left |
| BaseConverter.StripKeepsCollapsed | src/voidlight_markitdown_mcp/core/base_converter.py:152-155 | stripping keeps blank-line runs collapsed |
| BaseConverter.ExtractMetadata | src/voidlight_markitdown_mcp/core/base_converter.py:101-124 | filename, MIME type and URL when set and non-empty, in that order, then size and modification time when a local path is set and the file answers `stat` |
| BaseConverter.StatEntries | src/voidlight_markitdown_mcp/core/base_converter.py:114-122 | the two file entries exactly when a local path is set and `stat` answers, otherwise none |
| ConverterText.FirstToken | src/voidlight_markitdown_mcp/converters/text_converter.py:178 | `split()[0]` of a line starting with a non-space character: its longest prefix without white space |
| ConverterText.NumberedLevel | src/voidlight_markitdown_mcp/converters/text_converter.py:174-182 | the level lies in 1..6; it is 2 for a line not starting with a digit and 6 once the first token has five or more dots |
| ConverterText.OutlineLevel | src/voidlight_markitdown_mcp/converters/text_converter.py:174-182 | a heading numbered `n1.n2. ... .nk` and followed by white space gets level min(k, 6) |
| ConverterText.BeforeLastDot | src/voidlight_markitdown_mcp/converters/text_converter.py:204-205 | `rsplit('.', 1)[0]`: the whole name without a `.`, otherwise the part before a dot-free tail |
| ConverterText.SpacedStem | src/voidlight_markitdown_mcp/converters/text_converter.py:203-208 | the stem keeps the length of the name before its last dot and holds no `_` or `-` |
| ConverterText.FirstSentence | src/voidlight_markitdown_mcp/converters/audio_converter.py:295 | `split('.')[0].strip()`: dot-free, and the stripped first piece of the split |
| ConverterText.FirstShortLine | src/voidlight_markitdown_mcp/converters/pdf_converter.py:209-220 | any line found is non-empty and under 100 characters |
| ConverterText.FirstShortLineSpec | src/voidlight_markitdown_mcp/converters/pdf_converter.py:214-218 | the title line is the first qualifying line, stripped, and none exactly when no line qualifies |
| ConverterText.FindShortLine | src/voidlight_markitdown_mcp/converters/pdf_converter.py:214-218 | the loop returns the first qualifying stripped line |
| TextConverter.Accepts | src/voidlight_markitdown_mcp/converters/text_converter.py:28-61 | a declared extension or MIME type answers yes; otherwise the head is sniffed as `is_text_file` does and the position is restored; with the codecs present every seekable stream is accepted |
| TextConverter.LooksLikeMarkdown | src/voidlight_markitdown_mcp/converters/text_converter.py:115-134 | with the doubled backslashes as written, the patterns match exactly when the text holds a character other than `*` |
| TextConverter.LooksLikeListItem | src/voidlight_markitdown_mcp/converters/text_converter.py:184-195 | yes for a bulleted line; any other line reaches a pattern whose unbalanced `)` makes `re` raise |
| TextConverter.PlainTextToMarkdown | src/voidlight_markitdown_mcp/converters/text_converter.py:136-160 | the loop computes the line-by-line conversion, stopping at the first line that raises |
| TextConverter.PlainLineShape | src/voidlight_markitdown_mcp/converters/text_converter.py:141-158 | a blank line gives "", a heading gets one to six `#` and a space, any other line "- "; the stripped line is kept whole |
| TextConverter.PlainLinesShape | src/voidlight_markitdown_mcp/converters/text_converter.py:136-160 | one output line per input line, each made of its own input line |
| TextConverter.PlainLinesRaise | src/voidlight_markitdown_mcp/converters/text_converter.py:136-195 | a non-blank line that is neither a heading nor bulleted makes the whole conversion raise |
| TextConverter.TextToMarkdown | src/voidlight_markitdown_mcp/converters/text_converter.py:97-113 | the output starts with "# " and the title when one is given, and ends with the text itself when it looks like markdown |
| TextConverter.TextToMarkdownNeverRaises | src/voidlight_markitdown_mcp/converters/text_converter.py:97-113 | text that does not look like markdown is all `*`, a single heading or bulleted line, so `_text_to_markdown` never raises |
| TextConverter.TitleFromFilename | src/voidlight_markitdown_mcp/converters/text_converter.py:197-213 | none for a missing or empty name; any title is non-empty |
| TextConverter.TitleFromFilenameShape | src/voidlight_markitdown_mcp/converters/text_converter.py:197-213 | a title from a filename has no `_` or `-` and no edge white space, and is missing only when the spaced stem is blank |
| TextConverter.CapitalizeKeeps | src/voidlight_markitdown_mcp/converters/text_converter.py:211 | capitalising changes only ASCII letters |
| PdfConverter.AcceptsSpec | src/voidlight_markitdown_mcp/converters/pdf_converter.py:44-47 | accepted iff the MIME type starts with `application/pdf` or the extension is `.pdf` in any case |
| PdfConverter.Convert | src/voidlight_markitdown_mcp/converters/pdf_converter.py:49-66 | Azure's result when configured and it succeeds; otherwise pdfminer's when importable; otherwise `MissingDependencyException` |
| PdfConverter.BuiltinNeverUsesAzure | src/voidlight_markitdown_mcp/core/markitdown.py:88-93 | the registered converter gets an endpoint but no key, so its result is pdfminer's or the missing-dependency error |
| PdfConverter.HeadingLevel | src/voidlight_markitdown_mcp/converters/pdf_converter.py:189-197 | the level lies in 1..6 and is 2 for text not starting with a digit |
| PdfConverter.DigitParagraph | src/voidlight_markitdown_mcp/converters/pdf_converter.py:174-187 | a stripped paragraph of at most 100 characters starting with a digit is a heading at its numbered level |
| PdfConverter.NumberedParagraph | src/voidlight_markitdown_mcp/converters/pdf_converter.py:174-197 | a paragraph numbered `n1. ... .nk` is a heading of level min(k, 6) |
| PdfConverter.TextToMarkdown | src/voidlight_markitdown_mcp/converters/pdf_converter.py:152-172 | empty text gives "" |
| PdfConverter.RenderText | src/voidlight_markitdown_mcp/converters/pdf_converter.py:152-172 | the loop computes one block per paragraph, concatenated in order |
| PdfConverter.BlockShape | src/voidlight_markitdown_mcp/converters/pdf_converter.py:158-170 | a paragraph's block is empty exactly when the paragraph is blank, and otherwise ends with the separator |
| PdfConverter.TextToMarkdownShape | src/voidlight_markitdown_mcp/converters/pdf_converter.py:152-172 | the markdown is empty exactly when every paragraph is blank, and otherwise ends with the separator |
| PdfConverter.TitleFromText | src/voidlight_markitdown_mcp/converters/pdf_converter.py:209-220 | none for empty text; any title is non-empty and at most 100 characters |
| PdfConverter.ExtractTitleFromText | src/voidlight_markitdown_mcp/converters/pdf_converter.py:209-220 | the loop returns the first qualifying line, formatted |
| PdfConverter.TitleIsFirstShortLine | src/voidlight_markitdown_mcp/converters/pdf_converter.py:209-220 | without Korean normalisation the title is exactly the first stripped line that is non-empty and under 100 characters |
| DocxConverter.AcceptsSpec | src/markitdown_mcp_enhanced/converters/docx_converter.py:40-44 | accepted iff the MIME type starts with the WordprocessingML type or the extension is `.docx` in any case |
| DocxConverter.Number | src/markitdown_mcp_enhanced/converters/docx_converter.py:117-119 | the captured group is a run of digits, non-empty whenever white space and a digit follow |
| DocxConverter.FindHeading | src/markitdown_mcp_enhanced/converters/docx_converter.py:117 | `re.search` finds the leftmost match from the start position, and none only when no position matches |
| DocxConverter.HeadingLevel | src/markitdown_mcp_enhanced/converters/docx_converter.py:112-122 | the level never exceeds 6 |
| DocxConverter.HeadingLevelSpec | src/markitdown_mcp_enhanced/converters/docx_converter.py:112-122 | 1 when no number follows "heading" anywhere; otherwise the number after the leftmost match, capped at 6 |
| DocxConverter.NumberedStyleLevel | src/markitdown_mcp_enhanced/converters/docx_converter.py:112-122 | the style "heading n" has level min(n, 6) |
| DocxConverter.Emphasis | src/markitdown_mcp_enhanced/converters/docx_converter.py:132-137 | three asterisks for bold and italic, two for bold, one for italic, none otherwise |
| DocxConverter.FormatRunShape | src/markitdown_mcp_enhanced/converters/docx_converter.py:128-144 | a run's text stands between equal marker strings, a backtick outermost for a code font; cutting them off gives back the text |
| DocxConverter.ProcessParagraphFormatting | src/markitdown_mcp_enhanced/converters/docx_converter.py:124-146 | the loop concatenates the runs' markdown in order |
| DocxConverter.PlainRuns | src/markitdown_mcp_enhanced/converters/docx_converter.py:124-146 | without bold, italic or a code font the paragraph is its runs' text unchanged |
| DocxConverter.CellShape | src/markitdown_mcp_enhanced/converters/docx_converter.py:156-160 | a rendered cell has no newline, every pipe in it is escaped, and it keeps the stripped text's pipe count |
| DocxConverter.KeptRowsShape | src/markitdown_mcp_enhanced/converters/docx_converter.py:153-164 | no row is kept iff every row is empty; every kept row has cells, and no rendered cell holds a newline |
| DocxConverter.TableShape | src/markitdown_mcp_enhanced/converters/docx_converter.py:148-185 | no text iff no row has cells; otherwise the header line, one `---` per header cell, and each data row cut or padded to the header width: one line per kept row plus one |
| DocxConverter.RowCells | src/markitdown_mcp_enhanced/converters/docx_converter.py:154-161 | the inner loop renders one row's cells in order |
| DocxConverter.ConvertTable | src/markitdown_mcp_enhanced/converters/docx_converter.py:148-185 | the loops compute the table specification |
| DocxConverter.ParagraphBlockShape | src/markitdown_mcp_enhanced/converters/docx_converter.py:83-102 | a paragraph's block is empty exactly when its text is blank, and otherwise ends with a blank line |
| DocxConverter.TableBlockShape | src/markitdown_mcp_enhanced/converters/docx_converter.py:105-108 | a table's block is empty exactly when no row has cells, and otherwise ends with a blank line |
| DocxConverter.RenderParagraph | src/markitdown_mcp_enhanced/converters/docx_converter.py:84-102 | one iteration of the paragraph loop produces that paragraph's block |
| DocxConverter.RenderTableBlock | src/markitdown_mcp_enhanced/converters/docx_converter.py:106-108 | one iteration of the table loop produces that table's block |
| DocxConverter.RenderParagraphs | src/markitdown_mcp_enhanced/converters/docx_converter.py:83-102 | the paragraph loop concatenates the paragraph blocks in order |
| DocxConverter.RenderTables | src/markitdown_mcp_enhanced/converters/docx_converter.py:105-108 | the table loop concatenates the table blocks in order |
| DocxConverter.ExtractContent | src/markitdown_mcp_enhanced/converters/docx_converter.py:78-110 | all paragraph blocks, then all table blocks |
| DocxConverter.ContentShape | src/markitdown_mcp_enhanced/converters/docx_converter.py:78-110 | the content is empty exactly when every paragraph is blank and no table has a row with cells; otherwise it ends with a blank line |
| DocxConverter.Title | src/markitdown_mcp_enhanced/converters/docx_converter.py:234-257 | any title is at most 100 characters |
| DocxConverter.TitleSpec | src/markitdown_mcp_enhanced/converters/docx_converter.py:234-257 | the core title wins; else the first title-styled paragraph gives a non-empty title; none only when there is no core title, no title-styled paragraph and no short line |
| DocxConverter.Convert | src/markitdown_mcp_enhanced/converters/docx_converter.py:46-76 | a missing python-docx raises `MissingDependencyException`; a load failure becomes `FileConversionException`; a result carries the extracted title, and empty content gives empty markdown |
| HtmlConverter.AcceptsSpec | src/markitdown_mcp_enhanced/converters/html_converter.py:46-49 | accepted iff the MIME type starts with `text/html` or `application/xhtml+xml`, or the extension is `.html` or `.htm` in any case |
| HtmlConverter.RowCells | src/markitdown_mcp_enhanced/converters/html_converter.py:216-221 | the cell loop renders one row's cells in order |
| HtmlConverter.TableToMarkdown | src/markitdown_mcp_enhanced/converters/html_converter.py:210-239 | the loops compute the table specification |
| HtmlConverter.TableShape | src/markitdown_mcp_enhanced/converters/html_converter.py:210-239 | no text iff no row has cells; otherwise it opens with the first such row and one `---` per header cell, and every pipe character in a cell follows two backslashes |
| PipeTables.RenderTable | src/markitdown_mcp_enhanced/converters/html_converter.py:229-237 | the render loop emits the header line, the dashes line and one line per remaining row, fitted to the header's width |
| PipeTables.TableIsMarkdownTable | src/markitdown_mcp_enhanced/converters/docx_converter.py:173-183 | with newline terminators a table of a header and data rows is what `create_markdown_table` makes of them, so every data row has the header's cell count |
| PipeTables.TableLineCount | src/markitdown_mcp_enhanced/converters/docx_converter.py:173-183 | with newline-free cells, a table of k rows has k + 1 lines |
| PipeTables.KeptRowsShape | src/markitdown_mcp_enhanced/converters/html_converter.py:215-223 | rows are kept only when they have cells, none are kept only when no row has cells, and kept cells keep every property rendered cells have |
| PipeTables.EscapePipesShape | src/markitdown_mcp_enhanced/converters/html_converter.py:220 | after escaping, every pipe stands right after the escape |
| PipeTables.EscapePipesCount | src/markitdown_mcp_enhanced/converters/html_converter.py:220 | escaping adds no pipe and drops none |
| PipeTables.NewlinesToSpaces | src/markitdown_mcp_enhanced/converters/docx_converter.py:160 | replacing newlines by spaces leaves none and moves nothing else |
| HtmlConverter.OgTitleSpec | src/markitdown_mcp_enhanced/converters/html_converter.py:133-135 | the first og:title meta gives the value (or "" without content), and there is none only when no meta is og:title |
| HtmlConverter.TitleSource | src/markitdown_mcp_enhanced/converters/html_converter.py:116-139 | the chosen text is non-empty and already stripped |
| HtmlConverter.Title | src/markitdown_mcp_enhanced/converters/html_converter.py:116-139 | any title is non-empty and at most 100 characters |
| HtmlConverter.TitleSpec | src/markitdown_mcp_enhanced/converters/html_converter.py:116-139 | a non-blank `<title>` wins, then a non-blank `<h1>`, then a non-blank og:title; none only when all three are missing or blank |
| HtmlConverter.AddMetasUntouched | src/markitdown_mcp_enhanced/converters/html_converter.py:92-102 | a key no kept meta tag names keeps its earlier value |
| HtmlConverter.AddMetasLast | src/markitdown_mcp_enhanced/converters/html_converter.py:92-102 | a key holds the content of the last kept meta tag of that name |
| HtmlConverter.AddMetasStep | src/markitdown_mcp_enhanced/converters/html_converter.py:93-102 | one more tag changes a key only when it has a name and content and its name is one of the four kept names or starts with `og:` or `twitter:` |
| HtmlConverter.MetadataGet | src/markitdown_mcp_enhanced/converters/html_converter.py:87-114 | `language` and `html_title` are assigned last; every other key is as the meta loop left it |
| HtmlConverter.ExtractHtmlMetadata | src/markitdown_mcp_enhanced/converters/html_converter.py:87-114 | the loop and assignments compute the metadata specification |
| HtmlConverter.Convert | src/markitdown_mcp_enhanced/converters/html_converter.py:51-85 | a missing BeautifulSoup raises `MissingDependencyException`; a failure on the way becomes `FileConversionException`; a result carries the extracted title and metadata |
| ImageConverter.ExtensionsLower | src/markitdown_mcp_enhanced/converters/image_converter.py:31-35 | the listed extensions are lower case already |
| ImageConverter.AcceptsSpec | src/markitdown_mcp_enhanced/converters/image_converter.py:64-67 | accepted iff the MIME type starts with one of the six listed or the extension is one of the seven listed, in any case |
| ImageConverter.FeaturesSpec | src/markitdown_mcp_enhanced/converters/image_converter.py:330-339 | metadata and description are listed first; OCR exactly when either engine is available; Korean recognition exactly with Korean support |
| ImageConverter.FormatInfo | src/markitdown_mcp_enhanced/converters/image_converter.py:328-348 | the report carries that feature list, the seven extensions, the six MIME types and category "images" |
| ImageConverter.Confident | src/markitdown_mcp_enhanced/converters/image_converter.py:130 | never more texts than readings |
| ImageConverter.ConfidentSound | src/markitdown_mcp_enhanced/converters/image_converter.py:130 | every kept text belongs to a reading with confidence above 0.5 |
| ImageConverter.ConfidentComplete | src/markitdown_mcp_enhanced/converters/image_converter.py:130 | the text of every reading with confidence above 0.5 is kept |
| ImageConverter.ConfidentAll | src/markitdown_mcp_enhanced/converters/image_converter.py:130 | when every reading is confident, all texts are kept in order |
| ImageConverter.OcrTextSpec | src/markitdown_mcp_enhanced/converters/image_converter.py:112-159 | EasyOCR's joined confident text when Korean support is on and it gives any; otherwise Tesseract's; whitespace-normalised; "" without Korean support and Tesseract |
| ImageConverter.Description | src/markitdown_mcp_enhanced/converters/image_converter.py:161-185 | "" without a model client |
| ImageConverter.ExifEntries | src/markitdown_mcp_enhanced/converters/image_converter.py:249-251 | at most one entry per listed tag |
| ImageConverter.ExifEntriesSpec | src/markitdown_mcp_enhanced/converters/image_converter.py:249-251 | a tag yields an entry exactly when the EXIF data has it, named `exif_` plus the lower-cased tag name |
| ImageConverter.ImageMetadataGet | src/markitdown_mcp_enhanced/converters/image_converter.py:222-260 | width, height and format hold Pillow's values and the file size is the stream's length |
| ImageConverter.ExifKeysAvoid | src/markitdown_mcp_enhanced/converters/image_converter.py:227-251 | EXIF keys never collide with Pillow's keys |
| ImageConverter.DimensionsAsWrittenLacksTimes | src/markitdown_mcp_enhanced/converters/image_converter.py:290 | as written, the dimensions line shows an A-tilde and an em dash, never a multiplication sign |
| ImageConverter.DimensionsLineShowsTimes | src/markitdown_mcp_enhanced/converters/image_converter.py:290 | corrected, the line reads width, a lone `×`, height, then "pixels" |
| ImageConverter.DimensionsLineHasTimes | src/markitdown_mcp_enhanced/converters/image_converter.py:290 | the corrected line has the multiplication sign and no em dash |
| ImageConverter.CreateImageMarkdown | src/markitdown_mcp_enhanced/converters/image_converter.py:262-298 | appending piece by piece gives the reference, description, OCR and properties sections in order |
| ImageConverter.PropertyList | src/markitdown_mcp_enhanced/converters/image_converter.py:287-296 | the properties section appended line by line, with the dimensions line as the source spells it |
| ImageConverter.ImageMarkdownEmpty | src/markitdown_mcp_enhanced/converters/image_converter.py:262-298 | the markdown is empty exactly when there is no filename, description, OCR text or complete set of properties |
| ImageConverter.ImageTitle | src/markitdown_mcp_enhanced/converters/image_converter.py:300-326 | any title is at most 100 characters |
| ImageConverter.ExtractImageTitle | src/markitdown_mcp_enhanced/converters/image_converter.py:300-326 | the loop over OCR lines and the fallbacks compute the title specification |
| ImageConverter.ImageTitleSpec | src/markitdown_mcp_enhanced/converters/image_converter.py:300-326 | the OCR line wins, then the description's short first sentence, then the filename; none only when none applies |
| ImageConverter.Convert | src/markitdown_mcp_enhanced/converters/image_converter.py:69-110 | `MissingDependencyException` exactly without Pillow; a later failure becomes `FileConversionException`; a result carries the chained title and the image metadata |
| AudioConverter.CheckDependencies | src/voidlight_markitdown_mcp/converters/audio_converter.py:40-58 | the OpenAI API counts as available exactly when its package imports and the API key is truthy; Whisper and pydub exactly when they import |
| AudioConverter.AcceptsSpec | src/voidlight_markitdown_mcp/converters/audio_converter.py:60-63 | accepted iff the MIME type starts with one of the six listed or the extension is one of the six listed, in any case |
| AudioConverter.FeaturesSpec | src/voidlight_markitdown_mcp/converters/audio_converter.py:309-321 | metadata extraction is always listed first; each of local Whisper, the OpenAI API, Korean recognition and format conversion is listed exactly when its capability is there |
| AudioConverter.FormatInfo | src/voidlight_markitdown_mcp/converters/audio_converter.py:307-330 | the format record carries the feature list, the six extensions and MIME types and the category "audio" |
| AudioConverter.ConvertedPathDiffers | src/voidlight_markitdown_mcp/converters/audio_converter.py:146 | the converted copy's name never equals the original path, so cleaning up never removes the original twice |
| AudioConverter.PrepareAudioSpec | src/voidlight_markitdown_mcp/converters/audio_converter.py:115-153 | the file to transcribe is the original or its converted WAV copy; it is the copy exactly when the extension is not one Whisper reads directly (or Whisper is missing), pydub is there and loading and export succeed; with no extension the file counts as MP3 |
| AudioConverter.TranscribeSpec | src/voidlight_markitdown_mcp/converters/audio_converter.py:155-198 | the OpenAI API's text is used when that backend is available and answers; otherwise local Whisper's; a non-empty transcription always comes from an available backend; with neither backend it is empty |
| AudioConverter.DurationFormatted | src/voidlight_markitdown_mcp/converters/audio_converter.py:223-227 | the duration text is whole minutes, a colon and two digits of remaining seconds (under 60), which together give the length in whole seconds |
| AudioConverter.AudioMetadataGet | src/voidlight_markitdown_mcp/converters/audio_converter.py:200-239 | when pydub reports on the file the metadata holds its formatted duration, channel count and frame rate, and otherwise the base values of those keys; the file size is recorded exactly when it was read |
| AudioConverter.Reference | src/voidlight_markitdown_mcp/converters/audio_converter.py:248-250 | the file reference is empty or a first-level "Audio:" heading |
| AudioConverter.PropertiesSection | src/voidlight_markitdown_mcp/converters/audio_converter.py:252-272 | the properties section is empty or a second-level heading |
| AudioConverter.TranscriptionSection | src/voidlight_markitdown_mcp/converters/audio_converter.py:274-280 | the transcription section is always present and is a second-level heading |
| AudioConverter.CreateAudioMarkdown | src/voidlight_markitdown_mcp/converters/audio_converter.py:241-282 | the markdown appended piece by piece equals the file reference, the properties section and the transcription section in that order |
| AudioConverter.PropertyList | src/voidlight_markitdown_mcp/converters/audio_converter.py:260-270 | the property lines appended one by one equal one line per known duration, channel count and sample rate, then the file size |
| AudioConverter.AudioMarkdownOpens | src/voidlight_markitdown_mcp/converters/audio_converter.py:248-250 | the markdown opens with the "Audio:" heading exactly when the stream has a filename |
| AudioConverter.AudioMarkdownCloses | src/voidlight_markitdown_mcp/converters/audio_converter.py:274-280 | the markdown always ends with the transcription section, which carries the "no transcription" notice when nothing was transcribed |
| AudioConverter.PropertiesShownIffReported | src/voidlight_markitdown_mcp/converters/audio_converter.py:253-257 | with base metadata lacking pydub's keys, the properties section appears exactly when pydub is available and reported on the file |
| AudioConverter.AudioTitle | src/voidlight_markitdown_mcp/converters/audio_converter.py:284-305 | a title, when there is one, is at most 100 characters long |
| AudioConverter.AudioTitleSpec | src/voidlight_markitdown_mcp/converters/audio_converter.py:284-305 | a first sentence under 100 characters wins over the filename; there is no title exactly when neither a short sentence nor a filename exists |
| AudioConverter.PlainAudioTitle | src/voidlight_markitdown_mcp/converters/audio_converter.py:290-303 | without Korean normalisation a sentence title is the first sentence itself and has no '.'; a filename title has no '_' or '-' |
| AudioConverter.Convert | src/voidlight_markitdown_mcp/converters/audio_converter.py:65-113 | MissingDependencyException exactly when neither Whisper nor the OpenAI API is available; a later failure becomes FileConversionException with the cause appended; a result carries the title and metadata built from the transcription and pydub's report |
| FormatUtils.SqueezeBlanks | src/voidlight_markitdown_mcp/utils/format_utils.py:40 | after squeezing there is no tab and no two adjacent spaces, and every other character comes from the input |
| FormatUtils.CollapseRun | src/voidlight_markitdown_mcp/utils/format_utils.py:43 | a whitespace run keeps fewer than three newlines, is unchanged when it already had fewer, and stays non-empty |
| FormatUtils.CollapseBlankLines | src/voidlight_markitdown_mcp/utils/format_utils.py:43 | the pass empties only the empty string and keeps a leading non-whitespace character |
| FormatUtils.CollapseBlankLinesCollapsed | src/voidlight_markitdown_mcp/utils/format_utils.py:43 | after the pass no whitespace run holds three newlines |
| FormatUtils.RunsCollapsedKeepsWhite | src/voidlight_markitdown_mcp/core/base_converter.py:96-97 | a character replacement that keeps white characters in place and other characters non-white keeps every whitespace run below three newlines |
| FormatUtils.CollapseBlankLinesNoop | src/voidlight_markitdown_mcp/utils/format_utils.py:43 | the pass leaves a string whose runs are already collapsed unchanged |
| FormatUtils.NormalizeWhitespaceShape | src/voidlight_markitdown_mcp/utils/format_utils.py:34-48 | the result is "" for "", and has no tab, no two adjacent spaces, no run of three newlines and no whitespace at either end |
| FormatUtils.NormalizeWhitespaceIdempotent | src/voidlight_markitdown_mcp/utils/format_utils.py:39-46 | normalising twice equals normalising once |
| FormatUtils.ElementMatchAt | src/voidlight_markitdown_mcp/utils/format_utils.py:22-23 | a script or style element matched at the start has a positive length within the text |
| FormatUtils.RemoveElements | src/voidlight_markitdown_mcp/utils/format_utils.py:22-23 | removing elements never lengthens the text or adds characters |
| FormatUtils.RemoveTags | src/voidlight_markitdown_mcp/utils/format_utils.py:26 | removing tags never lengthens the text or adds characters, and leaves no tag |
| FormatUtils.CleanHtmlShape | src/voidlight_markitdown_mcp/utils/format_utils.py:13-31 | the cleaned text is "" for "", has no whitespace at either end, no two adjacent whitespace characters and no tag |
| FormatUtils.ReplaceUnsafe | src/voidlight_markitdown_mcp/utils/format_utils.py:130 | each of the nine unsafe characters becomes '_' and every other character stays |
| FormatUtils.SanitizeFilenameShape | src/voidlight_markitdown_mcp/utils/format_utils.py:127-138 | a sanitised name has no unsafe character, no two adjacent underscores and no underscore at either end |
| FormatUtils.SanitizeFilenameIdempotent | src/voidlight_markitdown_mcp/utils/format_utils.py:127-138 | sanitising twice equals sanitising once |
| FormatUtils.StripHeadingMarker | src/voidlight_markitdown_mcp/utils/format_utils.py:62 | removing the heading marker leaves a suffix of the line |
| FormatUtils.KeepTitleChars | src/voidlight_markitdown_mcp/utils/format_utils.py:65 | only word, whitespace and Hangul characters remain |
| FormatUtils.LineTitle | src/voidlight_markitdown_mcp/utils/format_utils.py:59-68 | a title a line yields is non-empty, at most the maximum length and made of word, space and Hangul characters |
| FormatUtils.FirstTitle | src/voidlight_markitdown_mcp/utils/format_utils.py:58-70 | the title found comes from some line, and when none is found no line yields one |
| FormatUtils.FirstTitleShape | src/voidlight_markitdown_mcp/utils/format_utils.py:51-70 | any title found is non-empty, at most the maximum length and made of word, space and Hangul characters |
| FormatUtils.FindTitle | src/voidlight_markitdown_mcp/utils/format_utils.py:58-70 | the loop over the lines returns the first line's title, with the same shape |
| FormatUtils.ExtractTitleFromContent | src/voidlight_markitdown_mcp/utils/format_utils.py:51-70 | no title for empty content; any title is non-empty, at most the maximum length and made of word, space and Hangul characters |
| FormatUtils.ParticlePass | src/voidlight_markitdown_mcp/utils/format_utils.py:164-165 | one particle pass only deletes whitespace characters |
| FormatUtils.ApplyParticles | src/voidlight_markitdown_mcp/utils/format_utils.py:164-165 | the particle passes together only delete whitespace characters |
| FormatUtils.PunctuationPass | src/voidlight_markitdown_mcp/utils/format_utils.py:168 | the punctuation pass only deletes whitespace characters |
| FormatUtils.OpenParenPass | src/voidlight_markitdown_mcp/utils/format_utils.py:171 | the opening-parenthesis pass only deletes whitespace characters |
| FormatUtils.CloseParenPass | src/voidlight_markitdown_mcp/utils/format_utils.py:172 | the closing-parenthesis pass only deletes whitespace characters |
| FormatUtils.UnitPass | src/voidlight_markitdown_mcp/utils/format_utils.py:175 | the number-unit pass only deletes whitespace characters |
| FormatUtils.KoreanSpacing | src/voidlight_markitdown_mcp/utils/format_utils.py:155-177 | the whole normalisation only deletes whitespace characters |
| FormatUtils.RemoveParticleSpacing | src/voidlight_markitdown_mcp/utils/format_utils.py:164-165 | the loop over the particles computes the particle passes in list order, never lengthens and keeps the non-whitespace characters in order |
| FormatUtils.NormalizeKoreanSpacing | src/voidlight_markitdown_mcp/utils/format_utils.py:155-177 | pass by pass, the result never lengthens the text and keeps its non-whitespace characters in order |
| FormatUtils.KoreanSpacingSteps | src/voidlight_markitdown_mcp/utils/format_utils.py:164-175 | a non-empty text goes through the particle passes, then punctuation, parentheses and units, in that order |
| FormatUtils.KoreanSpacingKeeps | src/voidlight_markitdown_mcp/utils/format_utils.py:155-177 | the result is never longer than the input and has the same non-whitespace characters in the same order |
| FormatUtils.EscapeCharsLength | src/voidlight_markitdown_mcp/utils/format_utils.py:180-187 | escaping lengthens the text by exactly the number of special characters in it |
| FormatUtils.UnescapeEscape | src/voidlight_markitdown_mcp/utils/format_utils.py:180-187 | removing the inserted backslashes gives back the input |
| FormatUtils.ReplaceExtendsEscape | src/voidlight_markitdown_mcp/utils/format_utils.py:184-185 | one replacement step, taken after the backslash, escapes one more special character without double-escaping the earlier ones |
| FormatUtils.EscapeMarkdownSpecialChars | src/voidlight_markitdown_mcp/utils/format_utils.py:180-187 | the replacements in list order put exactly one backslash before each special character: the length grows by their count and unescaping gives back the input |
| FormatUtils.Fit | src/voidlight_markitdown_mcp/utils/format_utils.py:203-205 | a data row has exactly as many cells as headers, its own cells first and empty cells after |
| FormatUtils.CreateMarkdownTable | src/voidlight_markitdown_mcp/utils/format_utils.py:190-209 | the table built line by line is empty exactly when the headers or the rows are empty |
| FormatUtils.MarkdownTableLines | src/voidlight_markitdown_mcp/utils/format_utils.py:190-209 | without newlines in the cells a non-empty table has exactly 2 + len(rows) lines |
| Registry.InsertPosition | src/voidlight_markitdown_mcp/core/markitdown.py:152-160 | the insert position is the first entry with a greater priority, or the end: every entry before it has a priority at most the new one |
| Registry.InsertPositionUnique | src/voidlight_markitdown_mcp/core/markitdown.py:152-160 | any index with those two properties is the insert position |
| Registry.InsertBetween | src/voidlight_markitdown_mcp/core/markitdown.py:145-161 | registering between a part of smaller or equal priorities and a part starting above puts the entry exactly between them |
| Registry.InsertedContents | src/voidlight_markitdown_mcp/core/markitdown.py:145-161 | registering adds exactly the new entry, after every entry of equal or smaller priority, and keeps the others in their order |
| Registry.InsertedMultiset | src/voidlight_markitdown_mcp/core/markitdown.py:145-161 | registering adds exactly one occurrence of the new entry and loses none |
| Registry.InsertedSorted | src/voidlight_markitdown_mcp/core/markitdown.py:145-161 | registering keeps the list in non-decreasing priority, and every entry after the new one has a greater priority |
| Registry.InsertAllSpec | src/voidlight_markitdown_mcp/core/markitdown.py:145-161 | registering a list one by one keeps the converter list sorted and adds exactly the registered entries |
| Registry.InsertRun | src/voidlight_markitdown_mcp/core/markitdown.py:138-140 | entries of one priority registered one by one land in registration order between the lower part and the higher part |
| Registry.InsertOne | src/voidlight_markitdown_mcp/core/markitdown.py:145-161 | registering an entry first puts it between the parts below and above it |
| Registry.SixInOrder | src/voidlight_markitdown_mcp/core/markitdown.py:74-130 | six registrations with priorities ordering them as p d i h a t and registered as t p d i h a end up as p d i h a t |
| MarkItDown.PluginRegistrations | src/voidlight_markitdown_mcp/core/markitdown.py:132-140 | one registration per loaded plugin, in load order, all at priority 0.5 |
| MarkItDown.PluginRegistrationsSnoc | src/voidlight_markitdown_mcp/core/markitdown.py:139-140 | loading one more plugin adds its registration at the end |
| MarkItDown.BuiltinOrder | src/voidlight_markitdown_mcp/core/markitdown.py:74-130 | with every built-in importable the list is PDF, DOCX, image, HTML, audio, text, although text is registered first |
| MarkItDown.RegistryOrder | src/voidlight_markitdown_mcp/core/markitdown.py:67-72 | with every built-in importable, loaded plugins land after PDF and DOCX and before the image converter, in load order |
| MarkItDown.TryPair | src/voidlight_markitdown_mcp/core/markitdown.py:367-376 | a success means accepts returned true and convert, called from where accepts left the stream, returned that result |
| MarkItDown.Row | src/voidlight_markitdown_mcp/core/markitdown.py:365 | one guess is paired with every registered converter, in list order |
| MarkItDown.PairsIndex | src/voidlight_markitdown_mcp/core/markitdown.py:364-365 | the trial order is guesses outside, converters inside: the pair at row i, column j is guess i with converter j |
| MarkItDown.WonByConvert | src/voidlight_markitdown_mcp/core/markitdown.py:364-381 | a result is always what some pair's convert returned after its accepts said yes |
| MarkItDown.FailuresRecorded | src/voidlight_markitdown_mcp/core/markitdown.py:383-389 | when the loop runs out the earlier failures are kept, at most one is added per pair, and each names a converter and a guess of some pair |
| MarkItDown.FirstSuccess | src/voidlight_markitdown_mcp/core/markitdown.py:364-381 | with converters that leave the stream where they found it, the result is that of the first pair whose accepts says yes and whose convert returns, and the loop runs out exactly when no pair succeeds |
| MarkItDown.NoPairs | src/voidlight_markitdown_mcp/core/markitdown.py:364-365 | with no converter there is no pair to try |
| MarkItDown.PostProcessSpec | src/voidlight_markitdown_mcp/core/markitdown.py:377-378 | the markdown changes only when the option and Korean support are both on, and then it is the Korean spacing normalisation of it; title and metadata never change |
| MarkItDown.PostProcessKeepsText | src/voidlight_markitdown_mcp/core/markitdown.py:401-414 | post-processing never lengthens the markdown and keeps its non-whitespace characters in order |
| MarkItDown.NoConverterMessage | src/voidlight_markitdown_mcp/core/markitdown.py:391-399 | the failure message always opens with "No suitable converter found for stream" |
| MarkItDown.ConvertWithGuessesSpec | src/voidlight_markitdown_mcp/core/markitdown.py:357-399 | a converter's exception never escapes the dispatch: the only exception raised is UnsupportedFormatException |
| MarkItDown.NoConverters | src/voidlight_markitdown_mcp/core/markitdown.py:391-399 | with no converter registered every conversion raises UnsupportedFormatException, with no failures listed |
| MarkItDown.PdfTriedFirst | src/voidlight_markitdown_mcp/core/markitdown.py:364-381 | with PDF first in the list and a first guess PDF accepts, whatever PDF's convert returns is the result |
| MarkItDown.AddGuessesSpec | src/voidlight_markitdown_mcp/core/markitdown.py:334-352 | offering candidates only appends, never repeats a StreamInfo-equal guess, appends only offered candidates, and takes a candidate that is new |
| MarkItDown.GuessesFirst | src/voidlight_markitdown_mcp/core/markitdown.py:324-355 | there is always at least one guess; the caller's info comes first when it has a MIME type or an extension, else the content's guess when there is one |
| MarkItDown.GuessesDistinct | src/voidlight_markitdown_mcp/core/markitdown.py:324-355 | no two guesses are StreamInfo-equal |
| MarkItDown.GuessesFrom | src/voidlight_markitdown_mcp/core/markitdown.py:324-355 | every guess is the caller's info, an empty StreamInfo or one of the detected candidates |
| MarkItDown.FormatsInSpec | src/voidlight_markitdown_mcp/core/markitdown.py:559-565 | every listed format info comes from a registered converter and belongs to its category |
| MarkItDown.DocumentType | src/voidlight_markitdown_mcp/core/markitdown.py:432-452 | the type is "document" exactly when none of the four counts exceeds its threshold, and "spreadsheet" exactly when there are more than 20 table bars |
| MarkItDown.MarkItDown.constructor | src/voidlight_markitdown_mcp/core/markitdown.py:34-72 | a new dispatcher holds the importable built-ins, then (with plugins enabled and the plugin system present) the loaded plugins, registered in priority order, and the default options |
| MarkItDown.MarkItDown.Populate | src/voidlight_markitdown_mcp/core/markitdown.py:67-72 | the built-ins are registered first, then (only with plugins enabled) the loaded plugins, each into the priority-ordered list |
| MarkItDown.MarkItDown.RegisterConverters | src/voidlight_markitdown_mcp/core/markitdown.py:74-130 | the built-ins, text first, each registered only when its module imports |
| MarkItDown.MarkItDown.RegisterIfImportable | src/voidlight_markitdown_mcp/core/markitdown.py:80-130 | one registration block registers its converter exactly when its module imports |
| MarkItDown.MarkItDown.LoadPlugins | src/voidlight_markitdown_mcp/core/markitdown.py:132-143 | every plugin returned is registered at priority 0.5, in order; nothing when the plugin system is missing |
| MarkItDown.MarkItDown.RegisterConverter | src/voidlight_markitdown_mcp/core/markitdown.py:145-161 | the scan-and-insert loop inserts the registration at the insert position and keeps the list sorted |
| MarkItDown.MarkItDown.SetOptions | src/voidlight_markitdown_mcp/core/markitdown.py:163-165 | the keywords given, values of any type, update the options, later ones winning; every option not given keeps its value |
| MarkItDown.SetOptionsKoreanOptimization | src/voidlight_markitdown_mcp/core/markitdown.py:377 | after `set_options`, the dispatch applies the Korean optimisation exactly when the last `korean_optimization` keyword given is truthy, whatever its type |
| MarkItDown.MarkItDown.GetStreamInfoGuesses | src/voidlight_markitdown_mcp/core/markitdown.py:324-355 | the guesses are computed from the stream's content and the caller's info, and the stream position is restored |
| MarkItDown.MarkItDown.ConvertWithGuesses | src/voidlight_markitdown_mcp/core/markitdown.py:357-399 | the nested loop returns the outcome, and leaves the stream at the position, that the dispatch specification describes |
| MarkItDown.MarkItDown.ConvertStream | src/voidlight_markitdown_mcp/core/markitdown.py:206-219 | the outcome is that of the guesses tried over the (buffered when unseekable) stream; the only exception raised is UnsupportedFormatException |
| MarkItDown.MarkItDown.ConvertDataUri | src/voidlight_markitdown_mcp/core/markitdown.py:243-273 | a malformed data URI raises the parser's error; otherwise the decoded bytes are converted from position 0 with the media type as MIME type |
| MarkItDown.MarkItDown.GetSupportedFormats | src/voidlight_markitdown_mcp/core/markitdown.py:548-567 | exactly the six categories, in order, each listing the format infos of the registered converters in that category, in list order |
| MarkItDown.FormatsStep | src/voidlight_markitdown_mcp/core/markitdown.py:559-565 | one converter's step appends its format info to its category when that category is listed, and changes nothing else |
| PluginManager.EntryPluginsExactly | src/voidlight_markitdown_mcp/plugins/plugin_manager.py:36-72 | the entry-point plugins are exactly the converters of the entry points that load, subclass DocumentConverter and instantiate |
| PluginManager.EntryPluginsAppend | src/voidlight_markitdown_mcp/plugins/plugin_manager.py:42-67 | scanning two runs of entry points gives the plugins of each, in order |
| PluginManager.EntryFailureSkipped | src/voidlight_markitdown_mcp/plugins/plugin_manager.py:43-67 | an entry point that fails to load, is not a converter class or fails to instantiate is skipped and the others load as if it were absent |
| PluginManager.AttributePluginsFrom | src/voidlight_markitdown_mcp/plugins/plugin_manager.py:94-104 | every converter a module gives comes from an eligible class (never the base class), and an eligible class that fails to instantiate ends the module's list |
| PluginManager.AttributeFailureStops | src/voidlight_markitdown_mcp/plugins/plugin_manager.py:88-119 | a class that raises on instantiation abandons the rest of its module: only the classes before it load |
| PluginManager.FilePluginsAppend | src/voidlight_markitdown_mcp/plugins/plugin_manager.py:84-119 | the file plugins of two runs of files are those of each, in order |
| PluginManager.FileSkipped | src/voidlight_markitdown_mcp/plugins/plugin_manager.py:85-86 | a private file or one whose import fails is skipped and the other files load as if it were absent |
| PluginManager.RemoveFirstAbsent | src/voidlight_markitdown_mcp/plugins/plugin_manager.py:160-161 | removing a converter that is not loaded leaves the list unchanged |
| PluginManager.RemoveFirstPresent | src/voidlight_markitdown_mcp/plugins/plugin_manager.py:160-161 | removing a loaded converter cuts out its first occurrence |
| PluginManager.RemoveFirstMultiset | src/voidlight_markitdown_mcp/plugins/plugin_manager.py:160-161 | removing a loaded converter takes exactly one occurrence of it out |
| PluginManager.Summaries | src/voidlight_markitdown_mcp/plugins/plugin_manager.py:127-136 | one summary per registry entry, under the same name and in registry order |
| PluginManager.Manager.constructor | src/voidlight_markitdown_mcp/plugins/plugin_manager.py:19-21 | a new manager has no loaded plugins and an empty registry |
| PluginManager.Manager.LoadPlugins | src/voidlight_markitdown_mcp/plugins/plugin_manager.py:23-34 | the result is the entry-point plugins then the file plugins, the loaded list becomes exactly that, and the registry gains both sets of entries in that order |
| PluginManager.Manager.LoadEntryPointPlugins | src/voidlight_markitdown_mcp/plugins/plugin_manager.py:36-72 | the loop returns the entry-point plugins and records each under its entry point's name |
| PluginManager.Manager.LoadFilePlugins | src/voidlight_markitdown_mcp/plugins/plugin_manager.py:74-121 | the loop returns nothing when the directory is missing, else the plugins of the non-private importable files, recording each as stem.ClassName |
| PluginManager.Manager.LoadModule | src/voidlight_markitdown_mcp/plugins/plugin_manager.py:94-115 | the loop over a module's attributes returns its plugins and records them |
| PluginManager.Manager.ReloadPlugins | src/voidlight_markitdown_mcp/plugins/plugin_manager.py:139-143 | after a reload the loaded list and the registry depend only on what discovery finds now |
| PluginManager.Manager.GetPluginByName | src/voidlight_markitdown_mcp/plugins/plugin_manager.py:145-148 | the result is None exactly when the name is not registered, and otherwise the converter registered under it |
| PluginManager.Manager.UnloadPlugin | src/voidlight_markitdown_mcp/plugins/plugin_manager.py:150-164 | the result is true exactly when the name was registered; an unknown name changes nothing; a known one leaves the registry and its converter's first occurrence leaves the loaded list |
| PluginManager.Manager.GetPluginInfo | src/voidlight_markitdown_mcp/plugins/plugin_manager.py:123-137 | the count is the number of loaded converters, and there is one summary per registry entry, in registry order, carrying that entry's name and its converter's format info |
| PluginManager.UnloadForgets | src/voidlight_markitdown_mcp/plugins/plugin_manager.py:156 | after unloading a name it looks up nothing, and every other name looks up what it did before |
| Settings.AllSectionsComplete | src/markitdown_mcp_enhanced/config/settings.py:77-85 | the section list names every section of the configuration |
| Settings.NameInjective | src/markitdown_mcp_enhanced/config/settings.py:77-85 | distinct sections have distinct attribute names |
| Settings.Lookup | src/markitdown_mcp_enhanced/config/settings.py:244 | a section found has the name looked up and comes from the list; when none is found no listed section has that name |
| Settings.SectionNamed | src/markitdown_mcp_enhanced/config/settings.py:244 | hasattr on the configuration finds a section exactly when some section has that name, and then that section |
| Settings.NamedRoundTrip | src/markitdown_mcp_enhanced/config/settings.py:244 | every section is found by its own name |
| Settings.WithSection | src/markitdown_mcp_enhanced/config/settings.py:143-161 | setting a section replaces that section and no other |
| Settings.SetFieldSpec | src/markitdown_mcp_enhanced/config/settings.py:213 | setting a field changes that field alone |
| Settings.SameShapeFields | src/markitdown_mcp_enhanced/config/settings.py:244-248 | configurations of the same shape have the same fields |
| Settings.SetFieldShape | src/markitdown_mcp_enhanced/config/settings.py:213 | setting a field that exists keeps the configuration's shape |
| Settings.DefaultShaped | src/markitdown_mcp_enhanced/config/settings.py:15-85 | a fresh configuration has exactly its dataclasses' fields, in declaration order |
| Settings.ShapedTransport | src/markitdown_mcp_enhanced/config/settings.py:15-85 | anything with the shape of a well-shaped configuration is well shaped |
| Settings.ShapedFields | src/markitdown_mcp_enhanced/config/settings.py:15-85 | a well-shaped configuration has a field exactly where a fresh section has it |
| Settings.Construct | src/markitdown_mcp_enhanced/config/settings.py:143-161 | building a section succeeds exactly when the section is absent or every name given is one of its fields (else TypeError) |
| Settings.ConstructSpec | src/markitdown_mcp_enhanced/config/settings.py:143-161 | a built section has the dataclass's fields; an absent section is the default; a field not given keeps its default and a given one takes the value given last |
| Settings.ConfigFrom | src/markitdown_mcp_enhanced/config/settings.py:137-163 | rebuilding from a file raises exactly when some named section cannot be built |
| Settings.ConfigFromSection | src/markitdown_mcp_enhanced/config/settings.py:137-163 | each section of a rebuilt configuration is the one built from the file's object of its name |
| Settings.ConfigFromShape | src/markitdown_mcp_enhanced/config/settings.py:137-163 | a rebuilt configuration has the shape of the one it was rebuilt over |
| Settings.ConfigFromField | src/markitdown_mcp_enhanced/config/settings.py:137-163 | a section the file does not name is kept; in a named section an unmentioned field is kept and a mentioned one takes the file's value |
| Settings.DictToConfigSpec | src/markitdown_mcp_enhanced/config/settings.py:137-163 | a configuration read from a file has the dataclasses' fields, the default sections the file does not name, and the defaults of fields it does not mention |
| Settings.CoversSuffix | src/markitdown_mcp_enhanced/config/settings.py:191-213 | the mappings left to apply still name existing fields |
| Settings.DistinctTail | src/markitdown_mcp_enhanced/config/settings.py:191-213 | the mappings left to apply still set distinct fields |
| Settings.CoversTransport | src/markitdown_mcp_enhanced/config/settings.py:191-213 | a configuration of the same shape has the mapped fields too |
| Settings.EnvFieldsExist | src/markitdown_mcp_enhanced/config/settings.py:167-189 | every environment variable maps to a field a fresh configuration has |
| Settings.EnvTargetsDistinct | src/markitdown_mcp_enhanced/config/settings.py:167-189 | no two environment variables set the same field |
| Settings.ShapedCovers | src/markitdown_mcp_enhanced/config/settings.py:167-189 | every well-shaped configuration has all mapped fields |
| Settings.Convert | src/markitdown_mcp_enhanced/config/settings.py:196-211 | a bool field reads "true", "1", "yes", "on" in any case as true and anything else as false; an int or float field converts exactly when the text parses, else it is left alone; any other field takes the text |
| Settings.ApplyMapping | src/markitdown_mcp_enhanced/config/settings.py:191-213 | applying one mapping keeps the configuration's shape |
| Settings.ApplyMappingSpec | src/markitdown_mcp_enhanced/config/settings.py:191-213 | one mapping sets its own field when its variable is set and converts, and changes no other field |
| Settings.EnvOverrides | src/markitdown_mcp_enhanced/config/settings.py:165-214 | the environment overrides keep the configuration's shape |
| Settings.EnvUntouched | src/markitdown_mcp_enhanced/config/settings.py:165-214 | a field no mapping names keeps its value |
| Settings.EnvSetsFirst | src/markitdown_mcp_enhanced/config/settings.py:191-213 | the first mapping's field ends up as that mapping assigns it when no later mapping names it |
| Settings.EnvSets | src/markitdown_mcp_enhanced/config/settings.py:165-214 | every mapped field ends up converted from its variable when that is set and converts, and keeps its value otherwise |
| Settings.EnvSetsLater | src/markitdown_mcp_enhanced/config/settings.py:191-213 | the field of a later mapping ends up as it assigns it, given the rest of the table |
| Settings.ApplyOne | src/markitdown_mcp_enhanced/config/settings.py:192-213 | one mapping: a set variable is converted by the type of the field's current value and assigned, an unconvertible integer or float skips it, and no other field changes |
| Settings.ApplyEnvironment | src/markitdown_mcp_enhanced/config/settings.py:191-213 | the loop over the mapping table computes exactly the environment overrides |
| Settings.LoadFromEnvironment | src/markitdown_mcp_enhanced/config/settings.py:165-214 | the source's table of variables applied to the configuration gives its environment overrides |
| Settings.ResolveConfigPath | src/markitdown_mcp_enhanced/config/settings.py:95-116 | a non-empty argument wins, then a non-empty MARKITDOWN_CONFIG; otherwise the current directory's file when it exists, else the home file when only it exists, else the current directory's path |
| Settings.LoadBase | src/markitdown_mcp_enhanced/config/settings.py:118-133 | the file's configuration when the file exists, reads, parses and builds, and the defaults otherwise; either is well shaped |
| Settings.LoadConfig | src/markitdown_mcp_enhanced/config/settings.py:118-135 | the loaded configuration is always well shaped |
| Settings.LoadFailureKeepsDefaults | src/markitdown_mcp_enhanced/config/settings.py:123-135 | a missing, unreadable or unusable file leaves the defaults, and the environment overrides still apply |
| Settings.UpdateFields | src/markitdown_mcp_enhanced/config/settings.py:246-248 | updating fields of one section never adds or removes a field |
| Settings.UpdateSpec | src/markitdown_mcp_enhanced/config/settings.py:241-249 | an update never changes the configuration's shape |
| Settings.UpdateRaisesIff | src/markitdown_mcp_enhanced/config/settings.py:241-249 | an update raises exactly when one of its entries names a section but gives it no mapping |
| Settings.UpdateFieldsUntouched | src/markitdown_mcp_enhanced/config/settings.py:246-248 | a field the section's data does not name keeps its value |
| Settings.UpdateUntouchedFields | src/markitdown_mcp_enhanced/config/settings.py:241-249 | a field no entry of the update names keeps its value |
| Settings.UpdateOneField | src/markitdown_mcp_enhanced/config/settings.py:241-249 | updating one existing field sets it and raises nothing |
| Settings.UpdateFieldsSets | src/markitdown_mcp_enhanced/config/settings.py:246-248 | the inner loop sets an existing field to the value of its last mention |
| Settings.UpdateSetsFields | src/markitdown_mcp_enhanced/config/settings.py:241-249 | when no earlier entry raises, an existing field named by an entry ends with the value of the last entry and the last field naming it |
| Settings.UpdateAddsNoFields | src/markitdown_mcp_enhanced/config/settings.py:241-249 | after an update the sections still have exactly their dataclasses' fields |
| Settings.ConfigManager.constructor | src/markitdown_mcp_enhanced/config/settings.py:91-93 | a new manager resolves its path, loads the configuration from it and holds a well-shaped configuration |
| Settings.ConfigManager.UpdateConfig | src/markitdown_mcp_enhanced/config/settings.py:241-249 | the nested loops give the configuration and the error that the update specification describes |
| Uris.RouteUriSpec | src/voidlight_markitdown_mcp/core/markitdown.py:221-241 | each route is taken exactly for its scheme, file:// first; a file:// URI goes to the path after the scheme, and a URI with no known scheme is used as a local path unchanged |
| Uris.RouteSource | src/voidlight_markitdown_mcp/core/markitdown.py:167-188 | a local route is only ever taken for a path that exists (a file or a directory) |
| Uris.RouteSourceSpec | src/voidlight_markitdown_mcp/core/markitdown.py:167-188 | an existing path is converted locally and never taken for a URI; a missing path with no scheme raises FileNotFoundError; a data: string goes to the data-URI decoder |
| Uris.ParseDataUri | src/voidlight_markitdown_mcp/core/markitdown.py:243-260 | parsing a data URI can only fail with ValueError |
| Uris.ParseDataUriFails | src/voidlight_markitdown_mcp/core/markitdown.py:243-253 | parsing fails exactly without the data: prefix or without a comma after it |
| Uris.ParseDataUriWithParameters | src/voidlight_markitdown_mcp/core/markitdown.py:253-258 | data:type;parameters,payload parses back into its media type and payload, base64 exactly when the parameters mention it |
| Uris.ParseDataUriPlain | src/voidlight_markitdown_mcp/core/markitdown.py:256-261 | data:type,payload parses as that type, not base64, with the payload intact |
| Uris.DataUriInput | src/voidlight_markitdown_mcp/core/markitdown.py:243-273 | a decoded URI gives the bytes with a stream info carrying only the media type; a parse failure is passed on unchanged |
| Uris.UpToSemicolon | src/voidlight_markitdown_mcp/core/markitdown.py:308 | the run taken is the longest prefix without a ';' |
| Uris.StarValue | src/voidlight_markitdown_mcp/core/markitdown.py:308 | the filename* value is non-empty, has no ';', and starts right after the key or after UTF-8'' |
| Uris.StarAt | src/voidlight_markitdown_mcp/core/markitdown.py:308 | a filename* match is non-empty and has no ';' |
| Uris.QuotedAt | src/voidlight_markitdown_mcp/core/markitdown.py:313 | a quoted filename is non-empty and has no '"' |
| Uris.BareAt | src/voidlight_markitdown_mcp/core/markitdown.py:317 | a bare filename is non-empty and has no ';' |
| Uris.SearchSpec | src/voidlight_markitdown_mcp/core/markitdown.py:308-320 | a search finds a match exactly when the pattern matches somewhere, and the match found is the leftmost one |
| Uris.FilenameFromDispositionSpec | src/voidlight_markitdown_mcp/core/markitdown.py:303-322 | the filename* form wins wherever it stands and is percent-decoded; the quoted form is used only without it, the bare form (stripped) only without either; there is no filename exactly when none occurs |
| Uris.StarCaptured | src/voidlight_markitdown_mcp/core/markitdown.py:308 | the filename* value is the text that follows the key, with or without UTF-8'' |
| Uris.QuotedCaptured | src/voidlight_markitdown_mcp/core/markitdown.py:313 | the quoted value is the text between filename=" and the next quote |
| Uris.BareCaptured | src/voidlight_markitdown_mcp/core/markitdown.py:317 | the bare value is the text that follows filename= up to a ';' |
| Uris.HttpStreamInfo | src/voidlight_markitdown_mcp/core/markitdown.py:282-287 | the stream info carries the response's content type, the URL and the response encoding |
| Uris.HttpStreamInfoSpec | src/voidlight_markitdown_mcp/core/markitdown.py:289-295 | the filename is set exactly when the header yields a non-empty one, and the extension is then its lower-cased suffix |

## Left out

- Input and output are parameters of the model, not modelled code:
  - the HTTP fetch in `_convert_http_uri`;
  - opening and stat-ing local files in `convert_local` and `_extract_metadata`;
  - temporary files;
  - reading and writing the configuration file.
- `Uris.RouteSource` and `Uris.HttpStreamInfo` model only the routing and the stream info. The response itself is not modelled.
- These decoders are given functions, and the model states what happens for each answer they give: base64 and percent decoding of data URIs, `urllib.parse.unquote`, `html.unescape`, `json.load`, and Python's `float()` on text.
- Third-party libraries are oracles given as parameters:
  - python-magic and chardet;
  - every codec other than latin-1;
  - pdfminer, Azure Document Intelligence, python-docx and BeautifulSoup/markdownify;
  - Pillow, EasyOCR, Tesseract, Whisper, pydub and the OpenAI client.
- What a plugin's or a built-in converter's `accepts` and `convert` do on a stream is given by `MarkItDown.Engine`. The built-ins' `accepts` predicates are modelled in their own modules. `MarkItDown.PdfFaithful` ties the engine to one of them.
- Plugin discovery (`pkg_resources` entry points, `importlib`, `dir(module)`) is given as data. `create_plugin_template` writes a file and is not modelled.
- `ConfigManager.save_config`, `create_default_config` and `create_default_config_file` only write JSON files, so they are not modelled. `get_config` and `load_config` only return the configuration that `Settings.LoadConfig` describes.
- `Decimal.OneDecimal`: the file-size lines format the exact quotient, rounded half to even. Python formats the nearest double, which can differ at an exact tie.
- `format_file_size`, `format_timestamp` and `is_korean_text` work on floats, datetimes and ratios, so they are not modelled.
- `analyze_structure` and the regular-expression extractors behind it are not modelled, because their patterns double their backslashes. Of that family only `_detect_document_type` is modelled, as `MarkItDown.DocumentType`.
- `_detect_language` is not modelled.
- `extract_text_from_markdown` in `format_utils.py` is not modelled.
- Logging is not modelled.
- The unused `max_workers` and its thread pool are not modelled, so there is no concurrency.
- The LLM client, model name, DocIntel endpoint and exiftool path are not modelled. They are stored by `MarkItDown.__init__` and passed to converters whose library calls are oracles.
- A converter is a value: its kind and an identity number standing for the Python object. A converter's other attributes are fixed by its kind and its constructor arguments.
- `Streams.Stream` models the `io` semantics the stream helpers rely on: position, seekability, read, write at position and seek to the end. It does not model buffering layers, closing or text-mode streams.
- Paths are POSIX paths (`PurePosixPath`). Windows drive letters and separators are not modelled.
- Case mapping (`lower`, `capitalize`) is ASCII only.
- Python's `str.isspace` set is modelled exactly. Unicode word characters (`\w`) are approximated by ASCII letters, digits, `_`, Hangul (syllables and jamo) and CJK ideographs.
- `Decimal.ParseInt` accepts surrounding white space, a sign and ASCII digits only. Python's `int()` also accepts single underscores between digits (`"1_0"` is 10) and any Unicode decimal digit (`"٣"` is 3); those inputs give `None` here.
- `Settings.Convert` converts int fields with `Decimal.ParseInt`, so an environment value such as `1_0` or one written in non-ASCII digits is ignored here where the source would set the field.
- `DocxConverter.Number` matches `\d` with ASCII digits only. Python's `\d` also matches other Unicode decimal digits, so a style such as `heading ٣` has level 3 in the source and falls back to level 1 here.
- `FormatUtils.UnitPass` matches the number before a unit with ASCII digits only, for the same reason; a number written in other Unicode decimal digits keeps its space before the unit here.
- `FormatUtils.CleanHtmlShape` and `FormatUtils.NormalizeWhitespaceShape` state the shape of the result. They do not state that no text other than whitespace and markup is lost.
- `MarkItDown.ConvertWithGuessesSpec` states only that the one exception raised is `UnsupportedFormatException`. Which pair wins is stated by `MarkItDown.FirstSuccess` under the assumption that converters leave the stream where they found it. The code does not rewind, so the general case is the loop itself (`MarkItDown.WonByConvert`).

## Findings

| source | as written | input that shows it | evidently intended | confidence | as-written member | corrected member |
|---|---|---|---|---|---|---|
| src/voidlight_markitdown_mcp/core/base_converter.py:88 | `re.sub(r'(\S)\s+(\S)', r'\1 \2', text)` consumes the non-space character after each gap, so that character cannot start the next match and every other gap between single characters is left as it was | `"a  b  c"` becomes `"a b  c"` | every whitespace run between two non-space characters becomes one space | not executed | BaseConverter.PairSpacingSkipsEveryOtherGap | BaseConverter.CollapseGapsShape |
| src/markitdown_mcp_enhanced/converters/image_converter.py:290 | the dimensions line holds `Ã—` (U+00C3 U+2014), the UTF-8 bytes of `×` read as Windows-1252 | any image with width, height and format, e.g. 640 by 480: the line reads `640 Ã— 480 pixels` | `640 × 480 pixels` with the multiplication sign | not executed | ImageConverter.DimensionsAsWrittenLacksTimes | ImageConverter.DimensionsLineShowsTimes |
