/**
 * The DOCX converter over the records python-docx hands it: paragraphs
 * with a style name and formatted runs, tables as cell texts, and the core
 * properties' title. Its `accepts` test, the heading level read from a
 * style name, run formatting, table rendering, the content assembly, the
 * title precedence and the choice of exception in `convert`.
 */
module DocxConverter {
  import opened Wrappers
  import opened Strings
  import opened StreamInfos
  import opened Search
  import opened Dicts
  import opened BaseConverter
  import Decimal
  import PipeTables
  import FormatUtils
  import Concat
  import ConverterText

  const Mimetype: string := "application/vnd.openxmlformats-officedocument.wordprocessingml.document"
  const Extensions: seq<string> := [".docx"]
  const Mimetypes: seq<string> := [Mimetype]
  const Priority: real := 0.1

  /** A run of text; `bold` and `italic` hold only when python-docx reports True (not None). */
  datatype Run = Run(text: string, bold: bool, italic: bool, fontName: Option<string>)

  /** A paragraph: its text, its style's name and its runs. */
  datatype Paragraph = Paragraph(text: string, styleName: string, runs: seq<Run>)

  /** A table as the text of each cell, row by row. */
  datatype Table = Table(rows: seq<seq<string>>)

  /** What the converter reads of a loaded document. */
  datatype Document = Document(paragraphs: seq<Paragraph>, tables: seq<Table>, coreTitle: Option<string>)

  /**
   * What python-docx makes of the stream: the document with the metadata
   * gathered from its properties, or the text of the exception it raised.
   */
  datatype Loaded = Loaded(doc: Document, metadata: Dict<string, MetaValue>) | LoadFailed(detail: string)

  /** The attributes `DocxConverter(korean_support)` sets. */
  function Info(koreanSupport: bool): ConverterInfo
  {
    ConverterInfo("DocxConverter", Some("Microsoft Word DOCX file converter"), koreanSupport,
      Priority, Extensions, Mimetypes, "documents")
  }

  /** `get_format_info`, which this converter replaces with its own dictionary. */
  function FormatInfo(c: ConverterInfo): BaseConverter.FormatInfo
  {
    BaseConverter.FormatInfo("DOCX", "Microsoft Word document converter with formatting preservation",
      c.supportedExtensions, c.supportedMimetypes, c.category, None, None,
      Some(["Text extraction with formatting", "Heading detection", "Table conversion",
            "Metadata extraction", "Inline formatting (bold, italic)", "Korean text support"]))
  }

  /** `accepts`: the stream is not read. */
  predicate Accepts(info: StreamInfo)
  {
    MatchesMimetype(info, Mimetypes) || MatchesExtension(info, Extensions)
  }

  /** The WordprocessingML MIME type or any of its extensions, or the extension `.docx` in any case. */
  lemma AcceptsSpec(info: StreamInfo)
    ensures Accepts(info) <==>
      (Truthy(info.mimetype) && StartsWith(info.mimetype.value, Mimetype))
      || (Truthy(info.extension) && Lower(info.extension.value) == ".docx")
  {
    MatchesMimetypeSpec(info, Mimetypes);
    MatchesExtensionSpec(info, Extensions);
    assert Lower(".docx") == ".docx";
  }

  // ---------------------------------------------------------------- heading level

  /** White space, then a digit, at the start of `t`. */
  predicate DigitAfterSpace(t: string)
  {
    var w := SpanLen(t, IsSpace);
    w < |t| && IsDigit(t[w])
  }

  /** Does `heading\s*(\d+)` match at `i`? */
  predicate HeadingAt(s: string, i: nat)
  {
    OccursAt(s, "heading", i) && DigitAfterSpace(s[i + 7..])
  }

  /** The group `(\d+)` captures: the whole run of digits after the white space. */
  function Number(t: string): (digits: string)
    ensures Decimal.AllDigits(digits)
    ensures DigitAfterSpace(t) ==> digits != []
  {
    var u := t[SpanLen(t, IsSpace)..];
    u[..SpanLen(u, IsDigit)]
  }

  /** `re.search`: the leftmost position, from `i` on, where the pattern matches. */
  function FindHeading(s: string, i: nat): (r: Option<nat>)
    requires i <= |s|
    ensures r.Some? ==> i <= r.value < |s| && HeadingAt(s, r.value)
    ensures r.Some? ==> forall j :: i <= j < r.value ==> !HeadingAt(s, j)
    ensures r.None? ==> forall j :: i <= j <= |s| ==> !HeadingAt(s, j)
    decreases |s| - i
  {
    if i == |s| then None
    else if HeadingAt(s, i) then Some(i)
    else FindHeading(s, i + 1)
  }

  /** `min(level, 6)` */
  function Cap(level: nat): nat
  {
    if level < 6 then level else 6
  }

  /** `_extract_heading_level` on a lower-cased style name. */
  function HeadingLevel(styleName: string): (level: nat)
    ensures level <= 6
  {
    match FindHeading(styleName, 0)
    case None => 1
    case Some(i) => Cap(Decimal.DigitsValue(Number(styleName[i + 7..])))
  }

  /**
   * The level is 1 when no number follows "heading" anywhere; otherwise it is
   * the number after the leftmost such "heading", capped at 6 (so "heading 0"
   * gives level 0).
   */
  lemma HeadingLevelSpec(s: string)
    ensures (forall j :: 0 <= j <= |s| ==> !HeadingAt(s, j)) ==> HeadingLevel(s) == 1
    ensures forall i :: 0 <= i <= |s| && HeadingAt(s, i) && (forall j :: 0 <= j < i ==> !HeadingAt(s, j)) ==>
      HeadingLevel(s) == Cap(Decimal.DigitsValue(Number(s[i + 7..])))
  {
    var r := FindHeading(s, 0);
    if r.Some? {
      forall i | 0 <= i <= |s| && HeadingAt(s, i) && (forall j :: 0 <= j < i ==> !HeadingAt(s, j))
        ensures i == r.value
      {
      }
    }
  }

  /** Word's own style names: "heading n" has level n up to 6, and 6 beyond. */
  lemma NumberedStyleLevel(n: nat)
    ensures HeadingLevel("heading " + Decimal.NatToString(n)) == Cap(n)
  {
    var digits := Decimal.NatToString(n);
    var s := "heading " + digits;
    var t := s[7..];
    assert t == " " + digits;
    assert SpanLen(t, IsSpace) == 1 by {
      assert IsSpace(t[0]) && !IsSpace(t[1]);
    }
    var u := t[1..];
    assert u == digits;
    assert SpanLen(u, IsDigit) == |u|;
    assert Number(t) == digits;
    assert OccursAt(s, "heading", 0);
    assert HeadingAt(s, 0);
    Decimal.NatToStringRoundTrip(n);
  }

  // ---------------------------------------------------------------- runs

  /** A font whose lower-cased name contains courier, consola or monaco marks code. */
  predicate IsCodeFont(fontName: Option<string>)
  {
    var f := Lower(fontName.UnwrapOr(""));
    Contains(f, "courier") || Contains(f, "consola") || Contains(f, "monaco")
  }

  /** The emphasis marker: `***` bold and italic, `**` bold, `*` italic, none otherwise. */
  function Emphasis(bold: bool, italic: bool): (m: string)
    ensures |m| == (if bold then 2 else 0) + (if italic then 1 else 0)
    ensures forall i :: 0 <= i < |m| ==> m[i] == '*'
  {
    if bold && italic then "***" else if bold then "**" else if italic then "*" else ""
  }

  /** A run's markdown: its text in emphasis markers, then in backticks when its font marks code. */
  function FormatRun(run: Run): string
  {
    var m := Emphasis(run.bold, run.italic);
    var t := m + run.text + m;
    if IsCodeFont(run.fontName) then "`" + t + "`" else t
  }

  /** How many marker characters stand on each side of a run's text. */
  function MarkerWidth(run: Run): nat
  {
    (if run.bold then 2 else 0) + (if run.italic then 1 else 0) + (if IsCodeFont(run.fontName) then 1 else 0)
  }

  /**
   * A run's text stands between `k` marker characters on each side: a
   * backtick outermost when the font marks code, then asterisks, two for
   * bold and one for italic; cutting them off gives back the text.
   */
  lemma FormatRunShape(run: Run)
    ensures var r := FormatRun(run); var k := MarkerWidth(run);
      && |r| == |run.text| + 2 * k
      && r[k..|r| - k] == run.text
      && (IsCodeFont(run.fontName) ==> r[0] == '`' && r[|r| - 1] == '`')
      && (forall i :: (if IsCodeFont(run.fontName) then 1 else 0) <= i < k ==> r[i] == '*')
      && (forall i :: |r| - k <= i < |r| - (if IsCodeFont(run.fontName) then 1 else 0) ==> r[i] == '*')
  {
    var m := Emphasis(run.bold, run.italic);
    if IsCodeFont(run.fontName) {
      CodeStarred(m, run.text);
    } else {
      Starred(m, run.text);
    }
  }

  /** Text between asterisk markers, then between backticks. */
  lemma CodeStarred(m: string, text: string)
    requires forall i :: 0 <= i < |m| ==> m[i] == '*'
    ensures var r := "`" + (m + text + m) + "`"; var k := |m| + 1;
      && |r| == |text| + 2 * k
      && r[k..|r| - k] == text
      && r[0] == '`' && r[|r| - 1] == '`'
      && (forall i :: 1 <= i < k ==> r[i] == '*')
      && (forall i :: |r| - k <= i < |r| - 1 ==> r[i] == '*')
  {
    var r := "`" + (m + text + m) + "`";
    var k := |m| + 1;
    assert r == ("`" + m) + text + (m + "`");
    assert r[k..|r| - k] == text;
  }

  /** Text between two copies of an asterisk marker. */
  lemma Starred(m: string, text: string)
    requires forall i :: 0 <= i < |m| ==> m[i] == '*'
    ensures var t := m + text + m;
      && |t| == |text| + 2 * |m|
      && t[|m|..|t| - |m|] == text
      && (forall i :: 0 <= i < |m| ==> t[i] == '*')
      && (forall i :: |t| - |m| <= i < |t| ==> t[i] == '*')
  {
    var t := m + text + m;
    assert t[|m|..|t| - |m|] == text;
  }

  /** `_process_paragraph_formatting`: the runs' markdown, in order. */
  method ProcessParagraphFormatting(runs: seq<Run>) returns (text: string)
    ensures text == Concat.Flatten(runs, FormatRun)
  {
    text := [];
    for i := 0 to |runs|
      invariant text == Concat.Flatten(runs[..i], FormatRun)
    {
      assert runs[..i + 1][..i] == runs[..i];
      var run := runs[i];
      var runText := run.text;
      if run.bold && run.italic {
        runText := "***" + runText + "***";
      } else if run.bold {
        runText := "**" + runText + "**";
      } else if run.italic {
        runText := "*" + runText + "*";
      }
      if IsCodeFont(run.fontName) {
        runText := "`" + runText + "`";
      }
      assert runText == FormatRun(run);
      text := text + runText;
    }
    assert runs[..|runs|] == runs;
  }

  function RunText(run: Run): string { run.text }

  /** Without bold, italic or a code font anywhere, the paragraph is its runs' text unchanged. */
  lemma PlainRuns(runs: seq<Run>)
    requires forall i :: 0 <= i < |runs| ==> !runs[i].bold && !runs[i].italic && !IsCodeFont(runs[i].fontName)
    ensures Concat.Flatten(runs, FormatRun) == Concat.Flatten(runs, RunText)
  {
    forall i | 0 <= i < |runs| ensures FormatRun(runs[i]) == RunText(runs[i]) {
      assert Emphasis(runs[i].bold, runs[i].italic) == [];
    }
    Concat.FlattenCongruent(runs, FormatRun, RunText);
  }

  // ---------------------------------------------------------------- tables

  /** A cell: stripped, each `|` preceded by a backslash, each newline made a space. */
  function Cell(text: string): string
  {
    SpaceNewlines(PipeTables.EscapePipes(Strip(text), "\\"))
  }

  /** `s.replace('\n', ' ')` */
  function SpaceNewlines(s: string): string
  {
    ReplaceChar(s, '\n', " ")
  }

  /** A rendered cell has no newline, every pipe in it is escaped, and it has as many pipes as the stripped text. */
  lemma CellShape(text: string)
    ensures '\n' !in Cell(text)
    ensures PipeTables.PipesEscaped(Cell(text), "\\")
    ensures CountChar(Cell(text), '|') == CountChar(Strip(text), '|')
  {
    var e := PipeTables.EscapePipes(Strip(text), "\\");
    PipeTables.EscapePipesShape(Strip(text), "\\");
    PipeTables.EscapePipesCount(Strip(text), "\\");
    SpaceNewlinesShape(e);
  }

  /** Turning newlines into spaces leaves none, keeps every pipe and every escape before one. */
  lemma SpaceNewlinesShape(e: string)
    requires PipeTables.PipesEscaped(e, "\\")
    ensures var r := SpaceNewlines(e);
      && '\n' !in r
      && PipeTables.PipesEscaped(r, "\\")
      && CountChar(r, '|') == CountChar(e, '|')
  {
    PipeTables.NewlinesToSpaces(e);
    SpaceNewlinesEscaped(e);
    SamePipes(e, SpaceNewlines(e));
  }

  lemma SpaceNewlinesEscaped(e: string)
    requires PipeTables.PipesEscaped(e, "\\")
    requires var r := SpaceNewlines(e);
      |r| == |e| && forall i :: 0 <= i < |e| ==> r[i] == if e[i] == '\n' then ' ' else e[i]
    ensures PipeTables.PipesEscaped(SpaceNewlines(e), "\\")
  {
    var r := SpaceNewlines(e);
    forall i | 0 <= i < |r| && r[i] == '|' ensures i >= 1 && r[i - 1..i] == "\\" {
      assert e[i] == '|';
      assert e[i - 1..i] == "\\";
      assert r[i - 1..i] == [r[i - 1]];
    }
  }

  lemma {:induction false} SamePipes(a: string, b: string)
    requires |a| == |b| && forall i :: 0 <= i < |a| ==> (a[i] == '|' <==> b[i] == '|')
    ensures CountChar(a, '|') == CountChar(b, '|')
    decreases |a|
  {
    if a != [] {
      SamePipes(a[1..], b[1..]);
    }
  }

  /** A rendered DOCX cell has no newline. */
  predicate NoNewline(c: string) { '\n' !in c }

  /** The rows `_convert_table` keeps. */
  function KeptRows(rows: seq<seq<string>>): (r: seq<seq<string>>)
  {
    PipeTables.KeptRows(rows, Cell)
  }

  lemma KeptRowsShape(rows: seq<seq<string>>)
    ensures var r := KeptRows(rows);
      && (r == [] <==> forall i :: 0 <= i < |rows| ==> rows[i] == [])
      && (forall k :: 0 <= k < |r| ==> r[k] != [])
      && (forall row, c :: row in r && c in row ==> '\n' !in c)
  {
    forall s ensures NoNewline(Cell(s)) { CellShape(s); }
    PipeTables.KeptRowsShape(rows, Cell, NoNewline);
  }

  /** `_convert_table` */
  function TableMarkdown(table: Table): string
  {
    PipeTables.Table(KeptRows(table.rows), "\n")
  }

  /**
   * No rows with cells give no text. Otherwise the table is what
   * `create_markdown_table` makes of the first kept row as header and the
   * others as data (each cut or padded to the header's width), or just the
   * header and `---` lines for a single row; it has one line per kept row
   * plus the `---` line.
   */
  lemma TableShape(table: Table)
    ensures var kept := KeptRows(table.rows);
      && (TableMarkdown(table) == [] <==> forall i :: 0 <= i < |table.rows| ==> table.rows[i] == [])
      && (|kept| > 1 ==> TableMarkdown(table) == FormatUtils.MarkdownTable(kept[0], kept[1..]))
      && (|kept| == 1 ==>
            (TableMarkdown(table) == PipeTables.Line(kept[0], "\n") + PipeTables.Line(PipeTables.Dashes(|kept[0]|), "\n")))
      && (kept != [] ==> CountChar(TableMarkdown(table), '\n') == |kept| + 1)
  {
    var kept := KeptRows(table.rows);
    KeptRowsShape(table.rows);
    if kept != [] {
      PipeTables.TableIsMarkdownTable(kept);
      PipeTables.TableLineCount(kept);
    }
  }

  /** The inner loop of `_convert_table`: one row's cells. */
  method RowCells(row: seq<string>) returns (cells: seq<string>)
    ensures cells == PipeTables.Cells(row, Cell)
  {
    cells := [];
    for j := 0 to |row|
      invariant cells == PipeTables.Cells(row[..j], Cell)
    {
      var cellText := Strip(row[j]);
      cellText := ReplaceChar(cellText, '|', "\\|");
      cellText := ReplaceChar(cellText, '\n', " ");
      assert "\\|" == "\\" + "|";
      assert cellText == Cell(row[j]);
      PipeTables.CellsSnoc(row, Cell, j);
      cells := cells + [cellText];
    }
    assert row[..|row|] == row;
  }

  /** The loops of `_convert_table`. */
  method ConvertTable(table: Table) returns (markdown: string)
    ensures markdown == TableMarkdown(table)
  {
    var rows: seq<seq<string>> := [];
    for i := 0 to |table.rows|
      invariant rows == KeptRows(table.rows[..i])
    {
      assert table.rows[..i + 1][..i] == table.rows[..i];
      var cells := RowCells(table.rows[i]);
      if cells != [] {
        rows := rows + [cells];
      }
    }
    assert table.rows[..|table.rows|] == table.rows;
    markdown := PipeTables.RenderTable(rows, "\n");
  }

  // ---------------------------------------------------------------- content

  /**
   * One paragraph's block: nothing when its text strips to nothing; a
   * heading style gives hashes for its level, a title style `# `, both
   * before the stripped text; any other style gives the formatted runs.
   */
  function ParagraphBlock(p: Paragraph): string
  {
    var text := Strip(p.text);
    if text == [] then []
    else
      var style := Lower(p.styleName);
      if Contains(style, "heading") then Repeat('#', HeadingLevel(style)) + " " + text + "\n\n"
      else if Contains(style, "title") then "# " + text + "\n\n"
      else Concat.Flatten(p.runs, FormatRun) + "\n\n"
  }

  /** One table's block: its markdown and a blank line, or nothing. */
  function TableBlock(t: Table): string
  {
    var md := TableMarkdown(t);
    if md == [] then [] else md + "\n\n"
  }

  /** `_extract_content`: all paragraph blocks, then all table blocks. */
  function Content(doc: Document): string
  {
    Concat.Flatten(doc.paragraphs, ParagraphBlock) + Concat.Flatten(doc.tables, TableBlock)
  }

  /** The body of the paragraph loop of `_extract_content`. */
  method RenderParagraph(paragraph: Paragraph) returns (block: string)
    ensures block == ParagraphBlock(paragraph)
  {
    var text := Strip(paragraph.text);
    if text == [] {
      return [];
    }
    var styleName := Lower(paragraph.styleName);
    if Contains(styleName, "heading") {
      var level := HeadingLevel(styleName);
      block := Repeat('#', level) + " " + text + "\n\n";
    } else if Contains(styleName, "title") {
      block := "# " + text + "\n\n";
    } else {
      var formattedText := ProcessParagraphFormatting(paragraph.runs);
      block := formattedText + "\n\n";
    }
  }

  /** The body of the table loop of `_extract_content`. */
  method RenderTableBlock(table: Table) returns (block: string)
    ensures block == TableBlock(table)
  {
    var tableMarkdown := ConvertTable(table);
    if tableMarkdown != [] {
      block := tableMarkdown + "\n\n";
    } else {
      block := [];
    }
  }

  /** `_extract_content`: the paragraph loop, then the table loop, appending to one string. */
  method ExtractContent(doc: Document) returns (markdown: string)
    ensures markdown == Content(doc)
  {
    markdown := RenderParagraphs(doc.paragraphs);
    var tablesMarkdown := RenderTables(doc.tables);
    markdown := markdown + tablesMarkdown;
  }

  /** The paragraph loop of `_extract_content`. */
  method RenderParagraphs(paragraphs: seq<Paragraph>) returns (markdown: string)
    ensures markdown == Concat.Flatten(paragraphs, ParagraphBlock)
  {
    markdown := [];
    for i := 0 to |paragraphs|
      invariant markdown == Concat.Flatten(paragraphs[..i], ParagraphBlock)
    {
      assert paragraphs[..i + 1][..i] == paragraphs[..i];
      var block := RenderParagraph(paragraphs[i]);
      markdown := markdown + block;
    }
    assert paragraphs[..|paragraphs|] == paragraphs;
  }

  /** The table loop of `_extract_content`. */
  method RenderTables(tables: seq<Table>) returns (markdown: string)
    ensures markdown == Concat.Flatten(tables, TableBlock)
  {
    markdown := [];
    for i := 0 to |tables|
      invariant markdown == Concat.Flatten(tables[..i], TableBlock)
    {
      assert tables[..i + 1][..i] == tables[..i];
      var block := RenderTableBlock(tables[i]);
      markdown := markdown + block;
    }
    assert tables[..|tables|] == tables;
  }

  lemma ParagraphBlockShape(p: Paragraph)
    ensures ParagraphBlock(p) == [] <==> Strip(p.text) == []
    ensures ParagraphBlock(p) == [] || EndsWith(ParagraphBlock(p), "\n\n")
  {
  }

  lemma TableBlockShape(t: Table)
    ensures TableBlock(t) == [] <==> forall i :: 0 <= i < |t.rows| ==> t.rows[i] == []
    ensures TableBlock(t) == [] || EndsWith(TableBlock(t), "\n\n")
  {
    TableShape(t);
  }

  /**
   * The content is empty exactly when every paragraph is blank and no table
   * has a row with cells; otherwise it ends with a blank line.
   */
  lemma ContentShape(doc: Document)
    ensures Content(doc) == [] <==>
      (forall i :: 0 <= i < |doc.paragraphs| ==> Strip(doc.paragraphs[i].text) == [])
      && (forall i, j :: 0 <= i < |doc.tables| && 0 <= j < |doc.tables[i].rows| ==> doc.tables[i].rows[j] == [])
    ensures Content(doc) != [] ==> EndsWith(Content(doc), "\n\n")
  {
    ParagraphsShape(doc.paragraphs);
    TablesShape(doc.tables);
    var a := Concat.Flatten(doc.paragraphs, ParagraphBlock);
    var b := Concat.Flatten(doc.tables, TableBlock);
    if b == [] {
      assert a + b == a;
    } else {
      assert (a + b)[|a + b| - 2..] == b[|b| - 2..];
    }
  }

  lemma ParagraphsShape(ps: seq<Paragraph>)
    ensures var a := Concat.Flatten(ps, ParagraphBlock);
      && (a == [] <==> forall i :: 0 <= i < |ps| ==> Strip(ps[i].text) == [])
      && (a != [] ==> EndsWith(a, "\n\n"))
  {
    forall i | 0 <= i < |ps|
      ensures (ParagraphBlock(ps[i]) == [] <==> Strip(ps[i].text) == [])
      ensures ParagraphBlock(ps[i]) == [] || EndsWith(ParagraphBlock(ps[i]), "\n\n")
    {
      ParagraphBlockShape(ps[i]);
    }
    Concat.FlattenEmpty(ps, ParagraphBlock);
    Concat.FlattenEndsWith(ps, ParagraphBlock, "\n\n");
  }

  lemma TablesShape(ts: seq<Table>)
    ensures var b := Concat.Flatten(ts, TableBlock);
      && (b == [] <==> forall i, j :: 0 <= i < |ts| && 0 <= j < |ts[i].rows| ==> ts[i].rows[j] == [])
      && (b != [] ==> EndsWith(b, "\n\n"))
  {
    forall i | 0 <= i < |ts|
      ensures (TableBlock(ts[i]) == [] <==> forall j :: 0 <= j < |ts[i].rows| ==> ts[i].rows[j] == [])
      ensures TableBlock(ts[i]) == [] || EndsWith(TableBlock(ts[i]), "\n\n")
    {
      TableBlockShape(ts[i]);
    }
    Concat.FlattenEmpty(ts, TableBlock);
    Concat.FlattenEndsWith(ts, TableBlock, "\n\n");
  }

  // ---------------------------------------------------------------- title

  /** A non-blank paragraph whose lower-cased style name contains "title" or "heading 1". */
  predicate TitleStyled(p: Paragraph)
  {
    Strip(p.text) != [] && (Contains(Lower(p.styleName), "title") || Contains(Lower(p.styleName), "heading 1"))
  }

  function Texts(ps: seq<Paragraph>): (r: seq<string>)
    ensures |r| == |ps| && forall i :: 0 <= i < |ps| ==> r[i] == ps[i].text
  {
    seq(|ps|, i requires 0 <= i < |ps| => ps[i].text)
  }

  /**
   * `_extract_docx_title`: the core properties' title when set; else the
   * first title-styled paragraph; else the first paragraph whose stripped
   * text is non-empty and under 100 characters; each formatted.
   */
  function Title(koreanSupport: bool, doc: Document): (r: Option<string>)
    ensures r.Some? ==> |r.value| <= MaxTitle
  {
    if Truthy(doc.coreTitle) then Some(FormatTitle(koreanSupport, doc.coreTitle.value))
    else match FirstIndexFrom(doc.paragraphs, TitleStyled, 0)
      case Some(i) => Some(FormatTitle(koreanSupport, Strip(doc.paragraphs[i].text)))
      case None =>
        match ConverterText.FirstShortLine(Texts(doc.paragraphs))
        case Some(line) => Some(FormatTitle(koreanSupport, line))
        case None => None
  }

  /**
   * The core title wins; without one, the first title-styled paragraph
   * gives a non-empty title; there is no title only when there is no core
   * title, no title-styled paragraph and no short line.
   */
  lemma TitleSpec(koreanSupport: bool, doc: Document)
    ensures var r := Title(koreanSupport, doc); var ps := doc.paragraphs;
      && (Truthy(doc.coreTitle) ==> r == Some(FormatTitle(koreanSupport, doc.coreTitle.value)))
      && (!Truthy(doc.coreTitle) ==> forall i :: 0 <= i < |ps| && TitleStyled(ps[i]) && (forall j :: 0 <= j < i ==> !TitleStyled(ps[j])) ==>
            r == Some(FormatTitle(koreanSupport, Strip(ps[i].text))) && r.value != [])
      && (r.None? <==>
            !Truthy(doc.coreTitle)
            && (forall i :: 0 <= i < |ps| ==> !TitleStyled(ps[i]))
            && (forall i :: 0 <= i < |ps| ==> !ConverterText.ShortLine(ps[i].text)))
  {
    TitleNone(koreanSupport, doc);
    TitleStyledWins(koreanSupport, doc);
  }

  /** Without a core title, the first title-styled paragraph wins. */
  lemma TitleStyledWins(koreanSupport: bool, doc: Document)
    ensures var r := Title(koreanSupport, doc); var ps := doc.paragraphs;
      !Truthy(doc.coreTitle) ==> forall i :: 0 <= i < |ps| && TitleStyled(ps[i]) && (forall j :: 0 <= j < i ==> !TitleStyled(ps[j])) ==>
        r == Some(FormatTitle(koreanSupport, Strip(ps[i].text))) && r.value != []
  {
    var ps := doc.paragraphs;
    if !Truthy(doc.coreTitle) {
      forall i | 0 <= i < |ps| && TitleStyled(ps[i]) && (forall j :: 0 <= j < i ==> !TitleStyled(ps[j]))
        ensures Title(koreanSupport, doc) == Some(FormatTitle(koreanSupport, Strip(ps[i].text)))
        ensures Title(koreanSupport, doc).value != []
      {
        TitleFirstStyled(koreanSupport, doc, i);
      }
    }
  }

  /** Without a core title, the first title-styled paragraph gives a non-empty title. */
  lemma TitleFirstStyled(koreanSupport: bool, doc: Document, i: nat)
    requires !Truthy(doc.coreTitle) && i < |doc.paragraphs| && TitleStyled(doc.paragraphs[i])
    requires forall j :: 0 <= j < i ==> !TitleStyled(doc.paragraphs[j])
    ensures Title(koreanSupport, doc) == Some(FormatTitle(koreanSupport, Strip(doc.paragraphs[i].text)))
    ensures Title(koreanSupport, doc).value != []
  {
    var ps := doc.paragraphs;
    FirstIndexFromSpec(ps, TitleStyled, 0);
    var k := FirstIndexFrom(ps, TitleStyled, 0).value;
    assert k == i;
    StripIdempotent(ps[k].text);
    FormatTitleNonEmpty(koreanSupport, Strip(ps[k].text));
  }

  /** There is no title exactly when there is no core title, no title-styled paragraph and no short line. */
  lemma TitleNone(koreanSupport: bool, doc: Document)
    ensures var ps := doc.paragraphs;
      Title(koreanSupport, doc).None? <==>
        !Truthy(doc.coreTitle)
        && (forall i :: 0 <= i < |ps| ==> !TitleStyled(ps[i]))
        && (forall i :: 0 <= i < |ps| ==> !ConverterText.ShortLine(ps[i].text))
  {
    var ps := doc.paragraphs;
    FirstIndexFromSpec(ps, TitleStyled, 0);
    ConverterText.FirstShortLineSpec(Texts(ps));
    if !Truthy(doc.coreTitle) && FirstIndexFrom(ps, TitleStyled, 0).Some? {
      var k := FirstIndexFrom(ps, TitleStyled, 0).value;
      assert TitleStyled(ps[k]);
    }
  }

  // ---------------------------------------------------------------- convert

  /**
   * `convert`: a missing python-docx raises `MissingDependencyException`
   * before anything else; a failure while loading is re-raised as
   * `FileConversionException`; otherwise the cleaned content, the title and
   * the metadata.
   */
  function Convert(koreanSupport: bool, docxAvailable: bool, loaded: Loaded): (r: Outcome<DocumentConverterResult>)
    ensures !docxAvailable ==> r.Raised? && r.error.MissingDependencyException?
    ensures docxAvailable && loaded.LoadFailed? ==>
      r == Raised(FileConversionException("DOCX conversion failed: " + loaded.detail))
    ensures r.Returned? ==>
      (docxAvailable && loaded.Loaded?
       && r.value.title == Title(koreanSupport, loaded.doc)
       && (Content(loaded.doc) == [] ==> r.value.markdown == []))
  {
    if !docxAvailable then Raised(MissingDependencyException("python-docx is required for DOCX conversion"))
    else match loaded
      case LoadFailed(detail) => Raised(FileConversionException("DOCX conversion failed: " + detail))
      case Loaded(doc, metadata) =>
        Returned(DocumentConverterResult(CleanMarkdown(koreanSupport, Content(doc)), Title(koreanSupport, doc), Some(metadata)))
  }
}
