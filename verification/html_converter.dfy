/**
 * The HTML converter over what BeautifulSoup finds in a page: its `accepts`
 * test, the pipe tables it renders (cells escaped with two backslashes,
 * lines ended by the two characters `\` and `n`), the title precedence, the
 * `<meta>` filter of its metadata and the choice of exception in `convert`.
 */
module HtmlConverter {
  import opened Wrappers
  import opened Strings
  import opened StreamInfos
  import opened Search
  import opened Dicts
  import opened BaseConverter
  import PipeTables

  const Extensions: seq<string> := [".html", ".htm"]
  const Mimetypes: seq<string> := ["text/html", "application/xhtml+xml"]
  const Priority: real := 2.0

  /** The escape written before a `|` in a cell: two backslashes. */
  const Escape: string := "\\\\"

  /** The table line terminator: backslash, then `n`. */
  const LineSep: string := "\\n"

  /** A `<meta>` tag's `name`, `property` and `content` attributes. */
  datatype Meta = Meta(name: Option<string>, property: Option<string>, content: Option<string>)

  /**
   * What the converter reads of a parsed page: the text of the first
   * `<title>` and of the first `<h1>` when there are such tags, the `<meta>`
   * tags in document order, and the `lang` attribute of the first `<html>`.
   */
  datatype Page = Page(title: Option<string>, h1: Option<string>, metas: seq<Meta>, lang: Option<string>)

  /**
   * What reading, parsing and rendering the stream gives: the page with its
   * markdown (from markdownify or the BeautifulSoup fallback), or the text of
   * the exception raised on the way.
   */
  datatype Parsed = Parsed(page: Page, markdown: string) | ParseFailed(detail: string)

  /** The attributes `HtmlConverter(korean_support)` sets. */
  function Info(koreanSupport: bool): ConverterInfo
  {
    ConverterInfo("HtmlConverter", Some("HTML file converter"), koreanSupport,
      Priority, Extensions, Mimetypes, "web")
  }

  /** `get_format_info`, which this converter replaces with its own dictionary. */
  function FormatInfo(c: ConverterInfo): BaseConverter.FormatInfo
  {
    BaseConverter.FormatInfo("HTML", "HTML document converter with metadata extraction",
      c.supportedExtensions, c.supportedMimetypes, c.category, None, None,
      Some(["HTML to Markdown conversion", "Metadata extraction", "Table conversion",
            "List processing", "Link preservation"]))
  }

  /** `accepts`: the stream is not read. */
  predicate Accepts(info: StreamInfo)
  {
    MatchesMimetype(info, Mimetypes) || MatchesExtension(info, Extensions)
  }

  /** An HTML or XHTML MIME type (or one they start), or `.html` or `.htm` in any case. */
  lemma AcceptsSpec(info: StreamInfo)
    ensures Accepts(info) <==>
      (Truthy(info.mimetype)
        && (StartsWith(info.mimetype.value, "text/html") || StartsWith(info.mimetype.value, "application/xhtml+xml")))
      || (Truthy(info.extension)
        && (Lower(info.extension.value) == ".html" || Lower(info.extension.value) == ".htm"))
  {
    MatchesMimetypeSpec(info, Mimetypes);
    MatchesExtensionSpec(info, Extensions);
    if Truthy(info.extension) {
      var e := Lower(info.extension.value);
      assert Lower(Extensions[0]) == ".html" && Lower(Extensions[1]) == ".htm";
      assert (exists i :: 0 <= i < |Extensions| && Lower(Extensions[i]) == e) <==> e == ".html" || e == ".htm";
    }
    if Truthy(info.mimetype) {
      var m := info.mimetype.value;
      assert (exists i :: 0 <= i < |Mimetypes| && StartsWith(m, Mimetypes[i])) <==>
        StartsWith(m, Mimetypes[0]) || StartsWith(m, Mimetypes[1]);
    }
  }

  // ---------------------------------------------------------------- tables

  /** A cell: its text stripped, each `|` preceded by two backslashes. */
  function Cell(text: string): string
  {
    PipeTables.EscapePipes(Strip(text), Escape)
  }

  ghost predicate Escaped(c: string)
  {
    PipeTables.PipesEscaped(c, Escape)
  }

  /** `_table_to_markdown`, for the cell texts of each `<tr>`'s `<td>` and `<th>` tags. */
  function TableMarkdown(rows: seq<seq<string>>): string
  {
    PipeTables.Table(PipeTables.KeptRows(rows, Cell), LineSep)
  }

  /** The cell loop of `_table_to_markdown`. */
  method RowCells(row: seq<string>) returns (cells: seq<string>)
    ensures cells == PipeTables.Cells(row, Cell)
  {
    cells := [];
    for j := 0 to |row|
      invariant cells == PipeTables.Cells(row[..j], Cell)
    {
      var text := Strip(row[j]);
      text := ReplaceChar(text, '|', "\\\\|");
      assert "\\\\|" == Escape + "|";
      assert text == Cell(row[j]);
      PipeTables.CellsSnoc(row, Cell, j);
      cells := cells + [text];
    }
    assert row[..|row|] == row;
  }

  /** The loops of `_table_to_markdown`. */
  method TableToMarkdown(rows: seq<seq<string>>) returns (markdown: string)
    ensures markdown == TableMarkdown(rows)
  {
    var kept: seq<seq<string>> := [];
    for i := 0 to |rows|
      invariant kept == PipeTables.KeptRows(rows[..i], Cell)
    {
      assert rows[..i + 1][..i] == rows[..i];
      var cells := RowCells(rows[i]);
      if cells != [] {
        kept := kept + [cells];
      }
    }
    assert rows[..|rows|] == rows;
    markdown := PipeTables.RenderTable(kept, LineSep);
  }

  /**
   * No row with cells gives no text; otherwise the table opens with the
   * first such row and a `---` cell per header cell, and every `|` inside a
   * cell follows two backslashes.
   */
  lemma TableShape(rows: seq<seq<string>>)
    ensures var kept := PipeTables.KeptRows(rows, Cell);
      && (TableMarkdown(rows) == [] <==> forall i :: 0 <= i < |rows| ==> rows[i] == [])
      && (kept != [] ==>
            StartsWith(TableMarkdown(rows), PipeTables.Line(kept[0], LineSep) + PipeTables.Line(PipeTables.Dashes(|kept[0]|), LineSep)))
      && (forall row, c :: row in kept && c in row ==> PipeTables.PipesEscaped(c, Escape))
  {
    forall s ensures Escaped(Cell(s)) {
      PipeTables.EscapePipesShape(Strip(s), Escape);
    }
    PipeTables.KeptRowsShape(rows, Cell, Escaped);
  }

  // ---------------------------------------------------------------- title

  predicate IsOgTitle(m: Meta) { m.property == Some("og:title") }

  /** `soup.find('meta', {'property': 'og:title'})`, then its content or "" when it has none. */
  function OgTitle(metas: seq<Meta>): Option<string>
  {
    match FirstIndexFrom(metas, IsOgTitle, 0)
    case None => None
    case Some(i) => Some(metas[i].content.UnwrapOr(""))
  }

  /** The first og:title meta gives the value; there is one only when some meta is og:title. */
  lemma OgTitleSpec(metas: seq<Meta>)
    ensures OgTitle(metas).None? <==> forall i :: 0 <= i < |metas| ==> !IsOgTitle(metas[i])
    ensures forall i :: 0 <= i < |metas| && IsOgTitle(metas[i]) && (forall j :: 0 <= j < i ==> !IsOgTitle(metas[j])) ==>
      OgTitle(metas) == Some(metas[i].content.UnwrapOr(""))
  {
    FirstIndexFromSpec(metas, IsOgTitle, 0);
    var f := FirstIndexFrom(metas, IsOgTitle, 0);
    if f.Some? {
      forall i | 0 <= i < |metas| && IsOgTitle(metas[i]) && (forall j :: 0 <= j < i ==> !IsOgTitle(metas[j]))
        ensures i == f.value
      {
      }
    }
  }

  /** A tag was found and its text is not blank. */
  predicate Usable(text: Option<string>)
  {
    text.Some? && Strip(text.value) != []
  }

  /** The text the title comes from: the `<title>` text, else the `<h1>` text, else the og:title content, the first that is not blank, stripped. */
  function TitleSource(page: Page): (r: Option<string>)
    ensures r.Some? ==> r.value != [] && Strip(r.value) == r.value
  {
    var og := OgTitle(page.metas);
    var t := if Usable(page.title) then page.title else if Usable(page.h1) then page.h1 else og;
    if Usable(t) then
      StripIdempotent(t.value);
      Some(Strip(t.value))
    else None
  }

  /** `_extract_html_title`: the chosen text, formatted. */
  function Title(koreanSupport: bool, page: Page): (r: Option<string>)
    ensures r.Some? ==> r.value != [] && |r.value| <= MaxTitle
  {
    match TitleSource(page)
    case None => None
    case Some(t) =>
      FormatTitleNonEmpty(koreanSupport, t);
      Some(FormatTitle(koreanSupport, t))
  }

  /**
   * A non-blank `<title>` wins, then a non-blank `<h1>`, then a non-blank
   * og:title; there is no title only when all three are missing or blank.
   */
  lemma TitleSpec(koreanSupport: bool, page: Page)
    ensures var r := Title(koreanSupport, page);
      && (Usable(page.title) ==> r == Some(FormatTitle(koreanSupport, Strip(page.title.value))))
      && (!Usable(page.title) && Usable(page.h1) ==> r == Some(FormatTitle(koreanSupport, Strip(page.h1.value))))
      && (!Usable(page.title) && !Usable(page.h1) && Usable(OgTitle(page.metas)) ==>
            r == Some(FormatTitle(koreanSupport, Strip(OgTitle(page.metas).value))))
      && (r.None? <==> !Usable(page.title) && !Usable(page.h1) && !Usable(OgTitle(page.metas)))
  {
  }

  // ---------------------------------------------------------------- metadata

  /** `meta.get('name') or meta.get('property')` */
  function MetaName(m: Meta): Option<string>
  {
    if Truthy(m.name) then m.name else m.property
  }

  /** The names whose content is kept. */
  predicate KeptName(name: string)
  {
    name == "description" || name == "keywords" || name == "author" || name == "generator"
    || StartsWith(name, "og:") || StartsWith(name, "twitter:")
  }

  /** A meta tag with a name and content, whose name is kept. */
  predicate KeptMeta(m: Meta)
  {
    Truthy(MetaName(m)) && Truthy(m.content) && KeptName(MetaName(m).value)
  }

  /** The loop over the meta tags: each kept one assigns its content to its name, in order. */
  function AddMetas(d: Dict<string, MetaValue>, metas: seq<Meta>): Dict<string, MetaValue>
    decreases |metas|
  {
    if metas == [] then d
    else
      var front := AddMetas(d, metas[..|metas| - 1]);
      var m := metas[|metas| - 1];
      if KeptMeta(m) then Set(front, MetaName(m).value, Text(m.content.value)) else front
  }

  /** `_extract_html_metadata` from the dictionary `_extract_metadata` returned. */
  function Metadata(base: Dict<string, MetaValue>, page: Page): Dict<string, MetaValue>
  {
    var d := AddMetas(base, page.metas);
    var d' := if page.title.Some? then Set(d, "html_title", Text(Strip(page.title.value))) else d;
    if Truthy(page.lang) then Set(d', "language", Text(page.lang.value)) else d'
  }

  predicate NamedKept(m: Meta, k: string)
  {
    KeptMeta(m) && MetaName(m).value == k
  }

  /**
   * After the meta loop a key holds the content of the last kept meta tag of
   * that name, and what it held before when there is no such tag: tags that
   * are not kept change nothing.
   */
  lemma {:induction false} AddMetasUntouched(d: Dict<string, MetaValue>, metas: seq<Meta>, k: string)
    requires forall i :: 0 <= i < |metas| ==> !NamedKept(metas[i], k)
    ensures Get(AddMetas(d, metas), k) == Get(d, k)
    decreases |metas|
  {
    if metas != [] {
      var front := metas[..|metas| - 1];
      assert forall i :: 0 <= i < |front| ==> front[i] == metas[i];
      AddMetasUntouched(d, front, k);
      AddMetasStep(d, metas, k);
    }
  }

  /** The value under a key is the content of the last kept meta tag of that name. */
  lemma {:induction false} AddMetasLast(d: Dict<string, MetaValue>, metas: seq<Meta>, k: string, i: nat)
    requires i < |metas| && NamedKept(metas[i], k)
    requires forall j :: i < j < |metas| ==> !NamedKept(metas[j], k)
    ensures Get(AddMetas(d, metas), k) == Some(Text(metas[i].content.value))
    decreases |metas|
  {
    AddMetasStep(d, metas, k);
    if i < |metas| - 1 {
      var front := metas[..|metas| - 1];
      assert front[i] == metas[i];
      assert forall j :: i < j < |front| ==> front[j] == metas[j];
      AddMetasLast(d, front, k, i);
    }
  }

  /** One more meta tag changes the key only when it is a kept tag of that name. */
  lemma AddMetasStep(d: Dict<string, MetaValue>, metas: seq<Meta>, k: string)
    requires metas != []
    ensures var m := metas[|metas| - 1];
      Get(AddMetas(d, metas), k) ==
        if NamedKept(m, k) then Some(Text(m.content.value)) else Get(AddMetas(d, metas[..|metas| - 1]), k)
  {
    var m := metas[|metas| - 1];
    if KeptMeta(m) {
      SetGet(AddMetas(d, metas[..|metas| - 1]), MetaName(m).value, Text(m.content.value), k);
    }
  }

  /**
   * The title text and the language are assigned last; every other key is
   * as the meta loop left it.
   */
  lemma MetadataGet(base: Dict<string, MetaValue>, page: Page, k: string)
    ensures var r := Metadata(base, page);
      && (k == "language" && Truthy(page.lang) ==> Get(r, k) == Some(Text(page.lang.value)))
      && (k == "html_title" && page.title.Some? ==> Get(r, k) == Some(Text(Strip(page.title.value))))
      && (k != "language" && k != "html_title" ==> Get(r, k) == Get(AddMetas(base, page.metas), k))
  {
    var d := AddMetas(base, page.metas);
    if page.title.Some? {
      SetGet(d, "html_title", Text(Strip(page.title.value)), k);
    }
    var d' := if page.title.Some? then Set(d, "html_title", Text(Strip(page.title.value))) else d;
    if Truthy(page.lang) {
      SetGet(d', "language", Text(page.lang.value), k);
    }
  }

  /** The loop and assignments of `_extract_html_metadata`. */
  method ExtractHtmlMetadata(base: Dict<string, MetaValue>, page: Page) returns (metadata: Dict<string, MetaValue>)
    ensures metadata == Metadata(base, page)
  {
    metadata := base;
    var metas := page.metas;
    for i := 0 to |metas|
      invariant metadata == AddMetas(base, metas[..i])
    {
      assert metas[..i + 1][..i] == metas[..i];
      var meta := metas[i];
      var name := if Truthy(meta.name) then meta.name else meta.property;
      var content := meta.content;
      if Truthy(name) && Truthy(content) {
        if name.value in ["description", "keywords", "author", "generator"] {
          metadata := Set(metadata, name.value, Text(content.value));
        } else if StartsWith(name.value, "og:") {
          metadata := Set(metadata, name.value, Text(content.value));
        } else if StartsWith(name.value, "twitter:") {
          metadata := Set(metadata, name.value, Text(content.value));
        }
      }
    }
    assert metas[..|metas|] == metas;
    if page.title.Some? {
      metadata := Set(metadata, "html_title", Text(Strip(page.title.value)));
    }
    if Truthy(page.lang) {
      metadata := Set(metadata, "language", Text(page.lang.value));
    }
  }

  // ---------------------------------------------------------------- convert

  /**
   * `convert`: a missing BeautifulSoup raises `MissingDependencyException`
   * before anything else; a failure while reading, parsing or rendering is
   * re-raised as `FileConversionException`; otherwise the cleaned markdown,
   * the title and the metadata.
   */
  function Convert(koreanSupport: bool, bs4Available: bool, base: Dict<string, MetaValue>, parsed: Parsed): (r: Outcome<DocumentConverterResult>)
    ensures !bs4Available ==> r.Raised? && r.error.MissingDependencyException?
    ensures bs4Available && parsed.ParseFailed? ==>
      r == Raised(FileConversionException("HTML conversion failed: " + parsed.detail))
    ensures r.Returned? ==>
      (bs4Available && parsed.Parsed?
       && r.value.title == Title(koreanSupport, parsed.page)
       && r.value.metadata == Some(Metadata(base, parsed.page)))
  {
    if !bs4Available then Raised(MissingDependencyException("BeautifulSoup4 is required for HTML conversion"))
    else match parsed
      case ParseFailed(detail) => Raised(FileConversionException("HTML conversion failed: " + detail))
      case Parsed(page, markdown) =>
        Returned(DocumentConverterResult(CleanMarkdown(koreanSupport, markdown), Title(koreanSupport, page), Some(Metadata(base, page))))
  }
}
