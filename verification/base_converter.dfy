/**
 * The converter base: the result record, the format report, and the text
 * helpers every converter applies to its output (title formatting, markdown
 * clean-up, Korean normalisation) and to its input's metadata.
 */
module BaseConverter {
  import opened Wrappers
  import opened Strings
  import opened Dicts
  import opened StreamInfos
  import FormatUtils

  /** `DocumentConverterResult` */
  datatype DocumentConverterResult = DocumentConverterResult(
    markdown: string,
    title: Option<string>,
    metadata: Option<Dict<string, MetaValue>>)
  {
    /** `text_content`, the backward-compatible name of the markdown. */
    function TextContent(): (r: string)
      ensures r == markdown
    {
      markdown
    }
  }

  /** The metadata values the model distinguishes: text, byte counts, timestamps, other integers, other numbers and `None`. */
  datatype MetaValue = Text(text: string) | Size(bytes: nat) | Time(seconds: real) | Integer(value: int) | Float(number: real) | Null

  // ================================================================ format information

  /** The attributes a converter sets in its constructor. */
  datatype ConverterInfo = ConverterInfo(
    className: string,
    doc: Option<string>,
    koreanSupport: bool,
    priority: real,
    supportedExtensions: seq<string>,
    supportedMimetypes: seq<string>,
    category: string)

  /** `DocumentConverter.__init__`: priority 0.0, no formats, category "documents". */
  function NewConverterInfo(className: string, doc: Option<string>, koreanSupport: bool): (c: ConverterInfo)
    ensures c.priority == 0.0 && c.category == "documents"
    ensures c.supportedExtensions == [] && c.supportedMimetypes == []
    ensures c.koreanSupport == koreanSupport && c.className == className && c.doc == doc
  {
    ConverterInfo(className, doc, koreanSupport, 0.0, [], [], "documents")
  }

  /**
   * The dictionary `get_format_info` returns. The base method reports Korean
   * support and priority; the built-in converters replace it with one that
   * lists features instead, so those keys are optional.
   */
  datatype FormatInfo = FormatInfo(
    name: string,
    description: string,
    extensions: seq<string>,
    mimetypes: seq<string>,
    category: string,
    koreanSupport: Option<bool>,
    priority: Option<real>,
    features: Option<seq<string>>)

  /**
   * `get_format_info`: the class name without "Converter", the docstring
   * or "No description", and the converter's own formats, category,
   * Korean support and priority.
   */
  function GetFormatInfo(c: ConverterInfo): (r: FormatInfo)
    ensures r.priority == Some(c.priority) && r.koreanSupport == Some(c.koreanSupport) && r.category == c.category
    ensures r.features.None?
    ensures r.extensions == c.supportedExtensions && r.mimetypes == c.supportedMimetypes
    ensures r.description == if Truthy(c.doc) then c.doc.value else "No description"
    ensures r.name == Replace(c.className, "Converter", "")
  {
    FormatInfo(Replace(c.className, "Converter", ""),
      if Truthy(c.doc) then c.doc.value else "No description",
      c.supportedExtensions, c.supportedMimetypes, c.category, Some(c.koreanSupport), Some(c.priority), None)
  }

  /** A converter that keeps the base constructor's attributes reports category "documents" and priority 0.0. */
  lemma DefaultFormatInfo(className: string, doc: Option<string>, koreanSupport: bool)
    ensures var r := GetFormatInfo(NewConverterInfo(className, doc, koreanSupport));
      r.category == "documents" && r.priority == Some(0.0) && r.koreanSupport == Some(koreanSupport)
      && r.extensions == [] && r.mimetypes == []
  {
  }

  // ================================================================ Korean normalisation

  /**
   * `re.sub(r'(\S)\s+(\S)', r'\1 \2', s)` as written: each match consumes
   * the non-space character after the gap, so that character cannot start
   * the next match and the gap after it is left as it was.
   */
  function PairSpacing(s: string): (r: string)
    ensures |r| <= |s|
    ensures s != [] ==> r != [] && r[0] == s[0]
    decreases |s|
  {
    if s == [] then []
    else if IsSpace(s[0]) then [s[0]] + PairSpacing(s[1..])
    else
      var n := SpanLen(s[1..], IsSpace);
      if 0 < n && n + 1 < |s| then [s[0], ' ', s[n + 1]] + PairSpacing(s[n + 2..])
      else [s[0]] + PairSpacing(s[1..])
  }

  /** As written, the pass still keeps every non-space character, in order. */
  lemma {:induction false} PairSpacingKeeps(s: string)
    ensures FormatUtils.NonSpace(PairSpacing(s)) == FormatUtils.NonSpace(s)
    decreases |s|
  {
    if s != [] {
      var n := SpanLen(s[1..], IsSpace);
      if !IsSpace(s[0]) && 0 < n && n + 1 < |s| {
        PairSpacingKeeps(s[n + 2..]);
        PairGapStep(s, n);
      } else {
        PairSpacingKeeps(s[1..]);
        assert PairSpacing(s) == [s[0]] + PairSpacing(s[1..]);
        NonSpaceCons(s[0], PairSpacing(s[1..]));
        NonSpaceCons(s[0], s[1..]);
        assert s == [s[0]] + s[1..];
      }
    }
  }

  /** The non-space characters of a character put in front of `x`. */
  lemma NonSpaceCons(c: char, x: string)
    ensures FormatUtils.NonSpace([c] + x) == (if IsSpace(c) then [] else [c]) + FormatUtils.NonSpace(x)
  {
    assert ([c] + x)[1..] == x;
  }

  /** The step of `PairSpacingKeeps` over a gap the pattern matches. */
  lemma PairGapStep(s: string, n: nat)
    requires 0 < n && n + 1 < |s| && !IsSpace(s[0]) && n == SpanLen(s[1..], IsSpace)
    requires FormatUtils.NonSpace(PairSpacing(s[n + 2..])) == FormatUtils.NonSpace(s[n + 2..])
    ensures FormatUtils.NonSpace(PairSpacing(s)) == FormatUtils.NonSpace(s)
  {
    assert PairSpacing(s) == [s[0], ' ', s[n + 1]] + PairSpacing(s[n + 2..]);
    assert !IsSpace(s[n + 1]) by { assert s[n + 1] == s[1..][n]; }
    NonSpaceGap(s, n);
    NonSpaceSpaced(s[0], s[n + 1], PairSpacing(s[n + 2..]));
  }

  /** Across a gap of `n` spaces after a non-space, only the characters on either side count. */
  lemma NonSpaceGap(s: string, n: nat)
    requires 0 < n && n + 1 < |s| && !IsSpace(s[0]) && n == SpanLen(s[1..], IsSpace)
    ensures FormatUtils.NonSpace(s) == [s[0], s[n + 1]] + FormatUtils.NonSpace(s[n + 2..])
  {
    forall i | 1 <= i <= n ensures IsSpace(s[i]) { assert s[i] == s[1..][i - 1]; }
    assert !IsSpace(s[n + 1]) by { assert s[n + 1] == s[1..][n]; }
    GapNonSpace(s, n, []);
    NonSpaceDrop(s, n + 1);
    assert [s[0]] + ([s[n + 1]] + FormatUtils.NonSpace(s[n + 2..])) == [s[0], s[n + 1]] + FormatUtils.NonSpace(s[n + 2..]);
  }

  /** The non-space characters from index `k` on: the one at `k`, if it is one, then those after it. */
  lemma NonSpaceDrop(s: string, k: nat)
    requires k < |s|
    ensures FormatUtils.NonSpace(s[k..]) == (if IsSpace(s[k]) then [] else [s[k]]) + FormatUtils.NonSpace(s[k + 1..])
  {
    assert s[k..][1..] == s[k + 1..];
  }

  /** Two non-space characters with a space between them, then `y`. */
  lemma NonSpaceSpaced(a: char, c: char, y: string)
    requires !IsSpace(a) && !IsSpace(c)
    ensures FormatUtils.NonSpace([a, ' ', c] + y) == [a, c] + FormatUtils.NonSpace(y)
  {
    assert [a, ' ', c] + y == [a] + ([' '] + ([c] + y));
    NonSpaceCons(c, y);
    NonSpaceCons(' ', [c] + y);
    NonSpaceCons(a, [' '] + ([c] + y));
  }

  /** The pass as written keeps a last character that is not white. */
  lemma {:induction false} PairSpacingLast(s: string)
    requires s != [] && !IsSpace(s[|s| - 1])
    ensures var r := PairSpacing(s); r[|r| - 1] == s[|s| - 1]
    decreases |s|
  {
    var n := SpanLen(s[1..], IsSpace);
    if !IsSpace(s[0]) && 0 < n && n + 1 < |s| {
      var t := s[n + 2..];
      assert PairSpacing(s) == [s[0], ' ', s[n + 1]] + PairSpacing(t);
      if t != [] {
        PairSpacingLast(t);
      }
    } else if |s| > 1 {
      PairSpacingLast(s[1..]);
      assert PairSpacing(s) == [s[0]] + PairSpacing(s[1..]);
    }
  }

  /** The pass as written leaves a leading whitespace run as it is. */
  lemma {:induction false} PairSpacingLeadRun(s: string)
    ensures var w := SpanLen(s, IsSpace); PairSpacing(s) == s[..w] + PairSpacing(s[w..])
    decreases |s|
  {
    var w := SpanLen(s, IsSpace);
    if w == 0 {
      assert s[..w] == [] && s[w..] == s;
    } else {
      var t := s[1..];
      assert w - 1 == SpanLen(t, IsSpace);
      assert t[w - 1..] == s[w..];
      PairSpacingLeadRun(t);
      LeadRunStep(s, w, PairSpacing(s[w..]));
    }
  }

  /** One white character in front of a run the pass keeps. */
  lemma LeadRunStep(s: string, w: nat, x: string)
    requires 0 < w <= |s| && IsSpace(s[0])
    requires PairSpacing(s[1..]) == s[1..][..w - 1] + x
    ensures PairSpacing(s) == s[..w] + x
  {
    PairSpacingSpaceCons(s);
    ConsSplit(s, w, x);
  }

  /** The pass as written copies a leading white character. */
  lemma PairSpacingSpaceCons(s: string)
    requires s != [] && IsSpace(s[0])
    ensures PairSpacing(s) == [s[0]] + PairSpacing(s[1..])
  {
  }

  /** A prefix of `s` is its first character and then a prefix of the rest. */
  lemma ConsSplit(s: string, w: nat, x: string)
    requires 0 < w <= |s|
    ensures [s[0]] + (s[1..][..w - 1] + x) == s[..w] + x
  {
    assert s[..w] == [s[0]] + s[1..][..w - 1];
  }

  /** The pass as written never makes a whitespace run with three newlines. */
  lemma {:induction false} PairSpacingCollapsed(s: string)
    requires FormatUtils.RunsCollapsed(s)
    ensures FormatUtils.RunsCollapsed(PairSpacing(s))
    decreases |s|
  {
    if s == [] {
    } else if IsSpace(s[0]) {
      var w := SpanLen(s, IsSpace);
      PairSpacingLeadRun(s);
      PairSpacingCollapsed(s[w..]);
      FormatUtils.RunsCollapsedPrepend(s[..w], PairSpacing(s[w..]));
    } else {
      var n := SpanLen(s[1..], IsSpace);
      if 0 < n && n + 1 < |s| {
        var t := s[n + 2..];
        assert FormatUtils.RunsCollapsed(s[1..][n..]);
        assert s[1..][n..] == [s[n + 1]] + t;
        assert !IsSpace(s[n + 1]) by { assert s[n + 1] == s[1..][n]; }
        assert FormatUtils.RunsCollapsed(t) by { assert ([s[n + 1]] + t)[1..] == t; }
        PairSpacingCollapsed(t);
        assert PairSpacing(s) == [s[0], ' ', s[n + 1]] + PairSpacing(t);
        SpacedCollapsed(s[0], s[n + 1], PairSpacing(t));
      } else {
        PairSpacingCollapsed(s[1..]);
        var r := PairSpacing(s);
        assert r == [s[0]] + PairSpacing(s[1..]);
        assert r[1..] == PairSpacing(s[1..]);
      }
    }
  }

  /** Two non-space characters with one space between them, in front of collapsed text. */
  lemma SpacedCollapsed(a: char, c: char, x: string)
    requires !IsSpace(a) && !IsSpace(c) && FormatUtils.RunsCollapsed(x)
    ensures FormatUtils.RunsCollapsed([a, ' ', c] + x)
  {
    var y := [c] + x;
    assert y[1..] == x;
    assert FormatUtils.RunsCollapsed(y);
    FormatUtils.RunsCollapsedPrepend([' '], y);
    assert ([a, ' ', c] + x)[1..] == [' '] + y;
  }

  /** Two gaps in a row: the second survives the pass as written. */
  lemma PairSpacingSkipsEveryOtherGap()
    ensures PairSpacing("a  b  c") == "a b  c"
    ensures !FormatUtils.NoAdjacentSpace(PairSpacing("a  b  c"))
  {
    PairSpacingTwoGaps('a', 'b', 'c');
    var r := PairSpacing("a  b  c");
    assert IsSpace(r[3]) && IsSpace(r[4]);
  }

  /** Two double gaps between single characters: the first is closed, the second kept. */
  lemma PairSpacingTwoGaps(x: char, y: char, z: char)
    requires !IsSpace(x) && !IsSpace(y) && !IsSpace(z)
    ensures PairSpacing([x, ' ', ' ', y, ' ', ' ', z]) == [x, ' ', y, ' ', ' ', z]
  {
    var s := [x, ' ', ' ', y, ' ', ' ', z];
    assert PairSpacing([z]) == [z] by {
      assert [z][1..] == [];
    }
    assert PairSpacing([' ', z]) == [' ', z] by {
      assert [' ', z][1..] == [z];
    }
    assert PairSpacing([' ', ' ', z]) == [' ', ' ', z] by {
      assert [' ', ' ', z][1..] == [' ', z];
    }
    assert SpanLen(s[1..], IsSpace) == 2 by {
      var g := s[1..];
      assert IsSpace(' ') && g[0] == ' ' && g[1] == ' ' && g[2] == y;
    }
    assert s[4..] == [' ', ' ', z];
  }

  /**
   * What the spacing step evidently intends, `re.sub(r'(?<=\S)\s+(?=\S)', ' ', s)`:
   * every whitespace run between two non-space characters becomes one space;
   * leading and trailing whitespace stay.
   */
  function CollapseGaps(s: string): (r: string)
    ensures |r| <= |s|
    ensures s == [] <==> r == []
    ensures s != [] ==> r[0] == s[0]
    decreases |s|
  {
    if s == [] then []
    else if IsSpace(s[0]) then [s[0]] + CollapseGaps(s[1..])
    else
      var n := SpanLen(s[1..], IsSpace);
      if 0 < n && n + 1 < |s| then
        assert !IsSpace(s[n + 1]) by { assert s[n + 1] == s[1..][n]; }
        [s[0], ' '] + CollapseGaps(s[n + 1..])
      else [s[0]] + CollapseGaps(s[1..])
  }

  /** The intended pass keeps a last character that is not white. */
  lemma {:induction false} CollapseGapsLast(s: string)
    requires s != [] && !IsSpace(s[|s| - 1])
    ensures var r := CollapseGaps(s); r[|r| - 1] == s[|s| - 1]
    decreases |s|
  {
    var n := SpanLen(s[1..], IsSpace);
    if !IsSpace(s[0]) && 0 < n && n + 1 < |s| {
      var t := s[n + 1..];
      CollapseGapsLast(t);
      assert CollapseGaps(s) == [s[0], ' '] + CollapseGaps(t);
    } else if |s| > 1 {
      CollapseGapsLast(s[1..]);
      assert CollapseGaps(s) == [s[0]] + CollapseGaps(s[1..]);
    }
  }

  /** Between two non-space characters the intended pass leaves exactly one space and nothing else that is white. */
  lemma {:induction false} CollapseGapsShape(s: string)
    requires s == [] || (!IsSpace(s[0]) && !IsSpace(s[|s| - 1]))
    ensures var r := CollapseGaps(s);
      FormatUtils.NoAdjacentSpace(r) && forall i :: 0 <= i < |r| && IsSpace(r[i]) ==> r[i] == ' '
    decreases |s|
  {
    if s != [] {
      var n := SpanLen(s[1..], IsSpace);
      if 0 < n && n + 1 < |s| {
        var t := s[n + 1..];
        assert t[0] == s[1..][n];
        CollapseGapsShape(t);
        SpacedCons(s[0], CollapseGaps(t));
        assert CollapseGaps(s) == [s[0], ' '] + CollapseGaps(t);
      } else if |s| > 1 {
        assert !IsSpace(s[1..][|s| - 2]);
        assert !IsSpace(s[1..][0]);
        CollapseGapsShape(s[1..]);
        SpacedCons(s[0], CollapseGaps(s[1..]));
        assert CollapseGaps(s) == [s[0]] + CollapseGaps(s[1..]);
      }
    }
  }

  /** A non-space character, alone or followed by one space, in front of a single-spaced text that starts with a non-space. */
  lemma SpacedCons(c: char, x: string)
    requires !IsSpace(c) && (x == [] || !IsSpace(x[0]))
    requires FormatUtils.NoAdjacentSpace(x) && forall i :: 0 <= i < |x| && IsSpace(x[i]) ==> x[i] == ' '
    ensures var r := [c] + x;
      FormatUtils.NoAdjacentSpace(r) && forall i :: 0 <= i < |r| && IsSpace(r[i]) ==> r[i] == ' '
    ensures var r := [c, ' '] + x;
      FormatUtils.NoAdjacentSpace(r) && forall i :: 0 <= i < |r| && IsSpace(r[i]) ==> r[i] == ' '
  {
    var r := [c, ' '] + x;
    forall i | 0 <= i < |r| - 1 && IsSpace(r[i]) ensures !IsSpace(r[i + 1]) {
      if i >= 2 {
        assert r[i] == x[i - 2] && r[i + 1] == x[i - 1];
      }
    }
  }

  /** The intended pass keeps every non-space character, in order. */
  lemma {:induction false} CollapseGapsKeeps(s: string)
    ensures FormatUtils.NonSpace(CollapseGaps(s)) == FormatUtils.NonSpace(s)
    decreases |s|
  {
    if s != [] {
      var n := SpanLen(s[1..], IsSpace);
      var r := CollapseGaps(s);
      if !IsSpace(s[0]) && 0 < n && n + 1 < |s| {
        var t := s[n + 1..];
        CollapseGapsKeeps(t);
        assert r == [s[0], ' '] + CollapseGaps(t);
        GapNonSpace(s, n, CollapseGaps(t));
      } else {
        CollapseGapsKeeps(s[1..]);
        assert r[1..] == CollapseGaps(s[1..]);
      }
    }
  }

  /** A gap of `n` white characters after the first one drops out of `NonSpace`, as does the single space put in its place. */
  lemma GapNonSpace(s: string, n: nat, x: string)
    requires 0 < n < |s| && !IsSpace(s[0])
    requires forall i :: 1 <= i <= n ==> IsSpace(s[i])
    ensures FormatUtils.NonSpace(s) == [s[0]] + FormatUtils.NonSpace(s[n + 1..])
    ensures FormatUtils.NonSpace([s[0], ' '] + x) == [s[0]] + FormatUtils.NonSpace(x)
  {
    OneSpaceNonSpace(s[0], x);
    var g := s[1..n + 1];
    assert forall i :: 0 <= i < |g| ==> IsSpace(g[i]) by {
      forall i | 0 <= i < |g| ensures IsSpace(g[i]) { assert g[i] == s[i + 1]; }
    }
    NonSpaceOfSpaces(g);
    assert s[1..] == g + s[n + 1..];
    NonSpaceConcat(g, s[n + 1..]);
    assert FormatUtils.NonSpace(s) == [s[0]] + FormatUtils.NonSpace(s[1..]);
  }

  /** A single space after a non-space character drops out of `NonSpace`. */
  lemma OneSpaceNonSpace(c: char, x: string)
    requires !IsSpace(c)
    ensures FormatUtils.NonSpace([c, ' '] + x) == [c] + FormatUtils.NonSpace(x)
  {
    NonSpaceConcat([c, ' '], x);
    assert FormatUtils.NonSpace([c, ' ']) == [c] by {
      assert [c, ' '][1..] == [' '];
      assert FormatUtils.NonSpace([' ']) == [] by { assert [' '][1..] == []; }
    }
  }

  lemma {:induction false} NonSpaceConcat(a: string, b: string)
    ensures FormatUtils.NonSpace(a + b) == FormatUtils.NonSpace(a) + FormatUtils.NonSpace(b)
    decreases |a|
  {
    if a != [] {
      assert (a + b)[1..] == a[1..] + b;
      NonSpaceConcat(a[1..], b);
    } else {
      assert a + b == b;
    }
  }

  lemma {:induction false} NonSpaceOfSpaces(w: string)
    requires forall i :: 0 <= i < |w| ==> IsSpace(w[i])
    ensures FormatUtils.NonSpace(w) == []
    decreases |w|
  {
    if w != [] { NonSpaceOfSpaces(w[1..]); }
  }

  /** The full-width and CJK punctuation table, in its dictionary order. */
  const KoreanPunctuation: seq<(char, char)> := [
    ('․', '.'), ('，', ','), ('：', ':'), ('；', ';'),
    ('？', '?'), ('！', '!'), ('（', '('), ('）', ')'),
    ('「', '"'), ('」', '"'), ('『', '"'), ('』', '"')
  ]

  /** `s.replace(c, d)` for single characters: a character-by-character map. */
  lemma {:induction false} ReplaceOneChar(s: string, c: char, d: char)
    ensures var r := ReplaceChar(s, c, [d]);
      |r| == |s| && forall i :: 0 <= i < |s| ==> r[i] == if s[i] == c then d else s[i]
    decreases |s|
  {
    if s != [] { ReplaceOneChar(s[1..], c, d); }
  }

  /** The text after the replacement loop has gone through the first `|table|` entries. */
  function ReplaceEach(s: string, table: seq<(char, char)>): (r: string)
    ensures |r| == |s|
    decreases |table|
  {
    if table == [] then s
    else
      var last := table[|table| - 1];
      var t := ReplaceEach(s, table[..|table| - 1]);
      ReplaceOneChar(t, last.0, last.1);
      ReplaceChar(t, last.0, [last.1])
  }

  /** Applying one more entry of the table replaces that entry's character in the result so far. */
  lemma ReplaceEachSnoc(s: string, table: seq<(char, char)>, i: nat)
    requires i < |table|
    ensures ReplaceEach(s, table[..i + 1]) == ReplaceChar(ReplaceEach(s, table[..i]), table[i].0, [table[i].1])
  {
    assert table[..i + 1][..i] == table[..i];
  }

  /** Each character is mapped through the table's entries in order. */
  function MapThrough(c: char, table: seq<(char, char)>): char
    decreases |table|
  {
    if table == [] then c
    else
      var last := table[|table| - 1];
      var d := MapThrough(c, table[..|table| - 1]);
      if d == last.0 then last.1 else d
  }

  lemma {:induction false} ReplaceEachPointwise(s: string, table: seq<(char, char)>)
    ensures forall i :: 0 <= i < |s| ==> ReplaceEach(s, table)[i] == MapThrough(s[i], table)
    decreases |table|
  {
    if table != [] {
      var last := table[|table| - 1];
      ReplaceEachPointwise(s, table[..|table| - 1]);
      ReplaceOneChar(ReplaceEach(s, table[..|table| - 1]), last.0, last.1);
    }
  }

  /**
   * When no replacement is itself a key, a character ends up as the
   * replacement of the first entry with it as key, or unchanged when it is
   * no key.
   */
  lemma {:induction false} MapThroughTable(c: char, table: seq<(char, char)>)
    requires forall k, j :: 0 <= k < |table| && 0 <= j < |table| ==> table[k].1 != table[j].0
    ensures (forall k :: 0 <= k < |table| ==> table[k].0 != c) ==> MapThrough(c, table) == c
    ensures (exists k :: 0 <= k < |table| && table[k].0 == c) ==>
      exists k :: 0 <= k < |table| && table[k] == (c, MapThrough(c, table))
    decreases |table|
  {
    if table != [] {
      var n := |table| - 1;
      var front := table[..n];
      MapThroughTable(c, front);
      if exists k :: 0 <= k < n && front[k].0 == c {
        var k :| 0 <= k < n && front[k] == (c, MapThrough(c, front));
        assert table[k] == front[k];
        assert MapThrough(c, front) != table[n].0;
      } else if exists k :: 0 <= k < |table| && table[k].0 == c {
        forall k | 0 <= k < n ensures table[k].0 != c { assert front[k] == table[k]; }
        assert table[n] == (c, MapThrough(c, table));
      } else {
        forall k | 0 <= k < n ensures front[k].0 != c { assert front[k] == table[k]; }
      }
    }
  }

  /** The punctuation table maps non-space characters to non-space ones, and no replacement is a key. */
  lemma PunctuationTable()
    ensures forall k, j :: 0 <= k < |KoreanPunctuation| && 0 <= j < |KoreanPunctuation| ==>
      KoreanPunctuation[k].1 != KoreanPunctuation[j].0
    ensures forall k :: 0 <= k < |KoreanPunctuation| ==>
      !IsSpace(KoreanPunctuation[k].0) && !IsSpace(KoreanPunctuation[k].1)
  {
  }

  /** The punctuation table maps white characters to white ones and others to others. */
  lemma MapThroughKeepsSpace(c: char)
    ensures IsSpace(MapThrough(c, KoreanPunctuation)) <==> IsSpace(c)
  {
    MapThroughPunctuation(c);
  }

  /** The punctuation table leaves every white character as it is. */
  lemma MapThroughKeepsWhite(c: char)
    requires IsSpace(c)
    ensures MapThrough(c, KoreanPunctuation) == c
  {
    PunctuationTable();
    MapThroughPunctuation(c);
  }

  /** No key of the punctuation table is left, and nothing else is mapped to or from white space. */
  lemma MapThroughPunctuation(c: char)
    ensures var d := MapThrough(c, KoreanPunctuation);
      (forall k :: 0 <= k < |KoreanPunctuation| ==> d != KoreanPunctuation[k].0)
      && (IsSpace(d) <==> IsSpace(c))
      && (d == c || exists k :: 0 <= k < |KoreanPunctuation| && KoreanPunctuation[k] == (c, d))
  {
    PunctuationTable();
    MapThroughTable(c, KoreanPunctuation);
  }

  /** The specification of `_normalize_korean_text`, with the spacing step as written. */
  function KoreanText(koreanSupport: bool, text: string): (r: string)
    ensures !koreanSupport || text == [] ==> r == text
  {
    if !koreanSupport || text == [] then text
    else ReplaceEach(PairSpacing(text), KoreanPunctuation)
  }

  /**
   * After normalisation no full-width or CJK punctuation key remains, and a
   * text without edge whitespace stays without it; with support off the
   * text is unchanged.
   */
  lemma KoreanTextShape(koreanSupport: bool, text: string)
    ensures var r := KoreanText(koreanSupport, text);
      (koreanSupport ==> forall k, i :: 0 <= k < |KoreanPunctuation| && 0 <= i < |r| ==> r[i] != KoreanPunctuation[k].0)
      && (text == [] ==> r == [])
      && (text != [] && !IsSpace(text[0]) && !IsSpace(text[|text| - 1]) ==>
        r != [] && !IsSpace(r[0]) && !IsSpace(r[|r| - 1]))
  {
    KoreanTextEnds(koreanSupport, text);
    if koreanSupport && text != [] {
      var g := PairSpacing(text);
      var r := KoreanText(koreanSupport, text);
      ReplaceEachPointwise(g, KoreanPunctuation);
      forall i | 0 <= i < |r| ensures forall k :: 0 <= k < |KoreanPunctuation| ==> r[i] != KoreanPunctuation[k].0 {
        MapThroughPunctuation(g[i]);
      }
    }
  }

  /** Normalising never makes a whitespace run with three newlines. */
  lemma KoreanTextCollapsed(koreanSupport: bool, text: string)
    requires FormatUtils.RunsCollapsed(text)
    ensures FormatUtils.RunsCollapsed(KoreanText(koreanSupport, text))
  {
    if koreanSupport && text != [] {
      var g := PairSpacing(text);
      var r := ReplaceEach(g, KoreanPunctuation);
      PairSpacingCollapsed(text);
      ReplaceEachPointwise(g, KoreanPunctuation);
      forall i | 0 <= i < |g|
        ensures (IsSpace(g[i]) ==> r[i] == g[i]) && (!IsSpace(g[i]) ==> !IsSpace(r[i]))
      {
        MapThroughKeepsSpace(g[i]);
        if IsSpace(g[i]) { MapThroughKeepsWhite(g[i]); }
      }
      FormatUtils.RunsCollapsedKeepsWhite(g, r);
    }
  }

  /** Normalising keeps an empty text empty and a text without edge whitespace without it. */
  lemma KoreanTextEnds(koreanSupport: bool, text: string)
    ensures var r := KoreanText(koreanSupport, text);
      && (text == [] ==> r == [])
      && (text != [] && !IsSpace(text[0]) && !IsSpace(text[|text| - 1]) ==>
        r != [] && !IsSpace(r[0]) && !IsSpace(r[|r| - 1]))
  {
    if koreanSupport && text != [] {
      var g := PairSpacing(text);
      var r := ReplaceEach(g, KoreanPunctuation);
      assert KoreanText(koreanSupport, text) == r;
      ReplaceEachPointwise(g, KoreanPunctuation);
      assert r[0] == MapThrough(g[0], KoreanPunctuation);
      assert r[|r| - 1] == MapThrough(g[|g| - 1], KoreanPunctuation);
      MapThroughKeepsSpace(g[0]);
      MapThroughKeepsSpace(g[|g| - 1]);
      if !IsSpace(text[|text| - 1]) {
        PairSpacingLast(text);
      }
    }
  }

  /**
   * `_normalize_korean_text`: the identity when Korean support is off or
   * the text is empty; otherwise the spacing substitution runs and the
   * punctuation table is applied entry by entry.
   */
  method NormalizeKoreanText(koreanSupport: bool, text: string) returns (r: string)
    ensures r == KoreanText(koreanSupport, text)
  {
    if !koreanSupport || text == [] {
      return text;
    }
    r := PairSpacing(text);
    var i := 0;
    while i < |KoreanPunctuation|
      invariant 0 <= i <= |KoreanPunctuation|
      invariant r == ReplaceEach(PairSpacing(text), KoreanPunctuation[..i])
    {
      var (korean, english) := KoreanPunctuation[i];
      ReplaceEachSnoc(PairSpacing(text), KoreanPunctuation, i);
      r := ReplaceChar(r, korean, [english]);
      i := i + 1;
    }
    assert KoreanPunctuation[..i] == KoreanPunctuation;
  }

  // ================================================================ titles and markdown

  const MaxTitle := 100

  /**
   * `_format_title`: "" for an empty title; otherwise stripped, normalised
   * when Korean support is on, and cut to 97 characters plus "..." when
   * longer than 100.
   */
  function FormatTitle(koreanSupport: bool, title: string): (r: string)
    ensures |r| <= MaxTitle
    ensures Strip(title) == [] ==> r == []
    ensures r == [] || (!IsSpace(r[0]) && !IsSpace(r[|r| - 1]))
    ensures !koreanSupport && |Strip(title)| <= MaxTitle ==> r == Strip(title)
    ensures !koreanSupport && |Strip(title)| > MaxTitle ==> r == Strip(title)[..97] + "..."
  {
    if title == [] then []
    else
      var t := Strip(title);
      KoreanTextEnds(koreanSupport, t);
      Shorten(KoreanText(koreanSupport, t))
  }

  /** A title longer than 100 characters cut to 97 plus "...", within the limit and without edge whitespace. */
  function Shorten(u: string): (r: string)
    ensures |r| <= MaxTitle
    ensures |u| <= MaxTitle ==> r == u
    ensures |u| > MaxTitle ==> r == u[..97] + "..."
    ensures u == [] || (!IsSpace(u[0]) && !IsSpace(u[|u| - 1])) ==> r == [] || (!IsSpace(r[0]) && !IsSpace(r[|r| - 1]))
  {
    if |u| > MaxTitle then
      assert !IsSpace('.');
      u[..97] + "..."
    else u
  }

  /** A title with any non-space character formats to a non-empty one. */
  lemma FormatTitleNonEmpty(koreanSupport: bool, title: string)
    requires Strip(title) != []
    ensures FormatTitle(koreanSupport, title) != []
  {
    KoreanTextEnds(koreanSupport, Strip(title));
  }

  /** Without Korean normalisation a formatted title holds only characters of the title and the `.` of the ellipsis. */
  lemma FormatTitleChars(title: string)
    ensures forall c :: c in FormatTitle(false, title) ==> c in title || c == '.'
  {
    var t := Strip(title);
    var r := FormatTitle(false, title);
    StripChars(title);
    if |t| > MaxTitle {
      assert r == t[..97] + "...";
      assert forall c :: c in t[..97] ==> c in t;
    }
  }

  /** With Korean support off, formatting a formatted title changes nothing. */
  lemma FormatTitleIdempotent(title: string)
    ensures FormatTitle(false, FormatTitle(false, title)) == FormatTitle(false, title)
  {
    var r := FormatTitle(false, title);
    if r != [] {
      TrimStartNoop(r, IsSpace);
      TrimEndNoop(r, IsSpace);
    }
  }

  /**
   * `_clean_markdown`: "" for empty input; otherwise whitespace runs with
   * three or more newlines are cut to two, the edges are stripped, and the
   * Korean normalisation applies when enabled.
   */
  function CleanMarkdown(koreanSupport: bool, markdown: string): (r: string)
    ensures markdown == [] ==> r == []
    ensures r == [] || (!IsSpace(r[0]) && !IsSpace(r[|r| - 1]))
    ensures FormatUtils.RunsCollapsed(r)
    ensures koreanSupport ==> forall k, i :: 0 <= k < |KoreanPunctuation| && 0 <= i < |r| ==> r[i] != KoreanPunctuation[k].0
  {
    if markdown == [] then []
    else
      var b := FormatUtils.CollapseBlankLines(markdown);
      var t := Strip(b);
      FormatUtils.CollapseBlankLinesCollapsed(markdown);
      StripKeepsCollapsed(b);
      KoreanTextShape(koreanSupport, t);
      KoreanTextCollapsed(koreanSupport, t);
      KoreanText(koreanSupport, t)
  }

  lemma StripKeepsCollapsed(b: string)
    requires FormatUtils.RunsCollapsed(b)
    ensures FormatUtils.RunsCollapsed(Strip(b))
  {
    var n := SpanLen(b, IsSpace);
    var t := TrimStart(b, IsSpace);
    assert t == b[n..];
    assert FormatUtils.RunsCollapsed(t) by {
      if n == 0 {
        assert t == b;
      } else {
        assert IsSpace(b[0]);
      }
    }
    var r := TrimEnd(t, IsSpace);
    assert Strip(b) == r;
    FormatUtils.RunsCollapsedTrimEnd(t, |r|);
  }

  // ================================================================ metadata

  /**
   * `_extract_metadata`: the filename, MIME type and URL when set and
   * non-empty, in that order, then the file size and modification time when
   * a local path is set and `stat` (the file-system query, `None` when the
   * file is missing or the query raises) answers.
   */
  method ExtractMetadata(info: StreamInfo, stat: Option<(nat, real)>) returns (metadata: Dict<string, MetaValue>)
    ensures metadata ==
      Entry(info.filename, "filename")
      + Entry(info.mimetype, "mimetype")
      + Entry(info.url, "source_url")
      + StatEntries(info.localPath, stat)
  {
    metadata := [];
    ghost var ks: set<string> := {};
    if Truthy(info.filename) {
      metadata := AssignNew(metadata, "filename", Text(info.filename.value), ks);
      ks := ks + {"filename"};
    }
    assert metadata == Entry(info.filename, "filename");
    ghost var m1 := metadata;
    if Truthy(info.mimetype) {
      metadata := AssignNew(metadata, "mimetype", Text(info.mimetype.value), ks);
      ks := ks + {"mimetype"};
    }
    assert metadata == m1 + Entry(info.mimetype, "mimetype");
    ghost var m2 := metadata;
    if Truthy(info.url) {
      metadata := AssignNew(metadata, "source_url", Text(info.url.value), ks);
      ks := ks + {"source_url"};
    }
    assert metadata == m2 + Entry(info.url, "source_url");
    ghost var m3 := metadata;
    if Truthy(info.localPath) && stat.Some? {
      metadata := AssignNew(metadata, "file_size", Size(stat.value.0), ks);
      ks := ks + {"file_size"};
      metadata := AssignNew(metadata, "modification_time", Time(stat.value.1), ks);
    }
    assert metadata == m3 + StatEntries(info.localPath, stat);
  }

  /** The size and modification time when a local path is set and the file answers `stat`. */
  function StatEntries(localPath: Option<string>, stat: Option<(nat, real)>): (r: Dict<string, MetaValue>)
    ensures Truthy(localPath) && stat.Some? ==>
      r == [("file_size", Size(stat.value.0)), ("modification_time", Time(stat.value.1))]
    ensures !(Truthy(localPath) && stat.Some?) ==> r == []
  {
    if Truthy(localPath) && stat.Some? then
      [("file_size", Size(stat.value.0)), ("modification_time", Time(stat.value.1))]
    else []
  }

  /** The text stored under `k`, if the value there is text. */
  function TextAt(d: Dict<string, MetaValue>, k: string): (r: Option<string>)
    ensures r.Some? <==> Get(d, k).Some? && Get(d, k).value.Text?
  {
    var v := Get(d, k);
    if v.Some? && v.value.Text? then Some(v.value.text) else None
  }

  /** The integer stored under `k`, if the value there is an integer. */
  function IntAt(d: Dict<string, MetaValue>, k: string): (r: Option<int>)
    ensures r.Some? <==> Get(d, k).Some? && Get(d, k).value.Integer?
  {
    var v := Get(d, k);
    if v.Some? && v.value.Integer? then Some(v.value.value) else None
  }

  /** The byte count stored under `k`, if the value there is one. */
  function SizeAt(d: Dict<string, MetaValue>, k: string): (r: Option<nat>)
    ensures r.Some? <==> Get(d, k).Some? && Get(d, k).value.Size?
  {
    var v := Get(d, k);
    if v.Some? && v.value.Size? then Some(v.value.bytes) else None
  }

  /** The entry for `k` when the field is set and non-empty, otherwise nothing. */
  function Entry(field: Option<string>, k: string): (r: Dict<string, MetaValue>)
    ensures Truthy(field) ==> r == [(k, Text(field.value))]
    ensures !Truthy(field) ==> r == []
  {
    if Truthy(field) then [(k, Text(field.value))] else []
  }

  /** `d[k] = v` for a key that is not among the keys so far: it is appended. */
  method AssignNew<V>(d: Dict<string, V>, k: string, v: V, ghost ks: set<string>) returns (r: Dict<string, V>)
    requires forall i :: 0 <= i < |d| ==> d[i].0 in ks
    requires k !in ks
    ensures r == d + [(k, v)]
    ensures forall i :: 0 <= i < |r| ==> r[i].0 in ks + {k}
  {
    SetNew(d, k, v);
    r := Set(d, k, v);
  }
}
