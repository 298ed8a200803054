/**
 * The pipe tables the DOCX and HTML converters render: the first non-empty
 * row is the header, a line of `---` cells follows, and every other row is
 * cut or padded to the header's width. The line terminator is a parameter
 * because the HTML converter ends its lines with the two characters `\`
 * and `n` rather than a newline.
 */
module PipeTables {
  import opened Strings
  import FormatUtils

  /** `"| " + " | ".join(cells) + " |" + nl` */
  function Line(cells: seq<string>, nl: string): (r: string)
    ensures r != [] && r[0] == '|'
  {
    "| " + Join(" | ", cells) + " |" + nl
  }

  function Dashes(n: nat): (r: seq<string>)
    ensures |r| == n && forall i :: 0 <= i < n ==> r[i] == "---"
  {
    seq(n, _ => "---")
  }

  /** The data lines for `rows`, each row fitted to `n` cells, in order. */
  function Body(rows: seq<seq<string>>, n: nat, nl: string): string
    decreases |rows|
  {
    if rows == [] then []
    else Body(rows[..|rows| - 1], n, nl) + Line(FormatUtils.Fit(rows[|rows| - 1], n), nl)
  }

  /** The table for the collected rows: nothing when there are none, else header, dashes and fitted data rows. */
  function Table(rows: seq<seq<string>>, nl: string): (r: string)
    ensures r == [] <==> rows == []
  {
    if rows == [] then []
    else Line(rows[0], nl) + Line(Dashes(|rows[0]|), nl) + Body(rows[1..], |rows[0]|, nl)
  }

  /** The render loop: header line, dashes line, then one fitted line per remaining row. */
  method RenderTable(rows: seq<seq<string>>, nl: string) returns (markdown: string)
    ensures markdown == Table(rows, nl)
  {
    if rows == [] {
      return [];
    }
    var header := rows[0];
    markdown := Line(header, nl);
    markdown := markdown + Line(Dashes(|header|), nl);
    ghost var head := markdown;
    var data := rows[1..];
    for i := 0 to |data|
      invariant markdown == head + Body(data[..i], |header|, nl)
    {
      assert data[..i + 1][..i] == data[..i];
      markdown := markdown + Line(FormatUtils.Fit(data[i], |header|), nl);
    }
    assert data[..|data|] == data;
  }

  lemma {:induction false} BodyIsDataLines(rows: seq<seq<string>>, n: nat)
    ensures Body(rows, n, "\n") == FormatUtils.DataLines(rows, n)
    decreases |rows|
  {
    if rows != [] {
      BodyIsDataLines(rows[..|rows| - 1], n);
      var cells := FormatUtils.Fit(rows[|rows| - 1], n);
      assert Line(cells, "\n") == FormatUtils.TableLine(cells);
    }
  }

  /**
   * With newline terminators, a table of a header and at least one data row
   * is exactly what `create_markdown_table` makes of that header and those
   * rows, so each data row has the header's cell count; a header alone
   * gives the header and dashes lines only, where `create_markdown_table`
   * gives nothing.
   */
  lemma TableIsMarkdownTable(rows: seq<seq<string>>)
    requires rows != [] && rows[0] != []
    ensures |rows| > 1 ==> Table(rows, "\n") == FormatUtils.MarkdownTable(rows[0], rows[1..])
    ensures |rows| == 1 ==> Table(rows, "\n") == Line(rows[0], "\n") + Line(Dashes(|rows[0]|), "\n")
  {
    if |rows| > 1 {
      BodyIsDataLines(rows[1..], |rows[0]|);
      assert Line(rows[0], "\n") == FormatUtils.TableLine(rows[0]);
      assert Line(Dashes(|rows[0]|), "\n") == FormatUtils.TableLine(seq(|rows[0]|, _ => "---"));
    } else {
      assert rows[1..] == [];
    }
  }

  /** With newline terminators and no newline in any cell, a table of `k` rows has `k + 1` lines. */
  lemma TableLineCount(rows: seq<seq<string>>)
    requires rows != [] && rows[0] != []
    requires forall row, c :: row in rows && c in row ==> '\n' !in c
    ensures CountChar(Table(rows, "\n"), '\n') == |rows| + 1
  {
    TableIsMarkdownTable(rows);
    if |rows| > 1 {
      assert forall row, c :: row in rows[1..] && c in row ==> '\n' !in c by {
        forall row, c | row in rows[1..] && c in row ensures '\n' !in c { assert row in rows; }
      }
      assert rows[0] in rows;
      FormatUtils.MarkdownTableLines(rows[0], rows[1..]);
      assert |rows[1..]| == |rows| - 1;
    } else {
      assert rows[0] in rows;
      FormatUtils.TableLineNewlines(rows[0]);
      assert forall c :: c in Dashes(|rows[0]|) ==> '\n' !in c;
      FormatUtils.TableLineNewlines(Dashes(|rows[0]|));
      assert Line(rows[0], "\n") == FormatUtils.TableLine(rows[0]);
      assert Line(Dashes(|rows[0]|), "\n") == FormatUtils.TableLine(Dashes(|rows[0]|));
      CountCharConcat(Line(rows[0], "\n"), Line(Dashes(|rows[0]|), "\n"), '\n');
    }
  }

  // ---------------------------------------------------------------- collected rows

  /** One row's cells, each rendered by `cell`. */
  function Cells(row: seq<string>, cell: string -> string): (r: seq<string>)
    ensures |r| == |row| && forall i :: 0 <= i < |row| ==> r[i] == cell(row[i])
  {
    seq(|row|, i requires 0 <= i < |row| => cell(row[i]))
  }

  /** Rendering one more cell of a row appends it. */
  lemma CellsSnoc(row: seq<string>, cell: string -> string, j: nat)
    requires j < |row|
    ensures Cells(row[..j + 1], cell) == Cells(row[..j], cell) + [cell(row[j])]
  {
  }

  /** The rows a converter collects: the rendered cells of each row that has any, in order. */
  function KeptRows(rows: seq<seq<string>>, cell: string -> string): (r: seq<seq<string>>)
    ensures |r| <= |rows|
    decreases |rows|
  {
    if rows == [] then []
    else KeptRows(rows[..|rows| - 1], cell) + (if rows[|rows| - 1] == [] then [] else [Cells(rows[|rows| - 1], cell)])
  }

  /**
   * The kept rows are non-empty, there are none only when no row has cells,
   * and every kept cell has each property every rendered cell has.
   */
  lemma {:induction false} KeptRowsShape(rows: seq<seq<string>>, cell: string -> string, P: string -> bool)
    requires forall s :: P(cell(s))
    ensures var r := KeptRows(rows, cell);
      && (r == [] <==> forall i :: 0 <= i < |rows| ==> rows[i] == [])
      && (forall k :: 0 <= k < |r| ==> r[k] != [])
      && (forall row, c :: row in r && c in row ==> P(c))
    decreases |rows|
  {
    if rows != [] {
      var front := rows[..|rows| - 1];
      KeptRowsShape(front, cell, P);
      assert forall i :: 0 <= i < |front| ==> front[i] == rows[i];
    }
  }

  // ---------------------------------------------------------------- cell escaping

  /** `s.replace('|', e + '|')`: every pipe gets the escape `e` in front of it. */
  function EscapePipes(s: string, e: string): (r: string)
  {
    ReplaceChar(s, '|', e + "|")
  }

  /** Every pipe stands right after a copy of `e`. */
  ghost predicate PipesEscaped(r: string, e: string)
  {
    forall i :: 0 <= i < |r| && r[i] == '|' ==> i >= |e| && r[i - |e|..i] == e
  }

  lemma PipesEscapedConcat(head: string, rest: string, e: string)
    requires PipesEscaped(head, e) && PipesEscaped(rest, e)
    ensures PipesEscaped(head + rest, e)
  {
    var r := head + rest;
    forall i | 0 <= i < |r| && r[i] == '|' ensures i >= |e| && r[i - |e|..i] == e {
      if i >= |head| {
        var k := i - |head|;
        assert rest[k] == '|';
        assert r[i - |e|..i] == rest[k - |e|..k];
      }
    }
  }

  /** After escaping, every pipe stands right after a copy of `e`. */
  lemma {:induction false} EscapePipesShape(s: string, e: string)
    requires '|' !in e
    ensures PipesEscaped(EscapePipes(s, e), e)
    decreases |s|
  {
    if s != [] {
      EscapePipesShape(s[1..], e);
      var head := if s[0] == '|' then e + "|" else [s[0]];
      assert EscapePipes(s, e) == head + EscapePipes(s[1..], e);
      if s[0] == '|' { EscapeHead(e); }
      PipesEscapedConcat(head, EscapePipes(s[1..], e), e);
    }
  }

  lemma EscapeHead(e: string)
    requires '|' !in e
    ensures PipesEscaped(e + "|", e)
  {
    var head := e + "|";
    forall i | 0 <= i < |head| && head[i] == '|' ensures i >= |e| && head[i - |e|..i] == e {
      assert i == |e|;
    }
  }

  /** Escaping adds no pipe and drops none. */
  lemma {:induction false} EscapePipesCount(s: string, e: string)
    requires '|' !in e
    ensures CountChar(EscapePipes(s, e), '|') == CountChar(s, '|')
    decreases |s|
  {
    if s != [] {
      EscapePipesCount(s[1..], e);
      var head := if s[0] == '|' then e + "|" else [s[0]];
      assert EscapePipes(s, e) == head + EscapePipes(s[1..], e);
      CountCharConcat(head, EscapePipes(s[1..], e), '|');
      if s[0] == '|' { CountCharConcat(e, "|", '|'); }
    }
  }

  /** Replacing every newline by a space leaves no newline and moves nothing else. */
  lemma {:induction false} NewlinesToSpaces(s: string)
    ensures var r := ReplaceChar(s, '\n', " ");
      && |r| == |s| && '\n' !in r
      && forall i :: 0 <= i < |s| ==> r[i] == if s[i] == '\n' then ' ' else s[i]
    decreases |s|
  {
    if s != [] { NewlinesToSpaces(s[1..]); }
  }
}
