/**
 * The text passes of `utils/format_utils.py`. Each regular-expression
 * substitution is written out as an explicit function over the string; the
 * loops of the source (over the Korean particles, the special characters, the
 * table rows and the content lines) are methods proved equal to those
 * functions, and the properties the module promises are lemmas about them.
 */
module FormatUtils {
  import opened Wrappers
  import opened Strings

  // ================================================================ normalize_whitespace

  predicate IsBlank(c: char) { c == ' ' || c == '\t' }

  /** No two adjacent space characters. */
  predicate NoDoubleSpace(s: string)
  {
    forall i :: 0 <= i < |s| - 1 && s[i] == ' ' ==> s[i + 1] != ' '
  }

  lemma NoDoubleSpaceConcat(a: string, b: string)
    requires NoDoubleSpace(a) && NoDoubleSpace(b)
    requires a == [] || b == [] || a[|a| - 1] != ' ' || b[0] != ' '
    ensures NoDoubleSpace(a + b)
  {
    var s := a + b;
    forall i | 0 <= i < |s| - 1 && s[i] == ' '
      ensures s[i + 1] != ' '
    {
      if i + 1 < |a| {
        assert s[i] == a[i] && s[i + 1] == a[i + 1];
      } else if i >= |a| {
        assert s[i] == b[i - |a|] && s[i + 1] == b[i + 1 - |a|];
      }
    }
  }

  lemma NoDoubleSpaceSlice(s: string, i: nat, j: nat)
    requires i <= j <= |s| && NoDoubleSpace(s)
    ensures NoDoubleSpace(s[i..j])
  {
    var t := s[i..j];
    forall k | 0 <= k < |t| - 1 && t[k] == ' '
      ensures t[k + 1] != ' '
    {
      assert t[k] == s[i + k] && t[k + 1] == s[i + k + 1];
    }
  }

  /** `re.sub(r'[ \t]+', ' ', s)`: every run of spaces and tabs becomes one space. */
  function SqueezeBlanks(s: string): (r: string)
    ensures '\t' !in r
    ensures NoDoubleSpace(r)
    ensures forall c :: c in r && c != ' ' ==> c in s
  {
    var r := SqueezeRuns(s, IsBlank, ' ');
    assert '\t' !in r by {
      forall i | 0 <= i < |r| ensures r[i] != '\t' { assert r[i] in r; }
    }
    r
  }

  lemma SqueezeBlanksNoop(s: string)
    requires '\t' !in s && NoDoubleSpace(s)
    ensures SqueezeBlanks(s) == s
  {
    assert forall i :: 0 <= i < |s| && IsBlank(s[i]) ==> s[i] == ' ' by {
      forall i | 0 <= i < |s| && IsBlank(s[i]) ensures s[i] == ' ' { assert s[i] in s; }
    }
    SqueezeRunsNoop(s, IsBlank, ' ');
  }

  /**
   * One maximal whitespace run after `re.sub(r'\n\s*\n\s*\n+', '\n\n', ...)`:
   * a run holding three or more newlines keeps what precedes its first
   * newline and what follows its last, with exactly two newlines between.
   * The same holds for the pattern `\n\s*\n\s*\n`.
   */
  function CollapseRun(run: string): (r: string)
    ensures CountChar(r, '\n') < 3
    ensures CountChar(run, '\n') < 3 ==> r == run
    ensures |r| > 0 <==> |run| > 0
    ensures forall c :: c in r ==> c in run || c == '\n'
  {
    if CountChar(run, '\n') >= 3 then
      match (IndexOfChar(run, '\n'), LastIndexOfChar(run, '\n'))
      case (Some(f), Some(l)) =>
        var r := run[..f] + "\n\n" + run[l + 1..];
        CountCharConcat(run[..f] + "\n\n", run[l + 1..], '\n');
        CountCharConcat(run[..f], "\n\n", '\n');
        assert forall c :: c in r ==> c in run || c == '\n' by {
          forall c | c in r ensures c in run || c == '\n' {
            if c in run[..f] { } else if c in run[l + 1..] { }
          }
        }
        r
      case _ => assert false; run
    else run
  }

  lemma CollapseRunNoDoubleSpace(run: string)
    requires NoDoubleSpace(run)
    ensures NoDoubleSpace(CollapseRun(run))
  {
    if CountChar(run, '\n') >= 3 {
      var f := IndexOfChar(run, '\n').value;
      var l := LastIndexOfChar(run, '\n').value;
      NoDoubleSpaceSlice(run, 0, f);
      NoDoubleSpaceSlice(run, l + 1, |run|);
      NoDoubleSpaceConcat(run[..f], "\n\n");
      NoDoubleSpaceConcat(run[..f] + "\n\n", run[l + 1..]);
    }
  }

  /** Every maximal whitespace run holds fewer than three newlines. */
  predicate RunsCollapsed(s: string)
    decreases |s|
  {
    if s == [] then true
    else if !IsSpace(s[0]) then RunsCollapsed(s[1..])
    else
      var w := SpanLen(s, IsSpace);
      CountChar(s[..w], '\n') < 3 && RunsCollapsed(s[w..])
  }

  /** `re.sub(r'\n\s*\n\s*\n+', '\n\n', s)`, run by run. */
  function CollapseBlankLines(s: string): (r: string)
    ensures s == [] <==> r == []
    ensures s != [] && !IsSpace(s[0]) ==> r[0] == s[0]
    decreases |s|
  {
    if s == [] then []
    else if !IsSpace(s[0]) then [s[0]] + CollapseBlankLines(s[1..])
    else
      var w := SpanLen(s, IsSpace);
      CollapseRun(s[..w]) + CollapseBlankLines(s[w..])
  }

  lemma RunsCollapsedPrepend(u: string, t: string)
    requires |u| > 0 && forall i :: 0 <= i < |u| ==> IsSpace(u[i])
    requires t == [] || !IsSpace(t[0])
    requires CountChar(u, '\n') < 3 && RunsCollapsed(t)
    ensures RunsCollapsed(u + t)
  {
    var s := u + t;
    SpanLenOfConcat(u, t);
    assert s[..|u|] == u && s[|u|..] == t;
  }

  lemma {:induction false} SpanLenOfConcat(u: string, t: string)
    requires forall i :: 0 <= i < |u| ==> IsSpace(u[i])
    requires t == [] || !IsSpace(t[0])
    ensures SpanLen(u + t, IsSpace) == |u|
    decreases |u|
  {
    if u == [] {
      assert u + t == t;
    } else {
      assert (u + t)[1..] == u[1..] + t;
      SpanLenOfConcat(u[1..], t);
    }
  }

  /** After the pass no whitespace run holds three newlines. */
  lemma {:induction false} CollapseBlankLinesCollapsed(s: string)
    ensures RunsCollapsed(CollapseBlankLines(s))
    decreases |s|
  {
    if s == [] {
    } else if !IsSpace(s[0]) {
      CollapseBlankLinesCollapsed(s[1..]);
      var r := CollapseBlankLines(s);
      assert r[1..] == CollapseBlankLines(s[1..]);
    } else {
      var w := SpanLen(s, IsSpace);
      var run := CollapseRun(s[..w]);
      CollapseBlankLinesCollapsed(s[w..]);
      assert forall i :: 0 <= i < |run| ==> IsSpace(run[i]) by {
        forall i | 0 <= i < |run| ensures IsSpace(run[i]) {
          assert run[i] in run;
          if run[i] != '\n' {
            var k :| 0 <= k < w && s[..w][k] == run[i];
          }
        }
      }
      RunsCollapsedPrepend(run, CollapseBlankLines(s[w..]));
    }
  }

  /** The pass changes nothing on a string it has already been applied to. */
  lemma {:induction false} CollapseBlankLinesNoop(s: string)
    requires RunsCollapsed(s)
    ensures CollapseBlankLines(s) == s
    decreases |s|
  {
    if s == [] {
    } else if !IsSpace(s[0]) {
      CollapseBlankLinesNoop(s[1..]);
    } else {
      var w := SpanLen(s, IsSpace);
      CollapseBlankLinesNoop(s[w..]);
      assert s == s[..w] + s[w..];
    }
  }

  lemma {:induction false} CollapseBlankLinesChars(s: string)
    ensures forall c :: c in CollapseBlankLines(s) ==> c in s || c == '\n'
    decreases |s|
  {
    if s == [] {
    } else if !IsSpace(s[0]) {
      CollapseBlankLinesChars(s[1..]);
      forall c | c in CollapseBlankLines(s) ensures c in s || c == '\n' {
        if c in CollapseBlankLines(s[1..]) && c != '\n' { assert c in s[1..]; }
      }
    } else {
      var w := SpanLen(s, IsSpace);
      CollapseBlankLinesChars(s[w..]);
      forall c | c in CollapseBlankLines(s) ensures c in s || c == '\n' {
        if c in CollapseBlankLines(s[w..]) { if c != '\n' { assert c in s[w..]; } }
        else { assert c in CollapseRun(s[..w]); if c != '\n' { assert c in s[..w]; } }
      }
    }
  }

  lemma {:induction false} CollapseBlankLinesNoDoubleSpace(s: string)
    requires NoDoubleSpace(s)
    ensures NoDoubleSpace(CollapseBlankLines(s))
    decreases |s|
  {
    if s == [] {
    } else if !IsSpace(s[0]) {
      NoDoubleSpaceSlice(s, 1, |s|);
      CollapseBlankLinesNoDoubleSpace(s[1..]);
      NoDoubleSpaceConcat([s[0]], CollapseBlankLines(s[1..]));
    } else {
      var w := SpanLen(s, IsSpace);
      NoDoubleSpaceSlice(s, 0, w);
      NoDoubleSpaceSlice(s, w, |s|);
      CollapseRunNoDoubleSpace(s[..w]);
      CollapseBlankLinesNoDoubleSpace(s[w..]);
      NoDoubleSpaceConcat(CollapseRun(s[..w]), CollapseBlankLines(s[w..]));
    }
  }

  lemma {:induction false} RunsCollapsedTrimEnd(s: string, k: nat)
    requires k <= |s| && RunsCollapsed(s)
    requires k == 0 || !IsSpace(s[k - 1])
    ensures RunsCollapsed(s[..k])
    decreases |s|
  {
    if k == 0 || s == [] {
    } else if !IsSpace(s[0]) {
      RunsCollapsedTrimEnd(s[1..], k - 1);
      assert s[..k][1..] == s[1..][..k - 1];
    } else {
      var w := SpanLen(s, IsSpace);
      assert w < k;
      RunsCollapsedTrimEnd(s[w..], k - w);
      var t := s[..k];
      assert t[..w] == s[..w];
      SpanLenPrefix(s, k, w);
      assert t[w..] == s[w..][..k - w];
    }
  }

  lemma SpanLenPrefix(s: string, k: nat, w: nat)
    requires w < k <= |s| && w == SpanLen(s, IsSpace)
    ensures SpanLen(s[..k], IsSpace) == w
  {
    assert s[..k] == s[..w] + s[w..k];
    SpanLenOfConcat(s[..w], s[w..k]);
  }

  /** `r` keeps every white character of `s` in place and every other character non-white. */
  predicate KeepsWhite(s: string, r: string)
  {
    |r| == |s|
    && forall i :: 0 <= i < |s| ==> (IsSpace(s[i]) ==> r[i] == s[i]) && (!IsSpace(s[i]) ==> !IsSpace(r[i]))
  }

  /** A character map that keeps white space and keeps the rest non-white keeps the runs collapsed. */
  lemma {:induction false} RunsCollapsedKeepsWhite(s: string, r: string)
    requires KeepsWhite(s, r) && RunsCollapsed(s)
    ensures RunsCollapsed(r)
    decreases |s|
  {
    if s != [] {
      if !IsSpace(s[0]) {
        assert KeepsWhite(s[1..], r[1..]);
        RunsCollapsedKeepsWhite(s[1..], r[1..]);
      } else {
        var w := SpanLen(s, IsSpace);
        assert r[..w] == s[..w];
        assert r == r[..w] + r[w..];
        SpanLenOfConcat(r[..w], r[w..]);
        assert KeepsWhite(s[w..], r[w..]);
        RunsCollapsedKeepsWhite(s[w..], r[w..]);
      }
    }
  }

  /** `normalize_whitespace(text)` */
  function NormalizeWhitespace(text: string): (r: string)
  {
    if text == [] then [] else Strip(CollapseBlankLines(SqueezeBlanks(text)))
  }

  /** The result has no tab, no two adjacent spaces, no edge whitespace and no run of three newlines. */
  lemma NormalizeWhitespaceShape(text: string)
    ensures var r := NormalizeWhitespace(text);
      '\t' !in r && NoDoubleSpace(r) && RunsCollapsed(r)
      && (r == [] || (!IsSpace(r[0]) && !IsSpace(r[|r| - 1])))
      && (text == [] ==> r == [])
  {
    if text != [] {
      var a := SqueezeBlanks(text);
      var b := CollapseBlankLines(a);
      CollapseBlankLinesChars(a);
      CollapseBlankLinesNoDoubleSpace(a);
      CollapseBlankLinesCollapsed(a);
      StripShape(b);
    }
  }

  /** Strip keeps the three shape properties of its input. */
  lemma StripShape(b: string)
    requires '\t' !in b && NoDoubleSpace(b) && RunsCollapsed(b)
    ensures var r := Strip(b); '\t' !in r && NoDoubleSpace(r) && RunsCollapsed(r)
  {
    var n := SpanLen(b, IsSpace);
    var t := b[n..];
    assert TrimStart(b, IsSpace) == t;
    NoDoubleSpaceSlice(b, n, |b|);
    var r := Strip(b);
    assert r == t[..|r|];
    NoDoubleSpaceSlice(t, 0, |r|);
    RunsCollapsedTrimEnd(t, |r|);
    assert '\t' !in r by {
      forall i | 0 <= i < |r| ensures r[i] != '\t' { assert r[i] == b[n + i]; }
    }
  }

  /** `normalize_whitespace` is idempotent. */
  lemma NormalizeWhitespaceIdempotent(text: string)
    ensures NormalizeWhitespace(NormalizeWhitespace(text)) == NormalizeWhitespace(text)
  {
    var y := NormalizeWhitespace(text);
    NormalizeWhitespaceShape(text);
    if y != [] {
      SqueezeBlanksNoop(y);
      CollapseBlankLinesNoop(y);
      TrimStartNoop(y, IsSpace);
      TrimEndNoop(y, IsSpace);
    }
  }

  // ================================================================ clean_html

  /**
   * Length of a match of `<tag[^>]*>.*?</tag>` (case-insensitive, `.`
   * matching newlines) at the start of `s`: the opening tag runs to its first
   * `>`, the element to the first closing tag after it.
   */
  function ElementMatchAt(s: string, tag: string): (n: Option<nat>)
    ensures n.Some? ==> 0 < n.value <= |s|
  {
    var open := "<" + tag;
    var close := "</" + tag + ">";
    if |open| <= |s| && Lower(s[..|open|]) == open then
      match IndexOfChar(s[|open|..], '>')
      case None => None
      case Some(g) =>
        var after := |open| + g + 1;
        match IndexOf(Lower(s[after..]), close)
        case None => None
        case Some(k) => Some(after + k + |close|)
    else None
  }

  /** `re.sub(r'<tag[^>]*>.*?</tag>', '', s, flags=re.DOTALL | re.IGNORECASE)` */
  function RemoveElements(s: string, tag: string): (r: string)
    ensures |r| <= |s|
    ensures forall c :: c in r ==> c in s
    decreases |s|
  {
    if s == [] then []
    else
      match ElementMatchAt(s, tag)
      case Some(n) =>
        var r := RemoveElements(s[n..], tag);
        assert forall c :: c in r ==> c in s by { forall c | c in r ensures c in s { assert c in s[n..]; } }
        r
      case None =>
        var r := RemoveElements(s[1..], tag);
        assert forall c :: c in r ==> c in s by { forall c | c in r ensures c in s { assert c in s[1..]; } }
        [s[0]] + r
  }

  /** No `<` is followed by one or more characters other than `>` and then a `>`. */
  predicate NoTag(s: string)
  {
    forall i :: 0 <= i < |s| && s[i] == '<' ==> (i + 1 < |s| && s[i + 1] == '>') || '>' !in s[i + 1..]
  }

  /** `re.sub(r'<[^>]+>', '', s)` */
  function RemoveTags(s: string): (r: string)
    ensures |r| <= |s|
    ensures forall c :: c in r ==> c in s
    ensures s != [] && s[0] != '<' ==> r != [] && r[0] == s[0]
    ensures NoTag(r)
    decreases |s|
  {
    if s == [] then []
    else if s[0] == '<' then
      match IndexOfChar(s[1..], '>')
      case Some(g) =>
        if g >= 1 then
          var r := RemoveTags(s[g + 2..]);
          assert forall c :: c in r ==> c in s by { forall c | c in r ensures c in s { assert c in s[g + 2..]; } }
          r
        else
          var rest := RemoveTags(s[1..]);
          assert forall c :: c in rest ==> c in s by { forall c | c in rest ensures c in s { assert c in s[1..]; } }
          NoTagCons(s[0], rest, s[1..]);
          [s[0]] + rest
      case None =>
        var rest := RemoveTags(s[1..]);
        assert forall c :: c in rest ==> c in s by { forall c | c in rest ensures c in s { assert c in s[1..]; } }
        NoTagCons(s[0], rest, s[1..]);
        [s[0]] + rest
    else
      var rest := RemoveTags(s[1..]);
      assert forall c :: c in rest ==> c in s by { forall c | c in rest ensures c in s { assert c in s[1..]; } }
      NoTagCons(s[0], rest, s[1..]);
      [s[0]] + rest
  }

  lemma NoTagCons(c: char, rest: string, t: string)
    requires NoTag(rest)
    requires '>' in rest ==> '>' in t
    requires c == '<' ==> (t != [] && t[0] == '>' && rest != [] && rest[0] == '>') || '>' !in t
    ensures NoTag([c] + rest)
  {
    var s := [c] + rest;
    forall i | 0 <= i < |s| && s[i] == '<'
      ensures (i + 1 < |s| && s[i + 1] == '>') || '>' !in s[i + 1..]
    {
      if i > 0 {
        assert s[i + 1..] == rest[i..];
      } else {
        assert s[1..] == rest;
      }
    }
  }

  /** No two adjacent whitespace characters. */
  predicate NoAdjacentSpace(s: string)
  {
    forall i :: 0 <= i < |s| - 1 && IsSpace(s[i]) ==> !IsSpace(s[i + 1])
  }

  /** `clean_html(html_content)`; `unescape` stands for `html.unescape`. */
  function CleanHtml(content: string, unescape: string -> string): (r: string)
  {
    if content == [] then []
    else
      var text := unescape(content);
      var text := RemoveElements(text, "script");
      var text := RemoveElements(text, "style");
      var text := RemoveTags(text);
      Strip(SqueezeRuns(text, IsSpace, ' '))
  }

  /**
   * The cleaned text is empty for empty input, has no edge whitespace, no
   * two adjacent whitespace characters, and no tag left in it.
   */
  lemma CleanHtmlShape(content: string, unescape: string -> string)
    ensures var r := CleanHtml(content, unescape);
      (content == [] ==> r == [])
      && (r == [] || (!IsSpace(r[0]) && !IsSpace(r[|r| - 1])))
      && NoAdjacentSpace(r) && NoTag(r)
  {
    if content != [] {
      var t := RemoveTags(RemoveElements(RemoveElements(unescape(content), "script"), "style"));
      SqueezeStripShape(t);
    }
  }

  /** The last two passes of `clean_html` keep `NoTag` and leave single, inner whitespace. */
  lemma SqueezeStripShape(t: string)
    requires NoTag(t)
    ensures var r := Strip(SqueezeRuns(t, IsSpace, ' '));
      NoAdjacentSpace(r) && NoTag(r)
  {
    var q := SqueezeRuns(t, IsSpace, ' ');
    SqueezeKeepsNoTag(t, q);
    assert NoAdjacentSpace(q);
    StripShapeHtml(q);
  }

  lemma StripShapeHtml(q: string)
    requires NoAdjacentSpace(q) && NoTag(q)
    ensures NoAdjacentSpace(Strip(q)) && NoTag(Strip(q))
  {
    var r := Strip(q);
    var n := SpanLen(q, IsSpace);
    TrimIsSlice(q, IsSpace);
    var m := n + |r|;
    assert r == q[n..m];
    NoAdjacentSpaceSlice(q, n, m);
    NoTagSlice(q, n, m);
  }

  lemma NoAdjacentSpaceSlice(s: string, a: nat, b: nat)
    requires a <= b <= |s| && NoAdjacentSpace(s)
    ensures NoAdjacentSpace(s[a..b])
  {
    var t := s[a..b];
    forall i | 0 <= i < |t| - 1 && IsSpace(t[i]) ensures !IsSpace(t[i + 1]) {
      assert t[i] == s[a + i] && t[i + 1] == s[a + i + 1];
    }
  }

  lemma NoTagSlice(s: string, a: nat, b: nat)
    requires a <= b <= |s| && NoTag(s)
    ensures NoTag(s[a..b])
  {
    var t := s[a..b];
    forall i | 0 <= i < |t| && t[i] == '<'
      ensures (i + 1 < |t| && t[i + 1] == '>') || '>' !in t[i + 1..]
    {
      assert t[i] == s[a + i];
      if !(i + 1 < |t| && t[i + 1] == '>') {
        if i + 1 < |t| {
          assert s[a + i + 1] != '>';
          assert '>' !in s[a + i + 1..];
          forall k | i + 1 <= k < |t| ensures t[k] != '>' { assert t[k] == s[a + k]; assert s[a + k] in s[a + i + 1..]; }
        }
      }
    }
  }

  /** Squeezing whitespace keeps every `<`, `>` and non-space character in place relative to each other. */
  lemma {:induction false} SqueezeKeepsNoTag(t: string, q: string)
    requires NoTag(t) && q == SqueezeRuns(t, IsSpace, ' ')
    ensures NoTag(q)
    decreases |t|
  {
    if t != [] {
      var n := if IsSpace(t[0]) then SpanLen(t, IsSpace) else 1;
      NoTagSlice(t, n, |t|);
      var rest := SqueezeRuns(t[n..], IsSpace, ' ');
      SqueezeKeepsNoTag(t[n..], rest);
      assert q == [q[0]] + rest;
      if t[0] == '<' {
        assert n == 1;
        if |t| > 1 && t[1] == '>' {
          assert rest != [] && rest[0] == '>';
        } else {
          assert '>' !in t[1..];
        }
      }
      assert '>' in rest ==> '>' in t[n..];
      NoTagCons(q[0], rest, t[n..]);
    }
  }

  // ================================================================ sanitize_filename

  predicate IsUnsafe(c: char) { c in "<>:\"/\\|?*" }

  /** `re.sub(r'[<>:"/\\|?*]', '_', s)` */
  function ReplaceUnsafe(s: string): (r: string)
    ensures |r| == |s|
    ensures forall i :: 0 <= i < |s| ==> r[i] == (if IsUnsafe(s[i]) then '_' else s[i])
  {
    if s == [] then [] else [if IsUnsafe(s[0]) then '_' else s[0]] + ReplaceUnsafe(s[1..])
  }

  predicate IsUnderscore(c: char) { c == '_' }

  /** `sanitize_filename(filename)` */
  function SanitizeFilename(filename: string): (r: string)
  {
    Trim(SqueezeRuns(ReplaceUnsafe(filename), IsUnderscore, '_'), IsUnderscore)
  }

  /** A sanitized name has no unsafe character, no `__`, and no `_` at either end. */
  lemma SanitizeFilenameShape(filename: string)
    ensures var r := SanitizeFilename(filename);
      (forall c :: c in r ==> !IsUnsafe(c))
      && (forall i :: 0 <= i < |r| - 1 ==> !(r[i] == '_' && r[i + 1] == '_'))
      && (r == [] || (r[0] != '_' && r[|r| - 1] != '_'))
  {
    var a := ReplaceUnsafe(filename);
    assert forall c :: c in a ==> !IsUnsafe(c) by {
      forall c | c in a ensures !IsUnsafe(c) { var j :| 0 <= j < |a| && a[j] == c; }
    }
    var b := SqueezeRuns(a, IsUnderscore, '_');
    assert forall c :: c in b ==> !IsUnsafe(c);
    TrimmedShape(b);
  }

  /** Trimming `_` from a safe name without `__` leaves one with no `_` at either end. */
  lemma TrimmedShape(b: string)
    requires forall c :: c in b ==> !IsUnsafe(c)
    requires forall k :: 0 <= k < |b| - 1 && IsUnderscore(b[k]) ==> !IsUnderscore(b[k + 1])
    ensures var r := Trim(b, IsUnderscore);
      (forall c :: c in r ==> !IsUnsafe(c))
      && (forall i :: 0 <= i < |r| - 1 ==> !(r[i] == '_' && r[i + 1] == '_'))
      && (r == [] || (r[0] != '_' && r[|r| - 1] != '_'))
  {
    var r := Trim(b, IsUnderscore);
    var k := SpanLen(b, IsUnderscore);
    TrimIsSlice(b, IsUnderscore);
    SliceProperties(b, k, k + |r|);
  }

  lemma SliceProperties(b: string, i: nat, j: nat)
    requires i <= j <= |b|
    requires forall c :: c in b ==> !IsUnsafe(c)
    requires forall k :: 0 <= k < |b| - 1 && IsUnderscore(b[k]) ==> !IsUnderscore(b[k + 1])
    ensures forall c :: c in b[i..j] ==> !IsUnsafe(c)
    ensures forall k :: 0 <= k < j - i - 1 ==> !(b[i..j][k] == '_' && b[i..j][k + 1] == '_')
  {
    var r := b[i..j];
    forall c | c in r ensures !IsUnsafe(c) { assert c in b; }
    forall k | 0 <= k < |r| - 1 ensures !(r[k] == '_' && r[k + 1] == '_') {
      assert r[k] == b[i + k] && r[k + 1] == b[i + k + 1];
    }
  }

  /** Sanitizing twice is sanitizing once. */
  lemma SanitizeFilenameIdempotent(filename: string)
    ensures SanitizeFilename(SanitizeFilename(filename)) == SanitizeFilename(filename)
  {
    var r := SanitizeFilename(filename);
    SanitizeFilenameShape(filename);
    assert ReplaceUnsafe(r) == r by {
      forall i | 0 <= i < |r| ensures !IsUnsafe(r[i]) { assert r[i] in r; }
    }
    SqueezeRunsNoop(r, IsUnderscore, '_');
    TrimStartNoop(r, IsUnderscore);
    TrimEndNoop(r, IsUnderscore);
  }

  // ================================================================ extract_title_from_content

  /** `re.sub(r'^#+\s*', '', line)` */
  function StripHeadingMarker(line: string): (r: string)
    ensures |r| <= |line|
    ensures r == line[|line| - |r|..]
  {
    if line != [] && line[0] == '#' then TrimStart(TrimStart(line, c => c == '#'), IsSpace) else line
  }

  predicate IsTitleChar(c: char) { IsWordChar(c) || IsSpace(c) || IsHangul(c) }

  /** `re.sub(r'[^\w\s가-힣]', '', line)` */
  function KeepTitleChars(line: string): (r: string)
    ensures |r| <= |line|
    ensures forall c :: c in r ==> IsTitleChar(c)
  {
    if line == [] then []
    else (if IsTitleChar(line[0]) then [line[0]] else []) + KeepTitleChars(line[1..])
  }

  /** The title a single line yields, if any. */
  function LineTitle(line: string, maxLength: int): (r: Option<string>)
    ensures r.Some? ==> r.value != [] && |r.value| <= maxLength
    ensures r.Some? ==> forall c :: c in r.value ==> IsTitleChar(c)
  {
    var line := Strip(line);
    if line != [] && |line| <= maxLength then
      var t := KeepTitleChars(StripHeadingMarker(line));
      if t != [] then Some(t) else None
    else None
  }

  /** The first line, in order, that yields a title. */
  function FirstTitle(lines: seq<string>, maxLength: int): (r: Option<string>)
    ensures r.Some? ==> exists i :: 0 <= i < |lines| && LineTitle(lines[i], maxLength) == r
    ensures r.None? ==> forall i :: 0 <= i < |lines| ==> LineTitle(lines[i], maxLength).None?
  {
    if lines == [] then None
    else if LineTitle(lines[0], maxLength).Some? then LineTitle(lines[0], maxLength)
    else
      var r := FirstTitle(lines[1..], maxLength);
      assert forall i :: 1 <= i < |lines| ==> lines[i] == lines[1..][i - 1];
      r
  }

  /** Any title found is non-empty, at most `maxLength` long, and made of word, space and Hangul characters. */
  lemma FirstTitleShape(lines: seq<string>, maxLength: int)
    ensures var r := FirstTitle(lines, maxLength);
      r.Some? ==> r.value != [] && |r.value| <= maxLength && forall c :: c in r.value ==> IsTitleChar(c)
  {
    var r := FirstTitle(lines, maxLength);
    if r.Some? {
      var i :| 0 <= i < |lines| && LineTitle(lines[i], maxLength) == r;
    }
  }

  /** The first-match loop of `extract_title_from_content` over the lines. */
  method FindTitle(lines: seq<string>, maxLength: int) returns (r: Option<string>)
    ensures r == FirstTitle(lines, maxLength)
    ensures r.Some? ==> r.value != [] && |r.value| <= maxLength && forall c :: c in r.value ==> IsTitleChar(c)
  {
    FirstTitleShape(lines, maxLength);
    var i := 0;
    while i < |lines|
      invariant 0 <= i <= |lines|
      invariant FirstTitle(lines, maxLength) == FirstTitle(lines[i..], maxLength)
    {
      assert lines[i..][1..] == lines[i + 1..];
      var t := LineTitle(lines[i], maxLength);
      if t.Some? {
        return t;
      }
      i := i + 1;
    }
    return None;
  }

  /** `extract_title_from_content(content, max_length)` */
  function TitleFromContent(content: string, maxLength: int): (r: Option<string>)
  {
    if content == [] then None else FirstTitle(Split(content, "\n"), maxLength)
  }

  /** `extract_title_from_content(content, max_length)`: `None` for empty content, else the first line's title. */
  method ExtractTitleFromContent(content: string, maxLength: int) returns (r: Option<string>)
    ensures r == TitleFromContent(content, maxLength)
    ensures content == [] ==> r.None?
    ensures r.Some? ==> r.value != [] && |r.value| <= maxLength && forall c :: c in r.value ==> IsTitleChar(c)
  {
    if content == [] {
      return None;
    }
    var lines := Split(content, "\n");
    r := FindTitle(lines, maxLength);
  }

  // ================================================================ normalize_korean_spacing

  /**
   * `r` is `s` with some whitespace characters deleted: matching greedily,
   * every character of `s` is either the next character of `r` or a deleted
   * whitespace character.
   */
  predicate WsErased(s: string, r: string)
    decreases |s|
  {
    if s == [] then r == []
    else if r != [] && r[0] == s[0] then WsErased(s[1..], r[1..])
    else IsSpace(s[0]) && WsErased(s[1..], r)
  }

  /** The non-whitespace characters of `s`, in order. */
  function NonSpace(s: string): (r: string)
    ensures |r| <= |s|
  {
    if s == [] then [] else (if IsSpace(s[0]) then [] else [s[0]]) + NonSpace(s[1..])
  }

  lemma {:induction false} WsErasedRefl(s: string)
    ensures WsErased(s, s)
    decreases |s|
  {
    if s != [] { WsErasedRefl(s[1..]); }
  }

  /** Erasing whitespace never lengthens and keeps the non-whitespace characters in order. */
  lemma {:induction false} WsErasedKeeps(s: string, r: string)
    requires WsErased(s, r)
    ensures |r| <= |s| && NonSpace(r) == NonSpace(s)
    decreases |s|
  {
    if s == [] {
    } else if r != [] && r[0] == s[0] {
      WsErasedKeeps(s[1..], r[1..]);
    } else {
      WsErasedKeeps(s[1..], r);
    }
  }

  lemma {:induction false} WsErasedDropSpace(s: string, r: string)
    requires WsErased(s, r) && r != [] && IsSpace(r[0])
    ensures WsErased(s, r[1..])
    decreases |s|
  {
    if s == [] {
    } else if r[0] == s[0] {
      if r[1..] != [] && r[1] == s[0] {
        WsErasedDropSpace(s[1..], r[1..]);
        assert r[1..][1..] == r[2..];
      }
    } else {
      WsErasedDropSpace(s[1..], r);
      if r[1..] != [] && r[1] == s[0] {
        WsErasedDropSpace(s[1..], r[1..]);
        assert r[1..][1..] == r[2..];
      }
    }
  }

  lemma {:induction false} WsErasedTrans(a: string, b: string, c: string)
    requires WsErased(a, b) && WsErased(b, c)
    ensures WsErased(a, c)
    decreases |a|
  {
    if a == [] {
    } else if b != [] && b[0] == a[0] {
      if c != [] && c[0] == b[0] {
        WsErasedTrans(a[1..], b[1..], c[1..]);
      } else {
        WsErasedTrans(a[1..], b[1..], c);
      }
    } else {
      WsErasedTrans(a[1..], b, c);
      if c != [] && c[0] == a[0] {
        WsErasedDropSpace(a[1..], c);
      }
    }
  }

  lemma {:induction false} WsErasedPrependSpaces(u: string, t: string, r: string)
    requires forall i :: 0 <= i < |u| ==> IsSpace(u[i])
    requires WsErased(t, r)
    ensures WsErased(u + t, r)
    decreases |u|
  {
    if u == [] {
      assert u + t == t;
    } else {
      assert (u + t)[1..] == u[1..] + t;
      WsErasedPrependSpaces(u[1..], t, r);
      if r != [] && r[0] == u[0] {
        WsErasedDropSpace(u[1..] + t, r);
      }
    }
  }

  lemma {:induction false} WsErasedPrependSame(u: string, t: string, r: string)
    requires WsErased(t, r)
    ensures WsErased(u + t, u + r)
    decreases |u|
  {
    if u == [] {
      assert u + t == t && u + r == r;
    } else {
      assert (u + t)[1..] == u[1..] + t;
      assert (u + r)[1..] == u[1..] + r;
      WsErasedPrependSame(u[1..], t, r);
    }
  }

  /**
   * Deletes each maximal whitespace run of `s` for which `drop(before, after)`
   * holds, `before` being the character just before the run and `after` the
   * text just after it. Every substitution of `normalize_korean_spacing`
   * has this form: its pattern can only match a whole run, and what decides
   * the match is the character before the run or the text after it.
   */
  function DeleteRuns(s: string, before: Option<char>, drop: (Option<char>, string) -> bool): (r: string)
    ensures WsErased(s, r)
    decreases |s|
  {
    if s == [] then []
    else if !IsSpace(s[0]) then
      var rest := DeleteRuns(s[1..], Some(s[0]), drop);
      WsErasedPrependSame([s[0]], s[1..], rest);
      assert [s[0]] + s[1..] == s;
      [s[0]] + rest
    else
      var w := SpanLen(s, IsSpace);
      var rest := DeleteRuns(s[w..], Some(s[w - 1]), drop);
      assert s == s[..w] + s[w..];
      if drop(before, s[w..]) then
        WsErasedPrependSpaces(s[..w], s[w..], rest);
        rest
      else
        WsErasedPrependSame(s[..w], s[w..], rest);
        s[..w] + rest
  }

  const Particles: seq<string> :=
    ["은", "는", "이", "가", "을", "를", "에", "에서", "으로", "로",
     "와", "과", "의", "도", "만", "까지", "부터", "마저", "조차"]

  /** `re.sub(rf'\s+{particle}\b', particle, s)` */
  function ParticlePass(s: string, particle: string): (r: string)
    ensures WsErased(s, r)
  {
    DeleteRuns(s, None, (before: Option<char>, after: string) =>
      StartsWith(after, particle) && (|after| == |particle| || !IsWordChar(after[|particle|])))
  }

  /** The particle passes in list order. */
  function ApplyParticles(s: string, particles: seq<string>): (r: string)
    ensures WsErased(s, r)
    decreases |particles|
  {
    if particles == [] then WsErasedRefl(s); s
    else
      var t := ParticlePass(s, particles[0]);
      var r := ApplyParticles(t, particles[1..]);
      WsErasedTrans(s, t, r);
      r
  }

  /** `re.sub(r'\s+([.!?,:;])', r'\1', s)` */
  function PunctuationPass(s: string): (r: string)
    ensures WsErased(s, r)
  {
    DeleteRuns(s, None, (before: Option<char>, after: string) => after != [] && after[0] in ".!?,:;")
  }

  /** `re.sub(r'\(\s+', '(', s)` */
  function OpenParenPass(s: string): (r: string)
    ensures WsErased(s, r)
  {
    DeleteRuns(s, None, (before: Option<char>, after: string) => before == Some('('))
  }

  /** `re.sub(r'\s+\)', ')', s)` */
  function CloseParenPass(s: string): (r: string)
    ensures WsErased(s, r)
  {
    DeleteRuns(s, None, (before: Option<char>, after: string) => after != [] && after[0] == ')')
  }

  /** The text starts with one of the units 개 명 번 회 시 분 초 일 월 년 kg g km m cm. */
  predicate UnitAt(after: string)
  {
    after != [] &&
    (after[0] in "개명번회시분초일월년gm" || StartsWith(after, "kg") || StartsWith(after, "km") || StartsWith(after, "cm"))
  }

  /** `re.sub(r'(\d+)\s*(개|명|...|cm)', r'\1\2', s)`: the run between a number and its unit goes. */
  function UnitPass(s: string): (r: string)
    ensures WsErased(s, r)
  {
    DeleteRuns(s, None, (before: Option<char>, after: string) => before.Some? && IsDigit(before.value) && UnitAt(after))
  }

  /** `normalize_korean_spacing(text)` as one expression. */
  function KoreanSpacing(text: string): (r: string)
    ensures WsErased(text, r)
  {
    if text == [] then text
    else
      var a := ApplyParticles(text, Particles);
      var b := PunctuationPass(a);
      var c := OpenParenPass(b);
      var d := CloseParenPass(c);
      var r := UnitPass(d);
      WsErasedTrans(text, a, b);
      WsErasedTrans(text, b, c);
      WsErasedTrans(text, c, d);
      WsErasedTrans(text, d, r);
      r
  }

  /** The loop of `normalize_korean_spacing` over its particle list. */
  method RemoveParticleSpacing(text: string, particles: seq<string>) returns (r: string)
    ensures r == ApplyParticles(text, particles)
    ensures |r| <= |text| && NonSpace(r) == NonSpace(text)
  {
    r := text;
    for i := 0 to |particles|
      invariant ApplyParticles(r, particles[i..]) == ApplyParticles(text, particles)
    {
      assert particles[i..][1..] == particles[i + 1..];
      r := ParticlePass(r, particles[i]);
    }
    WsErasedKeeps(text, r);
  }

  /** `normalize_korean_spacing(text)`, pass by pass as the source runs them. */
  method NormalizeKoreanSpacing(text: string) returns (r: string)
    ensures r == KoreanSpacing(text)
    ensures |r| <= |text| && NonSpace(r) == NonSpace(text)
  {
    if text == [] {
      return text;
    }
    r := RemoveParticleSpacing(text, Particles);
    r := PunctuationPass(r);
    r := OpenParenPass(r);
    r := CloseParenPass(r);
    r := UnitPass(r);
    KoreanSpacingSteps(text);
    KoreanSpacingKeeps(text);
  }

  /** A non-empty text goes through the particle passes and then the four others, in that order. */
  lemma KoreanSpacingSteps(text: string)
    requires text != []
    ensures KoreanSpacing(text) == UnitPass(CloseParenPass(OpenParenPass(PunctuationPass(ApplyParticles(text, Particles)))))
  {
  }

  /** `normalize_korean_spacing` never lengthens and keeps the non-whitespace characters in order. */
  lemma KoreanSpacingKeeps(text: string)
    ensures |KoreanSpacing(text)| <= |text| && NonSpace(KoreanSpacing(text)) == NonSpace(text)
  {
    WsErasedKeeps(text, KoreanSpacing(text));
  }

  // ================================================================ escape_markdown_special_chars

  const SpecialChars: seq<char> := ['\\', '`', '*', '_', '{', '}', '[', ']', '(', ')', '#', '+', '-', '.', '!', '|']

  /** Each character of `special` in `s` gets one backslash before it. */
  function EscapeChars(s: string, special: set<char>): (r: string)
    ensures |r| >= |s|
  {
    if s == [] then []
    else (if s[0] in special then ['\\', s[0]] else [s[0]]) + EscapeChars(s[1..], special)
  }

  /** The set of characters of a list. */
  function Chars(s: seq<char>): (r: set<char>)
    ensures forall x :: x in r <==> x in s
  {
    if s == [] then {} else Chars(s[..|s| - 1]) + {s[|s| - 1]}
  }

  function CountIn(s: string, special: set<char>): (n: nat)
    ensures n <= |s|
  {
    if s == [] then 0 else (if s[0] in special then 1 else 0) + CountIn(s[1..], special)
  }

  /** Drops the backslash in front of each escaped character. */
  function Unescape(s: string): (r: string)
    decreases |s|
  {
    if s == [] then []
    else if |s| >= 2 && s[0] == '\\' then [s[1]] + Unescape(s[2..])
    else [s[0]] + Unescape(s[1..])
  }

  lemma {:induction false} EscapeCharsLength(s: string, special: set<char>)
    ensures |EscapeChars(s, special)| == |s| + CountIn(s, special)
  {
    if s != [] { EscapeCharsLength(s[1..], special); }
  }

  /** Removing the inserted backslashes gives back the input. */
  lemma {:induction false} UnescapeEscape(s: string, special: set<char>)
    requires '\\' in special
    ensures Unescape(EscapeChars(s, special)) == s
  {
    if s != [] {
      UnescapeEscape(s[1..], special);
      var e := EscapeChars(s, special);
      if s[0] in special {
        assert e[2..] == EscapeChars(s[1..], special);
      } else {
        assert e[1..] == EscapeChars(s[1..], special);
      }
    }
  }

  /**
   * Replacing `c` by backslash-`c` in a string whose characters from
   * `special` are already escaped escapes `c` as well, provided the
   * backslash is not `c` unless nothing was escaped yet.
   */
  lemma {:induction false} ReplaceExtendsEscape(s: string, special: set<char>, c: char)
    requires c !in special
    requires special != {} ==> c != '\\'
    ensures ReplaceChar(EscapeChars(s, special), c, ['\\', c]) == EscapeChars(s, special + {c})
  {
    if s != [] {
      ReplaceExtendsEscape(s[1..], special, c);
      var head := if s[0] in special then ['\\', s[0]] else [s[0]];
      ReplaceCharConcat(head, EscapeChars(s[1..], special), c, ['\\', c]);
      if s[0] in special {
        assert ReplaceChar(head, c, ['\\', c]) == head by {
          assert head[1..] == [s[0]];
          assert ReplaceChar(head[1..], c, ['\\', c]) == [s[0]];
        }
      }
    }
  }

  lemma {:induction false} ReplaceCharConcat(a: string, b: string, c: char, t: string)
    ensures ReplaceChar(a + b, c, t) == ReplaceChar(a, c, t) + ReplaceChar(b, c, t)
  {
    if a == [] {
      assert a + b == b;
    } else {
      assert (a + b)[1..] == a[1..] + b;
      ReplaceCharConcat(a[1..], b, c, t);
    }
  }

  /** `escape_markdown_special_chars(text)`: the replacements in list order, backslash first. */
  method EscapeMarkdownSpecialChars(text: string) returns (r: string)
    ensures r == EscapeChars(text, Chars(SpecialChars))
    ensures |r| == |text| + CountIn(text, Chars(SpecialChars))
    ensures Unescape(r) == text
  {
    r := text;
    EscapeNone(text);
    SpecialCharsDistinct();
    for i := 0 to |SpecialChars|
      invariant r == EscapeChars(text, Chars(SpecialChars[..i]))
    {
      var c := SpecialChars[i];
      assert c !in SpecialChars[..i] by {
        forall j | 0 <= j < i ensures SpecialChars[..i][j] != c { assert SpecialChars[..i][j] == SpecialChars[j]; }
      }
      assert i > 0 ==> SpecialChars[..i][0] == '\\';
      ReplaceExtendsEscape(text, Chars(SpecialChars[..i]), c);
      assert SpecialChars[..i + 1][..i] == SpecialChars[..i];
      r := ReplaceChar(r, c, ['\\', c]);
    }
    assert SpecialChars[..|SpecialChars|] == SpecialChars;
    EscapeCharsLength(text, Chars(SpecialChars));
    UnescapeEscape(text, Chars(SpecialChars));
  }

  lemma SpecialCharsDistinct()
    ensures forall j, k :: 0 <= j < k < |SpecialChars| ==> SpecialChars[j] != SpecialChars[k]
  {
  }

  lemma {:induction false} EscapeNone(s: string)
    ensures EscapeChars(s, {}) == s
  {
    if s != [] { EscapeNone(s[1..]); }
  }

  // ================================================================ create_markdown_table

  /** A row cut or padded with empty cells to exactly `n` cells. */
  function Fit(row: seq<string>, n: nat): (r: seq<string>)
    ensures |r| == n
    ensures forall i :: 0 <= i < n ==> r[i] == (if i < |row| then row[i] else "")
  {
    if |row| >= n then row[..n] else row + seq(n - |row|, _ => "")
  }

  /** One table line: `| a | b | c |` and a newline. */
  function TableLine(cells: seq<string>): string
  {
    "| " + Join(" | ", cells) + " |\n"
  }

  /** The data lines of the first rows, each fitted to `n` cells. */
  function DataLines(rows: seq<seq<string>>, n: nat): string
  {
    if rows == [] then []
    else DataLines(rows[..|rows| - 1], n) + TableLine(Fit(rows[|rows| - 1], n))
  }

  /** `create_markdown_table(headers, rows)` */
  function MarkdownTable(headers: seq<string>, rows: seq<seq<string>>): string
  {
    if headers == [] || rows == [] then []
    else TableLine(headers) + TableLine(seq(|headers|, _ => "---")) + DataLines(rows, |headers|)
  }

  method CreateMarkdownTable(headers: seq<string>, rows: seq<seq<string>>) returns (table: string)
    ensures table == MarkdownTable(headers, rows)
    ensures (table == []) <==> (headers == [] || rows == [])
  {
    if headers == [] || rows == [] {
      return [];
    }
    table := TableLine(headers);
    table := table + TableLine(seq(|headers|, _ => "---"));
    ghost var head := table;
    for i := 0 to |rows|
      invariant table == head + DataLines(rows[..i], |headers|)
    {
      assert rows[..i + 1][..i] == rows[..i];
      table := table + TableLine(Fit(rows[i], |headers|));
    }
    assert rows[..|rows|] == rows;
  }

  lemma {:induction false} JoinNoNewline(sep: string, cells: seq<string>)
    requires '\n' !in sep && forall c :: c in cells ==> '\n' !in c
    ensures '\n' !in Join(sep, cells)
  {
    if |cells| > 1 {
      JoinNoNewline(sep, cells[1..]);
    }
  }

  lemma TableLineNewlines(cells: seq<string>)
    requires forall c :: c in cells ==> '\n' !in c
    ensures CountChar(TableLine(cells), '\n') == 1
  {
    JoinNoNewline(" | ", cells);
    var j := Join(" | ", cells);
    CountCharConcat("| " + j, " |\n", '\n');
    CountCharConcat("| ", j, '\n');
  }

  lemma {:induction false} DataLinesNewlines(rows: seq<seq<string>>, n: nat)
    requires forall row, c :: row in rows && c in row ==> '\n' !in c
    ensures CountChar(DataLines(rows, n), '\n') == |rows|
  {
    if rows != [] {
      var last := rows[|rows| - 1];
      DataLinesNewlines(rows[..|rows| - 1], n);
      assert forall c :: c in Fit(last, n) ==> '\n' !in c by {
        forall c | c in Fit(last, n) ensures '\n' !in c {
          var i :| 0 <= i < n && Fit(last, n)[i] == c;
          if i < |last| { assert c in last; }
        }
      }
      TableLineNewlines(Fit(last, n));
      CountCharConcat(DataLines(rows[..|rows| - 1], n), TableLine(Fit(last, n)), '\n');
    }
  }

  /** Without newlines in the cells, a non-empty table has exactly 2 + |rows| lines. */
  lemma MarkdownTableLines(headers: seq<string>, rows: seq<seq<string>>)
    requires headers != [] && rows != []
    requires forall c :: c in headers ==> '\n' !in c
    requires forall row, c :: row in rows && c in row ==> '\n' !in c
    ensures CountChar(MarkdownTable(headers, rows), '\n') == 2 + |rows|
  {
    var dashes := seq(|headers|, _ => "---");
    TableLineNewlines(headers);
    TableLineNewlines(dashes);
    DataLinesNewlines(rows, |headers|);
    CountCharConcat(TableLine(headers) + TableLine(dashes), DataLines(rows, |headers|), '\n');
    CountCharConcat(TableLine(headers), TableLine(dashes), '\n');
  }
}
