/**
 * The plain-text converter: its `accepts` test, the markdown it makes of
 * text, and the title it falls back on. Its line separator, in splitting
 * and in joining, is the two characters `\` and `n`, and every pattern it
 * hands to `re` doubles its backslashes, so the patterns look for literal
 * backslashes.
 */
module TextConverter {
  import opened Wrappers
  import opened Strings
  import opened StreamInfos
  import opened Streams
  import opened Codecs
  import opened ConverterText
  import BaseConverter
  import FileDetector

  const Extensions: seq<string> := [".txt", ".text", ".log", ".md", ".rst"]
  const Mimetypes: seq<string> := ["text/plain", "text/markdown", "text/x-rst"]
  const Priority: real := 10.0

  /** The separator `_plain_text_to_markdown` splits and joins on: backslash, then `n`. */
  const Sep: string := "\\n"

  /** The attributes `TextConverter(korean_support)` sets. */
  function Info(koreanSupport: bool): BaseConverter.ConverterInfo
  {
    BaseConverter.ConverterInfo("TextConverter", Some("Plain text file converter"), koreanSupport,
      Priority, Extensions, Mimetypes, "documents")
  }

  /** `get_format_info`, which this converter replaces with its own dictionary. */
  function FormatInfo(c: BaseConverter.ConverterInfo): BaseConverter.FormatInfo
  {
    BaseConverter.FormatInfo("Text", "Plain text file converter with smart formatting detection",
      c.supportedExtensions, c.supportedMimetypes, c.category, None, None,
      Some(["Automatic encoding detection", "Smart heading detection", "List item detection",
            "Markdown preservation", "Korean text support"]))
  }

  // ---------------------------------------------------------------- accepts

  /** The two tests of `accepts` that look only at the stream info. */
  predicate Declared(info: StreamInfo)
  {
    MatchesExtension(info, Extensions) || MatchesMimetype(info, Mimetypes)
  }

  /** The answer `accepts` gives for a stream holding `data`. */
  ghost predicate AcceptsSpec(codecs: Codecs, info: StreamInfo, data: seq<byte>, seekable: bool)
  {
    Declared(info) || (seekable && exists k :: FirstToDecode(codecs, FileDetector.Head(data), SniffEncodings, k))
  }

  /**
   * `accepts`: a declared extension or MIME type answers yes without
   * touching the stream; otherwise the first 8192 bytes are sniffed exactly
   * as `is_text_file` does, and the position is put back. Since latin-1
   * decodes anything, every stream that can seek is accepted.
   */
  method Accepts(codecs: Codecs, stream: Stream, info: StreamInfo) returns (ok: bool)
    modifies stream`pos
    ensures stream.pos == old(stream.pos)
    ensures ok <==> AcceptsSpec(codecs, info, stream.data, stream.seekable)
    ensures AllKnown(codecs, SniffEncodings[..3]) ==> (ok <==> Declared(info) || stream.seekable)
  {
    if MatchesExtension(info, Extensions) {
      return true;
    }
    if MatchesMimetype(info, Mimetypes) {
      return true;
    }
    ok := FileDetector.IsTextFile(codecs, stream);
  }

  // ---------------------------------------------------------------- markdown detection

  /**
   * `_looks_like_markdown`. With doubled backslashes the italic pattern
   * `\\*[^*]+\\*` reads "any backslashes, one or more characters other
   * than `*`, any backslashes", so it matches as soon as the text holds a
   * character other than `*`; every other pattern needs such a character
   * too (`#`, a backslash or a backtick). The answer is therefore: does the
   * text hold a character other than `*`?
   */
  function LooksLikeMarkdown(text: string): (r: bool)
    ensures r <==> exists i :: 0 <= i < |text| && text[i] != '*'
  {
    if text == [] then false
    else if text[0] != '*' then true
    else
      var r := LooksLikeMarkdown(text[1..]);
      assert r ==> exists i :: 0 <= i < |text| && text[i] != '*' by {
        if r {
          var i :| 0 <= i < |text[1..]| && text[1..][i] != '*';
          assert text[i + 1] != '*';
        }
      }
      r
  }

  // ---------------------------------------------------------------- line classification

  /** `line.endswith(('.', '!', '?', ':'))` */
  predicate EndsInPunctuation(line: string)
  {
    line != [] && line[|line| - 1] in ".!?:"
  }

  /** `_looks_like_heading`: a line under 100 characters not ending in `. ! ? :`, or one starting with a digit. */
  predicate LooksLikeHeading(line: string)
  {
    (|line| < 100 && !EndsInPunctuation(line)) || StartsWithDigit(line)
  }

  /** The bullets `_looks_like_list_item` recognises: `•`, `·`, `-` and `*`. */
  predicate StartsWithBullet(line: string)
  {
    line != [] && line[0] in "•·-*"
  }

  /**
   * `_looks_like_list_item`: yes for a line opening with a bullet. Any other
   * line reaches `re.match(r'^\\d+\\)\\s', line)`, whose `)` closes no group,
   * so compiling the pattern raises `re.error`.
   */
  function LooksLikeListItem(line: string): (r: Outcome<bool>)
    ensures r.Returned? <==> StartsWithBullet(line)
    ensures r.Returned? ==> r.value
    ensures r.Raised? ==> r.error == RegexError("unbalanced parenthesis")
  {
    if StartsWithBullet(line) then Returned(true) else Raised(RegexError("unbalanced parenthesis"))
  }

  /** One line of `_plain_text_to_markdown`: blank stays blank, a heading gets its `#` marker, a list item a dash. */
  function PlainLine(line: string): (r: Outcome<string>)
  {
    var s := Strip(line);
    if s == [] then Returned([])
    else if LooksLikeHeading(s) then Returned(Repeat('#', NumberedLevel(s)) + " " + s)
    else match LooksLikeListItem(s)
      case Raised(e) => Raised(e)
      case Returned(item) => Returned(if item then "- " + s else s)
  }

  /** The lines made of `lines`, in order, or the first error. */
  function PlainLines(lines: seq<string>): (r: Outcome<seq<string>>)
    decreases |lines|
  {
    if lines == [] then Returned([])
    else match PlainLine(lines[0])
      case Raised(e) => Raised(e)
      case Returned(first) =>
        match PlainLines(lines[1..])
        case Raised(e) => Raised(e)
        case Returned(rest) => Returned([first] + rest)
  }

  /** `_plain_text_to_markdown(text)` */
  function PlainText(text: string): (r: Outcome<string>)
  {
    match PlainLines(Split(text, Sep))
    case Raised(e) => Raised(e)
    case Returned(ls) => Returned(Join(Sep, ls))
  }

  /** What `PlainLines` of `lines` is, given the lines made of a prefix of it. */
  function Continue(done: seq<string>, rest: Outcome<seq<string>>): Outcome<seq<string>>
  {
    match rest
    case Raised(e) => Raised(e)
    case Returned(ls) => Returned(done + ls)
  }

  lemma PlainLinesAt(lines: seq<string>, i: nat)
    requires i < |lines|
    ensures PlainLines(lines[i..]) ==
      match PlainLine(lines[i])
      case Raised(e) => Raised(e)
      case Returned(l) => Continue([l], PlainLines(lines[i + 1..]))
  {
    assert lines[i..][1..] == lines[i + 1..];
  }

  lemma ContinueEmpty(rest: Outcome<seq<string>>)
    ensures Continue([], rest) == rest
  {
    if rest.Returned? {
      assert [] + rest.value == rest.value;
    }
  }

  lemma ContinueAppend(done: seq<string>, l: string, rest: Outcome<seq<string>>)
    ensures Continue(done, Continue([l], rest)) == Continue(done + [l], rest)
  {
    if rest.Returned? {
      assert done + ([l] + rest.value) == (done + [l]) + rest.value;
    }
  }

  /** The loop of `_plain_text_to_markdown`, returning early when a line raises. */
  method PlainTextToMarkdown(text: string) returns (r: Outcome<string>)
    ensures r == PlainText(text)
  {
    var lines := Split(text, Sep);
    var out: seq<string> := [];
    assert lines[0..] == lines;
    ContinueEmpty(PlainLines(lines));
    for i := 0 to |lines|
      invariant PlainLines(lines) == Continue(out, PlainLines(lines[i..]))
    {
      var made := PlainLine(lines[i]);
      PlainLinesAt(lines, i);
      if made.Raised? {
        return Raised(made.error);
      }
      ContinueAppend(out, made.value, PlainLines(lines[i + 1..]));
      out := out + [made.value];
    }
    assert lines[|lines|..] == [];
    assert out + [] == out;
    return Returned(Join(Sep, out));
  }

  /**
   * A blank line gives "", and any other line is kept whole after its
   * stripping, behind a heading marker of one to six `#` when it looks like
   * a heading and behind "- " otherwise.
   */
  lemma PlainLineShape(line: string)
    ensures var r := PlainLine(line);
      var s := Strip(line);
      r.Returned? ==>
        (s == [] ==> r.value == [])
        && (s != [] && LooksLikeHeading(s) ==>
              exists level :: 1 <= level <= 6 && r.value == Repeat('#', level) + " " + s)
        && (s != [] && !LooksLikeHeading(s) ==> r.value == "- " + s)
  {
    var s := Strip(line);
    if s != [] && LooksLikeHeading(s) {
      assert PlainLine(line) == Returned(Repeat('#', NumberedLevel(s)) + " " + s);
    }
  }

  /** One output line per input line, each made of its input line alone. */
  lemma {:induction false} PlainLinesShape(lines: seq<string>)
    ensures var r := PlainLines(lines);
      r.Returned? ==>
        |r.value| == |lines|
        && forall i :: 0 <= i < |lines| ==> PlainLine(lines[i]) == Returned(r.value[i])
    decreases |lines|
  {
    if lines != [] {
      PlainLinesShape(lines[1..]);
      var r := PlainLines(lines);
      if r.Returned? {
        forall i | 0 <= i < |lines| ensures PlainLine(lines[i]) == Returned(r.value[i]) {
          if i > 0 { assert lines[i] == lines[1..][i - 1]; }
        }
      }
    }
  }

  /** A line that is neither blank, nor a heading, nor bulleted makes the whole conversion raise `re.error`. */
  lemma {:induction false} PlainLinesRaise(lines: seq<string>, k: nat)
    requires k < |lines|
    requires Strip(lines[k]) != [] && !LooksLikeHeading(Strip(lines[k])) && !StartsWithBullet(Strip(lines[k]))
    ensures PlainLines(lines).Raised?
    decreases k
  {
    if k > 0 {
      assert lines[1..][k - 1] == lines[k];
      PlainLinesRaise(lines[1..], k - 1);
    }
  }

  /** `_text_to_markdown`: a `# title` line when a title is given, then the text as it is or converted. */
  function TextToMarkdown(text: string, title: Option<string>): (r: Outcome<string>)
    ensures r.Returned? && Truthy(title) ==> StartsWith(r.value, "# " + title.value + Sep + Sep)
    ensures LooksLikeMarkdown(text) ==> r.Returned? && EndsWith(r.value, text)
  {
    var head := if Truthy(title) then "# " + title.value + Sep + Sep else [];
    if LooksLikeMarkdown(text) then
      Returned(head + text)
    else
      match PlainText(text)
      case Raised(e) => Raised(e)
      case Returned(body) => Returned(head + body)
  }

  /**
   * `_text_to_markdown` never raises: text that does not look like markdown
   * is all `*`, which has no separator, so it is one line, and a line of
   * stars is a heading (under 100 characters) or a bulleted item.
   */
  lemma TextToMarkdownNeverRaises(text: string, title: Option<string>)
    ensures TextToMarkdown(text, title).Returned?
  {
    if !LooksLikeMarkdown(text) {
      assert forall i :: 0 <= i < |text| ==> text[i] == '*';
      assert Split(text, Sep) == [text];
      if text != [] {
        assert Strip(text) == text by {
          TrimStartNoop(text, IsSpace);
          TrimEndNoop(text, IsSpace);
        }
      }
      assert PlainLines([text]).Returned?;
    }
  }

  // ---------------------------------------------------------------- title

  /**
   * `_extract_title_from_filename`: nothing for a missing or empty name;
   * otherwise the name without its last extension, `_` and `-` turned into
   * spaces, stripped and capitalised, or nothing if that leaves "".
   */
  function TitleFromFilename(filename: Option<string>): (r: Option<string>)
    ensures !Truthy(filename) ==> r.None?
    ensures r.Some? ==> r.value != []
  {
    if !Truthy(filename) then None
    else
      var title := Capitalize(Strip(SpacedStem(filename.value)));
      if title == [] then None else Some(title)
  }

  /**
   * A title made of a filename has no `_` or `-`, no white space at either
   * end, and is missing only when the spaced stem is blank.
   */
  lemma TitleFromFilenameShape(filename: string)
    requires filename != []
    ensures var r := TitleFromFilename(Some(filename));
      && (r.None? <==> Strip(SpacedStem(filename)) == [])
      && (r.Some? ==>
            (|r.value| == |Strip(SpacedStem(filename))|
             && '_' !in r.value && '-' !in r.value
             && !IsSpace(r.value[0]) && !IsSpace(r.value[|r.value| - 1])))
  {
    CapitalizedStrip(SpacedStem(filename));
  }

  /** Capitalising the stripped `u` keeps its length, adds no `_` or `-`, and leaves no white space at the ends. */
  lemma CapitalizedStrip(u: string)
    ensures var t := Capitalize(Strip(u));
      && |t| == |Strip(u)|
      && ('_' !in u ==> '_' !in t) && ('-' !in u ==> '-' !in t)
      && (t != [] ==> !IsSpace(t[0]) && !IsSpace(t[|t| - 1]))
  {
    var s := Strip(u);
    var t := Capitalize(s);
    assert ('_' !in u ==> '_' !in t) && ('-' !in u ==> '-' !in t) by {
      StripChars(u);
      CapitalizeKeeps(s);
    }
    if t != [] {
      var last := |t| - 1;
      assert !IsSpace(t[0]);
      assert !IsSpace(t[last]) by {
        if last > 0 { assert t[last] == Lower(s[1..])[last - 1] == LowerChar(s[last]); }
      }
    }
  }

  /** Capitalising only changes ASCII letters: punctuation, `_`, `-` and white space stay where they are. */
  lemma CapitalizeKeeps(s: string)
    ensures forall i :: 0 <= i < |s| && !IsLower(s[i]) && !IsUpper(s[i]) ==> Capitalize(s)[i] == s[i]
    ensures forall i :: 0 <= i < |s| && (IsLower(s[i]) || IsUpper(s[i])) ==> !IsSpace(Capitalize(s)[i])
    ensures forall c :: c in Capitalize(s) && !IsLower(c) && !IsUpper(c) ==> c in s
  {
    var r := Capitalize(s);
    forall i | 0 <= i < |s| && !IsLower(s[i]) && !IsUpper(s[i]) ensures r[i] == s[i] {
      if i > 0 { assert r[i] == Lower(s[1..])[i - 1]; }
    }
    forall i | 0 <= i < |s| && (IsLower(s[i]) || IsUpper(s[i])) ensures !IsSpace(r[i]) {
      if i > 0 { assert r[i] == Lower(s[1..])[i - 1]; }
    }
    forall c | c in r && !IsLower(c) && !IsUpper(c) ensures c in s {
      var i :| 0 <= i < |r| && r[i] == c;
      if i > 0 { assert r[i] == Lower(s[1..])[i - 1]; }
    }
  }
}
