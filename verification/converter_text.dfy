/**
 * Text heuristics several converters share: the numbered-heading level,
 * the filename stem used as a fallback title, the first sentence of a
 * description or transcription, and the first short line of extracted text.
 */
module ConverterText {
  import opened Wrappers
  import opened Strings
  import opened Search

  predicate NotSpace(c: char) { !IsSpace(c) }

  /** `s.startswith(tuple('0123456789'))` */
  predicate StartsWithDigit(s: string) { s != [] && IsDigit(s[0]) }

  /** `s.split()[0]` for a string that starts with a non-space character: everything up to the first white space. */
  function FirstToken(s: string): (r: string)
    ensures |r| <= |s| && r == s[..|r|]
    ensures forall i :: 0 <= i < |r| ==> !IsSpace(s[i])
    ensures |r| < |s| ==> IsSpace(s[|r|])
  {
    s[..SpanLen(s, NotSpace)]
  }

  /**
   * The heading level of `_get_heading_level` (text and PDF converters): a
   * line that starts with a digit gets one level per `.` in its first
   * token, plus one, capped at 6; any other line gets level 2.
   */
  function NumberedLevel(line: string): (level: nat)
    ensures 1 <= level <= 6
    ensures !StartsWithDigit(line) ==> level == 2
    ensures StartsWithDigit(line) && CountChar(FirstToken(line), '.') >= 5 ==> level == 6
  {
    if StartsWithDigit(line) then
      var dots := CountChar(FirstToken(line), '.');
      if dots + 1 < 6 then dots + 1 else 6
    else 2
  }

  /** Numbers joined by dots: `["1", "2", "3"]` becomes `1.2.3`. */
  predicate OutlineNumber(parts: seq<string>)
  {
    |parts| > 0 && parts[0] != [] && IsDigit(parts[0][0])
    && forall i :: 0 <= i < |parts| ==> '.' !in parts[i] && forall j :: 0 <= j < |parts[i]| ==> !IsSpace(parts[i][j])
  }

  lemma {:induction false} JoinDots(parts: seq<string>)
    requires forall i :: 0 <= i < |parts| ==> '.' !in parts[i] && forall j :: 0 <= j < |parts[i]| ==> !IsSpace(parts[i][j])
    ensures CountChar(Join(".", parts), '.') == if parts == [] then 0 else |parts| - 1
    ensures forall c :: c in Join(".", parts) ==> !IsSpace(c)
    decreases |parts|
  {
    if |parts| > 1 {
      JoinDots(parts[1..]);
      CountCharConcat(parts[0] + ".", Join(".", parts[1..]), '.');
      CountCharConcat(parts[0], ".", '.');
      assert forall c :: c in parts[0] ==> !IsSpace(c) by {
        forall c | c in parts[0] ensures !IsSpace(c) {
          var j :| 0 <= j < |parts[0]| && parts[0][j] == c;
        }
      }
    } else if |parts| == 1 {
      assert forall c :: c in parts[0] ==> !IsSpace(c) by {
        forall c | c in parts[0] ensures !IsSpace(c) {
          var j :| 0 <= j < |parts[0]| && parts[0][j] == c;
        }
      }
    }
  }

  /**
   * A heading numbered `n1.n2. ... .nk` and followed by white space gets
   * level k (capped at 6): "1.1.1 Scope" is a level-3 heading, "1. Scope"
   * (whose token "1." has one dot) a level-2 one.
   */
  lemma OutlineLevel(parts: seq<string>, rest: string)
    requires OutlineNumber(parts)
    ensures var line := Join(".", parts) + " " + rest;
      StartsWithDigit(line) && NumberedLevel(line) == if |parts| < 6 then |parts| else 6
  {
    JoinDots(parts);
    var number := Join(".", parts);
    var line := number + " " + rest;
    assert number != [] && number[0] == parts[0][0] by {
      if |parts| > 1 { assert number == parts[0] + "." + Join(".", parts[1..]); }
    }
    assert forall i :: 0 <= i < |number| ==> !IsSpace(line[i]) by {
      forall i | 0 <= i < |number| ensures !IsSpace(line[i]) { assert line[i] == number[i] && number[i] in number; }
    }
    assert FirstToken(line) == number by {
      var n := SpanLen(line, NotSpace);
      assert line[|number|] == ' ';
      assert n == |number|;
      assert line[..|number|] == number;
    }
  }

  /** `s.rsplit('.', 1)[0]`: everything before the last `.`, or all of `s` when it has none. */
  function BeforeLastDot(s: string): (r: string)
    ensures '.' !in s ==> r == s
    ensures '.' in s ==> exists tail :: '.' !in tail && s == r + "." + tail
  {
    match LastIndexOfChar(s, '.')
    case None => s
    case Some(i) =>
      assert s == s[..i] + "." + s[i + 1..];
      s[..i]
  }

  /** The filename fallback: the name without its last extension, with `_` and `-` turned into spaces. */
  function SpacedStem(filename: string): (r: string)
    ensures '_' !in r && '-' !in r
    ensures |r| == |BeforeLastDot(filename)|
  {
    ReplaceOneCharLength(BeforeLastDot(filename), '_', ' ');
    var t := ReplaceChar(BeforeLastDot(filename), '_', " ");
    ReplaceOneCharLength(t, '-', ' ');
    ReplaceChar(t, '-', " ")
  }

  lemma {:induction false} ReplaceOneCharLength(s: string, c: char, d: char)
    ensures |ReplaceChar(s, c, [d])| == |s|
    ensures c != d && d != '-' && d != '_' ==> forall x :: x in ReplaceChar(s, c, [d]) && x !in s ==> x == d
    decreases |s|
  {
    if s != [] { ReplaceOneCharLength(s[1..], c, d); }
  }

  /** `s.split('.')[0].strip()`: the stripped text before the first `.`. */
  function FirstSentence(s: string): (r: string)
    ensures '.' !in r
    ensures r == Strip(Split(s, ".")[0])
  {
    var first := Split(s, ".")[0];
    assert '.' !in first by {
      assert !Contains(first, ".");
      if '.' in first {
        var i :| 0 <= i < |first| && first[i] == '.';
        assert OccursAt(first, ".", i);
      }
    }
    TrimIsSlice(first, IsSpace);
    Strip(first)
  }

  /** Is the first sentence of a non-empty text short enough (under 100 characters) to be a title? */
  predicate SentenceTitle(text: string)
  {
    text != [] && |FirstSentence(text)| < 100
  }

  /** The lines a title may come from: non-empty after stripping and under 100 characters. */
  predicate ShortLine(line: string)
  {
    Strip(line) != [] && |Strip(line)| < 100
  }

  /** The first line, stripped, that is non-empty and under 100 characters, if any. */
  function FirstShortLine(lines: seq<string>): (r: Option<string>)
    ensures r.Some? ==> r.value != [] && |r.value| < 100
  {
    match FirstIndexFrom(lines, ShortLine, 0)
    case None => None
    case Some(i) => Some(Strip(lines[i]))
  }

  /** The title line is the first qualifying line, and there is none only when no line qualifies. */
  lemma FirstShortLineSpec(lines: seq<string>)
    ensures var r := FirstShortLine(lines);
      && (r.None? <==> forall i :: 0 <= i < |lines| ==> !ShortLine(lines[i]))
      && (r.Some? ==>
            exists i :: 0 <= i < |lines| && ShortLine(lines[i]) && r.value == Strip(lines[i])
                          && forall j :: 0 <= j < i ==> !ShortLine(lines[j]))
  {
    FirstIndexFromSpec(lines, ShortLine, 0);
  }

  /** The loop `for line in lines: line = line.strip(); if line and len(line) < 100: return line`. */
  method FindShortLine(lines: seq<string>) returns (r: Option<string>)
    ensures r == FirstShortLine(lines)
  {
    var i := 0;
    while i < |lines|
      invariant 0 <= i <= |lines|
      invariant FirstIndexFrom(lines, ShortLine, 0) == FirstIndexFrom(lines, ShortLine, i)
    {
      var line := Strip(lines[i]);
      if line != [] && |line| < 100 {
        return Some(line);
      }
      i := i + 1;
    }
    return None;
  }
}
