/**
 * The Python `str` operations the modelled code relies on, written over
 * `seq<char>`: whitespace per `str.isspace` (the same set as the regular
 * expression class `\s` on text), ASCII case mapping, strip, split/join,
 * substring search, counting and replacement.
 */
module Strings {
  import opened Wrappers

  /** `str.isspace` for one character (equivalently, `\s` in a text pattern). */
  predicate IsSpace(c: char)
  {
    var n := c as int;
    (0x09 <= n <= 0x0d) || (0x1c <= n <= 0x20) || n == 0x85 || n == 0xa0 || n == 0x1680
    || (0x2000 <= n <= 0x200a) || n == 0x2028 || n == 0x2029 || n == 0x202f
    || n == 0x205f || n == 0x3000
  }

  predicate IsDigit(c: char) { '0' <= c <= '9' }

  /** A precomposed Hangul syllable, the class `가-힣`. */
  predicate IsHangul(c: char) { '\U{AC00}' <= c <= '\U{D7A3}' }

  /**
   * `\w` on text: ASCII letters and digits, the underscore, Hangul syllables
   * and jamo, and the CJK unified ideographs. Python's class covers every
   * Unicode letter and digit; the remaining scripts are not modelled.
   */
  predicate IsWordChar(c: char)
  {
    ('a' <= c <= 'z') || ('A' <= c <= 'Z') || IsDigit(c) || c == '_' || IsHangul(c)
    || ('\U{1100}' <= c <= '\U{11FF}') || ('\U{3131}' <= c <= '\U{318E}') || ('\U{4E00}' <= c <= '\U{9FFF}')
  }

  predicate IsUpper(c: char) { 'A' <= c <= 'Z' }

  predicate IsLower(c: char) { 'a' <= c <= 'z' }

  function LowerChar(c: char): (r: char)
    ensures !IsUpper(r)
    ensures IsUpper(c) ==> r as int == c as int + 32
    ensures !IsUpper(c) ==> r == c
  {
    if IsUpper(c) then (c as int + 32) as char else c
  }

  function UpperChar(c: char): (r: char)
    ensures !IsLower(r)
    ensures !IsLower(c) ==> r == c
  {
    if IsLower(c) then (c as int - 32) as char else c
  }

  /** `str.lower` on the ASCII letters. */
  function Lower(s: string): (r: string)
    ensures |r| == |s|
    ensures forall i :: 0 <= i < |s| ==> r[i] == LowerChar(s[i])
  {
    if s == [] then [] else [LowerChar(s[0])] + Lower(s[1..])
  }

  /** A string without upper-case letters is its own lower case. */
  lemma LowerNoUpper(s: string)
    requires forall i :: 0 <= i < |s| ==> !IsUpper(s[i])
    ensures Lower(s) == s
  {
  }

  lemma LowerIdempotent(s: string)
    ensures Lower(Lower(s)) == Lower(s)
  {
  }

  /** `str.capitalize` on the ASCII letters. */
  function Capitalize(s: string): (r: string)
    ensures |r| == |s|
    ensures |s| > 0 ==> r[0] == UpperChar(s[0]) && r[1..] == Lower(s[1..])
  {
    if s == [] then [] else [UpperChar(s[0])] + Lower(s[1..])
  }

  function Repeat(c: char, n: nat): (r: string)
    ensures |r| == n
    ensures forall i :: 0 <= i < n ==> r[i] == c
  {
    if n == 0 then [] else [c] + Repeat(c, n - 1)
  }

  predicate StartsWith(s: string, prefix: string)
  {
    |prefix| <= |s| && s[..|prefix|] == prefix
  }

  predicate EndsWith(s: string, suffix: string)
  {
    |suffix| <= |s| && s[|s| - |suffix|..] == suffix
  }

  /** `sub in s` */
  predicate Contains(s: string, sub: string)
  {
    exists i :: 0 <= i <= |s| && OccursAt(s, sub, i)
  }

  predicate OccursAt(s: string, sub: string, i: int)
  {
    0 <= i && i + |sub| <= |s| && s[i..i + |sub|] == sub
  }

  lemma OccursAtTail(s: string, sub: string)
    requires |s| >= 1
    ensures forall j :: 1 <= j ==> (OccursAt(s, sub, j) <==> OccursAt(s[1..], sub, j - 1))
  {
    forall j | 1 <= j
      ensures OccursAt(s, sub, j) <==> OccursAt(s[1..], sub, j - 1)
    {
      if j + |sub| <= |s| {
        assert s[1..][j - 1..j - 1 + |sub|] == s[j..j + |sub|];
      }
    }
  }

  lemma OccursAtPrefix(s: string, sub: string, i: nat, j: int)
    requires i <= |s| && OccursAt(s[..i], sub, j)
    ensures OccursAt(s, sub, j)
  {
    assert s[..i][j..j + |sub|] == s[j..j + |sub|];
  }

  /** `str.find`: the first index at which `sub` occurs. */
  function IndexOf(s: string, sub: string): (r: Option<nat>)
    ensures r.Some? ==> OccursAt(s, sub, r.value)
    ensures r.Some? ==> forall j :: 0 <= j < r.value ==> !OccursAt(s, sub, j)
    ensures r.None? ==> forall j :: 0 <= j <= |s| - |sub| ==> !OccursAt(s, sub, j)
    decreases |s|
  {
    if |sub| > |s| then None
    else if s[..|sub|] == sub then Some(0)
    else
      OccursAtTail(s, sub);
      match IndexOf(s[1..], sub)
      case None => None
      case Some(k) => Some(k + 1)
  }

  lemma IndexOfContains(s: string, sub: string)
    ensures IndexOf(s, sub).Some? <==> Contains(s, sub)
  {
    if IndexOf(s, sub).Some? {
      assert OccursAt(s, sub, IndexOf(s, sub).value);
    }
  }

  /** `str.find` for one character. */
  function IndexOfChar(s: string, c: char): (r: Option<nat>)
    ensures r.Some? ==> r.value < |s| && s[r.value] == c && c !in s[..r.value]
    ensures r.None? ==> c !in s
  {
    if s == [] then None
    else if s[0] == c then Some(0)
    else
      match IndexOfChar(s[1..], c)
      case None => None
      case Some(k) => assert s[..k + 1] == [s[0]] + s[1..][..k]; Some(k + 1)
  }

  /** `str.rfind` for one character. */
  function LastIndexOfChar(s: string, c: char): (r: Option<nat>)
    ensures r.Some? ==> r.value < |s| && s[r.value] == c && c !in s[r.value + 1..]
    ensures r.None? ==> c !in s
  {
    if s == [] then None
    else if s[|s| - 1] == c then Some(|s| - 1)
    else
      match LastIndexOfChar(s[..|s| - 1], c)
      case None => None
      case Some(k) => assert s[k + 1..] == s[..|s| - 1][k + 1..] + [s[|s| - 1]]; Some(k)
  }

  // ---------------------------------------------------------------- strip

  /** Length of the longest prefix of `s` whose characters all satisfy `p`. */
  function SpanLen(s: string, p: char -> bool): (n: nat)
    ensures n <= |s|
    ensures forall i :: 0 <= i < n ==> p(s[i])
    ensures n == |s| || !p(s[n])
  {
    if s == [] || !p(s[0]) then 0 else 1 + SpanLen(s[1..], p)
  }

  /**
   * `re.sub('P+', c, s)` for a character class P given as a predicate with
   * `c` in P: every maximal run of P-characters becomes the single `c`.
   */
  function SqueezeRuns(s: string, p: char -> bool, c: char): (r: string)
    requires p(c)
    ensures |r| <= |s|
    ensures s == [] <==> r == []
    ensures s != [] ==> r[0] == (if p(s[0]) then c else s[0])
    ensures forall x :: x in r ==> x == c || (x in s && !p(x))
    ensures forall i :: 0 <= i < |r| - 1 && p(r[i]) ==> !p(r[i + 1])
    decreases |s|
  {
    if s == [] then []
    else
      var n := if p(s[0]) then SpanLen(s, p) else 1;
      var rest := SqueezeRuns(s[n..], p, c);
      assert forall x :: x in rest ==> x == c || (x in s && !p(x)) by {
        forall x | x in rest && x != c ensures x in s && !p(x) { assert x in s[n..]; }
      }
      var r := [if p(s[0]) then c else s[0]] + rest;
      assert forall i :: 0 <= i < |r| - 1 && p(r[i]) ==> !p(r[i + 1]) by {
        forall i | 0 <= i < |r| - 1 && p(r[i]) ensures !p(r[i + 1]) {
          if i > 0 { assert r[i] == rest[i - 1] && r[i + 1] == rest[i]; }
        }
      }
      r
  }

  /** Squeezing changes nothing once no two P-characters are adjacent and every one is `c`. */
  lemma {:induction false} SqueezeRunsNoop(s: string, p: char -> bool, c: char)
    requires p(c)
    requires forall i :: 0 <= i < |s| && p(s[i]) ==> s[i] == c
    requires forall i :: 0 <= i < |s| - 1 && p(s[i]) ==> !p(s[i + 1])
    ensures SqueezeRuns(s, p, c) == s
    decreases |s|
  {
    if s != [] {
      var t := s[1..];
      if p(s[0]) {
        assert SpanLen(s, p) == 1 by { assert |s| > 1 ==> !p(s[1]); }
      }
      SqueezeNoopTail(s, p, c);
      SqueezeRunsNoop(t, p, c);
      SqueezeRunsUnfold(s, p, c);
    }
  }

  /** The conditions of `SqueezeRunsNoop` carry over to the tail. */
  lemma SqueezeNoopTail(s: string, p: char -> bool, c: char)
    requires s != []
    requires forall i :: 0 <= i < |s| && p(s[i]) ==> s[i] == c
    requires forall i :: 0 <= i < |s| - 1 && p(s[i]) ==> !p(s[i + 1])
    ensures var t := s[1..];
      && (forall i :: 0 <= i < |t| && p(t[i]) ==> t[i] == c)
      && (forall i :: 0 <= i < |t| - 1 && p(t[i]) ==> !p(t[i + 1]))
  {
    var t := s[1..];
    forall i | 0 <= i < |t| && p(t[i]) ensures t[i] == c { assert t[i] == s[i + 1]; }
    forall i | 0 <= i < |t| - 1 && p(t[i]) ensures !p(t[i + 1]) { assert t[i] == s[i + 1] && t[i + 1] == s[i + 2]; }
  }

  /** One step of squeezing: the first character, or `c` for a run, then the rest squeezed. */
  lemma SqueezeRunsUnfold(s: string, p: char -> bool, c: char)
    requires p(c) && s != []
    ensures var n := if p(s[0]) then SpanLen(s, p) else 1;
      SqueezeRuns(s, p, c) == [if p(s[0]) then c else s[0]] + SqueezeRuns(s[n..], p, c)
  {
  }

  /** `s.lstrip(chars)` with the character set given as a predicate. */
  function TrimStart(s: string, drop: char -> bool): (r: string)
    ensures |r| <= |s| && r == s[|s| - |r|..]
    ensures r == [] || !drop(r[0])
    ensures forall i :: 0 <= i < |s| - |r| ==> drop(s[i])
  {
    s[SpanLen(s, drop)..]
  }

  /** `s.rstrip(chars)` with the character set given as a predicate. */
  function TrimEnd(s: string, drop: char -> bool): (r: string)
    ensures |r| <= |s| && r == s[..|r|]
    ensures r == [] || !drop(r[|r| - 1])
    ensures forall i :: |r| <= i < |s| ==> drop(s[i])
  {
    if s == [] || !drop(s[|s| - 1]) then s else TrimEnd(s[..|s| - 1], drop)
  }

  function Trim(s: string, drop: char -> bool): (r: string)
    ensures |r| <= |s|
    ensures r == [] || (!drop(r[0]) && !drop(r[|r| - 1]))
  {
    TrimEnd(TrimStart(s, drop), drop)
  }

  /** `str.strip()` */
  function Strip(s: string): (r: string)
    ensures |r| <= |s|
    ensures r == [] || (!IsSpace(r[0]) && !IsSpace(r[|r| - 1]))
  {
    Trim(s, IsSpace)
  }

  /** Stripping keeps only characters of the text. */
  lemma StripChars(s: string)
    ensures forall c :: c in Strip(s) ==> c in s
  {
    var n := SpanLen(s, IsSpace);
    TrimIsSlice(s, IsSpace);
    SliceChars(s, n, n + |Strip(s)|);
  }

  /** A slice holds only characters of the whole. */
  lemma SliceChars(s: string, i: nat, j: nat)
    requires i <= j <= |s|
    ensures forall c :: c in s[i..j] ==> c in s
  {
    assert s == s[..i] + s[i..j] + s[j..];
  }

  /** What trim keeps is the slice of `s` after its leading run. */
  lemma TrimIsSlice(s: string, drop: char -> bool)
    ensures var n := SpanLen(s, drop);
      n + |Trim(s, drop)| <= |s| && Trim(s, drop) == s[n..n + |Trim(s, drop)|]
  {
    var n := SpanLen(s, drop);
    var t := TrimStart(s, drop);
    assert t == s[n..];
    var r := TrimEnd(t, drop);
    assert r == t[..|r|];
  }

  lemma TrimStartNoop(s: string, drop: char -> bool)
    requires s == [] || !drop(s[0])
    ensures TrimStart(s, drop) == s
  {
  }

  lemma TrimEndNoop(s: string, drop: char -> bool)
    requires s == [] || !drop(s[|s| - 1])
    ensures TrimEnd(s, drop) == s
  {
  }

  /** Stripping twice is stripping once. */
  lemma StripIdempotent(s: string)
    ensures Strip(Strip(s)) == Strip(s)
  {
    var r := Strip(s);
    TrimStartNoop(r, IsSpace);
    TrimEndNoop(r, IsSpace);
  }

  // ---------------------------------------------------------------- split / join

  /** `s.split(sep)` for a non-empty separator. */
  function Split(s: string, sep: string): (parts: seq<string>)
    requires |sep| > 0
    ensures |parts| >= 1
    ensures forall p :: p in parts ==> !Contains(p, sep)
    decreases |s|
  {
    match IndexOf(s, sep)
    case None =>
      IndexOfContains(s, sep);
      [s]
    case Some(i) =>
      assert !Contains(s[..i], sep) by {
        forall j | OccursAt(s[..i], sep, j)
          ensures false
        {
          OccursAtPrefix(s, sep, i, j);
        }
      }
      [s[..i]] + Split(s[i + |sep|..], sep)
  }

  /** `sep.join(parts)` */
  function Join(sep: string, parts: seq<string>): (r: string)
  {
    if |parts| == 0 then []
    else if |parts| == 1 then parts[0]
    else parts[0] + sep + Join(sep, parts[1..])
  }

  /** Joining the pieces of a split with the same separator gives back the string. */
  lemma {:induction false} JoinSplit(s: string, sep: string)
    requires |sep| > 0
    ensures Join(sep, Split(s, sep)) == s
    decreases |s|
  {
    match IndexOf(s, sep)
    case None =>
    case Some(i) =>
      var rest := s[i + |sep|..];
      JoinCons(sep, s[..i], Split(rest, sep));
      JoinSplit(rest, sep);
      assert s == s[..i] + sep + rest;
  }

  /** Joining a first part onto the rest puts the separator between them. */
  lemma JoinCons(sep: string, first: string, parts: seq<string>)
    requires |parts| >= 1
    ensures Join(sep, [first] + parts) == first + sep + Join(sep, parts)
  {
    assert ([first] + parts)[1..] == parts;
  }

  // ---------------------------------------------------------------- counting and replacing

  /** `s.count(sub)` for a non-empty `sub`: non-overlapping occurrences, left to right. */
  function Count(s: string, sub: string): (n: nat)
    requires |sub| > 0
    ensures n == 0 <==> !Contains(s, sub)
  {
    IndexOfContains(s, sub);
    |Split(s, sub)| - 1
  }

  /** `s.replace(target, replacement)` for a non-empty `target`: every non-overlapping occurrence, left to right. */
  function Replace(s: string, target: string, replacement: string): (r: string)
    requires |target| > 0
  {
    Join(replacement, Split(s, target))
  }

  /** `s.replace(c, t)` for a single character. */
  function ReplaceChar(s: string, c: char, t: string): (r: string)
    ensures c !in t ==> c !in r
    ensures c !in s ==> r == s
  {
    if s == [] then []
    else (if s[0] == c then t else [s[0]]) + ReplaceChar(s[1..], c, t)
  }

  function CountChar(s: string, c: char): (n: nat)
    ensures n <= |s|
    ensures n == 0 <==> c !in s
  {
    if s == [] then 0 else (if s[0] == c then 1 else 0) + CountChar(s[1..], c)
  }

  lemma {:induction false} CountCharConcat(a: string, b: string, c: char)
    ensures CountChar(a + b, c) == CountChar(a, c) + CountChar(b, c)
  {
    if a != [] {
      assert (a + b)[1..] == a[1..] + b;
      CountCharConcat(a[1..], b, c);
    } else {
      assert a + b == b;
    }
  }
}
