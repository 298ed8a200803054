/**
 * The parts of `pathlib.PurePosixPath` the converters use: the final
 * component (`name`), its last extension (`suffix`) and the name without it
 * (`stem`).
 */
module Paths {
  import opened Wrappers
  import opened Strings

  predicate IsSlash(c: char) { c == '/' }

  /**
   * `Path(p).name`: trailing slashes are dropped and the text after the last
   * remaining `/` is kept.
   */
  function Name(path: string): (r: string)
    ensures '/' !in r
    ensures EndsWith(TrimEnd(path, IsSlash), r)
    ensures |r| < |TrimEnd(path, IsSlash)| ==> TrimEnd(path, IsSlash)[|TrimEnd(path, IsSlash)| - |r| - 1] == '/'
  {
    var p := TrimEnd(path, IsSlash);
    match LastIndexOfChar(p, '/')
    case None => p
    case Some(i) => p[i + 1..]
  }

  /**
   * Where the suffix of a name starts: the last `.`, provided it is neither
   * the first nor the last character (`.bashrc` and `name.` have no suffix).
   */
  function SuffixStart(name: string): (r: Option<nat>)
    ensures r.Some? ==> 0 < r.value < |name| - 1 && name[r.value] == '.' && '.' !in name[r.value + 1..]
    ensures r.None? <==> |name| == 0 || '.' !in name[1..] || name[|name| - 1] == '.'
  {
    match LastIndexOfChar(name, '.')
    case None => None
    case Some(i) =>
      if 0 < i < |name| - 1 then
        assert name[1..][i - 1] == '.';
        assert name[|name| - 1] == name[i + 1..][|name| - i - 2];
        Some(i)
      else None
  }

  /** The suffix of a final component: "" or a `.` followed by at least one character that is not a `.`. */
  function NameSuffix(name: string): (r: string)
    ensures r == [] || (|r| >= 2 && r[0] == '.' && '.' !in r[1..])
    ensures EndsWith(name, r)
  {
    match SuffixStart(name)
    case None => []
    case Some(i) => name[i..]
  }

  /** The stem of a final component. */
  function NameStem(name: string): (r: string)
    ensures r + NameSuffix(name) == name
    ensures NameSuffix(name) != [] ==> r != []
  {
    match SuffixStart(name)
    case None => name
    case Some(i) => name[..i]
  }

  /** `Path(p).suffix` */
  function Suffix(path: string): (r: string)
    ensures r == [] || (|r| >= 2 && r[0] == '.' && '.' !in r[1..] && '/' !in r)
    ensures EndsWith(Name(path), r)
  {
    NameSuffix(Name(path))
  }

  /** `Path(p).stem`: the name without its suffix. */
  function Stem(path: string): (r: string)
    ensures r + Suffix(path) == Name(path)
  {
    NameStem(Name(path))
  }
}
