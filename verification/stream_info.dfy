/**
 * `StreamInfo`: what is known about an input before conversion (MIME type,
 * extension, charset, filename, local path, URL), with the normalisation its
 * constructor applies and the predicates every converter's `accepts` uses.
 */
module StreamInfos {
  import opened Wrappers
  import opened Strings
  import Paths

  /** Python truthiness of an optional string: set and non-empty. */
  predicate Truthy(o: Option<string>) { o.Some? && o.value != [] }

  datatype StreamInfo = StreamInfo(
    mimetype: Option<string>,
    extension: Option<string>,
    charset: Option<string>,
    filename: Option<string>,
    localPath: Option<string>,
    url: Option<string>)

  /** The shape every constructed info has: an extension, when non-empty, starts with `.`. */
  predicate Normalised(info: StreamInfo)
  {
    Truthy(info.extension) ==> info.extension.value[0] == '.'
  }

  /** Dotted form of a non-empty extension. */
  function Dotted(ext: string): (r: string)
    requires ext != []
    ensures r != [] && r[0] == '.'
    ensures StartsWith(ext, ".") ==> r == ext
    ensures !StartsWith(ext, ".") ==> r == "." + ext
  {
    if StartsWith(ext, ".") then ext else "." + ext
  }

  /**
   * The dataclass constructor followed by `__post_init__`: a non-empty
   * extension gains a leading `.`, and when the extension is unset or empty
   * but a non-empty filename is given the extension becomes the filename's
   * lower-cased suffix (possibly "").
   */
  function Make(mimetype: Option<string>, extension: Option<string>, charset: Option<string>,
                filename: Option<string>, localPath: Option<string>, url: Option<string>): (info: StreamInfo)
    ensures Normalised(info)
    ensures info.mimetype == mimetype && info.charset == charset && info.filename == filename
    ensures info.localPath == localPath && info.url == url
    ensures Truthy(extension) ==> info.extension == Some(Dotted(extension.value))
    ensures !Truthy(extension) && Truthy(filename) ==>
      info.extension == Some(Lower(Paths.Suffix(filename.value)))
    ensures !Truthy(extension) && !Truthy(filename) ==> info.extension == extension
  {
    var ext := if Truthy(extension) then Some(Dotted(extension.value)) else extension;
    var ext' := if Truthy(filename) && !Truthy(ext) then Some(Lower(Paths.Suffix(filename.value))) else ext;
    assert Truthy(ext') && !Truthy(ext) ==> ext'.value[0] == LowerChar('.');
    StreamInfo(mimetype, ext', charset, filename, localPath, url)
  }

  /** `StreamInfo()` with every field unset. */
  function Empty(): (info: StreamInfo)
    ensures info == Make(None, None, None, None, None, None)
  {
    StreamInfo(None, None, None, None, None, None)
  }

  /** Constructing from fields that are already normalised keeps them. */
  lemma {:induction false} MakeKeepsNormalised(info: StreamInfo)
    requires Normalised(info)
    requires !Truthy(info.extension) && Truthy(info.filename) ==>
      info.extension == Some(Lower(Paths.Suffix(info.filename.value)))
    ensures Make(info.mimetype, info.extension, info.charset, info.filename, info.localPath, info.url) == info
  {
    if Truthy(info.extension) {
      assert StartsWith(info.extension.value, ".");
    }
  }

  /** Rebuilding an info from the fields of a constructed one changes nothing: `__post_init__` is idempotent. */
  lemma MakeIdempotent(mimetype: Option<string>, extension: Option<string>, charset: Option<string>,
                       filename: Option<string>, localPath: Option<string>, url: Option<string>)
    ensures var info := Make(mimetype, extension, charset, filename, localPath, url);
      Make(info.mimetype, info.extension, info.charset, info.filename, info.localPath, info.url) == info
  {
    MakeKeepsNormalised(Make(mimetype, extension, charset, filename, localPath, url));
  }

  /** `__eq__`: only mimetype, extension and filename are compared. */
  predicate Equal(a: StreamInfo, b: StreamInfo)
  {
    a.mimetype == b.mimetype && a.extension == b.extension && a.filename == b.filename
  }

  /** Equality is an equivalence relation and ignores charset, local path and URL. */
  lemma EqualIsEquivalence(a: StreamInfo, b: StreamInfo, c: StreamInfo)
    ensures Equal(a, a)
    ensures Equal(a, b) ==> Equal(b, a)
    ensures Equal(a, b) && Equal(b, c) ==> Equal(a, c)
    ensures Equal(a, a.(charset := b.charset, localPath := b.localPath, url := b.url))
  {
  }

  /** Is some element of `items`, lower-cased, equal to `x`? */
  predicate InLowered(x: string, items: seq<string>)
  {
    items != [] && (Lower(items[0]) == x || InLowered(x, items[1..]))
  }

  /** `matches_extension`: false for an unset or empty extension, else case-insensitive membership. */
  predicate MatchesExtension(info: StreamInfo, extensions: seq<string>)
  {
    Truthy(info.extension) && InLowered(Lower(info.extension.value), extensions)
  }

  lemma {:induction false} InLoweredSpec(x: string, items: seq<string>)
    ensures InLowered(x, items) <==> exists i :: 0 <= i < |items| && Lower(items[i]) == x
  {
    if items != [] {
      InLoweredSpec(x, items[1..]);
      if InLowered(x, items[1..]) {
        var i :| 0 <= i < |items[1..]| && Lower(items[1..][i]) == x;
        assert Lower(items[i + 1]) == x;
      }
      if !InLowered(x, items) {
        forall i | 0 <= i < |items| ensures Lower(items[i]) != x {
          if i > 0 { assert items[i] == items[1..][i - 1]; }
        }
      }
    }
  }

  /** `matches_extension` in one formula: the extension is set, non-empty and equal, ignoring case, to a listed one. */
  lemma MatchesExtensionSpec(info: StreamInfo, extensions: seq<string>)
    ensures MatchesExtension(info, extensions) <==>
      Truthy(info.extension) && exists i :: 0 <= i < |extensions| && Lower(extensions[i]) == Lower(info.extension.value)
  {
    if Truthy(info.extension) {
      InLoweredSpec(Lower(info.extension.value), extensions);
    }
  }

  /** Against a list written in lower case, `matches_extension` is membership of the lower-cased extension. */
  lemma MatchesLowerCaseExtension(info: StreamInfo, extensions: seq<string>)
    requires forall i :: 0 <= i < |extensions| ==> Lower(extensions[i]) == extensions[i]
    ensures MatchesExtension(info, extensions) <==> Truthy(info.extension) && Lower(info.extension.value) in extensions
  {
    MatchesExtensionSpec(info, extensions);
  }

  /** Does some element of `prefixes` start `s`? */
  predicate AnyPrefix(s: string, prefixes: seq<string>)
  {
    prefixes != [] && (StartsWith(s, prefixes[0]) || AnyPrefix(s, prefixes[1..]))
  }

  /** `matches_mimetype`: false for an unset or empty mimetype, else some listed entry is a prefix of it. */
  predicate MatchesMimetype(info: StreamInfo, mimetypes: seq<string>)
  {
    Truthy(info.mimetype) && AnyPrefix(info.mimetype.value, mimetypes)
  }

  lemma {:induction false} AnyPrefixSpec(s: string, prefixes: seq<string>)
    ensures AnyPrefix(s, prefixes) <==> exists i :: 0 <= i < |prefixes| && StartsWith(s, prefixes[i])
  {
    if prefixes != [] {
      AnyPrefixSpec(s, prefixes[1..]);
      if AnyPrefix(s, prefixes[1..]) {
        var i :| 0 <= i < |prefixes[1..]| && StartsWith(s, prefixes[1..][i]);
        assert StartsWith(s, prefixes[i + 1]);
      }
      if !AnyPrefix(s, prefixes) {
        forall i | 0 <= i < |prefixes| ensures !StartsWith(s, prefixes[i]) {
          if i > 0 { assert prefixes[i] == prefixes[1..][i - 1]; }
        }
      }
    }
  }

  /** `matches_mimetype` in one formula. */
  lemma MatchesMimetypeSpec(info: StreamInfo, mimetypes: seq<string>)
    ensures MatchesMimetype(info, mimetypes) <==>
      Truthy(info.mimetype) && exists i :: 0 <= i < |mimetypes| && StartsWith(info.mimetype.value, mimetypes[i])
  {
    if Truthy(info.mimetype) {
      AnyPrefixSpec(info.mimetype.value, mimetypes);
    }
  }

  /** `is_empty`: none of mimetype, extension, filename, local path and URL is set and non-empty. */
  predicate IsEmpty(info: StreamInfo)
  {
    !(Truthy(info.mimetype) || Truthy(info.extension) || Truthy(info.filename)
      || Truthy(info.localPath) || Truthy(info.url))
  }

  /** The charset does not take part in emptiness; a constructed info with a filename is never empty. */
  lemma IsEmptyIgnoresCharset(info: StreamInfo, charset: Option<string>)
    ensures IsEmpty(info.(charset := charset)) == IsEmpty(info)
    ensures IsEmpty(Make(None, None, charset, None, None, None))
    ensures forall f :: f != [] ==> !IsEmpty(Make(None, None, None, Some(f), None, None))
  {
  }
}
