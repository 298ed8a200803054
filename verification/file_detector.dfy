/**
 * `FileTypeDetector`: the extension and MIME-type tables, lookups by
 * extension, filename and MIME type, and the two probes that read the head
 * of a stream (content sniffing through libmagic, and the text check) and
 * put the position back.
 */
module FileDetector {
  import opened Wrappers
  import opened Strings
  import opened Dicts
  import opened StreamInfos
  import opened Streams
  import opened Codecs
  import Paths

  /** The extension table's display, in source order. */
  const ExtensionPairs: seq<(string, string)> := [
    (".pdf", "application/pdf"),
    (".docx", "application/vnd.openxmlformats-officedocument.wordprocessingml.document"),
    (".doc", "application/msword"),
    (".pptx", "application/vnd.openxmlformats-officedocument.presentationml.presentation"),
    (".ppt", "application/vnd.ms-powerpoint"),
    (".xlsx", "application/vnd.openxmlformats-officedocument.spreadsheetml.sheet"),
    (".xls", "application/vnd.ms-excel"),
    (".jpg", "image/jpeg"),
    (".jpeg", "image/jpeg"),
    (".png", "image/png"),
    (".gif", "image/gif"),
    (".bmp", "image/bmp"),
    (".tiff", "image/tiff"),
    (".webp", "image/webp"),
    (".mp3", "audio/mpeg"),
    (".wav", "audio/wav"),
    (".m4a", "audio/mp4"),
    (".flac", "audio/flac"),
    (".ogg", "audio/ogg"),
    (".html", "text/html"),
    (".htm", "text/html"),
    (".xml", "application/xml"),
    (".json", "application/json"),
    (".csv", "text/csv"),
    (".txt", "text/plain"),
    (".md", "text/markdown"),
    (".rtf", "application/rtf"),
    (".epub", "application/epub+zip"),
    (".zip", "application/zip"),
    (".tar", "application/x-tar"),
    (".gz", "application/gzip"),
    (".7z", "application/x-7z-compressed"),
    (".rar", "application/x-rar-compressed"),
    (".msg", "application/vnd.ms-outlook"),
    (".eml", "message/rfc822"),
    (".ipynb", "application/x-ipynb+json"),
    (".hwp", "application/haansofthwp"),
    (".hwpx", "application/haansofthwp")
  ]

  /** Every key of the pairs is non-empty and starts with `.`. */
  ghost predicate KeysDotted(pairs: seq<(string, string)>)
  {
    forall i :: 0 <= i < |pairs| ==> (pairs[i].0 != [] && pairs[i].0[0] == '.')
  }

  lemma ExtensionsDotted()
    ensures KeysDotted(ExtensionPairs)
  {
  }

  /** python-magic's `from_buffer`, which may raise. */
  type Magic = seq<byte> -> Outcome<string>

  /**
   * A detector: libmagic when it could be loaded, the extension table and
   * the reverse table the constructor derives from it.
   */
  datatype FileTypeDetector = FileTypeDetector(
    magic: Option<Magic>,
    extensionMapping: Dict<string, string>,
    mimetypeMapping: Dict<string, string>)
  {
    /** What construction establishes: a dictionary of dotted extensions and its inversion. */
    ghost predicate Valid()
    {
      KeysDotted(extensionMapping) && KeysDistinct(extensionMapping)
      && mimetypeMapping == Invert(extensionMapping)
    }
  }

  /** `FileTypeDetector()`; `magic` is `None` when python-magic cannot be imported. */
  function NewDetector(magic: Option<Magic>): (d: FileTypeDetector)
    ensures d.Valid() && d.magic == magic
    ensures forall ext :: HasKey(d.extensionMapping, ext) <==>
      exists i :: 0 <= i < |ExtensionPairs| && ExtensionPairs[i].0 == ext
    ensures forall ext, m :: Get(d.extensionMapping, ext) == Some(m) ==>
      exists i :: 0 <= i < |ExtensionPairs| && ExtensionPairs[i] == (ext, m)
  {
    var table := FromPairs(ExtensionPairs);
    ExtensionsDotted();
    FromPairsDistinct(ExtensionPairs);
    assert KeysDotted(table) by {
      forall i | 0 <= i < |table| ensures table[i].0 != [] && table[i].0[0] == '.' {
        GetAt(table, i);
        FromPairsLast(ExtensionPairs, table[i].0);
      }
    }
    assert forall ext :: HasKey(table, ext) <==> exists i :: 0 <= i < |ExtensionPairs| && ExtensionPairs[i].0 == ext by {
      forall ext ensures HasKey(table, ext) <==> exists i :: 0 <= i < |ExtensionPairs| && ExtensionPairs[i].0 == ext {
        GetSpec(table, ext);
        FromPairsHasKey(ExtensionPairs, ext);
      }
    }
    assert forall ext, m :: Get(table, ext) == Some(m) ==> exists i :: 0 <= i < |ExtensionPairs| && ExtensionPairs[i] == (ext, m) by {
      forall ext, m | Get(table, ext) == Some(m) ensures exists i :: 0 <= i < |ExtensionPairs| && ExtensionPairs[i] == (ext, m) {
        FromPairsLast(ExtensionPairs, ext);
      }
    }
    FileTypeDetector(magic, table, Invert(table))
  }

  /** What a key of either table of a valid detector looks like. */
  lemma TableEntries(d: FileTypeDetector, ext: string, m: string)
    requires d.Valid()
    ensures Get(d.extensionMapping, ext) == Some(m) ==> ext != [] && ext[0] == '.'
    ensures Get(d.mimetypeMapping, m) == Some(ext) ==> Get(d.extensionMapping, ext) == Some(m)
  {
    GetSpec(d.extensionMapping, ext);
    InvertRoundTrip(d.extensionMapping, m);
  }

  /** An extension the reverse table gives is dotted and maps back to the MIME type. */
  lemma ReverseDotted(d: FileTypeDetector, m: string)
    requires d.Valid()
    ensures Get(d.mimetypeMapping, m).Some? ==>
      var ext := Get(d.mimetypeMapping, m).value;
      StartsWith(ext, ".") && Get(d.extensionMapping, ext) == Some(m)
  {
    if Get(d.mimetypeMapping, m).Some? {
      var ext := Get(d.mimetypeMapping, m).value;
      TableEntries(d, ext, m);
      GetSpec(d.extensionMapping, ext);
    }
  }

  /**
   * The reverse table holds exactly the MIME types of the extension table,
   * sends each to the last extension holding it, and looking that extension
   * up gives the MIME type back: `extension_mapping[mimetype_mapping[m]] == m`.
   */
  lemma MimetypeMappingRoundTrip(d: FileTypeDetector, m: string)
    requires d.Valid()
    ensures Get(d.mimetypeMapping, m).Some? <==> m in Values(d.extensionMapping)
    ensures Get(d.mimetypeMapping, m).Some? ==>
      var ext := Get(d.mimetypeMapping, m).value;
      Get(d.extensionMapping, ext) == Some(m)
      && exists i :: (0 <= i < |d.extensionMapping| && d.extensionMapping[i] == (ext, m)
        && forall j :: i < j < |d.extensionMapping| ==> d.extensionMapping[j].1 != m)
  {
    InvertRoundTrip(d.extensionMapping, m);
    if m in Values(d.extensionMapping) {
      var i :| 0 <= i < |d.extensionMapping| && Values(d.extensionMapping)[i] == m;
      assert d.extensionMapping[i].1 == m;
    }
  }

  /** The extension `detect_from_extension` looks up: dotted, then lower-cased. */
  function NormaliseExtension(extension: string): (r: string)
    ensures r != [] && r[0] == '.' && Lower(r) == r
    ensures StartsWith(extension, ".") ==> r == Lower(extension)
    ensures !StartsWith(extension, ".") ==> r == Lower("." + extension)
  {
    LowerIdempotent(if StartsWith(extension, ".") then extension else "." + extension);
    Lower(if StartsWith(extension, ".") then extension else "." + extension)
  }

  /** `detect_from_extension`: found exactly when the normalised extension is a key. */
  function DetectFromExtension(d: FileTypeDetector, extension: string): (r: Option<StreamInfo>)
    requires d.Valid()
    ensures var e := NormaliseExtension(extension);
      (r.Some? <==> HasKey(d.extensionMapping, e))
      && (r.Some? ==> (r.value == StreamInfo(r.value.mimetype, Some(e), None, None, None, None)
        && r.value.mimetype.Some? && Get(d.extensionMapping, e) == r.value.mimetype))
  {
    var e := NormaliseExtension(extension);
    GetSpec(d.extensionMapping, e);
    match Get(d.extensionMapping, e)
    case None => None
    case Some(m) => Some(Make(Some(m), Some(e), None, None, None, None))
  }

  /** Constructing an info from a filename and its own lower-cased suffix keeps that suffix. */
  lemma MakeWithOwnSuffix(m: string, filename: string)
    ensures var e := Lower(Paths.Suffix(filename));
      Make(Some(m), Some(e), None, Some(filename), None, None) == StreamInfo(Some(m), Some(e), None, Some(filename), None, None)
  {
    var e := Lower(Paths.Suffix(filename));
    if e != [] {
      assert e[0] == LowerChar(Paths.Suffix(filename)[0]) == '.';
      assert StartsWith(e, ".");
    }
  }

  /** `detect_from_filename`: the lower-cased suffix of the filename, looked up as is. */
  function DetectFromFilename(d: FileTypeDetector, filename: string): (r: Option<StreamInfo>)
    requires d.Valid()
    ensures var e := Lower(Paths.Suffix(filename));
      (r.Some? <==> HasKey(d.extensionMapping, e))
      && (r.Some? ==> (r.value == StreamInfo(r.value.mimetype, Some(e), None, Some(filename), None, None)
        && r.value.mimetype.Some? && Get(d.extensionMapping, e) == r.value.mimetype))
  {
    var e := Lower(Paths.Suffix(filename));
    GetSpec(d.extensionMapping, e);
    match Get(d.extensionMapping, e)
    case None => None
    case Some(m) =>
      MakeWithOwnSuffix(m, filename);
      Some(Make(Some(m), Some(e), None, Some(filename), None, None))
  }

  /**
   * A filename and its own suffix detect alike: the same MIME type and
   * extension, the filename kept only by the former.
   */
  lemma FilenameAgreesWithExtension(d: FileTypeDetector, filename: string)
    requires d.Valid() && Paths.Suffix(filename) != []
    ensures DetectFromFilename(d, filename).Some? <==> DetectFromExtension(d, Paths.Suffix(filename)).Some?
    ensures DetectFromFilename(d, filename).Some? ==>
      DetectFromFilename(d, filename).value == DetectFromExtension(d, Paths.Suffix(filename)).value.(filename := Some(filename))
  {
    assert StartsWith(Paths.Suffix(filename), ".");
  }

  /** `mime.split('/')[0]`: the text before the first `/`, or all of it. */
  function TypeSegment(mime: string): (r: string)
    ensures '/' !in r && StartsWith(mime, r)
    ensures r == mime || mime[|r|] == '/'
  {
    match IndexOfChar(mime, '/')
    case None => mime
    case Some(i) => mime[..i]
  }

  /** The extension of the first entry whose MIME type's type segment starts `mimetype`. */
  function FirstTypeMatch(entries: Dict<string, string>, mimetype: string): (r: Option<string>)
    ensures r.None? <==> forall i :: 0 <= i < |entries| ==> !StartsWith(mimetype, TypeSegment(entries[i].0))
    ensures r.Some? ==> exists i :: (0 <= i < |entries| && entries[i].1 == r.value
      && StartsWith(mimetype, TypeSegment(entries[i].0))
      && forall j :: 0 <= j < i ==> !StartsWith(mimetype, TypeSegment(entries[j].0)))
  {
    if entries == [] then None
    else if StartsWith(mimetype, TypeSegment(entries[0].0)) then Some(entries[0].1)
    else
      var r := FirstTypeMatch(entries[1..], mimetype);
      assert forall i :: 1 <= i < |entries| ==> entries[i] == entries[1..][i - 1];
      r
  }

  /**
   * The extension `detect_from_mimetype` settles on: the exact reverse hit,
   * else the first reverse entry of the same type family, else none. Any
   * extension it gives is a dotted key of the extension table.
   */
  function MimetypeExtension(d: FileTypeDetector, mimetype: string): (r: Option<string>)
    requires d.Valid()
    ensures r.Some? ==> HasKey(d.extensionMapping, r.value) && r.value != [] && r.value[0] == '.'
    ensures Get(d.mimetypeMapping, mimetype).Some? ==>
      r.Some? && Get(d.extensionMapping, r.value) == Some(mimetype)
    ensures Get(d.mimetypeMapping, mimetype).None? ==> r == FirstTypeMatch(d.mimetypeMapping, mimetype)
  {
    var exact := Get(d.mimetypeMapping, mimetype);
    if exact.Some? then
      TableEntries(d, exact.value, mimetype);
      GetSpec(d.extensionMapping, exact.value);
      if exact.value != [] then exact else assert false; None
    else
      var r := FirstTypeMatch(d.mimetypeMapping, mimetype);
      if r.Some? then
        var i :| 0 <= i < |d.mimetypeMapping| && d.mimetypeMapping[i].1 == r.value;
        FromPairsDistinct(Swap(d.extensionMapping));
        GetAt(d.mimetypeMapping, i);
        TableEntries(d, r.value, d.mimetypeMapping[i].0);
        GetSpec(d.extensionMapping, r.value);
        r
      else r
  }

  /** `detect_from_mimetype`, which never returns `None`. */
  function DetectFromMimetype(d: FileTypeDetector, mimetype: string): (r: Option<StreamInfo>)
    requires d.Valid()
    ensures r == Some(StreamInfo(Some(mimetype), MimetypeExtension(d, mimetype), None, None, None, None))
  {
    var ext := MimetypeExtension(d, mimetype);
    if ext.Some? then
      assert StartsWith(ext.value, ".");
      Some(Make(Some(mimetype), ext, None, None, None, None))
    else
      Some(Make(Some(mimetype), ext, None, None, None, None))
  }

  /** How many leading bytes both probes read. */
  const SampleSize := 8192

  /** The bytes `seek(0); read(8192)` returns. */
  function Head(data: seq<byte>): (r: seq<byte>)
    ensures |r| == Min(SampleSize, |data|) && r == data[..|r|]
  {
    data[..Min(SampleSize, |data|)]
  }

  /**
   * What `detect_from_stream` makes of the head it read: nothing for an
   * empty head or when libmagic raises, otherwise the MIME type libmagic
   * names with the extension the reverse table gives it, if any.
   */
  function FromHeader(d: FileTypeDetector, magic: Magic, header: seq<byte>): (r: Option<StreamInfo>)
    requires d.Valid()
    ensures r.Some? <==> header != [] && magic(header).Returned?
    ensures r.Some? ==>
      r.value == StreamInfo(Some(magic(header).value), Get(d.mimetypeMapping, magic(header).value), None, None, None, None)
    ensures r.Some? && r.value.extension.Some? ==>
      Get(d.extensionMapping, r.value.extension.value) == r.value.mimetype
  {
    if header == [] then None
    else
      match magic(header)
      case Raised(_) => None
      case Returned(m) =>
        var ext := Get(d.mimetypeMapping, m);
        ReverseDotted(d, m);
        Some(Make(Some(m), ext, None, None, None, None))
  }

  /**
   * `detect_from_stream`: libmagic on the first 8192 bytes, read from the
   * start; the position is put back. Without libmagic, or on a stream
   * that cannot seek (its `tell` raises, which the blanket `except`
   * swallows), nothing is detected.
   */
  method DetectFromStream(d: FileTypeDetector, stream: Stream) returns (r: Option<StreamInfo>)
    requires d.Valid()
    modifies stream`pos
    ensures stream.pos == old(stream.pos)
    ensures r == if d.magic.None? || !stream.seekable then None else FromHeader(d, d.magic.value, Head(stream.data))
  {
    if d.magic.None? {
      return None;
    }
    var here := stream.Tell();
    if here.Raised? {
      return None;
    }
    var _ := stream.Seek(0);
    assert stream.Remaining() == stream.data;
    var header := stream.Read(SampleSize);
    var _ := stream.Seek(here.value);
    r := FromHeader(d, d.magic.value, header);
  }

  /**
   * `is_text_file`: the first 8192 bytes decode under utf-8, cp949, euc-kr
   * or latin-1; the position is put back. Since latin-1 decodes anything,
   * the answer is yes for every stream that can seek, whenever the other
   * three codecs exist.
   */
  method IsTextFile(codecs: Codecs, stream: Stream) returns (ok: bool)
    modifies stream`pos
    ensures stream.pos == old(stream.pos)
    ensures ok <==> stream.seekable && exists k :: FirstToDecode(codecs, Head(stream.data), SniffEncodings, k)
    ensures AllKnown(codecs, SniffEncodings[..3]) ==> (ok <==> stream.seekable)
  {
    var here := stream.Tell();
    if here.Raised? {
      return false;
    }
    var _ := stream.Seek(0);
    assert stream.Remaining() == stream.data;
    var sample := stream.Read(SampleSize);
    assert sample == Head(stream.data);
    var _ := stream.Seek(here.value);
    ok := DecodesAsText(codecs, sample, SniffEncodings);
    assert sample == Head(stream.data);
    if AllKnown(codecs, SniffEncodings[..3]) {
      SniffAlwaysDecodes(codecs, sample);
    }
  }

  /** `get_supported_extensions`: the keys of the extension table, in table order. */
  function SupportedExtensions(d: FileTypeDetector): (r: seq<string>)
    ensures |r| == |d.extensionMapping|
    ensures forall ext :: ext in r <==> HasKey(d.extensionMapping, ext)
  {
    Keys(d.extensionMapping)
  }

  /**
   * `get_supported_mimetypes`: the values of the extension table, one per
   * extension and so with repeats, each sent back to a dotted extension by
   * the reverse table.
   */
  function SupportedMimetypes(d: FileTypeDetector): (r: seq<string>)
    requires d.Valid()
    ensures |r| == |d.extensionMapping|
    ensures forall m :: m in r <==> Get(d.mimetypeMapping, m).Some?
    ensures forall i :: 0 <= i < |r| ==> Get(d.extensionMapping, d.extensionMapping[i].0) == Some(r[i])
  {
    forall m ensures m in Values(d.extensionMapping) <==> Get(d.mimetypeMapping, m).Some? {
      MimetypeMappingRoundTrip(d, m);
    }
    forall i | 0 <= i < |d.extensionMapping| ensures Get(d.extensionMapping, d.extensionMapping[i].0) == Some(d.extensionMapping[i].1) {
      GetAt(d.extensionMapping, i);
    }
    Values(d.extensionMapping)
  }
}
