/**
 * The string handling of the dispatcher's entry points: where `convert` and
 * `convert_uri` send a source, how a `data:` URI is split into media type,
 * encoding flag and payload (loosely after section 3 of RFC 2397), and how a
 * filename is taken from a Content-Disposition header (section 4.3 of
 * RFC 6266, with the `filename*` form of section 3.2 of RFC 5987).
 * Percent-decoding and base64 are parameters.
 */
module Uris {
  import opened Wrappers
  import opened Strings
  import opened StreamInfos
  import Paths
  import Streams

  // ---------------------------------------------------------------- routing

  /** Where a source goes: a local file, the data-URI decoder, or an HTTP fetch. */
  datatype Route = LocalFile(path: string) | DataUri(uri: string) | HttpUri(uri: string)

  /** `convert_uri`: `file://` first, then `data:`, then `http://` or `https://`; anything else is a local path. */
  function RouteUri(uri: string): Route
  {
    if StartsWith(uri, "file://") then LocalFile(uri[7..])
    else if StartsWith(uri, "data:") then DataUri(uri)
    else if StartsWith(uri, "http://") || StartsWith(uri, "https://") then HttpUri(uri)
    else LocalFile(uri)
  }

  /**
   * Each route is taken exactly for its scheme; a `file://` URI goes to the
   * path that follows the scheme, and a URI without a known scheme is used
   * as a path unchanged.
   */
  lemma RouteUriSpec(uri: string)
    ensures var r := RouteUri(uri);
      var file := StartsWith(uri, "file://");
      var data := StartsWith(uri, "data:");
      var http := StartsWith(uri, "http://") || StartsWith(uri, "https://");
      && (r.DataUri? <==> data)
      && (r.HttpUri? <==> http)
      && (r.LocalFile? <==> file || (!data && !http))
      && (r.LocalFile? && file ==> "file://" + r.path == uri)
      && (r.LocalFile? && !file ==> r.path == uri)
      && (!r.LocalFile? ==> r.uri == uri)
  {
    Schemes(uri);
    if StartsWith(uri, "file://") {
      assert uri == uri[..7] + uri[7..];
    }
  }

  /** The four scheme prefixes exclude one another. */
  lemma Schemes(uri: string)
    ensures StartsWith(uri, "file://") ==> uri[0] == 'f'
    ensures StartsWith(uri, "data:") ==> uri[0] == 'd'
    ensures StartsWith(uri, "http://") ==> uri[..5] == "http:"
    ensures StartsWith(uri, "https://") ==> uri[..5] == "https"
  {
  }

  /**
   * `convert` on a path or string: a path that exists (a file or a
   * directory, as `Path.exists` answers) is converted locally, anything
   * else goes through `convert_uri`; a local route whose path does not
   * exist raises `FileNotFoundError` in `convert_local`.
   */
  function RouteSource(source: string, pathExists: string -> bool): (r: Outcome<Route>)
    ensures r.Returned? && r.value.LocalFile? ==> pathExists(r.value.path)
  {
    var route := if pathExists(source) then LocalFile(source) else RouteUri(source);
    if route.LocalFile? && !pathExists(route.path) then Raised(FileNotFoundError("File not found: " + route.path))
    else Returned(route)
  }

  /** A source that names no existing path and has no scheme ends in `FileNotFoundError`; an existing path is never taken for a URI. */
  lemma RouteSourceSpec(source: string, pathExists: string -> bool)
    ensures pathExists(source) ==> RouteSource(source, pathExists) == Returned(LocalFile(source))
    ensures (!pathExists(source) && !StartsWith(source, "file://") && !StartsWith(source, "data:")
             && !StartsWith(source, "http://") && !StartsWith(source, "https://")) ==>
              RouteSource(source, pathExists) == Raised(FileNotFoundError("File not found: " + source))
    ensures !pathExists(source) && StartsWith(source, "data:") ==> RouteSource(source, pathExists) == Returned(DataUri(source))
  {
    Schemes(source);
  }

  // ---------------------------------------------------------------- data URIs

  /** What `_convert_data_uri` reads from the header, and the payload still to decode. */
  datatype DataHeader = DataHeader(mediaType: string, isBase64: bool, payload: string)

  /**
   * `_convert_data_uri` up to decoding: `ValueError` without the `data:`
   * prefix, or when there is no comma to split at (the unpacking of
   * `split(',', 1)` fails); otherwise the header is everything before the
   * first comma, the media type the header up to its first `;`, and the
   * payload is base64 exactly when "base64" occurs after that `;`.
   */
  function ParseDataUri(uri: string): (r: Outcome<DataHeader>)
    ensures r.Raised? ==> r.error.ValueError?
  {
    if !StartsWith(uri, "data:") then Raised(ValueError("Invalid data URI"))
    else
      var rest := uri[5..];
      match IndexOfChar(rest, ',')
      case None => Raised(ValueError("not enough values to unpack (expected 2, got 1)"))
      case Some(c) =>
        var header := rest[..c];
        var payload := rest[c + 1..];
        match IndexOfChar(header, ';')
        case None => Returned(DataHeader(header, false, payload))
        case Some(s) => Returned(DataHeader(header[..s], Contains(header[s + 1..], "base64"), payload))
  }

  /** Parsing fails exactly without the prefix or without a comma after it. */
  lemma ParseDataUriFails(uri: string)
    ensures ParseDataUri(uri).Raised? <==> !StartsWith(uri, "data:") || ',' !in uri[5..]
  {
  }

  /** A URI written as `data:<type>;<parameters>,<payload>` parses back into its parts, whatever the payload holds. */
  lemma ParseDataUriWithParameters(mediaType: string, parameters: string, payload: string)
    requires ',' !in mediaType && ';' !in mediaType && ',' !in parameters
    ensures ParseDataUri("data:" + mediaType + ";" + parameters + "," + payload)
      == Returned(DataHeader(mediaType, Contains(parameters, "base64"), payload))
  {
    var uri := "data:" + mediaType + ";" + parameters + "," + payload;
    var rest := uri[5..];
    assert rest == mediaType + ";" + parameters + "," + payload;
    var c := |mediaType| + 1 + |parameters|;
    assert rest[c] == ',' && ',' !in rest[..c] by {
      assert rest[..c] == mediaType + ";" + parameters;
    }
    assert IndexOfChar(rest, ',') == Some(c);
    var header := rest[..c];
    assert header == mediaType + ";" + parameters;
    assert header[|mediaType|] == ';' && ';' !in header[..|mediaType|] by {
      assert header[..|mediaType|] == mediaType;
    }
    assert IndexOfChar(header, ';') == Some(|mediaType|);
    assert header[..|mediaType|] == mediaType;
    assert header[|mediaType| + 1..] == parameters;
    assert rest[c + 1..] == payload;
  }

  /** A URI written as `data:<type>,<payload>` parses as that type, not base64, with the payload intact. */
  lemma ParseDataUriPlain(mediaType: string, payload: string)
    requires ',' !in mediaType && ';' !in mediaType
    ensures ParseDataUri("data:" + mediaType + "," + payload) == Returned(DataHeader(mediaType, false, payload))
  {
    var uri := "data:" + mediaType + "," + payload;
    var rest := uri[5..];
    assert rest == mediaType + "," + payload;
    assert rest[..|mediaType|] == mediaType;
    assert rest[|mediaType|] == ',';
    assert IndexOfChar(rest, ',') == Some(|mediaType|);
    assert rest[|mediaType| + 1..] == payload;
  }

  /**
   * The stream and info `_convert_data_uri` hands to `convert_stream`:
   * `decode` is base64 decoding (when the flag is set) or percent-decoding
   * followed by UTF-8 encoding, and may raise; the info carries only the
   * media type.
   */
  function DataUriInput(uri: string, decode: (bool, string) -> Outcome<seq<Streams.byte>>): (r: Outcome<(seq<Streams.byte>, StreamInfo)>)
    ensures r.Returned? ==> (ParseDataUri(uri).Returned?
      && r.value.1 == Make(Some(ParseDataUri(uri).value.mediaType), None, None, None, None, None))
    ensures ParseDataUri(uri).Raised? ==> r == Raised(ParseDataUri(uri).error)
  {
    match ParseDataUri(uri)
    case Raised(e) => Raised(e)
    case Returned(h) =>
      match decode(h.isBase64, h.payload)
      case Raised(e) => Raised(e)
      case Returned(bytes) => Returned((bytes, Make(Some(h.mediaType), None, None, None, None, None)))
  }

  // ---------------------------------------------------------------- Content-Disposition

  predicate NotSemicolon(c: char) { c != ';' }
  predicate NotQuote(c: char) { c != '"' }

  /** The longest run of characters other than `;` at the start of `s` (what `[^;]+` takes greedily). */
  function UpToSemicolon(s: string): (r: string)
    ensures |r| <= |s| && r == s[..|r|] && ';' !in r
    ensures |r| == |s| || s[|r|] == ';'
  {
    s[..SpanLen(s, NotSemicolon)]
  }

  /** The group of `(?:UTF-8'')?([^;]+)` matched at the start of `rest`, preferring the run after `UTF-8''`. */
  function StarValue(rest: string): (r: Option<string>)
    ensures r.Some? ==> r.value != [] && ';' !in r.value
    ensures r.Some? ==> StartsWith(rest, r.value) || StartsWith(rest, "UTF-8''" + r.value)
  {
    if StartsWith(rest, "UTF-8''") && UpToSemicolon(rest[7..]) != [] then
      assert rest == "UTF-8''" + rest[7..];
      Some(UpToSemicolon(rest[7..]))
    else if UpToSemicolon(rest) != [] then Some(UpToSemicolon(rest))
    else None
  }

  /** `filename\*=(?:UTF-8'')?([^;]+)` tried at position `i`. */
  function StarAt(s: string, i: nat): (r: Option<string>)
    ensures r.Some? ==> r.value != [] && ';' !in r.value
  {
    if i > |s| || !StartsWith(s[i..], "filename*=") then None
    else StarValue(s[i + 10..])
  }

  /** `filename="([^"]+)"` tried at position `i`. */
  function QuotedAt(s: string, i: nat): (r: Option<string>)
    ensures r.Some? ==> r.value != [] && '"' !in r.value
  {
    if i > |s| || !StartsWith(s[i..], "filename=\"") then None
    else
      var rest := s[i + 10..];
      var n := SpanLen(rest, NotQuote);
      if 0 < n < |rest| then Some(rest[..n]) else None
  }

  /** `filename=([^;]+)` tried at position `i`. */
  function BareAt(s: string, i: nat): (r: Option<string>)
    ensures r.Some? ==> r.value != [] && ';' !in r.value
  {
    if i > |s| || !StartsWith(s[i..], "filename=") then None
    else if UpToSemicolon(s[i + 9..]) != [] then Some(UpToSemicolon(s[i + 9..]))
    else None
  }

  /** `re.search`: the match at the leftmost position, from `i` on, where the pattern matches. */
  function Search(s: string, at: (string, nat) -> Option<string>, i: nat): (r: Option<string>)
    decreases |s| + 1 - i
  {
    if i > |s| then None
    else if at(s, i).Some? then at(s, i)
    else Search(s, at, i + 1)
  }

  /** The search finds a match exactly when the pattern matches somewhere, and it is the leftmost one. */
  lemma {:induction false} SearchSpec(s: string, at: (string, nat) -> Option<string>, i: nat)
    ensures Search(s, at, i).None? <==> forall j :: i <= j <= |s| ==> at(s, j).None?
    ensures Search(s, at, i).Some? ==>
      exists j :: i <= j <= |s| && at(s, j) == Search(s, at, i) && forall k :: i <= k < j ==> at(s, k).None?
    decreases |s| + 1 - i
  {
    if i <= |s| && at(s, i).None? {
      SearchSpec(s, at, i + 1);
      if Search(s, at, i).Some? {
        var j :| i + 1 <= j <= |s| && at(s, j) == Search(s, at, i + 1) && forall k :: i + 1 <= k < j ==> at(s, k).None?;
        assert forall k :: i <= k < j ==> at(s, k).None?;
      }
    }
  }

  /**
   * `_extract_filename_from_disposition`: the `filename*` value,
   * percent-decoded by `unquote`; else the quoted `filename`; else the bare
   * `filename` value, stripped; else nothing.
   */
  function FilenameFromDisposition(disposition: string, unquote: string -> string): Option<string>
  {
    var star := Search(disposition, StarAt, 0);
    if star.Some? then Some(unquote(star.value))
    else
      var quoted := Search(disposition, QuotedAt, 0);
      if quoted.Some? then quoted
      else
        var bare := Search(disposition, BareAt, 0);
        if bare.Some? then Some(Strip(bare.value)) else None
  }

  /**
   * The `filename*` form wins wherever it stands; the quoted form is used
   * only without it, the bare form only without either; there is no
   * filename exactly when none of the three occurs.
   */
  lemma FilenameFromDispositionSpec(disposition: string, unquote: string -> string)
    ensures var r := FilenameFromDisposition(disposition, unquote);
      var star := Search(disposition, StarAt, 0);
      var quoted := Search(disposition, QuotedAt, 0);
      var bare := Search(disposition, BareAt, 0);
      && (star.Some? ==> r == Some(unquote(star.value)))
      && (star.None? && quoted.Some? ==> r == quoted && '"' !in r.value)
      && (star.None? && quoted.None? && bare.Some? ==> r == Some(Strip(bare.value)) && ';' !in r.value)
      && (r.None? <==> forall j :: 0 <= j <= |disposition| ==>
            StarAt(disposition, j).None? && QuotedAt(disposition, j).None? && BareAt(disposition, j).None?)
  {
    SearchSpec(disposition, StarAt, 0);
    SearchSpec(disposition, QuotedAt, 0);
    SearchSpec(disposition, BareAt, 0);
    var bare := Search(disposition, BareAt, 0);
    if bare.Some? {
      TrimIsSlice(bare.value, IsSpace);
    }
  }

  /** Text `a` at position `i` followed by text `b` is `a + b` at `i`. */
  lemma OccursAtJoin(s: string, i: nat, a: string, b: string)
    requires i <= |s| && StartsWith(s[i..], a) && StartsWith(s[i + |a|..], b)
    ensures OccursAt(s, a + b, i)
  {
    assert s[i..i + |a| + |b|] == s[i..][..|a|] + s[i + |a|..][..|b|];
  }

  /** The `filename*` value is the text that follows the key, or the key and `UTF-8''`. */
  lemma StarCaptured(s: string, i: nat)
    requires StarAt(s, i).Some?
    ensures OccursAt(s, "filename*=" + StarAt(s, i).value, i) || OccursAt(s, "filename*=UTF-8''" + StarAt(s, i).value, i)
  {
    var v := StarAt(s, i).value;
    if StartsWith(s[i + 10..], v) {
      OccursAtJoin(s, i, "filename*=", v);
    } else {
      OccursAtJoin(s, i, "filename*=", "UTF-8''" + v);
      assert "filename*=" + ("UTF-8''" + v) == "filename*=UTF-8''" + v;
    }
  }

  /** The quoted value is the text between `filename="` and the next quote. */
  lemma QuotedCaptured(s: string, i: nat)
    requires QuotedAt(s, i).Some?
    ensures OccursAt(s, "filename=\"" + QuotedAt(s, i).value + "\"", i)
  {
    var rest := s[i + 10..];
    var v := QuotedAt(s, i).value;
    assert s[i..i + 10] == "filename=\"";
    assert rest[|v|] == '"';
    assert s[i..i + 11 + |v|] == s[i..i + 10] + rest[..|v|] + [rest[|v|]];
  }

  /** The bare value is the text that follows `filename=` up to a `;`. */
  lemma BareCaptured(s: string, i: nat)
    requires BareAt(s, i).Some?
    ensures OccursAt(s, "filename=" + BareAt(s, i).value, i)
  {
    var v := BareAt(s, i).value;
    assert s[i..i + 9] == "filename=";
    assert s[i..i + 9 + |v|] == s[i..i + 9] + s[i + 9..][..|v|];
  }

  /**
   * `_convert_http_uri`'s stream info: the response's content type, the URL
   * and the response encoding; a non-empty filename from the
   * Content-Disposition header then sets the filename and, lower-cased, its
   * suffix as the extension (assigned after construction, so without the
   * extension normalisation).
   */
  function HttpStreamInfo(contentType: Option<string>, uri: string, encoding: Option<string>,
                          disposition: Option<string>, unquote: string -> string): (r: StreamInfo)
    ensures r.mimetype == contentType && r.url == Some(uri) && r.charset == encoding
  {
    var info := Make(contentType, None, encoding, None, None, Some(uri));
    var filename := if Truthy(disposition) then FilenameFromDisposition(disposition.value, unquote) else None;
    if Truthy(filename) then info.(filename := filename, extension := Some(Lower(Paths.Suffix(filename.value))))
    else info
  }

  /** The filename is set exactly when the header yields a non-empty one, and the extension then follows it. */
  lemma HttpStreamInfoSpec(contentType: Option<string>, uri: string, encoding: Option<string>,
                           disposition: Option<string>, unquote: string -> string)
    ensures var r := HttpStreamInfo(contentType, uri, encoding, disposition, unquote);
      var f := if Truthy(disposition) then FilenameFromDisposition(disposition.value, unquote) else None;
      && (Truthy(f) ==> r.filename == f && r.extension == Some(Lower(Paths.Suffix(f.value))))
      && (!Truthy(f) ==> r.filename == None && r.extension == None)
  {
  }
}
