/**
 * Stream helpers: buffering a non-seekable stream in memory up to a size
 * cap, reading a whole stream as text through a chain of encodings,
 * reporting a stream's state, and copying one stream into another.
 */
module StreamUtils {
  import opened Wrappers
  import opened Streams
  import opened Codecs
  import StreamInfos

  /** The default cap of `make_stream_seekable`: 100 MiB. */
  const DefaultMaxSize: int := 100 * 1024 * 1024

  /** The largest read `make_stream_seekable` issues at once. */
  const BufferChunk: int := 8192

  /** How many bytes a capped copy takes from what remains. */
  function CappedLength(remaining: nat, maxSize: int): (n: nat)
    ensures n <= remaining
    ensures maxSize <= 0 ==> n == 0
    ensures maxSize > 0 ==> n == Min(remaining, maxSize)
  {
    if maxSize <= 0 then 0 else Min(remaining, maxSize)
  }

  /**
   * The copy loop of `make_stream_seekable`: read at most 8192 bytes at a
   * time, never more than the cap leaves, and append them to the buffer
   * until the source is exhausted or `maxSize` bytes were copied.
   */
  method FillBuffer(stream: Stream, buffer: Stream, maxSize: int) returns (copied: nat)
    requires stream != buffer && buffer.writable && buffer.data == [] && buffer.pos == 0
    modifies stream`pos, buffer`data, buffer`pos
    ensures copied == CappedLength(|old(stream.Remaining())|, maxSize)
    ensures buffer.data == old(stream.Remaining())[..copied] && buffer.pos == copied
    ensures stream.Remaining() == old(stream.Remaining())[copied..]
  {
    ghost var rem := stream.Remaining();
    copied := 0;
    while copied < maxSize
      invariant copied <= |rem|
      invariant copied == 0 || copied <= maxSize
      invariant buffer.data == rem[..copied] && buffer.pos == copied
      invariant stream.Remaining() == rem[copied..]
      decreases |rem| - copied
    {
      var chunk := stream.Read(Min(BufferChunk, maxSize - copied));
      if chunk == [] {
        break;
      }
      OverwriteAtEnd(buffer.data, chunk);
      var _ := buffer.Write(chunk);
      assert rem[..copied] + chunk == rem[..copied + |chunk|];
      copied := copied + |chunk|;
    }
  }

  /**
   * `make_stream_seekable`: a seekable stream is returned as it is; any other
   * is drained into a fresh in-memory buffer, at most `maxSize` bytes of it,
   * and the buffer is returned positioned at 0.
   */
  method MakeStreamSeekable(stream: Stream, maxSize: int) returns (s: Stream)
    modifies stream`pos
    ensures stream.seekable ==> s == stream && stream.pos == old(stream.pos)
    ensures !stream.seekable ==>
      var n := CappedLength(|old(stream.Remaining())|, maxSize);
      fresh(s) && s.seekable && s.writable && s.pos == 0
      && s.data == old(stream.Remaining())[..n]
      && stream.Remaining() == old(stream.Remaining())[n..]
  {
    if stream.seekable {
      return stream;
    }
    var buffer := new Stream([], true, true);
    var _ := FillBuffer(stream, buffer, maxSize);
    var _ := buffer.Seek(0);
    s := buffer;
  }

  /** The fallback list used when the caller gives none. */
  const DefaultFallbacks: seq<string> := ["utf-8", "cp949", "euc-kr", Latin1Name]

  /** chardet's choice when it is importable, names an encoding and is more than 80% confident. */
  function Detected(codecs: Codecs, content: seq<byte>): (r: Option<string>)
    ensures r.Some? ==> (codecs.detector.Some? && r.value != []
                         && codecs.detector.value(content).encoding == r
                         && codecs.detector.value(content).confidence > 0.8)
  {
    match codecs.detector
    case None => None
    case Some(detect) =>
      var d := detect(content);
      if StreamInfos.Truthy(d.encoding) && d.confidence > 0.8 then d.encoding else None
  }

  /**
   * The fallback loop: the first encoding that decodes wins, one whose codec
   * is unknown raises `LookupError`, and when all fail the content is
   * decoded as UTF-8 with undecodable bytes dropped.
   */
  function TryEach(codecs: Codecs, content: seq<byte>, encodings: seq<string>): (r: Outcome<string>)
  {
    if encodings == [] then Returned(codecs.lossyUtf8(content))
    else match Decode(codecs, encodings[0], content)
      case Text(t) => Returned(t)
      case BadBytes => TryEach(codecs, content, encodings[1..])
      case UnknownEncoding => Raised(LookupError(encodings[0]))
  }

  /**
   * What `read_stream_with_encoding` decodes the content to: the caller's
   * encoding if it decodes; then chardet's confident guess, whose failure
   * propagates; then the fallbacks.
   */
  function DecodeContent(codecs: Codecs, content: seq<byte>, encoding: Option<string>,
                         fallbacks: Option<seq<string>>): (r: Outcome<string>)
  {
    var given := if StreamInfos.Truthy(encoding) then Decode(codecs, encoding.value, content) else BadBytes;
    if given.Text? then Returned(given.text)
    else if given.UnknownEncoding? then Raised(LookupError(encoding.value))
    else match Detected(codecs, content)
      case Some(enc) =>
        (match Decode(codecs, enc, content)
         case Text(t) => Returned(t)
         case BadBytes => Raised(UnicodeDecodeError)
         case UnknownEncoding => Raised(LookupError(enc)))
      case None => TryEach(codecs, content, fallbacks.UnwrapOr(DefaultFallbacks))
  }

  /** The first fallback that decodes, after every earlier one failed to decode, gives the text. */
  lemma {:induction false} TryEachFirst(codecs: Codecs, content: seq<byte>, encodings: seq<string>, k: nat)
    requires FirstToDecode(codecs, content, encodings, k)
    ensures TryEach(codecs, content, encodings) == Returned(Decode(codecs, encodings[k], content).text)
  {
    if k > 0 {
      assert Decode(codecs, encodings[0], content).BadBytes?;
      assert FirstToDecode(codecs, content, encodings[1..], k - 1) by {
        forall j | 0 <= j < k - 1 ensures Decode(codecs, encodings[1..][j], content).BadBytes? {
          assert encodings[1..][j] == encodings[j + 1];
        }
      }
      TryEachFirst(codecs, content, encodings[1..], k - 1);
    }
  }

  /** When every fallback fails to decode, the lossy UTF-8 decoding is returned. */
  lemma {:induction false} TryEachExhausted(codecs: Codecs, content: seq<byte>, encodings: seq<string>)
    requires forall j :: 0 <= j < |encodings| ==> Decode(codecs, encodings[j], content).BadBytes?
    ensures TryEach(codecs, content, encodings) == Returned(codecs.lossyUtf8(content))
  {
    if encodings != [] {
      assert forall j :: 0 <= j < |encodings| - 1 ==> encodings[1..][j] == encodings[j + 1];
      TryEachExhausted(codecs, content, encodings[1..]);
    }
  }

  /**
   * With the default fallbacks and known codecs the last resort is never
   * reached: latin-1 ends the chain, so the text comes from one of the four.
   */
  lemma DefaultFallbacksDecode(codecs: Codecs, content: seq<byte>)
    requires AllKnown(codecs, DefaultFallbacks[..3])
    ensures exists k :: (FirstToDecode(codecs, content, DefaultFallbacks, k)
                         && TryEach(codecs, content, DefaultFallbacks) == Returned(Decode(codecs, DefaultFallbacks[k], content).text))
  {
    SniffAlwaysDecodes(codecs, content);
    var k :| FirstToDecode(codecs, content, SniffEncodings, k);
    TryEachFirst(codecs, content, DefaultFallbacks, k);
  }

  /** A caller's encoding that decodes the content always wins. */
  lemma GivenEncodingWins(codecs: Codecs, content: seq<byte>, encoding: string, fallbacks: Option<seq<string>>)
    requires encoding != [] && Decode(codecs, encoding, content).Text?
    ensures DecodeContent(codecs, content, Some(encoding), fallbacks) == Returned(Decode(codecs, encoding, content).text)
  {
  }

  /**
   * `read_stream_with_encoding`: read the whole stream from the start,
   * restore the position, and decode. `tell` on a non-seekable stream
   * raises, and that error propagates.
   */
  method ReadStreamWithEncoding(stream: Stream, codecs: Codecs, encoding: Option<string>,
                                fallbacks: Option<seq<string>>) returns (r: Outcome<string>)
    modifies stream`pos
    ensures stream.pos == old(stream.pos)
    ensures stream.seekable ==> r == DecodeContent(codecs, stream.data, encoding, fallbacks)
    ensures !stream.seekable ==> r.Raised?
  {
    var here := stream.Tell();
    if here.Raised? {
      return Raised(here.error);
    }
    var _ := stream.Seek(0);
    var content := stream.ReadAll();
    var _ := stream.Seek(here.value);
    assert content == stream.data;
    if StreamInfos.Truthy(encoding) {
      var d := Decode(codecs, encoding.value, content);
      if d.Text? {
        return Returned(d.text);
      } else if d.UnknownEncoding? {
        return Raised(LookupError(encoding.value));
      }
    }
    var detected := Detected(codecs, content);
    if detected.Some? {
      var d := Decode(codecs, detected.value, content);
      match d {
        case Text(t) => return Returned(t);
        case BadBytes => return Raised(UnicodeDecodeError);
        case UnknownEncoding => return Raised(LookupError(detected.value));
      }
    }
    var encodings := fallbacks.UnwrapOr(DefaultFallbacks);
    var i := 0;
    while i < |encodings|
      invariant 0 <= i <= |encodings|
      invariant TryEach(codecs, content, encodings[i..]) == TryEach(codecs, content, encodings)
    {
      var d := Decode(codecs, encodings[i], content);
      if d.Text? {
        return Returned(d.text);
      } else if d.UnknownEncoding? {
        return Raised(LookupError(encodings[i]));
      }
      assert encodings[i..][1..] == encodings[i + 1..];
      i := i + 1;
    }
    return Returned(codecs.lossyUtf8(content));
  }

  /** What `get_stream_info` reports. */
  datatype StreamReport = StreamReport(
    readable: bool, writable: bool, seekable: bool, closed: bool,
    size: Option<nat>, position: Option<nat>)

  /**
   * `get_stream_info`: the stream's capabilities and, when it can seek, its
   * length and position, measured by seeking to the end and back.
   */
  method GetStreamInfo(stream: Stream) returns (info: StreamReport)
    modifies stream`pos
    ensures stream.pos == old(stream.pos)
    ensures info.readable && !info.closed
    ensures info.writable == stream.writable && info.seekable == stream.seekable
    ensures stream.seekable ==> info.size == Some(|stream.data|) && info.position == Some(old(stream.pos))
    ensures !stream.seekable ==> info.size.None? && info.position.None?
  {
    info := StreamReport(true, stream.writable, stream.seekable, false, None, None);
    if stream.seekable {
      var here := stream.Tell();
      var _ := stream.SeekEnd();
      var size := stream.Tell();
      var _ := stream.Seek(here.value);
      info := info.(size := Some(size.value), position := Some(here.value));
    }
  }

  /**
   * One round of `copy_stream`'s loop: read a chunk from the source and
   * write it to the target, which so far holds `done` written at `p0`.
   */
  method CopyChunk(source: Stream, target: Stream, chunkSize: int,
                   ghost d0: seq<byte>, ghost p0: nat, ghost done: seq<byte>)
    returns (chunk: seq<byte>, error: Option<Exception>)
    requires source != target
    requires target.data == Overwrite(d0, p0, done) && target.pos == p0 + |done|
    modifies source`pos, target`data, target`pos
    ensures chunk == [] <==> chunkSize == 0 || old(source.Remaining()) == []
    ensures |chunk| <= |old(source.Remaining())| && chunk == old(source.Remaining())[..|chunk|]
    ensures source.Remaining() == old(source.Remaining())[|chunk|..]
    ensures error.Some? <==> chunk != [] && !target.writable
    ensures error.None? && chunk != [] ==>
      target.data == Overwrite(d0, p0, done + chunk) && target.pos == p0 + |done + chunk|
    ensures error.Some? || chunk == [] ==> target.data == old(target.data) && target.pos == old(target.pos)
  {
    chunk := source.Read(chunkSize);
    error := None;
    if chunk != [] {
      OverwriteConcat(d0, p0, done, chunk);
      var w := target.Write(chunk);
      if w.Raised? {
        error := Some(w.error);
      }
    }
  }

  /**
   * `copy_stream`: read chunks from the source until a read comes back empty
   * and write each to the target, returning how many bytes were copied. A
   * chunk size of 0 reads nothing, a negative one reads everything at once;
   * a write to a target that is not writable raises.
   */
  method CopyStream(source: Stream, target: Stream, chunkSize: int) returns (r: Outcome<nat>)
    requires source != target
    modifies source`pos, target`data, target`pos
    ensures var rem := old(source.Remaining());
      var n := if chunkSize == 0 then 0 else |rem|;
      if n > 0 && !target.writable then
        r.Raised? && target.data == old(target.data) && target.pos == old(target.pos)
      else
        r == Returned(n) && source.Remaining() == rem[n..]
        && target.data == Overwrite(old(target.data), old(target.pos), rem[..n])
        && target.pos == old(target.pos) + n
  {
    ghost var rem := source.Remaining();
    ghost var d0, p0 := target.data, target.pos;
    var copied := 0;
    while true
      invariant 0 <= copied <= |rem|
      invariant chunkSize == 0 || !target.writable ==> copied == 0
      invariant source.Remaining() == rem[copied..]
      invariant target.data == Overwrite(d0, p0, rem[..copied]) && target.pos == p0 + copied
      decreases |rem| - copied
    {
      var chunk, error := CopyChunk(source, target, chunkSize, d0, p0, rem[..copied]);
      if error.Some? {
        return Raised(error.value);
      }
      if chunk == [] {
        assert chunkSize != 0 ==> |rem[copied..]| == 0;
        break;
      }
      assert rem[..copied] + chunk == rem[..copied + |chunk|];
      copied := copied + |chunk|;
    }
    assert rem[..|rem|] == rem && rem[..0] == [];
    r := Returned(copied);
  }
}
