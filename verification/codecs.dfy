/**
 * Text decoding of byte strings. Python's codec machinery and the chardet
 * detector are outside the model and arrive as a `Codecs` value; latin-1,
 * which maps every byte to the character with the same code, is defined here
 * because the fallback chains rely on it never failing.
 */
module Codecs {
  import opened Wrappers
  import opened Streams

  /** What `bytes.decode(encoding)` does: produce text, raise `UnicodeDecodeError`, or raise `LookupError`. */
  datatype Decoded = Text(text: string) | BadBytes | UnknownEncoding

  /** chardet's answer: a guessed encoding (possibly none) and a confidence in 0..1. */
  datatype Detection = Detection(encoding: Option<string>, confidence: real)

  datatype Codecs = Codecs(
    /** Every codec except latin-1. */
    decode: (string, seq<byte>) -> Decoded,
    /** `chardet.detect`, or `None` when chardet cannot be imported. */
    detector: Option<seq<byte> -> Detection>,
    /** `data.decode('utf-8', errors='ignore')` */
    lossyUtf8: seq<byte> -> string)

  const Latin1Name := "latin-1"

  /** latin-1: byte `b` becomes the character with code `b`. */
  function Latin1(data: seq<byte>): (r: string)
    ensures |r| == |data|
    ensures forall i :: 0 <= i < |data| ==> r[i] as int == data[i]
  {
    if data == [] then [] else [data[0] as char] + Latin1(data[1..])
  }

  /** `data.decode(encoding)` */
  function Decode(codecs: Codecs, encoding: string, data: seq<byte>): (r: Decoded)
    ensures encoding == Latin1Name ==> r == Text(Latin1(data))
    ensures encoding != Latin1Name ==> r == codecs.decode(encoding, data)
  {
    if encoding == Latin1Name then Text(Latin1(data)) else codecs.decode(encoding, data)
  }

  /** Each listed codec is known to Python (decoding may fail, but never with `LookupError`). */
  ghost predicate AllKnown(codecs: Codecs, encodings: seq<string>)
  {
    forall i, data :: 0 <= i < |encodings| ==> !Decode(codecs, encodings[i], data).UnknownEncoding?
  }

  /** Does the `k`-th encoding decode `sample` after every earlier one failed with `UnicodeDecodeError`? */
  predicate FirstToDecode(codecs: Codecs, sample: seq<byte>, encodings: seq<string>, k: int)
  {
    0 <= k < |encodings| && Decode(codecs, encodings[k], sample).Text?
    && forall j :: 0 <= j < k ==> Decode(codecs, encodings[j], sample).BadBytes?
  }

  /** The encodings `is_text_file` and the text converter's sniff try, in order. */
  const SniffEncodings: seq<string> := ["utf-8", "cp949", "euc-kr", Latin1Name]

  /**
   * The probe shared by `is_text_file` and the text converter's sniff: try
   * each encoding in turn; the first that decodes the sample makes it text,
   * and an unknown codec ends the probe with false (the caller's blanket
   * `except` turns the `LookupError` into false).
   */
  method DecodesAsText(codecs: Codecs, sample: seq<byte>, encodings: seq<string>) returns (ok: bool)
    ensures ok <==> exists k :: FirstToDecode(codecs, sample, encodings, k)
  {
    var i := 0;
    while i < |encodings|
      invariant 0 <= i <= |encodings|
      invariant forall j :: 0 <= j < i ==> Decode(codecs, encodings[j], sample).BadBytes?
    {
      var d := Decode(codecs, encodings[i], sample);
      if d.Text? {
        assert FirstToDecode(codecs, sample, encodings, i);
        return true;
      }
      if d.UnknownEncoding? {
        return false;
      }
      i := i + 1;
    }
    return false;
  }

  /** With known codecs the sniff always succeeds: latin-1, last in the list, decodes anything. */
  lemma {:induction false} SniffAlwaysDecodes(codecs: Codecs, sample: seq<byte>)
    requires AllKnown(codecs, SniffEncodings[..3])
    ensures exists k :: FirstToDecode(codecs, sample, SniffEncodings, k)
  {
    var e := SniffEncodings;
    assert Decode(codecs, e[3], sample).Text?;
    if Decode(codecs, e[0], sample).Text? {
      assert FirstToDecode(codecs, sample, e, 0);
    } else if Decode(codecs, e[1], sample).Text? {
      assert !Decode(codecs, e[..3][0], sample).UnknownEncoding?;
      assert FirstToDecode(codecs, sample, e, 1);
    } else if Decode(codecs, e[2], sample).Text? {
      assert !Decode(codecs, e[..3][0], sample).UnknownEncoding?;
      assert !Decode(codecs, e[..3][1], sample).UnknownEncoding?;
      assert FirstToDecode(codecs, sample, e, 2);
    } else {
      assert !Decode(codecs, e[..3][0], sample).UnknownEncoding?;
      assert !Decode(codecs, e[..3][1], sample).UnknownEncoding?;
      assert !Decode(codecs, e[..3][2], sample).UnknownEncoding?;
      assert FirstToDecode(codecs, sample, e, 3);
    }
  }
}
