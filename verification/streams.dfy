/**
 * A binary stream as the converters see it: the bytes it holds, a current
 * position, and whether it can seek and be written. `io.BytesIO` is the
 * seekable, writable case; a network or pipe stream is the non-seekable one,
 * whose `tell` and `seek` raise.
 */
module Streams {
  import opened Wrappers

  type byte = x: int | 0 <= x < 256

  function Min(a: int, b: int): int { if a <= b then a else b }

  function Zeros(n: nat): (r: seq<byte>)
    ensures |r| == n && forall i :: 0 <= i < n ==> r[i] == 0
  {
    if n == 0 then [] else [0] + Zeros(n - 1)
  }

  /** `d` with byte `p` set to `x`, first extended with zero bytes when `p` lies past the end. */
  function Put(d: seq<byte>, p: nat, x: byte): (r: seq<byte>)
    ensures |r| == if p < |d| then |d| else p + 1
    ensures r[p] == x
    ensures forall i :: 0 <= i < |d| && i != p ==> r[i] == d[i]
  {
    if p < |d| then d[p := x] else d + Zeros(p - |d|) + [x]
  }

  /**
   * The contents after `BytesIO.write(b)` at position `p`: byte by byte, the
   * bytes from `p` on are replaced by `b`, and a gap before `p` is filled
   * with zero bytes. Writing nothing changes nothing.
   */
  function Overwrite(d: seq<byte>, p: nat, b: seq<byte>): (r: seq<byte>)
    decreases |b|
  {
    if b == [] then d else Overwrite(Put(d, p, b[0]), p + 1, b[1..])
  }

  /**
   * What a write leaves: the written bytes at `p..p+|b|`, every other old
   * byte in place, and the length grown to cover the write.
   */
  lemma {:induction false} OverwriteShape(d: seq<byte>, p: nat, b: seq<byte>)
    ensures var r := Overwrite(d, p, b);
      && |r| == (if b == [] || p + |b| <= |d| then |d| else p + |b|)
      && (forall i :: 0 <= i < |b| ==> r[p + i] == b[i])
      && (forall i :: 0 <= i < |d| && !(p <= i < p + |b|) ==> r[i] == d[i])
    decreases |b|
  {
    if b != [] {
      var e := Put(d, p, b[0]);
      OverwriteShape(e, p + 1, b[1..]);
      var r := Overwrite(d, p, b);
      assert r == Overwrite(e, p + 1, b[1..]);
      forall i | 0 <= i < |b| ensures r[p + i] == b[i] {
        if i > 0 { assert r[p + 1 + (i - 1)] == b[1..][i - 1]; }
      }
    }
  }

  /** Writing `a` and then `b` right after it is writing `a + b`. */
  lemma {:induction false} OverwriteConcat(d: seq<byte>, p: nat, a: seq<byte>, b: seq<byte>)
    ensures Overwrite(Overwrite(d, p, a), p + |a|, b) == Overwrite(d, p, a + b)
    decreases |a|
  {
    if a != [] {
      assert (a + b)[1..] == a[1..] + b;
      OverwriteConcat(Put(d, p, a[0]), p + 1, a[1..], b);
    } else {
      assert a + b == b;
    }
  }

  /** Writing at the end appends. */
  lemma {:induction false} OverwriteAtEnd(d: seq<byte>, b: seq<byte>)
    ensures Overwrite(d, |d|, b) == d + b
    decreases |b|
  {
    if b != [] {
      assert Put(d, |d|, b[0]) == d + [b[0]];
      OverwriteAtEnd(d + [b[0]], b[1..]);
      assert d + [b[0]] + b[1..] == d + b;
    }
  }

  class Stream {
    var data: seq<byte>
    var pos: nat
    const seekable: bool
    const writable: bool

    constructor (content: seq<byte>, seekable: bool, writable: bool)
      ensures data == content && pos == 0
      ensures this.seekable == seekable && this.writable == writable
    {
      data := content;
      pos := 0;
      this.seekable := seekable;
      this.writable := writable;
    }

    /** The bytes a read from the current position can still return. */
    function Remaining(): (r: seq<byte>)
      reads this
      ensures |r| == (if pos <= |data| then |data| - pos else 0)
    {
      if pos <= |data| then data[pos..] else []
    }

    /** `tell()`: the position, or an error on a stream that cannot seek. */
    method Tell() returns (r: Outcome<nat>)
      ensures seekable <==> r.Returned?
      ensures r.Returned? ==> r.value == pos
    {
      if seekable {
        r := Returned(pos);
      } else {
        r := Raised(OSError("underlying stream is not seekable"));
      }
    }

    /** `seek(p)`; a stream that cannot seek raises and keeps its position. */
    method Seek(p: nat) returns (r: Outcome<nat>)
      modifies this`pos
      ensures seekable ==> r == Returned(p) && pos == p
      ensures !seekable ==> r.Raised? && pos == old(pos)
    {
      if seekable {
        pos := p;
        r := Returned(p);
      } else {
        r := Raised(OSError("underlying stream is not seekable"));
      }
    }

    /** `seek(0, 2)`: move to the end. */
    method SeekEnd() returns (r: Outcome<nat>)
      modifies this`pos
      ensures seekable ==> r == Returned(|data|) && pos == |data|
      ensures !seekable ==> r.Raised? && pos == old(pos)
    {
      if seekable {
        pos := |data|;
        r := Returned(pos);
      } else {
        r := Raised(OSError("underlying stream is not seekable"));
      }
    }

    /**
     * `read(n)`: up to `n` bytes from the position (everything left when `n`
     * is negative); the position moves past what was returned.
     */
    method Read(n: int) returns (chunk: seq<byte>)
      modifies this`pos
      ensures chunk == old(Remaining())[..if n < 0 then |old(Remaining())| else Min(n, |old(Remaining())|)]
      ensures Remaining() == old(Remaining())[|chunk|..]
      ensures pos == if chunk == [] then old(pos) else old(pos) + |chunk|
    {
      var rest := Remaining();
      var k := if n < 0 then |rest| else Min(n, |rest|);
      chunk := rest[..k];
      if k > 0 {
        pos := pos + k;
      }
    }

    /** `read()`: everything from the position to the end. */
    method ReadAll() returns (chunk: seq<byte>)
      modifies this`pos
      ensures chunk == old(Remaining())
      ensures Remaining() == []
      ensures pos == if chunk == [] then old(pos) else |data|
    {
      chunk := Read(-1);
    }

    /** `write(b)`: overwrite from the position and move past what was written. */
    method Write(b: seq<byte>) returns (r: Outcome<nat>)
      modifies this`data, this`pos
      ensures writable ==> r == Returned(|b|) && data == Overwrite(old(data), old(pos), b) && pos == old(pos) + |b|
      ensures !writable ==> r.Raised? && data == old(data) && pos == old(pos)
    {
      if writable {
        data := Overwrite(data, pos, b);
        pos := pos + |b|;
        r := Returned(|b|);
      } else {
        r := Raised(OSError("not writable"));
      }
    }
  }
}
