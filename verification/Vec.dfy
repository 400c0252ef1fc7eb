/** The growable byte vector that documents, builders and serializers share: the operations the source calls on it. */
module Vecs {
  import opened Bytes

  /** `s` with the bytes from `at` on overwritten by `x`. */
  function Splice(s: seq<byte>, at: nat, x: seq<byte>): (r: seq<byte>)
    requires at + |x| <= |s|
    ensures |r| == |s|
  {
    s[..at] + x + s[at + |x|..]
  }

  lemma SpliceTwice(s: seq<byte>, at: nat, x: seq<byte>, y: seq<byte>)
    requires at + |x| + |y| <= |s|
    ensures Splice(Splice(s, at, x), at + |x|, y) == Splice(s, at, x + y)
  {
  }

  class Vec {
    var data: seq<byte>

    constructor (data: seq<byte>)
      ensures this.data == data
    {
      this.data := data;
    }

    method Push(b: byte)
      modifies this
      ensures data == old(data) + [b]
    {
      data := data + [b];
    }

    method Extend(s: seq<byte>)
      modifies this
      ensures data == old(data) + s
    {
      data := data + s;
    }

    method Insert(at: nat, b: byte)
      requires at <= |data|
      modifies this
      ensures data == old(data)[..at] + [b] + old(data)[at..]
    {
      data := data[..at] + [b] + data[at..];
    }

    method Set(at: nat, b: byte)
      requires at < |data|
      modifies this
      ensures data == Splice(old(data), at, [b])
    {
      data := data[at := b];
    }

    /** `resize(len, 0)`: cuts or pads with zeros. */
    method Resize(len: nat)
      modifies this
      ensures data == if len <= |old(data)| then old(data)[..len] else old(data) + Zeros(len - |old(data)|)
    {
      data := if len <= |data| then data[..len] else data + Zeros(len - |data|);
    }

    /** `truncate(len)`: does nothing when `len` is not below the current length. */
    method Truncate(len: nat)
      modifies this
      ensures data == if len <= |old(data)| then old(data)[..len] else old(data)
    {
      if len <= |data| {
        data := data[..len];
      }
    }

    /** `copy_within(lo..hi, at)`. */
    method CopyWithin(lo: nat, hi: nat, at: nat)
      requires lo <= hi <= |data| && at + (hi - lo) <= |data|
      modifies this
      ensures data == old(data)[..at] + old(data)[lo..hi] + old(data)[at + (hi - lo)..]
    {
      data := data[..at] + data[lo..hi] + data[at + (hi - lo)..];
    }

    /** `self[at..at + s.len()].copy_from_slice(s)`. */
    method CopyFromSlice(at: nat, s: seq<byte>)
      requires at + |s| <= |data|
      modifies this
      ensures data == Splice(old(data), at, s)
    {
      data := Splice(data, at, s);
    }
  }
}
