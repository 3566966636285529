/** The byte-level codec of binary grammar files: octets, big-endian 32-bit integers in two's
    complement, and NUL-terminated strings. */
module BinaryStreams {
  import opened Bytes
  import opened Recognizers

  const TWO_TO_THE_31: int := 0x8000_0000
  const TWO_TO_THE_32: int := 0x1_0000_0000

  predicate IsInt32(v: int) {
    -TWO_TO_THE_31 <= v < TWO_TO_THE_31
  }

  function IntBytes(v: int): (bs: Bytes)
    requires IsInt32(v)
    ensures |bs| == 4
  {
    var u := if v < 0 then v + TWO_TO_THE_32 else v;
    [u / 0x100_0000, u / 0x1_0000 % 0x100, u / 0x100 % 0x100, u % 0x100]
  }

  function BytesInt(bs: Bytes): (v: int)
    requires |bs| == 4
    ensures IsInt32(v)
  {
    var u: int := bs[0] as int * 0x100_0000 + bs[1] as int * 0x1_0000 + bs[2] as int * 0x100 + bs[3] as int;
    if u < TWO_TO_THE_31 then u else u - TWO_TO_THE_32
  }

  /** The most significant octet comes first, and negative numbers are in two's complement. */
  ghost predicate IsBigEndian(v: int, bs: Bytes) {
    && |bs| == 4
    && var u := bs[0] as int * 16777216 + bs[1] as int * 65536 + bs[2] as int * 256 + bs[3] as int;
    v == if bs[0] < 128 then u else u - 4294967296
  }

  lemma IntFormat(v: int)
    requires IsInt32(v)
    ensures IsBigEndian(v, IntBytes(v))
  {
    var bs := IntBytes(v);
    var u := bs[0] as int * 16777216 + bs[1] as int * 65536 + bs[2] as int * 256 + bs[3] as int;
    assert u == if v < 0 then v + TWO_TO_THE_32 else v;
  }

  lemma IntRoundTrip(v: int)
    requires IsInt32(v)
    ensures BytesInt(IntBytes(v)) == v
  {
    hide IntBytes;
    IntFormat(v);
  }

  /** A string without NUL characters, of one octet each. */
  predicate IsCString(x: Name) {
    forall i :: 0 <= i < |x| ==> 0 < x[i] as int < 256
  }

  function Octets(x: Name): (bs: Bytes)
    requires IsCString(x)
    ensures |bs| == |x| && forall i :: 0 <= i < |x| ==> bs[i] != 0 && bs[i] as char == x[i]
  {
    seq(|x|, i requires 0 <= i < |x| => x[i] as int)
  }

  /** `bs` is found at `pos` in `data`. */
  ghost predicate Holds(data: Bytes, pos: nat, bs: Bytes) {
    pos + |bs| <= |data| && data[pos..pos + |bs|] == bs
  }

  lemma HoldsBoth(data: Bytes, pos: nat, a: Bytes, b: Bytes)
    requires Holds(data, pos, a + b)
    ensures Holds(data, pos, a) && Holds(data, pos + |a|, b)
  {
    var ab := data[pos..pos + |a + b|];
    assert data[pos..pos + |a|] == ab[..|a|];
    assert data[pos + |a|..pos + |a| + |b|] == ab[|a|..];
  }

  lemma HoldsAt(data: Bytes, pos: nat, bs: Bytes, i: nat)
    requires Holds(data, pos, bs) && i < |bs|
    ensures data[pos + i] == bs[i]
  {
    assert data[pos..pos + |bs|][i] == bs[i];
  }

  /** What is read as a string when a string was written. */
  lemma StringRoundTrip(data: Bytes, pos: nat, bs: Bytes, r: Bytes)
    requires Holds(data, pos, bs + [0]) && forall i :: 0 <= i < |bs| ==> bs[i] != 0
    requires pos + |r| < |data| && r == data[pos..pos + |r|] && data[pos + |r|] == 0
    requires forall i :: 0 <= i < |r| ==> r[i] != 0
    ensures r == bs
  {
    HoldsBoth(data, pos, bs, [0]);
    HoldsAt(data, pos, bs + [0], |bs|);
    FirstNul(data, pos, r, bs);
    FirstNul(data, pos, bs, r);
  }

  lemma FirstNul(data: Bytes, pos: nat, a: Bytes, b: Bytes)
    requires Holds(data, pos, a) && pos + |a| < |data| && data[pos + |a|] == 0
    requires Holds(data, pos, b) && forall i :: 0 <= i < |b| ==> b[i] != 0
    ensures |b| <= |a|
  {
    if |a| < |b| {
      HoldsAt(data, pos, b, |a|);
    }
  }

  class BinaryOutputStream {
    var data: Bytes

    constructor ()
      ensures data == []
    {
      data := [];
    }

    method WriteUChar(b: Byte)
      modifies this
      ensures data == old(data) + [b]
    {
      data := data + [b];
    }

    method WriteInt(v: int)
      requires IsInt32(v)
      modifies this
      ensures data == old(data) + IntBytes(v)
    {
      data := data + IntBytes(v);
    }

    /** With the terminating null byte. */
    method WriteString(bs: Bytes)
      modifies this
      ensures data == old(data) + (bs + [0])
    {
      data := data + (bs + [0]);
    }
  }

  class BinaryInputStream {
    const data: Bytes
    var pos: nat

    constructor (data: Bytes)
      ensures this.data == data && pos == 0
    {
      this.data, pos := data, 0;
    }

    method ReadUChar() returns (r: Byte)
      requires pos < |data|
      modifies this
      ensures r == data[old(pos)] && pos == old(pos) + 1
    {
      r := data[pos];
      pos := pos + 1;
    }

    method ReadInt() returns (r: int)
      requires pos + 4 <= |data|
      modifies this
      ensures r == BytesInt(data[old(pos)..old(pos) + 4]) && pos == old(pos) + 4
    {
      r := BytesInt(data[pos..pos + 4]);
      pos := pos + 4;
    }

    /** Reads up to the null byte, octet by octet. */
    method ReadString() returns (r: Bytes)
      requires pos <= |data| && 0 in data[pos..]
      modifies this
      ensures old(pos) + |r| < |data| && r == data[old(pos)..old(pos) + |r|] && data[old(pos) + |r|] == 0
      ensures pos == old(pos) + |r| + 1 && forall i :: 0 <= i < |r| ==> r[i] != 0
    {
      r := [];
      ghost var start := pos;
      while pos < |data|
        invariant start <= pos <= |data| && r == data[start..pos]
        invariant 0 in data[pos..] && forall i :: 0 <= i < |r| ==> r[i] != 0
      {
        var c := data[pos];
        pos := pos + 1;
        if c != 0 {
          r := r + [c];
        } else {
          break;
        }
      }
    }
  }
}
