/** Integers in memory, on hosts of either byte order, and in network order. */
module ByteOrder {
  import opened Bytes

  function Pow256(n: nat): (p: int)
    ensures p > 0
  {
    if n == 0 then 1 else 256 * Pow256(n - 1)
  }

  /** The unsigned integer whose bytes are b, most significant first. */
  function BigEndian(b: seq<byte>): (v: nat)
    ensures v < Pow256(|b|)
  {
    if b == [] then 0 else BigEndian(b[..|b| - 1]) * 256 + b[|b| - 1]
  }

  /** The len bytes of an unsigned integer, most significant first. */
  function Encode(v: nat, len: nat): (b: seq<byte>)
    ensures |b| == len
  {
    if len == 0 then [] else Encode(v / 256, len - 1) + [v % 256]
  }

  lemma {:induction false} EncodeThenRead(v: nat, len: nat)
    requires v < Pow256(len)
    ensures BigEndian(Encode(v, len)) == v
  {
    if len > 0 {
      EncodeThenRead(v / 256, len - 1);
      assert Encode(v, len)[..len - 1] == Encode(v / 256, len - 1);
    }
  }

  lemma {:induction false} ReadThenEncode(b: seq<byte>)
    ensures Encode(BigEndian(b), |b|) == b
  {
    if b != [] {
      ReadThenEncode(b[..|b| - 1]);
      var v := BigEndian(b);
      assert v / 256 == BigEndian(b[..|b| - 1]) && v % 256 == b[|b| - 1];
    }
  }

  function Reverse(b: seq<byte>): (r: seq<byte>)
    ensures |r| == |b|
    ensures forall i | 0 <= i < |b| :: r[i] == b[|b| - 1 - i]
  {
    seq(|b|, i requires 0 <= i < |b| => b[|b| - 1 - i])
  }

  lemma ReverseTwice(b: seq<byte>)
    ensures Reverse(Reverse(b)) == b
  {
  }

  /** The value a host sees when it loads these bytes as an unsigned integer. */
  function Load(mem: seq<byte>, bigHost: bool): (v: nat)
    ensures v < Pow256(|mem|)
  {
    if bigHost then BigEndian(mem) else BigEndian(Reverse(mem))
  }

  /** The bytes a host stores for an unsigned integer of len bytes. */
  function Store(v: nat, len: nat, bigHost: bool): (mem: seq<byte>)
    ensures |mem| == len
  {
    if bigHost then Encode(v, len) else Reverse(Encode(v, len))
  }

  /** Reverses bytes into another buffer. */
  method TurnAroundMemory(src: array<byte>, srcLen: nat, dst: array<byte>) returns (dstLen: nat)
    requires src != dst && srcLen <= src.Length && srcLen <= dst.Length
    modifies dst
    ensures dstLen == srcLen && dst[..srcLen] == Reverse(src[..srcLen])
    ensures dst[srcLen..] == old(dst[srcLen..])
  {
    dstLen := srcLen;
    var i := 0;
    while i < srcLen
      invariant 0 <= i <= srcLen
      invariant forall k | 0 <= k < i :: dst[k] == src[srcLen - k - 1]
      invariant dst[srcLen..] == old(dst[srcLen..])
    {
      dst[i] := src[srcLen - i - 1];
      i := i + 1;
    }
  }

  /** The integer with its bytes reversed, unless the host is big-endian. */
  function Swapped(v: nat, len: nat, bigHost: bool): (r: nat)
    ensures r < Pow256(len)
    requires v < Pow256(len)
  {
    if bigHost then v else Load(Reverse(Store(v, len, bigHost)), bigHost)
  }

  /** htonl64, ntohl64 and their kind: a buffer on the stack is turned around. */
  method ByteOrderConversion(src: nat, len: nat, bigHost: bool) returns (dst: nat)
    requires src < Pow256(len)
    ensures dst == Swapped(src, len, bigHost)
  {
    if bigHost {
      return src;
    }
    var bytes := Store(src, len, bigHost);
    var from := new byte[len](i requires 0 <= i < len => bytes[i]);
    var to := new byte[len](_ => 0);
    assert from[..len] == bytes;
    var n := TurnAroundMemory(from, len, to);
    dst := Load(to[..len], bigHost);
  }

  /** Loading and converting gives the network-order value, on either host. */
  lemma NetToHost(mem: seq<byte>, bigHost: bool)
    ensures Swapped(Load(mem, bigHost), |mem|, bigHost) == BigEndian(mem)
  {
    if !bigHost {
      var v := Load(mem, bigHost);
      ReadThenEncode(Reverse(mem));
      ReverseTwice(mem);
      assert Store(v, |mem|, bigHost) == mem;
      assert Reverse(Reverse(mem)) == mem;
    }
  }

  /** Converting and storing writes the network-order bytes, on either host. */
  lemma HostToNet(v: nat, len: nat, bigHost: bool)
    requires v < Pow256(len)
    ensures Store(Swapped(v, len, bigHost), len, bigHost) == Encode(v, len)
  {
    if !bigHost {
      var b := Encode(v, len);
      ReverseTwice(b);
      assert Swapped(v, len, bigHost) == BigEndian(Reverse(b));
      ReadThenEncode(Reverse(b));
    }
  }

  /** A big-endian host has the more significant of two bytes in front, the other behind. */
  lemma HostOrder(a: byte, b: byte)
    ensures var v: int := a; Load([a, b], true) == v * 256 + b
    ensures var v: int := b; Load([a, b], false) == v * 256 + a
    ensures forall bigHost :: Store(Load([a, b], bigHost), 2, bigHost) == [a, b]
  {
    assert [a, b][..1] == [a] && [b, a][..1] == [b] && Reverse([a, b]) == [b, a] && Reverse([b, a]) == [a, b];
    assert BigEndian([a]) == a && BigEndian([b]) == b;
    ReadThenEncode([a, b]);
    ReadThenEncode([b, a]);
  }

  // ----- two's complement -----

  function ToUnsigned(i: int, len: nat): nat
    requires -Pow256(len) <= 2 * i < Pow256(len)
  {
    if i < 0 then i + Pow256(len) else i
  }

  function ToSigned(u: nat, len: nat): int
    requires u < Pow256(len)
  {
    if 2 * u >= Pow256(len) then u - Pow256(len) else u
  }

  lemma PowValues()
    ensures Pow256(2) == 0x1_0000 && Pow256(4) == 0x1_0000_0000 && Pow256(8) == 0x1_0000_0000_0000_0000
  {
    assert Pow256(1) == 256;
    assert Pow256(2) == 256 * 256;
    assert Pow256(3) == 256 * Pow256(2);
    assert Pow256(5) == 256 * Pow256(4);
    assert Pow256(6) == 256 * Pow256(5);
    assert Pow256(7) == 256 * Pow256(6);
  }
}
