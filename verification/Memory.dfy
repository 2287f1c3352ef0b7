/** memcpy and memmove on byte arrays. */
module Memory {
  import opened Bytes

  /** mem with the bytes b from position to on. */
  function Overwritten(mem: seq<byte>, to: nat, b: seq<byte>): (r: seq<byte>)
    requires to + |b| <= |mem|
    ensures |r| == |mem|
  {
    mem[..to] + b + mem[to + |b|..]
  }

  lemma OverwrittenParts(mem: seq<byte>, to: nat, b: seq<byte>)
    requires to + |b| <= |mem|
    ensures var r := Overwritten(mem, to, b);
            r[..to] == mem[..to] && r[to..to + |b|] == b && r[to + |b|..] == mem[to + |b|..]
  {
  }

  lemma OverwrittenAppends(mem: seq<byte>, from: nat, to: nat, b: seq<byte>)
    requires from <= to && to + |b| <= |mem|
    ensures Overwritten(mem, to, b)[from..to + |b|] == mem[from..to] + b
  {
  }

  lemma SlicePrefix(s: seq<byte>, a: nat, b: nat, n: nat)
    requires a <= b <= |s| && n <= b - a
    ensures s[a..b][..n] == s[a..a + n] && s[a..b][n..] == s[a + n..b]
  {
  }

  method MemMove(dst: array<byte>, to: nat, src: array<byte>, from: nat, n: nat)
    requires to + n <= dst.Length && from + n <= src.Length
    modifies dst
    ensures dst[..] == Overwritten(old(dst[..]), to, old(src[from..from + n]))
  {
    forall i | 0 <= i < n {
      dst[to + i] := src[from + i];
    }
  }

  method StoreBytes(dst: array<byte>, to: nat, b: seq<byte>)
    requires to + |b| <= dst.Length
    modifies dst
    ensures dst[..] == Overwritten(old(dst[..]), to, b)
  {
    forall i | 0 <= i < |b| {
      dst[to + i] := b[i];
    }
  }
}
