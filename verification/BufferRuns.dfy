/** Runs of buffer operations, copying and pointer interface mixed. */
module BufferRuns {
  import opened Sequences
  import opened Bytes
  import opened Memory
  import opened SequentialBuffer

  datatype BufferOp =
    | ReadOp(len: nat)
    | WriteOp(bytes: seq<byte>)
    | PeekOp
    | DropOp(offset: int)
    | PlaceOp(bytes: seq<byte>)
    | CommitOp(n: int)
    | CompactOp

  /** The operations that are not FIFO in the buffer's present state: writing
      behind the marker of a buffer that is not full, dropping a part of a full
      one, and committing bytes to a full one. A caller can test them beforehand. */
  predicate Troubled(b: SequentialBuffer, op: BufferOp)
    reads b
  {
    match op
    case WriteOp(bytes) => bytes != [] && !b.Settled()
    case DropOp(offset) => 0 < offset < b.DataSize() && b.Full()
    case CommitOp(n) => 0 < n <= b.TotalSize() && b.Full()
    case _ => false
  }

  // ----- the same on a queue of at most cap bytes -----

  /** What an operation took out, and what it put in. */
  datatype Effect = Effect(got: seq<byte>, put: seq<byte>)

  function After(q: seq<byte>, e: Effect): seq<byte> {
    if |e.got| <= |q + e.put| then (q + e.put)[|e.got|..] else []
  }

  /** The operation takes bytes from the front and appends bytes at the end, as
      many as it should. How much room the write pointer offers in one piece
      depends on the positions; there is some unless the queue is full. A bare
      commit appends whatever stands in that room. */
  ghost predicate FifoStep(q: seq<byte>, cap: nat, op: BufferOp, e: Effect) {
    e.got + After(q, e) == q + e.put && Amounts(q, cap, op, e)
  }

  ghost predicate Amounts(q: seq<byte>, cap: nat, op: BufferOp, e: Effect) {
    match op
    case ReadOp(len) => |e.got| == Min(len, |q|) && e.put == []
    case WriteOp(bytes) => e.got == [] && e.put <= bytes && |e.put| == Min(|bytes|, cap - |q|)
    case DropOp(offset) => |e.got| == (if offset <= 0 then 0 else Min(offset, |q|)) && e.put == []
    case PlaceOp(bytes) => e.got == [] && e.put <= bytes && (bytes != [] && e.put == [] ==> |q| == cap)
    case CommitOp(n) =>
      e.got == [] && |e.put| <= (if n <= 0 then 0 else n) && (n > 0 && e.put == [] ==> |q| == cap)
    case _ => e.got == [] && e.put == []
  }

  ghost predicate FifoRun(q: seq<byte>, cap: nat, ops: seq<BufferOp>, es: seq<Effect>)
    decreases |ops|
  {
    |ops| == |es| &&
    (ops != [] ==> FifoStep(q, cap, ops[0], es[0]) && FifoRun(After(q, es[0]), cap, ops[1..], es[1..]))
  }

  ghost function Final(q: seq<byte>, es: seq<Effect>): seq<byte>
    decreases |es|
  {
    if es == [] then q else Final(After(q, es[0]), es[1..])
  }

  /** Judged by the queue alone: settled says that the write position is known not
      to be the marker of a buffer that is not full. */
  ghost predicate SafeStep(q: seq<byte>, cap: nat, op: BufferOp, settled: bool) {
    match op
    case WriteOp(bytes) => bytes == [] || settled
    case DropOp(offset) => !(0 < offset < |q| == cap)
    case CommitOp(n) => !(0 < n <= |q| == cap)
    case _ => true
  }

  /** What is known of the write position afterwards; asking for the write pointer settles it. */
  ghost predicate Settles(q: seq<byte>, cap: nat, op: BufferOp, settled: bool) {
    match op
    case ReadOp(len) => settled && (|q| < cap || len == 0)
    case WriteOp(_) => settled
    case DropOp(offset) => settled || offset > 0
    case PlaceOp(bytes) => bytes == []
    case CommitOp(n) => settled && n <= 0
    case _ => true
  }

  ghost predicate SafeRun(q: seq<byte>, cap: nat, ops: seq<BufferOp>, es: seq<Effect>, settled: bool)
    decreases |ops|
  {
    ops != [] && es != [] ==>
      && SafeStep(q, cap, ops[0], settled)
      && SafeRun(After(q, es[0]), cap, ops[1..], es[1..], Settles(q, cap, ops[0], settled))
  }

  ghost function Outputs(es: seq<Effect>): seq<byte> {
    if es == [] then [] else es[0].got + Outputs(es[1..])
  }

  ghost function Inputs(es: seq<Effect>): seq<byte> {
    if es == [] then [] else es[0].put + Inputs(es[1..])
  }

  /** A run of FIFO steps is first in, first out: what came out, followed by what is
      left, is what was there followed by what went in. */
  lemma {:induction false} FirstInFirstOut(q: seq<byte>, cap: nat, ops: seq<BufferOp>, es: seq<Effect>)
    requires FifoRun(q, cap, ops, es)
    ensures Outputs(es) + Final(q, es) == q + Inputs(es)
    decreases |ops|
  {
    hide FifoStep, After;
    if ops == [] {
      assert q + [] == [] + q;
    } else {
      var e, r := es[0], After(q, es[0]);
      FirstInFirstOut(r, cap, ops[1..], es[1..]);
      StepConserves(q, cap, ops[0], e);
      Assoc(e.got, Outputs(es[1..]), Final(r, es[1..]));
      Assoc(e.got, r, Inputs(es[1..]));
      Assoc(q, e.put, Inputs(es[1..]));
    }
  }

  lemma StepConserves(q: seq<byte>, cap: nat, op: BufferOp, e: Effect)
    requires FifoStep(q, cap, op, e)
    ensures e.got + After(q, e) == q + e.put
  {
  }

  // ----- the operations on the buffer -----

  /** Stores bytes in the free space behind the write position. */
  method Store(b: SequentialBuffer, bytes: seq<byte>)
    requires b.Valid() && b.data != null && !b.HasOverflownPointer() && |bytes| <= b.totalSize - b.writePos
    modifies b.data
    ensures b.Valid() && b.Contents() == old(b.Contents())
    ensures b.data[b.writePos..b.writePos + |bytes|] == bytes
    ensures b.data[..] == Overwritten(old(b.data[..]), b.writePos, bytes)
  {
    hide b.Contents, Overwritten;
    b.StoredBytes();
    OverwrittenParts(b.data[..], b.writePos, bytes);
    assert b.data[..][b.readPos..b.writePos] == b.data[..][..b.writePos][b.readPos..];
    StoreBytes(b.data, b.writePos, bytes);
    assert b.data[..][b.readPos..b.writePos] == b.data[..][..b.writePos][b.readPos..];
    b.StoredBytes();
  }

  /** Stores bytes at the write position and commits them. */
  method Append(b: SequentialBuffer, bytes: seq<byte>)
    requires b.Valid() && b.data != null && !b.HasOverflownPointer() && |bytes| <= b.totalSize - b.writePos
    modifies b, b.data
    ensures b.Valid() && b.data == old(b.data) && b.totalSize == old(b.totalSize)
    ensures b.Contents() == old(b.Contents()) + bytes
    ensures var end := old(b.writePos) + |bytes|;
            b.Snapshot() == Image(Overwritten(old(b.data[..]), old(b.writePos), bytes),
                                  if end == b.totalSize then 0 else old(b.readPos), end == b.totalSize)
  {
    hide b.Contents, Overwritten, Peeked;
    Store(b, bytes);
    ghost var raw, at := b.data[..], b.writePos;
    var moved := b.MoveWritePointer(|bytes|);
    assert b.data[at..at + |bytes|] == raw[at..at + |bytes|];
  }

  /** Puts bytes at the write pointer and commits them; with no room it does nothing. */
  method Place(b: SequentialBuffer, bytes: seq<byte>) returns (put: seq<byte>)
    requires b.Valid()
    modifies b, b.data
    ensures b.Valid() && b.data == old(b.data) && b.totalSize == old(b.totalSize)
    ensures put <= bytes && b.Contents() == old(b.Contents()) + put
    ensures bytes != [] && put == [] ==> old(b.Full())
    ensures bytes == [] ==> b.Settled()
    ensures old(Holds(b.Snapshot(), b.Contents())) && |put| == Min(|bytes|, old(Offered(b.Snapshot(), b.Contents())))
    ensures b.Snapshot() == old(Placed(b.Snapshot(), b.Contents(), put))
  {
    hide b.Contents, Overwritten;
    b.SnapshotHolds();
    var offset := b.GetWritePointer();
    if offset == OVERFLOW_POS {
      return [];
    }
    var room := b.totalSize - offset;
    put := if |bytes| <= room then bytes else bytes[..room];
    Append(b, put);
  }

  method ReadBytes(b: SequentialBuffer, len: nat) returns (got: seq<byte>)
    requires b.Valid()
    modifies b, b.data
    ensures b.Valid() && b.data == old(b.data) && b.totalSize == old(b.totalSize)
    ensures got == old(b.Contents())[..Min(len, |old(b.Contents())|)]
    ensures got + b.Contents() == old(b.Contents())
    ensures old(b.Settled()) && (old(!b.Full()) || len == 0) ==> b.Settled()
  {
    hide b.Contents;
    var dst := new byte[len](_ => 0);
    var n := b.Read(len, dst);
    got := dst[..n];
  }

  method WriteBytes(b: SequentialBuffer, bytes: seq<byte>) returns (put: seq<byte>)
    requires b.Valid()
    modifies b, b.data
    ensures b.Valid() && b.data == old(b.data) && b.totalSize == old(b.totalSize)
    ensures put <= bytes
    ensures !old(Troubled(b, WriteOp(bytes))) ==>
              && b.Contents() == old(b.Contents()) + put
              && |put| == Min(|bytes|, old(b.FreeSize()))
    ensures old(Troubled(b, WriteOp(bytes))) ==> put == [] && b.Contents() == old(b.Contents())
    ensures old(b.Settled()) ==> b.Settled()
  {
    hide b.Contents;
    var src := new byte[|bytes|](i requires 0 <= i < |bytes| => bytes[i]);
    assert src[..] == bytes;
    var r := b.Write(|bytes|, src);
    put := if r.Written? then bytes[..r.count] else [];
    if r.Written? {
      assert src[..r.count] == put;
    }
  }

  /** Reads at the read pointer and drops what was read. */
  method Drop(b: SequentialBuffer, offset: int) returns (got: seq<byte>)
    requires b.Valid()
    modifies b, b.data
    ensures b.Valid() && b.data == old(b.data) && b.totalSize == old(b.totalSize)
    ensures got == if offset <= 0 then [] else old(b.Contents())[..Min(offset, old(b.DataSize()))]
    ensures if old(Troubled(b, DropOp(offset))) then b.Contents() == [] else got + b.Contents() == old(b.Contents())
    ensures old(b.Settled()) || offset > 0 ==> b.Settled()
  {
    hide b.Contents, b.Snapshot, Overwritten, Peeked, Dropped;
    var start := b.GetReadPointer();
    if b.data == null {
      var _ := b.MoveReadPointer(offset);
      return [];
    }
    var n := if offset <= 0 then 0 else if offset <= b.DataSize() then offset else b.DataSize();
    got := b.data[start..start + n];
    SlicePrefix(b.data[..], start, start + b.DataSize(), n);
    CutAt(b.Contents(), n);
    var distance := b.MoveReadPointer(offset);
  }

  lemma CutAt(all: seq<byte>, n: nat)
    requires n <= |all|
    ensures all[..n] + all[n..] == all
    ensures n == |all| ==> all[..n] + [] == all
  {
  }

  /** Moves the write position without having stored anything. */
  method Commit(b: SequentialBuffer, n: int) returns (put: seq<byte>)
    requires b.Valid()
    modifies b, b.data
    ensures b.Valid() && b.data == old(b.data) && b.totalSize == old(b.totalSize)
    ensures |put| <= if n <= 0 then 0 else n
    ensures if old(Troubled(b, CommitOp(n))) then put == [] && |b.Contents()| < |old(b.Contents())|
            else b.Contents() == old(b.Contents()) + put && (n > 0 && put == [] ==> old(b.Full()))
    ensures old(b.Settled()) && n <= 0 ==> b.Settled()
  {
    hide b.Contents;
    var size, full := b.DataSize(), b.Full();
    var distance := b.MoveWritePointer(n);
    put := if n <= 0 || full then [] else b.data[b.readPos + size..b.readPos + size + distance];
  }

  /** A longer queue that makes the same step stays longer; after a troubled
      operation, even a queue of the same bytes does. */
  ghost predicate Behind(q: seq<byte>, r: seq<byte>, cap: nat, op: BufferOp, e: Effect, fine: bool) {
    forall m: seq<byte> | FifoStep(m, cap, op, e) && (|m| > |q| || (!fine && m == q)) :: |After(m, e)| > |r|
  }

  /** What a troubled operation does to the bytes stored, and what it delivers. */
  ghost predicate Loses(q: seq<byte>, r: seq<byte>, cap: nat, op: BufferOp, e: Effect) {
    && e.put == []
    && match op
       case WriteOp(bytes) => bytes != [] && |q| < cap && r == q && e.got == []
       case DropOp(offset) => 0 < offset < |q| && r == [] && e.got == q[..offset]
       case CommitOp(n) => 0 < n && |r| < |q| && e.got == []
       case _ => false
  }

  lemma NoFifoStep(q: seq<byte>, r: seq<byte>, cap: nat, op: BufferOp, e: Effect)
    requires Loses(q, r, cap, op, e)
    ensures forall e' | FifoStep(q, cap, op, e') :: r != After(q, e')
  {
  }

  lemma FineIsBehind(q: seq<byte>, r: seq<byte>, cap: nat, op: BufferOp, e: Effect)
    requires FifoStep(q, cap, op, e) && r == After(q, e)
    ensures Behind(q, r, cap, op, e, true)
  {
    forall m: seq<byte> | FifoStep(m, cap, op, e) && |m| > |q|
      ensures |After(m, e)| > |r|
    {
      assert |e.got| + |After(m, e)| == |m| + |e.put| && |e.got| + |After(q, e)| == |q| + |e.put|;
    }
  }

  lemma TroubleIsBehind(q: seq<byte>, r: seq<byte>, cap: nat, op: BufferOp, e: Effect)
    requires Loses(q, r, cap, op, e)
    ensures Behind(q, r, cap, op, e, false)
  {
  }

  ghost predicate TakesOut(q: seq<byte>, e: Effect, r: seq<byte>) {
    if e.got == [] then r == q + e.put || (r == q && e.put == []) else e.put == [] && e.got + r == q
  }

  lemma TakenOut(q: seq<byte>, e: Effect, r: seq<byte>)
    requires TakesOut(q, e, r)
    ensures r == After(q, e) && e.got + r == q + e.put
  {
    assert q + [] == q && [] + r == r;
    assert r == (e.got + r)[|e.got|..];
  }

  /** The calls behind an operation, and the bytes that went through them. */
  method Perform(b: SequentialBuffer, op: BufferOp, ghost settled: bool) returns (e: Effect)
    requires b.Valid() && (settled ==> b.Settled())
    modifies b, b.data
    ensures b.Valid() && b.data == old(b.data) && b.totalSize == old(b.totalSize)
    ensures if old(Troubled(b, op)) then Loses(old(b.Contents()), b.Contents(), b.TotalSize(), op, e)
            else Amounts(old(b.Contents()), b.TotalSize(), op, e) && TakesOut(old(b.Contents()), e, b.Contents())
    ensures !old(Troubled(b, op)) && Settles(old(b.Contents()), b.TotalSize(), op, settled) ==> b.Settled()
    ensures op.PeekOp? && b.data != null ==>
              0 <= b.readPos && b.data[b.readPos..b.readPos + b.DataSize()] == b.Contents()
  {
    hide b.Contents, Overwritten;
    e := Effect([], []);
    match op {
      case ReadOp(len) =>
        var got := ReadBytes(b, len);
        e := Effect(got, []);
      case WriteOp(bytes) =>
        var put := WriteBytes(b, bytes);
        e := Effect([], put);
      case PeekOp =>
        var _ := b.GetReadPointer();
      case DropOp(offset) =>
        var got := Drop(b, offset);
        e := Effect(got, []);
      case PlaceOp(bytes) =>
        var put := Place(b, bytes);
        e := Effect([], put);
      case CommitOp(n) =>
        var put := Commit(b, n);
        e := Effect([], put);
      case CompactOp =>
        var _ := b.MoveDataToHeader();
    }
  }

  /** One operation is a FIFO step if and only if it is not a troubled one: after
      a troubled one, no bytes taken out and put in account for what is stored. */
  method Apply(b: SequentialBuffer, op: BufferOp, ghost settled: bool) returns (fine: bool, e: Effect)
    requires b.Valid() && (settled ==> b.Settled())
    modifies b, b.data
    ensures b.Valid() && b.data == old(b.data) && b.totalSize == old(b.totalSize)
    ensures fine <==> old(!Troubled(b, op))
    ensures fine ==> FifoStep(old(b.Contents()), b.TotalSize(), op, e) && b.Contents() == After(old(b.Contents()), e)
    ensures !fine ==> forall e' | FifoStep(old(b.Contents()), b.TotalSize(), op, e') ::
                        b.Contents() != After(old(b.Contents()), e')
    ensures Behind(old(b.Contents()), b.Contents(), b.TotalSize(), op, e, fine)
    ensures fine && Settles(old(b.Contents()), b.TotalSize(), op, settled) ==> b.Settled()
    ensures op.PeekOp? && b.data != null ==>
              0 <= b.readPos && b.data[b.readPos..b.readPos + b.DataSize()] == b.Contents()
  {
    hide b.Contents, After, Behind, Amounts, Loses, Settles, TakesOut;
    fine := !Troubled(b, op);
    ghost var q := b.Contents();
    e := Perform(b, op, settled);
    if fine {
      TakenOut(q, e, b.Contents());
      FineIsBehind(q, b.Contents(), b.TotalSize(), op, e);
    } else {
      NoFifoStep(q, b.Contents(), b.TotalSize(), op, e);
      TroubleIsBehind(q, b.Contents(), b.TotalSize(), op, e);
    }
  }

  /** A run is a run of a FIFO byte queue, with the outputs delivered and the
      bytes left, if and only if it has no troubled operation; the end marker and
      compaction do not show. A run that SafeRun allows, judged by the queue
      alone, has none. */
  method Run(b: SequentialBuffer, ops: seq<BufferOp>, ghost settled: bool) returns (fine: bool, es: seq<Effect>)
    requires b.Valid() && (settled ==> b.Settled())
    modifies b, b.data
    ensures b.Valid() && b.totalSize == old(b.totalSize) && |es| == |ops|
    ensures fine <==>
            FifoRun(old(b.Contents()), b.TotalSize(), ops, es) && b.Contents() == Final(old(b.Contents()), es)
    ensures StaysBehind(old(b.Contents()), b.Contents(), b.TotalSize(), ops, es)
    ensures SafeRun(old(b.Contents()), b.TotalSize(), ops, es, settled) ==> fine
    ensures (forall op | op in ops :: !op.WriteOp?) && fine ==>
              SafeRun(old(b.Contents()), b.TotalSize(), ops, es, settled)
    decreases |ops|
  {
    hide b.Contents, FifoStep, After, Settles, Behind, StaysBehind;
    if ops == [] {
      StaysAsItIs(b.Contents(), b.TotalSize());
      return true, [];
    }
    ghost var q, cap := b.Contents(), b.TotalSize();
    SafeIsFine(b, ops[0], settled);
    var ok, e := Apply(b, ops[0], settled);
    ghost var p := b.Contents();
    var restFine, rest := Run(b, ops[1..], ok && Settles(q, cap, ops[0], settled));
    fine, es := ok && restFine, [e] + rest;
    assert forall op | op in ops[1..] :: op in ops;
    assert es[0] == e && es[1..] == rest;
    BehindRuns(q, p, b.Contents(), cap, ops, es, ok);
  }

  /** A longer queue that makes the same run ends longer. */
  ghost predicate StaysBehind(q: seq<byte>, r: seq<byte>, cap: nat, ops: seq<BufferOp>, es: seq<Effect>) {
    forall m: seq<byte> | FifoRun(m, cap, ops, es) && |m| > |q| :: |Final(m, es)| > |r|
  }

  lemma StaysAsItIs(q: seq<byte>, cap: nat)
    ensures StaysBehind(q, q, cap, [], [])
  {
  }

  lemma BehindRuns(q: seq<byte>, p: seq<byte>, r: seq<byte>, cap: nat, ops: seq<BufferOp>, es: seq<Effect>, fine: bool)
    requires ops != [] && |es| == |ops| && Behind(q, p, cap, ops[0], es[0], fine)
    requires StaysBehind(p, r, cap, ops[1..], es[1..])
    ensures StaysBehind(q, r, cap, ops, es)
    ensures !fine && FifoRun(q, cap, ops, es) ==> |Final(q, es)| > |r|
  {
    hide FifoStep, After;
    forall m: seq<byte> | FifoRun(m, cap, ops, es) && (|m| > |q| || (!fine && m == q))
      ensures |Final(m, es)| > |r|
    {
      assert |After(m, es[0])| > |p|;
    }
  }

  lemma SafeIsFine(b: SequentialBuffer, op: BufferOp, settled: bool)
    requires b.Valid() && (settled ==> b.Settled())
    ensures SafeStep(b.Contents(), b.TotalSize(), op, settled) ==> !Troubled(b, op)
    ensures !op.WriteOp? && !Troubled(b, op) ==> SafeStep(b.Contents(), b.TotalSize(), op, settled)
  {
  }

  /** The marker state is two calls away from a new buffer: it is written full,
      and one byte is read. Every copying write of something is then troubled. */
  method ReachMarker(bytes: seq<byte>) returns (b: SequentialBuffer)
    requires |bytes| == MIN_BUF_SIZE
    ensures fresh(b) && b.Valid() && b.Contents() == bytes[1..]
    ensures forall more: seq<byte> | more != [] :: Troubled(b, WriteOp(more))
  {
    b := new SequentialBuffer();
    var created := b.Create(MIN_BUF_SIZE);
    hide b.Contents;
    var src := new byte[|bytes|](i requires 0 <= i < |bytes| => bytes[i]);
    assert src[..] == bytes;
    var written := b.Write(|bytes|, src);
    assert [] + src[..|bytes|] == bytes;
    var dst := new byte[1](_ => 0);
    var got := b.Read(1, dst);
  }
}
