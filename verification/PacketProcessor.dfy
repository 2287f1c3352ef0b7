/** packet_processor::process on a connection's receive buffer. */
module PacketProcessor {
  import opened Bytes
  import opened ReturnCodes
  import opened ByteOrder
  import opened ProtoHeader
  import opened Framing
  import opened Memory
  import opened SequentialBuffer

  const MAX_ERROR_SECONDS := 5

  /** The return codes after which the loop gives up for this round. */
  predicate IsAbort(ret: int)
    ensures IsAbort(ret) <==> ret in {-1009, -1013, -1034}
  {
    ret == RESOURCE_NOT_AVAILABLE || ret == OPERATION_TIMED_OUT || ret == LENGTH_TOO_BIG
  }

  class NetConnection {
    const fd: int
    const peerName: Key
    const recvBuf: SequentialBuffer

    constructor (fd: int, peerName: Key, recvBuf: SequentialBuffer)
      ensures this.fd == fd && this.peerName == peerName && this.recvBuf == recvBuf
    {
      this.fd, this.peerName, this.recvBuf := fd, peerName, recvBuf;
    }
  }

  /** Since when packets of this peer are incomplete; 0 stands for not recorded. */
  function Since(stamps: map<Key, int>, name: Key, now: int): int {
    if name in stamps && stamps[name] != 0 then stamps[name] else now
  }

  /** The length word looked at for stored bytes b that begin at start: with fewer
      than four of them it is partly left-over memory. */
  function LengthWord(b: seq<byte>, mem: seq<byte>, start: nat): int
    requires start + |b| <= |mem| && (|b| >= 4 || start + 4 <= |mem|)
  {
    Value(if |b| >= 4 then b[..4] else b + mem[start + |b|..start + 4], Field(0, 4))
  }

  /** The length word in memory; behind the array it is anything. */
  method PeekLength(buf: SequentialBuffer, offset: int, bigHost: bool) returns (length: int32)
    requires buf.Valid() && buf.data != null && 0 <= offset
    ensures offset + 4 <= buf.totalSize ==> length == Value(buf.data[..][offset..offset + 4], Field(0, 4))
  {
    PowValues();
    if offset + 4 <= buf.data.Length {
      assert buf.data[offset..offset + 4] == buf.data[..][offset..offset + 4];
      length := GetField(buf.data[offset..offset + 4], Field(0, 4), bigHost);
    } else {
      length := *;
    }
  }

  /** The packets of this peer have been incomplete for too long. */
  predicate Late(stamps: map<Key, int>, name: Key, now: int) {
    now - Since(stamps, name, now) >= MAX_ERROR_SECONDS
  }

  /** The time stamps after an incomplete packet. */
  function Noted(stamps: map<Key, int>, name: Key, now: int, didReset: bool): map<Key, int> {
    stamps[name := if didReset then 0 else Since(stamps, name, now)]
  }

  /** The result for stored bytes b whose length word is length. */
  predicate ByLength(b: seq<byte>, cap: nat, length: int, late: bool, handlerRet: int,
                     ret: int, handledLen: int, packet: Frame, didReset: bool)
  {
    if |b| < length || |b| < PROTO_HEADER_SIZE then
      && handledLen == 0 && (didReset <==> late || length > cap)
      && ret == if late then OPERATION_TIMED_OUT else if didReset then LENGTH_TOO_BIG else RESOURCE_NOT_AVAILABLE
    else
      && handledLen == (if length > 0 then length else |b|) && packet == b[..handledLen]
      && !didReset && ret == if length <= 0 then RET_FAILED else handlerRet
  }

  /** The result for stored bytes b in memory p: one packet if it is complete; if it is
      not, a reset exactly if it is late or the length word in memory exceeds the
      buffer. If that word lies partly behind the array, only the first is certain. */
  predicate Judged(b: seq<byte>, p: Image, late: bool, handlerRet: int,
                   ret: int, handledLen: int, packet: Frame, didReset: bool)
    requires p.start + |b| <= |p.mem|
  {
    if Incomplete(b) then
      && handledLen == 0 && (late ==> didReset)
      && (|b| >= 4 || p.start + 4 <= |p.mem| ==> (didReset <==> late || LengthWord(b, p.mem, p.start) > |p.mem|))
      && ret == if late then OPERATION_TIMED_OUT else if didReset then LENGTH_TOO_BIG else RESOURCE_NOT_AVAILABLE
    else
      && handledLen == Piece(b) && packet == b[..handledLen]
      && !didReset && ret == if LengthOf(b) > 0 then handlerRet else RET_FAILED
  }

  /** The same in numbers, with the time stamps: t is the second noted for this peer,
      0 for none. Bytes that are no complete packet are kept until five seconds after
      it, unless their length is more than the buffer holds. */
  predicate InNumbers(b: seq<byte>, cap: nat, stamps: map<Key, int>, name: Key, now: int, handlerRet: int,
                      ret: int, handledLen: int, packet: Frame, didReset: bool, after: map<Key, int>)
  {
    var t := if name in stamps then stamps[name] else 0;
    if |b| < 24 || |b| < Value(b, Field(0, 4)) then
      && handledLen == 0
      && (t != 0 && now - t >= 5 ==> didReset && ret == -1013)
      && (t == 0 || now - t < 5 ==>
            && ret == (if didReset then -1034 else -1009)
            && (|b| >= 4 ==> (didReset <==> Value(b, Field(0, 4)) > cap)))
      && after == stamps[name := if didReset then 0 else if t == 0 then now else t]
    else
      && handledLen == (if Value(b, Field(0, 4)) > 0 then Value(b, Field(0, 4)) else |b|)
      && packet == b[..handledLen] && !didReset && after == stamps
      && ret == if Value(b, Field(0, 4)) > 0 then handlerRet else -1
  }

  class PacketProcessor {
    var timestamps: map<Key, int>

    constructor ()
      ensures timestamps == map[]
    {
      timestamps := map[];
    }

    /** Bookkeeping for an incomplete packet: resets the buffer if the packet can
        never fit or has been incomplete for too long. */
    method NoteIncomplete(conn: NetConnection, length: int, now: int) returns (ret: int)
      requires conn.recvBuf.Valid()
      modifies this, conn.recvBuf
      ensures conn.recvBuf.Valid() && conn.recvBuf.data == old(conn.recvBuf.data)
      ensures conn.recvBuf.totalSize == old(conn.recvBuf.totalSize)
      ensures ret == (if now - Since(old(timestamps), conn.peerName, now) >= 5 then OPERATION_TIMED_OUT
                      else if length > conn.recvBuf.TotalSize() then LENGTH_TOO_BIG
                      else RESOURCE_NOT_AVAILABLE)
      ensures conn.recvBuf.Contents() == if ret == RESOURCE_NOT_AVAILABLE then old(conn.recvBuf.Contents()) else []
      ensures ret == RESOURCE_NOT_AVAILABLE ==> unchanged(conn.recvBuf)
      ensures ret != RESOURCE_NOT_AVAILABLE && conn.recvBuf.data != null ==>
                conn.recvBuf.Snapshot() == Image(old(conn.recvBuf.Snapshot()).mem, 0, false)
      ensures timestamps == old(timestamps)[conn.peerName :=
                if ret == RESOURCE_NOT_AVAILABLE then Since(old(timestamps), conn.peerName, now) else 0]
    {
      var since := if conn.peerName in timestamps then timestamps[conn.peerName] else 0;
      if since == 0 {
        since := now;
      }
      var packetTooBig := length > conn.recvBuf.TotalSize();
      var isTimedOut := now - since >= MAX_ERROR_SECONDS;
      if isTimedOut || packetTooBig {
        conn.recvBuf.Reset();
        since := 0;
      }
      timestamps := timestamps[conn.peerName := since];
      ret := if isTimedOut then OPERATION_TIMED_OUT
             else if packetTooBig then LENGTH_TOO_BIG
             else RESOURCE_NOT_AVAILABLE;
    }

    lemma InOnePiece(buf: SequentialBuffer, offset: int, length: int)
      requires buf.Valid() && buf.data != null && offset == buf.Start() && 0 <= offset
      requires offset + buf.DataSize() <= buf.data.Length
      requires buf.data[offset..offset + buf.DataSize()] == buf.Contents()
      requires offset + 4 <= buf.totalSize ==> length == Value(buf.data[..][offset..offset + 4], Field(0, 4))
      ensures var b, p := buf.Contents(), buf.Snapshot();
              && p.start == offset && p.start + |b| <= |p.mem| == buf.TotalSize()
              && p.mem[p.start..p.start + |b|] == b
              && (p.start + 4 <= |p.mem| ==> length == Value(p.mem[p.start..p.start + 4], Field(0, 4)))
    {
      hide buf.Contents, Value;
      assert buf.data[..][offset..offset + buf.DataSize()] == buf.data[offset..offset + buf.DataSize()];
    }

    lemma JudgedByLength(b: seq<byte>, p: Image, length: int, late: bool, handlerRet: int,
                         ret: int, handledLen: int, packet: Frame, didReset: bool)
      requires b != [] && p.start + |b| <= |p.mem|
      requires |b| >= 4 || p.start + 4 <= |p.mem| ==> length == LengthWord(b, p.mem, p.start)
      requires |b| >= PROTO_HEADER_SIZE ==> length == LengthOf(b)
      requires ByLength(b, |p.mem|, length, late, handlerRet, ret, handledLen, packet, didReset)
      ensures Judged(b, p, late, handlerRet, ret, handledLen, packet, didReset)
      ensures Incomplete(b) <==> |b| < length || |b| < PROTO_HEADER_SIZE
    {
      hide LengthWord, LengthOf;
    }

    /** The stored bytes in one piece, their length word, and what process checks of it. */
    lemma WordLooked(b: seq<byte>, p: Image, length: int)
      requires p.start + |b| <= |p.mem| && p.mem[p.start..p.start + |b|] == b
      requires p.start + 4 <= |p.mem| ==> length == Value(p.mem[p.start..p.start + 4], Field(0, 4))
      ensures |b| >= 4 || p.start + 4 <= |p.mem| ==> length == LengthWord(b, p.mem, p.start)
      ensures |b| >= PROTO_HEADER_SIZE ==> length == LengthOf(b)
    {
      hide Value;
      HeadIsLength(b, p.mem, p.start);
    }

    /** What becomes of stored bytes with that length word. */
    method Decide(conn: NetConnection, offset: nat, inLen: nat, length: int, now: int, handlerRet: int)
      returns (ret: int, handledLen: int, packet: Frame, didReset: bool)
      requires conn.recvBuf.Valid() && conn.recvBuf.data != null && inLen == conn.recvBuf.DataSize() > 0
      requires offset + inLen <= conn.recvBuf.data.Length
      requires conn.recvBuf.data[offset..offset + inLen] == conn.recvBuf.Contents()
      modifies this, conn.recvBuf
      ensures conn.recvBuf.Valid() && conn.recvBuf.data == old(conn.recvBuf.data)
      ensures conn.recvBuf.totalSize == old(conn.recvBuf.totalSize)
      ensures conn.recvBuf.Contents() == if didReset then [] else old(conn.recvBuf.Contents())
      ensures conn.recvBuf.Snapshot() ==
              if didReset then Image(old(conn.recvBuf.Snapshot()).mem, 0, false) else old(conn.recvBuf.Snapshot())
      ensures ByLength(old(conn.recvBuf.Contents()), conn.recvBuf.TotalSize(), length,
                       Late(old(timestamps), conn.peerName, now), handlerRet, ret, handledLen, packet, didReset)
      ensures timestamps ==
              if inLen < length || inLen < PROTO_HEADER_SIZE then Noted(old(timestamps), conn.peerName, now, didReset)
              else old(timestamps)
    {
      hide conn.recvBuf.Contents;
      if inLen < length || inLen < PROTO_HEADER_SIZE {
        ret := NoteIncomplete(conn, length, now);
        return ret, 0, [], ret != RESOURCE_NOT_AVAILABLE;
      }
      handledLen := if length > 0 then length else inLen;
      packet := conn.recvBuf.data[offset..offset + inLen][..handledLen];
      ret := if length <= 0 then RET_FAILED else handlerRet;
      didReset := false;
    }

    /** The second half of process, with bytes stored in one piece. */
    method ProcessStored(conn: NetConnection, offset: nat, inLen: nat, now: int, handlerRet: int, bigHost: bool)
      returns (ret: int, handledLen: int, packet: Frame, didReset: bool)
      requires conn.recvBuf.Valid() && conn.recvBuf.data != null && inLen == conn.recvBuf.DataSize() > 0
      requires offset == conn.recvBuf.Start() && offset + inLen <= conn.recvBuf.data.Length
      requires conn.recvBuf.data[offset..offset + inLen] == conn.recvBuf.Contents()
      modifies this, conn.recvBuf
      ensures conn.recvBuf.Valid() && conn.recvBuf.data == old(conn.recvBuf.data)
      ensures conn.recvBuf.totalSize == old(conn.recvBuf.totalSize)
      ensures conn.recvBuf.Contents() == if didReset then [] else old(conn.recvBuf.Contents())
      ensures var b, p := old(conn.recvBuf.Contents()), old(conn.recvBuf.Snapshot());
              && p.start + |b| <= |p.mem| == conn.recvBuf.TotalSize() && p.mem[p.start..p.start + |b|] == b
              && conn.recvBuf.Snapshot() == (if didReset then Image(p.mem, 0, false) else p)
              && Judged(b, p, Late(old(timestamps), conn.peerName, now), handlerRet, ret, handledLen, packet, didReset)
              && timestamps ==
                 if Incomplete(b) then Noted(old(timestamps), conn.peerName, now, didReset) else old(timestamps)
    {
      hide conn.recvBuf.Contents, conn.recvBuf.Snapshot, Value, LengthWord, LengthOf, Judged, Late, Noted, Incomplete,
           ByLength;
      var buf := conn.recvBuf;
      var length := PeekLength(buf, offset, bigHost);
      ghost var b, p, stamps := buf.Contents(), buf.Snapshot(), timestamps;
      InOnePiece(buf, offset, length);
      WordLooked(b, p, length);
      ret, handledLen, packet, didReset := Decide(conn, offset, inLen, length, now, handlerRet);
      JudgedByLength(b, p, length, Late(stamps, conn.peerName, now), handlerRet, ret, handledLen, packet, didReset);
    }

    lemma JudgedInNumbers(b: seq<byte>, p: Image, stamps: map<Key, int>, name: Key, now: int, handlerRet: int,
                          ret: int, handledLen: int, packet: Frame, didReset: bool, after: map<Key, int>)
      requires b != [] && p.start + |b| <= |p.mem|
      requires Judged(b, p, Late(stamps, name, now), handlerRet, ret, handledLen, packet, didReset)
      requires after == if Incomplete(b) then Noted(stamps, name, now, didReset) else stamps
      ensures InNumbers(b, |p.mem|, stamps, name, now, handlerRet, ret, handledLen, packet, didReset, after)
    {
      if |b| >= 4 {
        assert FieldBytes(b[..4], Field(0, 4)) == FieldBytes(b, Field(0, 4));
      }
    }

    /** process: handlerRet is what the handler of a complete packet returns. Bytes
        that are no complete packet are kept until they have been incomplete for five
        seconds, unless their length is more than the buffer holds. */
    method Process(conn: NetConnection, now: int, handlerRet: int, bigHost: bool)
      returns (ret: int, handledLen: int, packet: Frame, didReset: bool)
      requires conn.recvBuf.Valid()
      modifies this, conn.recvBuf, conn.recvBuf.data
      ensures conn.recvBuf.Valid() && conn.recvBuf.data == old(conn.recvBuf.data)
      ensures conn.recvBuf.totalSize == old(conn.recvBuf.totalSize)
      ensures conn.recvBuf.Contents() == if didReset then [] else old(conn.recvBuf.Contents())
      ensures conn.fd < 0 ==> ret == RET_FAILED && handledLen == 0 && !didReset && timestamps == old(timestamps)
      ensures old(conn.recvBuf.Contents()) != [] && conn.fd >= 0 ==>
                var b, p := old(conn.recvBuf.Contents()), old(Peeked(conn.recvBuf.Snapshot(), conn.recvBuf.Contents()));
                && conn.recvBuf.data != null && p.start + |b| <= |p.mem| == conn.recvBuf.TotalSize()
                && p.mem[p.start..p.start + |b|] == b
                && conn.recvBuf.Snapshot() == if didReset then Image(p.mem, 0, false) else p
      ensures conn.fd >= 0 ==>
                var b, p := old(conn.recvBuf.Contents()), old(Peeked(conn.recvBuf.Snapshot(), conn.recvBuf.Contents()));
                if b == [] then ret == RET_OK && handledLen == 0 && !didReset && timestamps == old(timestamps)
                else
                  var late := Late(old(timestamps), conn.peerName, now);
                  && Judged(b, p, late, handlerRet, ret, handledLen, packet, didReset)
                  && timestamps ==
                     if Incomplete(b) then Noted(old(timestamps), conn.peerName, now, didReset) else old(timestamps)
      ensures conn.fd < 0 ==> ret == -1
      ensures conn.fd >= 0 && old(conn.recvBuf.Contents()) == [] ==> ret == 0
      ensures conn.fd >= 0 && old(conn.recvBuf.Contents()) != [] ==>
                InNumbers(old(conn.recvBuf.Contents()), conn.recvBuf.TotalSize(), old(timestamps), conn.peerName, now,
                          handlerRet, ret, handledLen, packet, didReset, timestamps)
    {
      hide conn.recvBuf.Contents, conn.recvBuf.Snapshot, Overwritten, Peeked, Judged, Late, Noted, Incomplete,
           InNumbers;
      var buf := conn.recvBuf;
      buf.SnapshotHolds();
      var offset := buf.GetReadPointer();
      var inLen := buf.DataSize();
      didReset, handledLen, packet := false, 0, [];
      if conn.fd < 0 || inLen < 0 {
        return RET_FAILED, 0, [], false;
      }
      if inLen == 0 {
        return RET_OK, 0, [], false;
      }
      ghost var b, p, stamps, name := buf.Contents(), buf.Snapshot(), timestamps, conn.peerName;
      ret, handledLen, packet, didReset := ProcessStored(conn, offset, inLen, now, handlerRet, bigHost);
      JudgedInNumbers(b, p, stamps, name, now, handlerRet, ret, handledLen, packet, didReset,
                      timestamps);
    }

    /** The length word of complete headers is among the received bytes. */
    lemma HeadIsLength(b: seq<byte>, mem: seq<byte>, offset: int)
      requires 0 <= offset && offset + |b| <= |mem| && b == mem[offset..offset + |b|]
      ensures |b| >= 4 ==> b[..4] == mem[offset..offset + 4]
      ensures |b| < 4 && offset + 4 <= |mem| ==> b + mem[offset + |b|..offset + 4] == mem[offset..offset + 4]
      ensures |b| >= PROTO_HEADER_SIZE ==> LengthOf(b) == Value(mem[offset..offset + 4], Field(0, 4))
    {
      if |b| >= PROTO_HEADER_SIZE {
        assert FieldBytes(b, LENGTH_FIELD) == FieldBytes(mem[offset..offset + 4], Field(0, 4));
      }
    }
  }
}
