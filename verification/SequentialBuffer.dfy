/** sequential_buffer: a linear array with a read and a write position, an
    out-of-band marker for a position at the end, and lazy compaction. */
module SequentialBuffer {
  import opened Bytes
  import opened Memory
  import opened ReturnCodes

  const MIN_BUF_SIZE := 1024
  const OVERFLOW_POS := -1

  function Min(a: int, b: int): int {
    if a <= b then a else b
  }

  /** What a copying write does; OutOfBounds is a store in front of the array. */
  datatype WriteOutcome = Written(count: nat) | Rejected(code: int) | OutOfBounds

  /** The memory, where the stored bytes begin once the read pointer has been asked
      for, and whether they are moved there then. */
  datatype Image = Image(mem: seq<byte>, start: nat, moves: bool)

  /** The image after asking for the read or the write pointer, with bytes b stored. */
  function Peeked(im: Image, b: seq<byte>): (r: Image)
    requires |b| <= |im.mem|
    ensures |r.mem| == |im.mem|
  {
    if im.moves then Image(Overwritten(im.mem, 0, b), 0, |b| == |im.mem|) else im
  }

  /** Bytes b are stored in this memory, and unless they will be moved there is room behind them. */
  predicate Holds(im: Image, b: seq<byte>) {
    |b| <= |im.mem| && (!im.moves ==> im.start + |b| < |im.mem|)
  }

  /** How many bytes the write pointer offers. */
  function Offered(im: Image, b: seq<byte>): nat
    requires Holds(im, b)
  {
    |im.mem| - Peeked(im, b).start - |b|
  }

  /** After placing bytes there and committing them. */
  function Placed(im: Image, b: seq<byte>, put: seq<byte>): (r: Image)
    requires Holds(im, b) && |put| <= Offered(im, b)
    ensures |r.mem| == |im.mem| && Holds(r, b + put)
  {
    var p := Peeked(im, b);
    var end := p.start + |b| + |put|;
    if |b| == |p.mem| then p
    else Image(Overwritten(p.mem, p.start + |b|, put), if end == |p.mem| then 0 else p.start, end == |p.mem|)
  }

  /** After dropping n bytes. */
  function Dropped(im: Image, b: seq<byte>, n: nat): Image
    requires |b| <= |im.mem|
  {
    var p := Peeked(im, b);
    if |b| == |p.mem| || n >= |b| then Image(p.mem, 0, false) else Image(p.mem, p.start + n, false)
  }

  class SequentialBuffer {
    var data: array?<byte>
    var totalSize: int
    var readPos: int
    var writePos: int

    /** The states the operations can produce. The marker stands for a write
        position at the end, or in both positions for a buffer read to its end. */
    ghost predicate Valid()
      reads this
    {
      if data == null then
        totalSize == 0 && readPos == 0 && (writePos == 0 || writePos == OVERFLOW_POS)
      else
        && data.Length == totalSize && totalSize >= MIN_BUF_SIZE
        && ((readPos == OVERFLOW_POS && writePos == OVERFLOW_POS)
            || (0 <= readPos < totalSize && (writePos == OVERFLOW_POS || readPos <= writePos <= totalSize)))
    }

    /** The bytes stored, oldest first. */
    ghost function Contents(): (s: seq<byte>)
      requires Valid()
      reads this, data
      ensures |s| == DataSize()
    {
      if data == null || readPos == OVERFLOW_POS then []
      else data[readPos..if writePos == OVERFLOW_POS then totalSize else writePos]
    }

    // ----- the inline functions of the header -----

    function DataSize(): int
      reads this
    {
      if readPos != OVERFLOW_POS && writePos != OVERFLOW_POS then writePos - readPos
      else if readPos != OVERFLOW_POS && writePos == OVERFLOW_POS then TotalSize() - readPos
      else 0
    }

    function TotalSize(): int
      reads this
    {
      if totalSize >= 0 then totalSize else 0
    }

    function FreeSize(): int
      reads this
    {
      if TotalSize() - DataSize() >= 0 then TotalSize() - DataSize() else 0
    }

    predicate Empty()
      reads this
    {
      DataSize() <= 0
    }

    predicate Full()
      reads this
    {
      DataSize() >= TotalSize()
    }

    predicate HasOverflownPointer()
      reads this
    {
      readPos == OVERFLOW_POS || readPos >= totalSize || writePos == OVERFLOW_POS || writePos >= totalSize
    }

    /** A copying write would go to the right place. */
    predicate Settled()
      reads this
    {
      writePos == OVERFLOW_POS ==> Full()
    }

    /** Where the stored bytes begin once the read pointer has been asked for. */
    function Start(): int
      reads this
    {
      if HasOverflownPointer() then 0 else readPos
    }

    ghost function Snapshot(): Image
      requires Valid()
      reads this, data
    {
      Image(if data == null then [] else data[..], Start(), HasOverflownPointer())
    }

    lemma SnapshotHolds()
      requires Valid()
      ensures Holds(Snapshot(), Contents()) && |Snapshot().mem| == TotalSize()
    {
    }

    /** Where the stored bytes are. */
    lemma StoredBytes()
      requires Valid()
      ensures data == null || readPos == -1 ==> Contents() == []
      ensures data != null && readPos != -1 ==>
                && 0 <= readPos <= readPos + DataSize() <= totalSize
                && Contents() == data[..][readPos..readPos + DataSize()]
    {
    }

    // ----- construction -----

    constructor ()
      ensures Valid() && data == null && Contents() == []
    {
      data, totalSize, readPos, writePos := null, 0, 0, 0;
    }

    method Clear()
      modifies this
      ensures Valid() && data == null && Contents() == [] && writePos == 0
    {
      data, totalSize, readPos, writePos := null, 0, 0, 0;
    }

    method InnerlyCreate(size: int) returns (ret: int)
      requires Valid()
      modifies this
      ensures Valid()
      ensures ret == if size <= 0 then -1006 else 0
      ensures ret != 0 ==> data == old(data) && Contents() == old(Contents())
      ensures ret == 0 ==> data != null && totalSize == if size < 1024 then 1024 else size
      ensures ret == 0 && old(totalSize) != totalSize ==>
                fresh(data) && Contents() == [] && readPos == writePos == 0
      ensures ret == 0 && old(totalSize) == totalSize ==> data == old(data) && Contents() == old(Contents())
    {
      if size <= 0 {
        return INVALID_PARAM_VALUE;
      }
      var actual := if size < MIN_BUF_SIZE then MIN_BUF_SIZE else size;
      if totalSize == actual && data != null {
        return CA_RET_OK;
      }
      Clear();
      data := new byte[actual](_ => 0);
      totalSize := actual;
      return CA_RET_OK;
    }

    method Create(size: int) returns (ret: int)
      requires Valid()
      modifies this
      ensures Valid()
      ensures old(data) != null ==> ret == -1007 && data == old(data) && Contents() == old(Contents())
      ensures old(data) == null ==>
                && Contents() == [] && ret == (if size <= 0 then -1006 else 0)
                && (ret == 0 ==>
                      && data != null && fresh(data) && readPos == writePos == 0
                      && totalSize == if size < 1024 then 1024 else size)
    {
      if data != null {
        return OBJECT_ALREADY_EXISTS;
      }
      ret := InnerlyCreate(size);
    }

    method Reset()
      requires Valid()
      modifies this
      ensures Valid() && Contents() == [] && data == old(data) && totalSize == old(totalSize)
      ensures readPos == writePos == 0
    {
      writePos, readPos := 0, 0;
    }

    // ----- compaction -----

    /** Moves the stored bytes to the front of the array. */
    method MoveDataToHeader() returns (moved: int)
      requires Valid()
      modifies this`readPos, this`writePos, data
      ensures Valid() && Contents() == old(Contents())
      ensures readPos == 0 && writePos == if old(Full()) then -1 else old(DataSize())
      ensures data != null ==> data[..] == Overwritten(old(data[..]), 0, old(Contents()))
    {
      if readPos == OVERFLOW_POS && writePos == OVERFLOW_POS {
        readPos, writePos := 0, 0;
        return 0;
      }
      var bytesToMove := DataSize();
      if readPos == 0 {
        if bytesToMove >= TotalSize() {
          writePos := OVERFLOW_POS;
        }
        return 0;
      }
      ShiftToHeader(bytesToMove);
      return bytesToMove;
    }

    method ShiftToHeader(bytesToMove: nat)
      requires Valid() && data != null && readPos > 0 && bytesToMove == DataSize()
      modifies this`readPos, this`writePos, data
      ensures Valid() && Contents() == old(Contents())
      ensures readPos == 0 && writePos == bytesToMove < totalSize
      ensures data[..] == Overwritten(old(data[..]), 0, old(Contents()))
    {
      hide Overwritten, Contents;
      StoredBytes();
      OverwrittenParts(data[..], 0, Contents());
      MemMove(data, 0, data, readPos, bytesToMove);
      readPos := 0;
      writePos := bytesToMove;
      StoredBytes();
    }

    // ----- the copying interface -----

    /** Delivers and removes the first min(len, size) bytes. */
    method Read(len: int, dst: array?<byte>) returns (ret: int)
      requires Valid()
      requires dst != null ==> dst != data && Min(len, DataSize()) <= dst.Length
      modifies this`readPos, this`writePos, data, dst
      ensures Valid()
      ensures ret == if old(Empty()) || len == 0 then 0
                     else if len < 0 || dst == null then -1006
                     else Min(len, old(DataSize()))
      ensures ret > 0 ==> dst[..ret] == old(Contents())[..ret] && dst[ret..] == old(dst[ret..])
      ensures ret <= 0 && dst != null ==> dst[..] == old(dst[..])
      ensures Contents() == if ret > 0 then old(Contents())[ret..] else old(Contents())
      ensures old(Settled()) && (old(!Full()) || len == 0) ==> Settled()
      ensures ret > 0 && old(Full() && writePos == -1) ==> !Settled()
    {
      if Empty() || len == 0 {
        return 0;
      }
      if len < 0 || dst == null {
        return INVALID_PARAM_VALUE;
      }
      var availableLen := DataSize();
      hide Contents;
      var readLen := if len <= availableLen then len else availableLen;
      var posLimit := TotalSize();
      if readPos + readLen >= posLimit {
        var _ := MoveDataToHeader();
      }
      OverwrittenParts(dst[..], 0, Contents()[..readLen]);
      CopyOut(dst, readLen);
      return readLen;
    }

    /** Copies the first bytes out and moves the read position behind them. */
    method CopyOut(dst: array<byte>, readLen: nat)
      requires Valid() && data != null && dst != data && 0 < readLen <= DataSize() && readLen <= dst.Length
      requires readPos + readLen >= totalSize ==> writePos == OVERFLOW_POS
      modifies this`readPos, dst
      ensures Valid() && dst[..] == Overwritten(old(dst[..]), 0, old(Contents())[..readLen])
      ensures Contents() == old(Contents())[readLen..]
      ensures totalSize == old(totalSize) && old(Settled() && !Full()) ==> Settled()
      ensures old(Full() && writePos == -1) ==> !Settled()
    {
      hide Overwritten, Contents;
      StoredBytes();
      SlicePrefix(data[..], readPos, readPos + DataSize(), readLen);
      MemMove(dst, 0, data, readPos, readLen);
      readPos := readPos + readLen;
      if readPos >= TotalSize() {
        readPos := OVERFLOW_POS;
      }
      StoredBytes();
    }

    /** Appends min(len, free) bytes; stores in front of the array exactly when
        the write position is the marker although the buffer is not full. */
    method Write(len: int, src: array?<byte>) returns (r: WriteOutcome)
      requires Valid()
      requires src != null ==> src != data && len <= src.Length
      modifies this`readPos, this`writePos, data
      ensures Valid()
      ensures r.OutOfBounds? <==> old(!Full() && writePos == -1) && len > 0 && src != null
      ensures r.Rejected? <==> old(!Full()) && len != 0 && (len < 0 || src == null)
      ensures r.Rejected? ==> r.code == -1006 && Contents() == old(Contents())
      ensures r.OutOfBounds? ==> Contents() == old(Contents())
      ensures r.Written? ==>
                && r.count == (if old(Full()) || len == 0 then 0 else Min(len, old(FreeSize())))
                && (r.count > 0 ==> src != null && Contents() == old(Contents()) + src[..r.count])
                && (r.count == 0 ==> Contents() == old(Contents()))
      ensures old(Settled()) ==> Settled()
      ensures r.Written? && r.count > 0 && Full() ==> writePos == -1
    {
      if Full() || len == 0 {
        return Written(0);
      }
      if len < 0 || src == null {
        return Rejected(INVALID_PARAM_VALUE);
      }
      var availableLen := FreeSize();
      var writeLen := if len <= availableLen then len else availableLen;
      var posLimit := TotalSize();
      if writePos + writeLen >= posLimit {
        var _ := MoveDataToHeader();
      }
      if writePos < 0 {
        return OutOfBounds;
      }
      CopyIn(src, writeLen);
      return Written(writeLen);
    }

    /** Stores bytes at the write position and moves it. */
    method CopyIn(src: array<byte>, writeLen: nat)
      requires Valid() && data != null && src != data && writeLen <= src.Length
      requires 0 < writeLen && 0 <= writePos && writePos + writeLen <= totalSize
      modifies this`writePos, data
      ensures Valid() && Contents() == old(Contents()) + src[..writeLen]
      ensures readPos == 0 || old(writePos) + writeLen < totalSize ==> Settled()
      ensures Full() ==> writePos == -1
    {
      hide Overwritten, Contents;
      StoredBytes();
      OverwrittenAppends(data[..], readPos, writePos, src[0..writeLen]);
      MemMove(data, writePos, src, 0, writeLen);
      writePos := writePos + writeLen;
      if writePos >= TotalSize() {
        writePos := OVERFLOW_POS;
      }
      StoredBytes();
    }

    // ----- the pointer interface -----

    /** Offset of the oldest byte; all stored bytes follow it. */
    method GetReadPointer() returns (offset: int)
      requires Valid()
      modifies this`readPos, this`writePos, data
      ensures Valid() && Contents() == old(Contents())
      ensures offset == -1 <==> data == null
      ensures data != null ==> offset == readPos && data[offset..offset + DataSize()] == Contents()
      ensures data != null ==> Snapshot() == old(Peeked(Snapshot(), Contents())) && readPos == old(Start())
      ensures Settled()
    {
      if data == null {
        return OVERFLOW_POS;
      }
      if HasOverflownPointer() {
        var _ := MoveDataToHeader();
      }
      return readPos;
    }

    /** Drops min(offset, size) bytes, but everything if the buffer is full. */
    method MoveReadPointer(offset: int) returns (distance: int)
      requires Valid()
      modifies this`readPos, this`writePos, data
      ensures Valid()
      ensures distance == if offset <= 0 then 0 else Min(offset, old(DataSize()))
      ensures Contents() == if offset > 0 && old(Full()) then [] else old(Contents())[distance..]
      ensures old(Settled()) || offset > 0 ==> Settled()
      ensures offset > 0 && data != null ==> Snapshot() == old(Dropped(Snapshot(), Contents(), offset))
    {
      hide Contents, Overwritten;
      if offset <= 0 || data == null {
        return 0;
      }
      if HasOverflownPointer() {
        var _ := MoveDataToHeader();
      }
      distance := DropFront(offset);
    }

    /** The move itself, once compaction is out of the way. */
    method DropFront(offset: int) returns (distance: int)
      requires Valid() && data != null && offset > 0
      requires if Full() then readPos == 0 && writePos == OVERFLOW_POS else !HasOverflownPointer()
      modifies this`readPos, this`writePos
      ensures Valid() && Settled()
      ensures distance == Min(offset, old(DataSize()))
      ensures Contents() == if old(Full()) then [] else old(Contents())[distance..]
      ensures var all := old(Full() || offset >= DataSize());
              Snapshot() == Image(data[..], if all then 0 else old(readPos) + offset, false)
    {
      var dataLen := DataSize();
      if dataLen <= 0 {
        readPos, writePos := 0, 0;
        return 0;
      }
      distance := if offset <= dataLen then offset else dataLen;
      readPos := readPos + distance;
      if readPos >= TotalSize() || readPos >= writePos {
        readPos, writePos := 0, 0;
      }
    }

    /** Offset of the free bytes in one piece, or the overflow pointer if full. */
    method GetWritePointer() returns (offset: int)
      requires Valid()
      modifies this`readPos, this`writePos, data
      ensures Valid() && Contents() == old(Contents())
      ensures offset == -1 <==> data == null || Full()
      ensures offset != -1 ==> offset == writePos == readPos + DataSize() < totalSize
      ensures writePos == -1 ==> Full()
      ensures data != null && !Full() ==> !HasOverflownPointer()
      ensures data != null ==> Snapshot() == old(Peeked(Snapshot(), Contents()))
    {
      if data == null {
        return OVERFLOW_POS;
      }
      if HasOverflownPointer() {
        var _ := MoveDataToHeader();
      }
      return writePos;
    }

    /** Commits bytes behind the stored ones; on a full buffer it cuts the
        stored bytes instead. */
    method MoveWritePointer(offset: int) returns (distance: int)
      requires Valid()
      modifies this`readPos, this`writePos, data
      ensures Valid()
      ensures offset <= 0 || data == null ==>
                distance == 0 && Contents() == old(Contents()) && writePos == old(writePos)
      ensures offset > 0 && data != null && old(Full()) ==>
                && distance == Min(offset, totalSize + 1)
                && Contents() == if offset > totalSize then old(Contents()) else old(Contents())[..offset - 1]
      ensures offset > 0 && data != null && old(!Full()) ==>
                var behind := readPos + |old(Contents())|;
                && distance == Min(offset, totalSize - behind) && distance > 0
                && 0 <= behind <= behind + distance <= totalSize
                && Contents() == old(Contents()) + data[behind..behind + distance]
      ensures old(!HasOverflownPointer()) && data != null ==>
                var end := old(writePos) + distance;
                && data[..] == old(data[..])
                && Snapshot() == Image(data[..], if end == totalSize then 0 else old(readPos), end == totalSize)
    {
      hide Contents, Overwritten;
      if offset <= 0 || data == null {
        return 0;
      }
      if HasOverflownPointer() {
        var _ := MoveDataToHeader();
      }
      distance := Advance(offset);
    }

    /** The move itself, once compaction is out of the way. */
    method Advance(offset: int) returns (distance: int)
      requires Valid() && data != null && offset > 0
      requires Full() ==> readPos == 0 && writePos == OVERFLOW_POS
      requires !Full() ==> !HasOverflownPointer()
      modifies this`writePos
      ensures Valid()
      ensures old(Full()) ==>
                && distance == Min(offset, totalSize + 1)
                && Contents() == if offset > totalSize then old(Contents()) else old(Contents())[..offset - 1]
      ensures old(!Full()) ==>
                && distance == Min(offset, totalSize - old(writePos)) && distance > 0
                && Contents() == old(Contents()) + data[old(writePos)..old(writePos) + distance]
    {
      var freeLen := TotalSize() - writePos;
      if freeLen <= 0 {
        return 0;
      }
      distance := if offset <= freeLen then offset else freeLen;
      writePos := writePos + distance;
      if writePos >= TotalSize() {
        writePos := OVERFLOW_POS;
      }
    }

    // ----- resizing and copying -----

    /** A new array that begins with the first bytes stored. */
    method CopiedPrefix(size: nat, dataSize: nat) returns (newBuf: array<byte>)
      requires Valid() && dataSize <= DataSize() && dataSize <= size
      ensures fresh(newBuf) && newBuf.Length == size && newBuf[..][0..dataSize] == Contents()[..dataSize]
    {
      hide Overwritten, Contents;
      newBuf := new byte[size](_ => 0);
      StoredBytes();
      var readFrom := if readPos != OVERFLOW_POS then readPos else 0;
      if dataSize > 0 {
        SlicePrefix(data[..], readFrom, readFrom + DataSize(), dataSize);
        OverwrittenParts(newBuf[..], 0, Contents()[..dataSize]);
        MemMove(newBuf, 0, data, readFrom, dataSize);
      }
    }

    /** Keeps the longest prefix of the stored bytes that fits. */
    method Resize(newSize: int) returns (ret: int)
      requires Valid()
      modifies this
      ensures Valid()
      ensures newSize <= 0 ==> ret == -1006 && data == old(data) && Contents() == old(Contents())
      ensures newSize > 0 ==>
                var size := if newSize < 1024 then 1024 else newSize;
                && totalSize == size && data != null
                && ret == (if old(totalSize) == size then 0 else size)
                && Contents() == old(Contents())[..Min(old(DataSize()), size)]
    {
      if newSize <= 0 {
        return INVALID_PARAM_VALUE;
      }
      var size := if newSize < MIN_BUF_SIZE then MIN_BUF_SIZE else newSize;
      if totalSize == size {
        return CA_RET_OK;
      }
      hide Contents;
      var dataSize := if DataSize() <= size then DataSize() else size;
      var newBuf := CopiedPrefix(size, dataSize);
      data := newBuf;
      totalSize := size;
      readPos := 0;
      writePos := dataSize;
      StoredBytes();
      return size;
    }

    /** Copies the bytes another buffer stores to the same place in this one. */
    method CopyStored(src: SequentialBuffer)
      requires Valid() && src.Valid() && (data != null ==> data != src.data)
      requires totalSize == src.totalSize && readPos == src.readPos && writePos == src.writePos
      requires data == null <==> src.data == null
      modifies data
      ensures Valid() && Contents() == old(src.Contents())
    {
      hide Overwritten, Contents;
      src.StoredBytes();
      var dataSize := DataSize();
      var readFrom := if readPos != OVERFLOW_POS then readPos else 0;
      if dataSize > 0 {
        OverwrittenParts(data[..], readFrom, src.data[readFrom..readFrom + dataSize]);
        MemMove(data, readFrom, src.data, readFrom, dataSize);
      }
      StoredBytes();
    }

    method CopyFrom(src: SequentialBuffer) returns (ret: int)
      requires Valid() && src.Valid() && src != this && (data != null ==> data != src.data)
      modifies this, data
      ensures Valid() && Contents() == old(src.Contents()) && TotalSize() == old(src.TotalSize())
      ensures ret ==
              if old(totalSize) != old(src.totalSize) && src.totalSize == 0 then INVALID_PARAM_VALUE else CA_RET_OK
    {
      var sizeChanged := TotalSize() != src.TotalSize();
      if sizeChanged {
        Clear();
      }
      ret := CA_RET_OK;
      if sizeChanged {
        ret := InnerlyCreate(src.TotalSize());
      }
      if ret != CA_RET_OK {
        return ret;
      }
      writePos := src.writePos;
      readPos := src.readPos;
      CopyStored(src);
    }
  }
}
