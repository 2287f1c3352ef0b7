/** The 24-byte packet header: parsing, assembling, and the field accessors
    that work on the serialized form. Extensions are configured to size 0. */
module ProtoHeader {
  import opened Bytes
  import opened Memory
  import opened ByteOrder

  const HEADER_OFFSET_LENGTH := 0
  const HEADER_OFFSET_ROUTE_ID := 4
  const HEADER_OFFSET_COMMAND := 12
  const HEADER_OFFSET_FLAG_BITS := 16
  const HEADER_OFFSET_PACKET_NUM := 18
  const HEADER_OFFSET_ERR_CODE := 20
  const PROTO_HEADER_SIZE := 24

  /** A field: its offset and its width in bytes. */
  datatype Field = Field(offset: nat, width: nat)

  const LENGTH_FIELD := Field(HEADER_OFFSET_LENGTH, 4)
  const ROUTE_ID_FIELD := Field(HEADER_OFFSET_ROUTE_ID, 8)
  const COMMAND_FIELD := Field(HEADER_OFFSET_COMMAND, 4)
  const FLAG_BITS_FIELD := Field(HEADER_OFFSET_FLAG_BITS, 2)
  const PACKET_NUM_FIELD := Field(HEADER_OFFSET_PACKET_NUM, 2)
  const ERR_CODE_FIELD := Field(HEADER_OFFSET_ERR_CODE, 4)

  type int16 = x: int | -0x8000 <= x < 0x8000
  type int32 = x: int | -0x8000_0000 <= x < 0x8000_0000
  type int64 = x: int | -0x8000_0000_0000_0000 <= x < 0x8000_0000_0000_0000

  /** The field values of a header. */
  datatype Header = Header(length: int32, routeId: int64, command: int32,
                           flagBits: int16, packetNumber: int16, errorCode: int32)

  function FieldBytes(mem: seq<byte>, f: Field): seq<byte>
    requires f.offset + f.width <= |mem|
  {
    mem[f.offset..f.offset + f.width]
  }

  /** The signed number a field holds in network order. */
  function Value(mem: seq<byte>, f: Field): int
    requires f.offset + f.width <= |mem|
  {
    ToSigned(BigEndian(FieldBytes(mem, f)), f.width)
  }

  /** The bytes with a field replaced. */
  function Patch(mem: seq<byte>, f: Field, value: int): (r: seq<byte>)
    requires f.offset + f.width <= |mem| && -Pow256(f.width) <= 2 * value < Pow256(f.width)
    ensures |r| == |mem|
  {
    mem[..f.offset] + Encode(ToUnsigned(value, f.width), f.width) + mem[f.offset + f.width..]
  }

  lemma SignedRoundTrip(i: int, len: nat)
    requires -Pow256(len) <= 2 * i < Pow256(len)
    ensures ToUnsigned(i, len) < Pow256(len) && ToSigned(ToUnsigned(i, len), len) == i
  {
  }

  lemma UnsignedRoundTrip(u: nat, len: nat)
    requires u < Pow256(len) && Pow256(len) % 2 == 0
    ensures -Pow256(len) <= 2 * ToSigned(u, len) < Pow256(len) && ToUnsigned(ToSigned(u, len), len) == u
  {
  }

  lemma {:induction false} PowEven(len: nat)
    requires len > 0
    ensures Pow256(len) % 2 == 0
  {
    assert Pow256(len) == 2 * (128 * Pow256(len - 1));
  }

  /** A field of two, four or eight bytes, written out: most significant byte first,
      and negative from 128 on. */
  lemma TwoBytes(mem: seq<byte>, o: nat)
    requires o + 2 <= |mem|
    ensures var a: int, b: int := mem[o], mem[o + 1];
            Value(mem, Field(o, 2)) == a * 0x100 + b - if a < 128 then 0 else 0x1_0000
  {
    PowValues();
    TwoOfBigEndian(mem[o..o + 2]);
  }

  lemma FourBytes(mem: seq<byte>, o: nat)
    requires o + 4 <= |mem|
    ensures var a: int, b: int, c: int, d: int := mem[o], mem[o + 1], mem[o + 2], mem[o + 3];
            Value(mem, Field(o, 4)) ==
            a * 0x100_0000 + b * 0x1_0000 + c * 0x100 + d - if a < 128 then 0 else 0x1_0000_0000
  {
    PowValues();
    FourOfBigEndian(mem[o..o + 4]);
  }

  lemma EightBytes(mem: seq<byte>, o: nat)
    requires o + 8 <= |mem|
    ensures var a: int, b: int, c: int, d: int := mem[o], mem[o + 1], mem[o + 2], mem[o + 3];
            var e: int, f: int, g: int, h: int := mem[o + 4], mem[o + 5], mem[o + 6], mem[o + 7];
            Value(mem, Field(o, 8)) ==
            (a * 0x100_0000 + b * 0x1_0000 + c * 0x100 + d) * 0x1_0000_0000
            + e * 0x100_0000 + f * 0x1_0000 + g * 0x100 + h - if a < 128 then 0 else 0x1_0000_0000_0000_0000
  {
    PowValues();
    var b := mem[o..o + 8];
    assert b[..7][..6][..5][..4] == b[..4] && b[..7][..6][..5] == b[..5] && b[..7][..6] == b[..6];
    FourOfBigEndian(b[..4]);
    assert BigEndian(b[..5]) == BigEndian(b[..4]) * 256 + b[4];
    assert BigEndian(b[..6]) == BigEndian(b[..5]) * 256 + b[5];
    assert BigEndian(b[..7]) == BigEndian(b[..6]) * 256 + b[6];
    assert BigEndian(b) == BigEndian(b[..7]) * 256 + b[7];
  }

  lemma TwoOfBigEndian(b: seq<byte>)
    requires |b| == 2
    ensures var high: int := b[0]; BigEndian(b) == high * 256 + b[1]
  {
    assert BigEndian(b[..1]) == BigEndian(b[..1][..0]) * 256 + b[0];
  }

  lemma FourOfBigEndian(b: seq<byte>)
    requires |b| == 4
    ensures var p: int, q: int, r: int := b[0], b[1], b[2];
            BigEndian(b) == p * 0x100_0000 + q * 0x1_0000 + r * 0x100 + b[3]
  {
    assert b[..3][..2] == b[..2];
    TwoOfBigEndian(b[..2]);
    assert BigEndian(b[..3]) == BigEndian(b[..2]) * 256 + b[2];
  }

  // ----- accessors on the serialized form -----

  /** get_proto_header_field: load in host order, then convert. */
  method GetField(mem: seq<byte>, f: Field, bigHost: bool) returns (value: int)
    requires f.offset + f.width <= |mem|
    ensures value == Value(mem, f)
  {
    var loaded := Load(FieldBytes(mem, f), bigHost);
    NetToHost(FieldBytes(mem, f), bigHost);
    var converted := ByteOrderConversion(loaded, f.width, bigHost);
    value := ToSigned(converted, f.width);
  }

  /** set_proto_header_field: convert, then store in host order. */
  method SetField(f: Field, value: int, buf: array<byte>, bigHost: bool)
    requires f.offset + f.width <= buf.Length && -Pow256(f.width) <= 2 * value < Pow256(f.width)
    modifies buf
    ensures buf[..] == old(Patch(buf[..], f, value))
  {
    var u := ToUnsigned(value, f.width);
    HostToNet(u, f.width, bigHost);
    var converted := ByteOrderConversion(u, f.width, bigHost);
    var bytes := Store(converted, f.width, bigHost);
    StoreBytes(buf, f.offset, bytes);
  }

  predicate IsFinalPacket(flagBits: int16) {
    flagBits % 2 == 1
  }

  /** flag_bits |= 1 and flag_bits &= ~1, on two's complement. */
  function WithEndFlag(flagBits: int16, final: bool): (r: int16)
    ensures IsFinalPacket(r) == final
    ensures r - r % 2 == flagBits - flagBits % 2
  {
    flagBits - flagBits % 2 + if final then 1 else 0
  }

  // ----- the codec -----

  function Decode(mem: seq<byte>): Header
    requires |mem| >= PROTO_HEADER_SIZE
  {
    PowValues();
    Header(Value(mem, LENGTH_FIELD), Value(mem, ROUTE_ID_FIELD), Value(mem, COMMAND_FIELD),
           Value(mem, FLAG_BITS_FIELD), Value(mem, PACKET_NUM_FIELD), Value(mem, ERR_CODE_FIELD))
  }

  function EncodeSigned(value: int, len: nat): (b: seq<byte>)
    requires -Pow256(len) <= 2 * value < Pow256(len)
    ensures |b| == len
  {
    Encode(ToUnsigned(value, len), len)
  }

  function Serialize(h: Header): (b: seq<byte>)
    ensures |b| == PROTO_HEADER_SIZE
  {
    PowValues();
    EncodeSigned(h.length, 4) + EncodeSigned(h.routeId, 8) + EncodeSigned(h.command, 4)
    + EncodeSigned(h.flagBits, 2) + EncodeSigned(h.packetNumber, 2) + EncodeSigned(h.errorCode, 4)
  }

  lemma FieldReadsBack(mem: seq<byte>, f: Field, value: int)
    requires f.offset + f.width <= |mem| && -Pow256(f.width) <= 2 * value < Pow256(f.width)
    requires FieldBytes(mem, f) == EncodeSigned(value, f.width)
    ensures Value(mem, f) == value
  {
    SignedRoundTrip(value, f.width);
    EncodeThenRead(ToUnsigned(value, f.width), f.width);
  }

  /** Parsing what was assembled gives back every signed field. */
  lemma DecodeAfterSerialize(h: Header)
    ensures Decode(Serialize(h)) == h
  {
    PowValues();
    hide Pow256, Encode, BigEndian;
    var b := Serialize(h);
    FieldReadsBack(b, LENGTH_FIELD, h.length);
    FieldReadsBack(b, ROUTE_ID_FIELD, h.routeId);
    FieldReadsBack(b, COMMAND_FIELD, h.command);
    FieldReadsBack(b, FLAG_BITS_FIELD, h.flagBits);
    FieldReadsBack(b, PACKET_NUM_FIELD, h.packetNumber);
    FieldReadsBack(b, ERR_CODE_FIELD, h.errorCode);
  }

  lemma FieldWritesBack(mem: seq<byte>, f: Field)
    requires f.offset + f.width <= |mem| && f.width > 0
    ensures -Pow256(f.width) <= 2 * Value(mem, f) < Pow256(f.width)
    ensures EncodeSigned(Value(mem, f), f.width) == FieldBytes(mem, f)
  {
    PowEven(f.width);
    UnsignedRoundTrip(BigEndian(FieldBytes(mem, f)), f.width);
    ReadThenEncode(FieldBytes(mem, f));
  }

  /** Assembling what was parsed reproduces the 24 bytes. */
  lemma SerializeAfterDecode(mem: seq<byte>)
    requires |mem| >= PROTO_HEADER_SIZE
    ensures Serialize(Decode(mem)) == mem[..PROTO_HEADER_SIZE]
  {
    FieldWritesBack(mem, LENGTH_FIELD);
    FieldWritesBack(mem, ROUTE_ID_FIELD);
    FieldWritesBack(mem, COMMAND_FIELD);
    FieldWritesBack(mem, FLAG_BITS_FIELD);
    FieldWritesBack(mem, PACKET_NUM_FIELD);
    FieldWritesBack(mem, ERR_CODE_FIELD);
    PowValues();
    hide Pow256, Encode, BigEndian, Value, EncodeSigned;
    assert mem[..PROTO_HEADER_SIZE] ==
           FieldBytes(mem, LENGTH_FIELD) + FieldBytes(mem, ROUTE_ID_FIELD) + FieldBytes(mem, COMMAND_FIELD)
           + FieldBytes(mem, FLAG_BITS_FIELD) + FieldBytes(mem, PACKET_NUM_FIELD) + FieldBytes(mem, ERR_CODE_FIELD);
  }

  // ----- proto_header_t in memory -----

  class ProtoHeader {
    var length: int32
    var routeId: int64
    var command: int32
    var flagBits: int16
    var packetNumber: int16
    var errorCode: int32

    constructor () {
      length, routeId, command, flagBits, packetNumber, errorCode := 0, 0, 0, 0, 0, 0;
    }

    function View(): Header
      reads this
    {
      Header(length, routeId, command, flagBits, packetNumber, errorCode)
    }
  }

  /** parse_header: fills the structure field by field. */
  method ParseHeader(inbuf: array<byte>, result: ProtoHeader, bigHost: bool)
    requires inbuf.Length >= PROTO_HEADER_SIZE
    modifies result
    ensures result.View() == Decode(inbuf[..])
    ensures result.length == Value(inbuf[..], Field(0, 4)) && result.routeId == Value(inbuf[..], Field(4, 8))
    ensures result.command == Value(inbuf[..], Field(12, 4)) && result.flagBits == Value(inbuf[..], Field(16, 2))
    ensures result.packetNumber == Value(inbuf[..], Field(18, 2)) && result.errorCode == Value(inbuf[..], Field(20, 4))
  {
    PowValues();
    hide Pow256, BigEndian;
    result.length := GetField(inbuf[..], LENGTH_FIELD, bigHost);
    result.routeId := GetField(inbuf[..], ROUTE_ID_FIELD, bigHost);
    result.command := GetField(inbuf[..], COMMAND_FIELD, bigHost);
    result.flagBits := GetField(inbuf[..], FLAG_BITS_FIELD, bigHost);
    result.packetNumber := GetField(inbuf[..], PACKET_NUM_FIELD, bigHost);
    result.errorCode := GetField(inbuf[..], ERR_CODE_FIELD, bigHost);
  }

  function PatchAll(mem: seq<byte>, h: Header): (r: seq<byte>)
    requires |mem| >= PROTO_HEADER_SIZE
    ensures |r| == |mem|
  {
    PowValues();
    Patch(Patch(Patch(Patch(Patch(Patch(mem, LENGTH_FIELD, h.length), ROUTE_ID_FIELD, h.routeId),
      COMMAND_FIELD, h.command), FLAG_BITS_FIELD, h.flagBits), PACKET_NUM_FIELD, h.packetNumber),
      ERR_CODE_FIELD, h.errorCode)
  }

  lemma PatchNext(written: seq<byte>, rest: seq<byte>, f: Field, value: int)
    requires f.offset == |written| && f.width <= |rest| && -Pow256(f.width) <= 2 * value < Pow256(f.width)
    ensures Patch(written + rest, f, value) == (written + EncodeSigned(value, f.width)) + rest[f.width..]
  {
  }

  /** Patching every field writes exactly the serialized header. */
  lemma PatchAllIsSerialize(mem: seq<byte>, h: Header)
    requires |mem| >= PROTO_HEADER_SIZE
    ensures PatchAll(mem, h) == Serialize(h) + mem[PROTO_HEADER_SIZE..]
  {
    PowValues();
    hide Pow256, EncodeSigned, Patch;
    assert mem == [] + mem;
    PatchNext([], mem, LENGTH_FIELD, h.length);
    var w1 := EncodeSigned(h.length, 4);
    assert [] + w1 == w1;
    PatchNext(w1, mem[4..], ROUTE_ID_FIELD, h.routeId);
    var w2 := w1 + EncodeSigned(h.routeId, 8);
    assert mem[4..][8..] == mem[12..];
    PatchNext(w2, mem[12..], COMMAND_FIELD, h.command);
    var w3 := w2 + EncodeSigned(h.command, 4);
    assert mem[12..][4..] == mem[16..];
    PatchNext(w3, mem[16..], FLAG_BITS_FIELD, h.flagBits);
    var w4 := w3 + EncodeSigned(h.flagBits, 2);
    assert mem[16..][2..] == mem[18..];
    PatchNext(w4, mem[18..], PACKET_NUM_FIELD, h.packetNumber);
    var w5 := w4 + EncodeSigned(h.packetNumber, 2);
    assert mem[18..][2..] == mem[20..];
    PatchNext(w5, mem[20..], ERR_CODE_FIELD, h.errorCode);
    assert mem[20..][4..] == mem[24..];
  }

  /** The field values, each at its place. */
  ghost predicate InPlaces(mem: seq<byte>, h: Header) {
    && |mem| >= 24
    && h.length == Value(mem, Field(0, 4)) && h.routeId == Value(mem, Field(4, 8))
    && h.command == Value(mem, Field(12, 4)) && h.flagBits == Value(mem, Field(16, 2))
    && h.packetNumber == Value(mem, Field(18, 2)) && h.errorCode == Value(mem, Field(20, 4))
  }

  lemma SerializedInPlaces(h: Header, rest: seq<byte>)
    ensures InPlaces(Serialize(h) + rest, h) && (Serialize(h) + rest)[24..] == rest
  {
    hide Serialize;
    DecodeAfterSerialize(h);
    FieldsInFront(Serialize(h), rest);
  }

  lemma FieldsInFront(b: seq<byte>, rest: seq<byte>)
    requires |b| == 24
    ensures InPlaces(b + rest, Decode(b)) && (b + rest)[24..] == rest
  {
    hide BigEndian;
    var mem := b + rest;
    assert mem[0..4] == b[0..4] && mem[4..12] == b[4..12] && mem[12..16] == b[12..16];
    assert mem[16..18] == b[16..18] && mem[18..20] == b[18..20] && mem[20..24] == b[20..24];
  }

  /** assemble_header: writes the six fields and nothing behind them. */
  method AssembleHeader(src: ProtoHeader, outbuf: array<byte>, bigHost: bool)
    requires outbuf.Length >= PROTO_HEADER_SIZE
    modifies outbuf
    ensures outbuf[..] == Serialize(src.View()) + old(outbuf[PROTO_HEADER_SIZE..])
    ensures InPlaces(outbuf[..], src.View()) && outbuf[24..] == old(outbuf[24..])
  {
    PowValues();
    hide Pow256, Patch;
    ghost var before := outbuf[..];
    SetField(LENGTH_FIELD, src.length, outbuf, bigHost);
    SetField(ROUTE_ID_FIELD, src.routeId, outbuf, bigHost);
    SetField(COMMAND_FIELD, src.command, outbuf, bigHost);
    SetField(FLAG_BITS_FIELD, src.flagBits, outbuf, bigHost);
    SetField(PACKET_NUM_FIELD, src.packetNumber, outbuf, bigHost);
    SetField(ERR_CODE_FIELD, src.errorCode, outbuf, bigHost);
    PatchAllIsSerialize(before, src.View());
    SerializedInPlaces(src.View(), before[PROTO_HEADER_SIZE..]);
  }

  // ----- rewriting a header for an answer -----

  /** The size_t sum, stored in an int32. */
  function TotalLength(bodyLen: nat): (r: int32)
    ensures 24 + bodyLen < 0x8000_0000 ==> r == 24 + bodyLen
    ensures (r - 24 - bodyLen) % 0x1_0000_0000 == 0
  {
    PowValues();
    ToSigned((PROTO_HEADER_SIZE + bodyLen) % 0x1_0000_0000, 4)
  }

  /** The header of the answer: five fields change, the route id stays. */
  function Answered(h: Header, bodyLen: nat, outCmd: int32, errcode: int32, final: bool, packetNum: int16): Header {
    h.(length := TotalLength(bodyLen), command := outCmd, flagBits := WithEndFlag(h.flagBits, final),
       packetNumber := packetNum, errorCode := errcode)
  }

  /** The answer's header in its bytes, made of the bytes of the packet it answers: the
      length (modulo 2^32 where it does not fit), the command, the error code and the packet number; the
      route id stays, and of the flags only bit 0, which marks the final packet. */
  ghost predicate AnswerBytes(mem: seq<byte>, out: seq<byte>, bodyLen: nat, outCmd: int, errcode: int, final: bool,
                              packetNum: int)
  {
    && |mem| >= 24 && |out| >= 24
    && (24 + bodyLen < 0x8000_0000 ==> Value(out, Field(0, 4)) == 24 + bodyLen)
    && (Value(out, Field(0, 4)) - 24 - bodyLen) % 0x1_0000_0000 == 0
    && out[4..12] == mem[4..12]
    && Value(out, Field(12, 4)) == outCmd
    && out[16] == mem[16] && out[17] == mem[17] - mem[17] % 2 + (if final then 1 else 0)
    && Value(out, Field(18, 2)) == packetNum
    && Value(out, Field(20, 4)) == errcode
  }

  lemma AnsweredBytes(mem: seq<byte>, rest: seq<byte>, bodyLen: nat, outCmd: int32, errcode: int32, final: bool,
                      packetNum: int16)
    requires |mem| >= 24
    ensures var h := Answered(Decode(mem), bodyLen, outCmd, errcode, final, packetNum);
            AnswerBytes(mem, Serialize(h) + rest, bodyLen, outCmd, errcode, final, packetNum)
  {
    hide Serialize, Value, BigEndian;
    var h := Answered(Decode(mem), bodyLen, outCmd, errcode, final, packetNum);
    var out := Serialize(h) + rest;
    SerializedInPlaces(h, rest);
    SameRoute(mem, out);
    FlagByte(mem, out, final);
  }

  lemma SameRoute(mem: seq<byte>, out: seq<byte>)
    requires |mem| >= 24 && |out| >= 24 && Value(out, Field(4, 8)) == Value(mem, Field(4, 8))
    ensures out[4..12] == mem[4..12]
  {
    FieldWritesBack(mem, Field(4, 8));
    FieldWritesBack(out, Field(4, 8));
  }

  lemma FlagByte(mem: seq<byte>, out: seq<byte>, final: bool)
    requires |mem| >= 24 && |out| >= 24
    requires var v := Value(mem, Field(16, 2)); Value(out, Field(16, 2)) == v - v % 2 + if final then 1 else 0
    ensures out[16] == mem[16] && out[17] == mem[17] - mem[17] % 2 + if final then 1 else 0
  {
    hide Value;
    TwoBytes(mem, 16);
    TwoBytes(out, 16);
  }

  /** serialize_to_buffer as compiled: parse, modify the structure, assemble. */
  method RewriteByParsing(inbuf: array<byte>, outbuf: array<byte>, bodyLen: nat, outCmd: int32, errcode: int32,
                          final: bool, packetNum: int16, bigHost: bool)
    requires inbuf.Length >= PROTO_HEADER_SIZE && outbuf.Length >= PROTO_HEADER_SIZE
    modifies outbuf
    ensures outbuf[..] == Serialize(Answered(Decode(old(inbuf[..])), bodyLen, outCmd, errcode, final, packetNum))
                          + old(outbuf[PROTO_HEADER_SIZE..])
    ensures AnswerBytes(old(inbuf[..]), outbuf[..], bodyLen, outCmd, errcode, final, packetNum)
    ensures outbuf[24..] == old(outbuf[24..])
  {
    hide AnswerBytes, InPlaces, Serialize, Value;
    AnsweredBytes(inbuf[..], outbuf[PROTO_HEADER_SIZE..], bodyLen, outCmd, errcode, final, packetNum);
    var header := new ProtoHeader();
    ParseHeader(inbuf, header, bigHost);
    header.length := TotalLength(bodyLen);
    header.command := outCmd;
    header.flagBits := WithEndFlag(header.flagBits, final);
    header.packetNumber := packetNum;
    header.errorCode := errcode;
    AssembleHeader(header, outbuf, bigHost);
  }

  /** Patching a field of a serialized header is changing it and serializing again. */
  lemma PatchIsUpdate(h: Header, h': Header, f: Field, value: int, before: seq<byte>, after: seq<byte>)
    requires -Pow256(f.width) <= 2 * value < Pow256(f.width) && f.offset + f.width <= PROTO_HEADER_SIZE
    requires f.offset == |before| && Serialize(h)[..f.offset] == before
    requires f.offset + f.width + |after| == PROTO_HEADER_SIZE && Serialize(h)[f.offset + f.width..] == after
    requires Serialize(h') == before + EncodeSigned(value, f.width) + after
    ensures forall rest :: Patch(Serialize(h) + rest, f, value) == Serialize(h') + rest
  {
  }

  /** The five patches of the alternative code, on a copied header. */
  lemma PatchedIsAnswered(h: Header, h': Header, rest: seq<byte>)
    requires h' == h.(length := h'.length, command := h'.command, flagBits := h'.flagBits,
                      packetNumber := h'.packetNumber, errorCode := h'.errorCode)
    ensures PatchFive(Serialize(h) + rest, h') == Serialize(h') + rest
  {
    PowValues();
    hide Pow256, Patch, EncodeSigned;
    var l, r, c, f, p, e := EncodeSigned(h.length, 4), EncodeSigned(h.routeId, 8), EncodeSigned(h.command, 4),
                            EncodeSigned(h.flagBits, 2), EncodeSigned(h.packetNumber, 2), EncodeSigned(h.errorCode, 4);
    var h1 := h.(length := h'.length);
    PatchIsUpdate(h, h1, LENGTH_FIELD, h'.length, [], r + c + f + p + e);
    var h2 := h1.(command := h'.command);
    var l' := EncodeSigned(h'.length, 4);
    PatchIsUpdate(h1, h2, COMMAND_FIELD, h'.command, l' + r, f + p + e);
    var h3 := h2.(flagBits := h'.flagBits);
    var c' := EncodeSigned(h'.command, 4);
    PatchIsUpdate(h2, h3, FLAG_BITS_FIELD, h'.flagBits, l' + r + c', p + e);
    var h4 := h3.(packetNumber := h'.packetNumber);
    var f' := EncodeSigned(h'.flagBits, 2);
    PatchIsUpdate(h3, h4, PACKET_NUM_FIELD, h'.packetNumber, l' + r + c' + f', e);
    var p' := EncodeSigned(h'.packetNumber, 2);
    PatchIsUpdate(h4, h', ERR_CODE_FIELD, h'.errorCode, l' + r + c' + f' + p', []);
  }

  function PatchFive(mem: seq<byte>, h: Header): seq<byte>
    requires |mem| >= PROTO_HEADER_SIZE
  {
    PowValues();
    Patch(Patch(Patch(Patch(Patch(mem, LENGTH_FIELD, h.length), COMMAND_FIELD, h.command),
      FLAG_BITS_FIELD, h.flagBits), PACKET_NUM_FIELD, h.packetNumber), ERR_CODE_FIELD, h.errorCode)
  }

  /** The alternative in the source: copy the bytes, then patch five fields in
      place. It writes the same header as RewriteByParsing. */
  method RewriteByPatching(inbuf: array<byte>, outbuf: array<byte>, bodyLen: nat, outCmd: int32, errcode: int32,
                           final: bool, packetNum: int16, bigHost: bool)
    requires inbuf != outbuf && inbuf.Length >= PROTO_HEADER_SIZE && outbuf.Length >= PROTO_HEADER_SIZE
    modifies outbuf
    ensures outbuf[..] == Serialize(Answered(Decode(old(inbuf[..])), bodyLen, outCmd, errcode, final, packetNum))
                          + old(outbuf[PROTO_HEADER_SIZE..])
    ensures AnswerBytes(old(inbuf[..]), outbuf[..], bodyLen, outCmd, errcode, final, packetNum)
    ensures outbuf[24..] == old(outbuf[24..])
  {
    PowValues();
    hide Pow256, Patch, BigEndian, Serialize, AnswerBytes;
    ghost var h, rest := Decode(inbuf[..]), outbuf[PROTO_HEADER_SIZE..];
    SerializeAfterDecode(inbuf[..]);
    MemMove(outbuf, 0, inbuf, 0, PROTO_HEADER_SIZE);
    assert outbuf[..] == Serialize(h) + rest;
    ghost var h' := Answered(h, bodyLen, outCmd, errcode, final, packetNum);
    PatchedIsAnswered(h, h', rest);
    AnsweredBytes(inbuf[..], rest, bodyLen, outCmd, errcode, final, packetNum);
    var flagBits := GetField(inbuf[..], FLAG_BITS_FIELD, bigHost);
    assert inbuf[..] == old(inbuf[..]);
    SetField(LENGTH_FIELD, TotalLength(bodyLen), outbuf, bigHost);
    SetField(COMMAND_FIELD, outCmd, outbuf, bigHost);
    SetField(FLAG_BITS_FIELD, WithEndFlag(flagBits, final), outbuf, bigHost);
    SetField(PACKET_NUM_FIELD, packetNum, outbuf, bigHost);
    SetField(ERR_CODE_FIELD, errcode, outbuf, bigHost);
  }
}
