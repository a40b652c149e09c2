/**
 * The `Package` codec of the echo FIFO programs. Client and server hold the same code twice; the
 * only difference is the spelling of the last enumerator.
 */
module PackageCodec {
  import opened Bytes

  const FRAME: nat := 1024
  const HEADER: nat := 12
  const CAPACITY: nat := 1012

  /** `std::array<char, 1024>`: the unit that is written to and read from every FIFO. */
  type Frame = f: seq<Byte> | |f| == FRAME witness Zeros(FRAME)

  datatype ClientType = Message | NewConnection | ConnectionSuccess | ConnectionClose
  datatype ServerType = Message | NewConnection | ConnectionSuccess | ConectionClose

  /** The enumerators' positions, the same in both programs. */
  const MESSAGE: nat := 0
  const NEW_CONNECTION: nat := 1
  const CONNECTION_SUCCESS: nat := 2
  const CONNECTION_CLOSE: nat := 3

  function ClientOrdinal(t: ClientType): nat {
    match t
    case Message => MESSAGE
    case NewConnection => NEW_CONNECTION
    case ConnectionSuccess => CONNECTION_SUCCESS
    case ConnectionClose => CONNECTION_CLOSE
  }

  /** The server's reading of a type field; other values compare unequal to every enumerator. */
  function ServerTypeOf(n: nat): Option<ServerType> {
    if n == MESSAGE then Some(ServerType.Message)
    else if n == NEW_CONNECTION then Some(ServerType.NewConnection)
    else if n == CONNECTION_SUCCESS then Some(ServerType.ConnectionSuccess)
    else if n == CONNECTION_CLOSE then Some(ConectionClose)
    else None
  }

  /** The type field is the enumeration's underlying integer; `fd_` never reaches the wire. */
  datatype Package = Package(kind: nat, data: seq<Byte>) {
    /** What fits: a 4-byte type, and data that with the header stays inside the frame. */
    predicate Fits() {
      kind < 0x1_0000_0000 && |data| <= CAPACITY
    }
  }

  // ---- Integers as memcpy copies them on a little-endian machine ----

  function Pow256(width: nat): nat {
    if width == 0 then 1 else 256 * Pow256(width - 1)
  }

  function LittleEndian(n: nat, width: nat): (r: seq<Byte>)
    ensures |r| == width
  {
    if width == 0 then [] else [(n % 256) as Byte] + LittleEndian(n / 256, width - 1)
  }

  function FromLittleEndian(bs: seq<Byte>): nat {
    if bs == [] then 0 else bs[0] as nat + 256 * FromLittleEndian(bs[1..])
  }

  lemma {:induction false} IntegerRoundTrip(n: nat, width: nat)
    requires n < Pow256(width)
    ensures FromLittleEndian(LittleEndian(n, width)) == n
  {
    if width > 0 {
      IntegerRoundTrip(n / 256, width - 1);
      assert LittleEndian(n, width)[1..] == LittleEndian(n / 256, width - 1);
    }
  }

  lemma FieldWidths()
    ensures Pow256(4) == 0x1_0000_0000 && Pow256(8) == 0x1_0000_0000_0000_0000
  {
    assert Pow256(2) == 0x1_0000;
    assert Pow256(3) == 0x100_0000;
    assert Pow256(4) == 0x1_0000_0000;
    assert Pow256(5) == 0x100_0000_0000;
    assert Pow256(6) == 0x1_0000_0000_0000;
    assert Pow256(7) == 0x100_0000_0000_0000;
  }

  // ---- The frame ----

  /** `serialize`: type, length and data over the front of the buffer; the rest of it stays. */
  function Encode(p: Package, prior: Frame): Frame
    requires p.Fits()
  {
    LittleEndian(p.kind, 4) + LittleEndian(|p.data|, 8) + p.data + prior[HEADER + |p.data|..]
  }

  function SizeField(f: Frame): nat {
    FromLittleEndian(f[4..HEADER])
  }

  /** `deserialize`; None is the undefined case, a length field that reaches past the buffer. */
  function Decode(f: Frame): Option<Package> {
    if SizeField(f) > CAPACITY then None
    else Some(Package(FromLittleEndian(f[..4]), CutAtNul(f[HEADER..HEADER + SizeField(f)])))
  }

  /** The round trip, whatever the buffer held before: the type, and the data cut at its first NUL. */
  lemma RoundTrip(p: Package, prior: Frame)
    requires p.Fits()
    ensures Decode(Encode(p, prior)) == Some(Package(p.kind, CutAtNul(p.data)))
  {
    var f := Encode(p, prior);
    FieldWidths();
    IntegerRoundTrip(p.kind, 4);
    IntegerRoundTrip(|p.data|, 8);
    assert f[..4] == LittleEndian(p.kind, 4);
    assert f[4..HEADER] == LittleEndian(|p.data|, 8);
    assert f[HEADER..HEADER + |p.data|] == p.data;
  }

  /** The data survives the trip exactly when it holds no NUL. */
  lemma LosslessIff(p: Package, prior: Frame)
    requires p.Fits()
    ensures Decode(Encode(p, prior)) == Some(p) <==> 0 !in p.data
  {
    RoundTrip(p, prior);
  }

  // ---- The bytes on the wire ----

  lemma FourBytes(bs: seq<Byte>)
    requires |bs| == 4
    ensures FromLittleEndian(bs)
            == bs[0] as nat + 0x100 * bs[1] as nat + 0x1_0000 * bs[2] as nat + 0x100_0000 * bs[3] as nat
  {
    assert bs[1..][1..] == bs[2..] && bs[2..][1..] == bs[3..] && bs[3..][1..] == [];
    assert FromLittleEndian(bs[3..]) == bs[3] as nat;
    assert FromLittleEndian(bs[2..]) == bs[2] as nat + 256 * FromLittleEndian(bs[3..]);
    assert FromLittleEndian(bs[1..]) == bs[1] as nat + 256 * FromLittleEndian(bs[2..]);
  }

  lemma EightBytes(bs: seq<Byte>)
    requires |bs| == 8
    ensures FromLittleEndian(bs)
            == bs[0] as nat + 0x100 * bs[1] as nat + 0x1_0000 * bs[2] as nat + 0x100_0000 * bs[3] as nat
               + 0x1_0000_0000 * (bs[4] as nat + 0x100 * bs[5] as nat
                                  + 0x1_0000 * bs[6] as nat + 0x100_0000 * bs[7] as nat)
  {
    LowAndHigh(bs[..4], bs[4..]);
    assert bs == bs[..4] + bs[4..];
    FourBytes(bs[..4]);
    FourBytes(bs[4..]);
  }

  lemma LowAndHigh(low: seq<Byte>, high: seq<Byte>)
    requires |low| == 4
    ensures FromLittleEndian(low + high) == FromLittleEndian(low) + 0x1_0000_0000 * FromLittleEndian(high)
  {
    FourBytes(low);
    var all := low + high;
    assert all[1..][1..][1..][1..] == high;
    var a, b, c := all[1..], all[1..][1..], all[1..][1..][1..];
    assert FromLittleEndian(c) == low[3] as nat + 256 * FromLittleEndian(high);
    assert FromLittleEndian(b) == low[2] as nat + 256 * FromLittleEndian(c);
    assert FromLittleEndian(a) == low[1] as nat + 256 * FromLittleEndian(b);
    assert FromLittleEndian(all) == low[0] as nat + 256 * FromLittleEndian(a);
  }

  /**
   * The frame, byte by byte: four bytes of type and eight of length, each with its lowest byte first,
   * then the data, and behind that whatever the buffer held before.
   */
  lemma WireFormat(p: Package, prior: Frame)
    requires p.Fits()
    ensures var f := Encode(p, prior);
            && f[0] as nat + 0x100 * f[1] as nat + 0x1_0000 * f[2] as nat + 0x100_0000 * f[3] as nat == p.kind
            && f[4] as nat + 0x100 * f[5] as nat == |p.data| && f[6..12] == [0, 0, 0, 0, 0, 0]
            && f[12..12 + |p.data|] == p.data
            && f[12 + |p.data|..] == prior[12 + |p.data|..]
  {
    hide LittleEndian, FromLittleEndian;
    var f := Encode(p, prior);
    FieldWidths();
    IntegerRoundTrip(p.kind, 4);
    IntegerRoundTrip(|p.data|, 8);
    assert f[..4] == LittleEndian(p.kind, 4);
    assert f[4..12] == LittleEndian(|p.data|, 8);
    FourBytes(f[..4]);
    EightBytes(f[4..12]);
    SmallNumber(f[4..12], |p.data|);
    assert f[6..12] == f[4..12][2..];
  }

  lemma SmallNumber(bs: seq<Byte>, n: nat)
    requires |bs| == 8 && FromLittleEndian(bs) == n < 0x1_0000
    ensures bs[0] as nat + 0x100 * bs[1] as nat == n && bs[2..] == [0, 0, 0, 0, 0, 0]
  {
    EightBytes(bs);
  }

  /** What is read out of a frame, whoever wrote it: nothing if the length reaches past the buffer. */
  lemma DecodeMeans(f: Frame)
    ensures var kind := f[0] as nat + 0x100 * f[1] as nat + 0x1_0000 * f[2] as nat + 0x100_0000 * f[3] as nat;
            var low := f[4] as nat + 0x100 * f[5] as nat + 0x1_0000 * f[6] as nat + 0x100_0000 * f[7] as nat;
            var high := f[8] as nat + 0x100 * f[9] as nat + 0x1_0000 * f[10] as nat + 0x100_0000 * f[11] as nat;
            var size := low + 0x1_0000_0000 * high;
            match Decode(f)
            case None => size > 1012
            case Some(p) =>
              && size <= 1012 && p.kind == kind && p.data <= f[12..12 + size] && 0 !in p.data
              && (|p.data| < size ==> f[12 + |p.data|] == 0)
  {
    hide FromLittleEndian, CutAtNul;
    FourBytes(f[..4]);
    EightBytes(f[4..12]);
  }

  function Counterpart(t: ClientType): ServerType {
    match t
    case Message => ServerType.Message
    case NewConnection => ServerType.NewConnection
    case ConnectionSuccess => ServerType.ConnectionSuccess
    case ConnectionClose => ConectionClose
  }

  /** What the client writes as one of its types the server reads as the type of the same name. */
  lemma ServerReadsClientTypes(t: ClientType, data: seq<Byte>, prior: Frame)
    requires |data| <= CAPACITY
    ensures var p := Decode(Encode(Package(ClientOrdinal(t), data), prior));
            p.Some? && ServerTypeOf(p.value.kind) == Some(Counterpart(t)) && p.value.data == CutAtNul(data)
    ensures forall n :: n > 3 ==> ServerTypeOf(n).None?
  {
    hide Encode, Decode, CutAtNul;
    RoundTrip(Package(ClientOrdinal(t), data), prior);
  }

  /** The frame of a client starts with the position of its type, as one byte. */
  lemma TypeByte(t: ClientType, data: seq<Byte>, prior: Frame)
    requires |data| <= CAPACITY
    ensures var f := Encode(Package(ClientOrdinal(t), data), prior);
            && f[0] == (match t
                        case Message => 0
                        case NewConnection => 1
                        case ConnectionSuccess => 2
                        case ConnectionClose => 3)
            && f[1] == f[2] == f[3] == 0
  {
    hide Encode, FromLittleEndian, LittleEndian;
    var p := Package(ClientOrdinal(t), data);
    var f := Encode(p, prior);
    WireFormat(p, prior);
    OneByte(f[0], f[1], f[2], f[3], p.kind);
  }

  lemma OneByte(a: Byte, b: Byte, c: Byte, d: Byte, n: nat)
    requires a as nat + 0x100 * b as nat + 0x1_0000 * c as nat + 0x100_0000 * d as nat == n < 0x100
    ensures a as nat == n && b == c == d == 0
  {
  }

  // ---- The code: copies at a moving offset ----

  method MemCpy(buffer: array<Byte>, offset: nat, bytes: seq<Byte>)
    requires offset + |bytes| <= buffer.Length
    modifies buffer
    ensures buffer[..] == old(buffer[..offset]) + bytes + old(buffer[offset + |bytes|..])
  {
    for i := 0 to |bytes|
      invariant buffer[..] == old(buffer[..offset]) + bytes[..i] + old(buffer[offset + i..])
    {
      buffer[offset + i] := bytes[i];
      assert bytes[..i + 1] == bytes[..i] + [bytes[i]];
    }
    assert bytes[..|bytes|] == bytes;
  }

  method Serialize(p: Package, buffer: array<Byte>)
    requires buffer.Length == FRAME && p.Fits()
    modifies buffer
    ensures buffer[..] == Encode(p, old(buffer[..]))
  {
    var offset := 0;
    MemCpy(buffer, offset, LittleEndian(p.kind, 4));
    offset := offset + 4;
    MemCpy(buffer, offset, LittleEndian(|p.data|, 8));
    offset := offset + 8;
    MemCpy(buffer, offset, p.data);
  }

  method Deserialize(buffer: array<Byte>) returns (p: Option<Package>)
    requires buffer.Length == FRAME
    ensures p == Decode(buffer[..])
  {
    var offset := 0;
    var kind := FromLittleEndian(buffer[offset..offset + 4]);
    offset := offset + 4;
    var size := FromLittleEndian(buffer[offset..offset + 8]);
    offset := offset + 8;
    assert buffer[..][..4] == buffer[0..4] && buffer[..][4..12] == buffer[4..12];
    if size > buffer.Length - offset {
      return None;
    }
    assert buffer[..][offset..offset + size] == buffer[offset..offset + size];
    p := Some(Package(kind, CutAtNul(buffer[offset..offset + size])));
  }
}
