/**
  The length fields of a packet: the 11-bit count of 4-byte words in the local route header,
  the pad count in the base transport header, and the sizes the receiver computes from them.
 */
module PacketLength {
  import opened WorkRequest
  import opened OpCode

  const LRH := 8
  const GRH := 40
  const BTH := 12
  const ICRC := 4
  const FOOTER := 8

  const MAX_PACKET_PAYLOAD := 4096
  const PACKET_BUFFER := 8192

  /** Headers before the extended transport header. */
  function HeaderSize(global: bool): nat {
    if global then LRH + GRH + BTH else LRH + BTH
  }

  /** Position of the byte with the solicited bit, the pad count and the version. */
  function PadPosition(global: bool): nat {
    HeaderSize(global) - BTH + 1
  }

  // ---------------------------------------------------------------------------
  // Field accessors

  function GetPktlen(p: seq<Byte>): nat
    requires |p| >= LRH
  {
    (p[6] as int * 0x100 + p[7]) % 0x800
  }

  function GetPadcnt(b: Byte): nat {
    (b / 0x10) % 4
  }

  function GetSolicited(b: Byte): nat {
    (b / 0x80) % 2
  }

  /** A byte put together from its upper two, middle two and lower four bits. */
  lemma PadBits(high: nat, middle: nat, low: nat)
    requires high < 4 && middle < 4 && low < 0x10
    ensures var b := high * 0x40 + middle * 0x10 + low;
      b < 0x100 && b / 0x40 == high && (b / 0x10) % 4 == middle && b % 0x10 == low && (b / 0x80) % 2 == high / 2
  {
  }

  /** The byte with bits 4 and 5 replaced. */
  function WithPadcnt(b: Byte, padcnt: nat): (b': Byte)
    ensures GetPadcnt(b') == padcnt % 4
    ensures GetSolicited(b') == GetSolicited(b) && b' % 0x10 == b % 0x10 && b' / 0x40 == b / 0x40
  {
    PadBits(b / 0x40, padcnt % 4, b % 0x10);
    PadBits(b / 0x40, (b / 0x10) % 4, b % 0x10);
    (b / 0x40) * 0x40 + (padcnt % 4) * 0x10 + b % 0x10
  }

  lemma SolicitedBit(low: nat, bit: nat)
    requires low < 0x80 && bit < 2
    ensures var b := bit * 0x80 + low;
      b < 0x100 && (b / 0x80) % 2 == bit && b % 0x80 == low && (b / 0x10) % 4 == (low / 0x10) % 4
  {
  }

  /** The byte with bit 7 replaced. */
  function WithSolicited(b: Byte, solicited: bool): (b': Byte)
    ensures GetSolicited(b') == if solicited then 1 else 0
    ensures GetPadcnt(b') == GetPadcnt(b) && b' % 0x80 == b % 0x80
  {
    SolicitedBit(b % 0x80, if solicited then 1 else 0);
    SolicitedBit(b % 0x80, b / 0x80);
    b % 0x80 + if solicited then 0x80 else 0
  }

  lemma PktlenBytes(value: nat)
    ensures var hi, lo := (value % 0x800) / 0x100, value % 0x100;
      0 <= hi < 8 && 0 <= lo < 0x100 && hi * 0x100 + lo == value % 0x800
  {
    assert (value % 0x800) % 0x100 == value % 0x100;
  }

  method SetPktlen(p: array<Byte>, value: nat)
    requires p.Length >= LRH && value < 0x1_0000
    modifies p
    ensures GetPktlen(p[..]) == value % 0x800
    ensures forall i :: 0 <= i < p.Length && i != 6 && i != 7 ==> p[i] == old(p[i])
  {
    PktlenBytes(value);
    p[6], p[7] := (value % 0x800) / 0x100, value % 0x100;
  }

  // ---------------------------------------------------------------------------
  // The sender's side

  function RoundUp4(n: nat): (r: nat)
    ensures r % 4 == 0 && n <= r < n + 4
  {
    (n + 3) / 4 * 4
  }

  /** Words on the wire, the invariant CRC included. */
  function Words(length: nat): nat {
    (RoundUp4(length) + ICRC) / 4
  }

  /**
    The end of process_SEND_or_RDMA_WRITE_request: `length` bytes of headers and payload are in
    the buffer; the length fields are filled in.
   */
  method Finish(p: array<Byte>, global: bool, length: nat, solicited: bool)
    requires HeaderSize(global) <= length <= p.Length && Words(length) < 0x1_0000
    modifies p
    ensures GetPktlen(p[..]) == Words(length) % 0x800
    ensures var b := p[PadPosition(global)];
      && GetPadcnt(b) == RoundUp4(length) - length
      && GetSolicited(b) == (if solicited then 1 else 0)
    ensures forall i :: 0 <= i < p.Length && i !in {6, 7, PadPosition(global)} ==> p[i] == old(p[i])
    ensures p.Length == PACKET_BUFFER && old(p[2]) % 0x10 == 0 && old(p[3]) % 4 == (if global then 3 else 2)
      ==> Finished(p[..], global, length)
  {
    hide GetPktlen, GetPadcnt, GetSolicited, WithPadcnt, WithSolicited, Words, RoundUp4;
    var i := PadPosition(global);
    SetPktlen(p, Words(length));
    ghost var q := p[..];
    p[i] := WithPadcnt(p[i], RoundUp4(length) - length);
    p[i] := WithSolicited(p[i], solicited);
    SamePktlen(q, p[..]);
  }

  lemma SamePktlen(p: seq<Byte>, q: seq<Byte>)
    requires |p| >= LRH && |q| >= LRH && p[6] == q[6] && p[7] == q[7]
    ensures GetPktlen(p) == GetPktlen(q)
  {
  }

  /** process_sendmsg: the packet as its length field counts it, then the footer; nothing if the count is unusable. */
  function Datagram(p: seq<Byte>, footer: seq<Byte>): seq<Byte>
    requires |p| == PACKET_BUFFER
  {
    var size := GetPktlen(p) * 4;
    if size == 0 || PACKET_BUFFER < size then [] else p[..size] + footer
  }

  // ---------------------------------------------------------------------------
  // The receiver's side

  datatype Header = Bad(code: int) | Raw | Transport(global: bool)

  /** pib_parse_packet_header. */
  function ParseHeader(p: seq<Byte>): Header {
    if |p| < LRH then Bad(-1)
    else if GetPktlen(p) * 4 != |p| then Bad(-1)
    else if p[2] % 0x10 != 0 then Bad(-2)
    else
      var next := p[3] % 4;
      if next == 2 then if |p| - LRH < BTH then Bad(-1) else Transport(false)
      else if next == 0 then Raw
      else if next != 3 then Bad(-3)
      else if |p| - LRH < GRH then Bad(-1)
      else if |p| - LRH - GRH < BTH then Bad(-1)
      else Transport(true)
  }

  datatype Incoming = Drop | RawPacket(rest: nat) | Deliver(global: bool, size: int)

  /** The sizing of process_incoming_message: bytes left for extended header and payload. */
  function Receive(datagram: seq<Byte>): Incoming {
    if |datagram| < FOOTER then Drop
    else
      var p := datagram[..|datagram| - FOOTER];
      match ParseHeader(p)
      case Bad(_) => Drop
      case Raw => RawPacket(|p| - LRH)
      case Transport(global) =>
        var padded := |p| - HeaderSize(global) - GetPadcnt(p[PadPosition(global)]);
        if padded < 0 || padded - ICRC < 0 then Drop else Deliver(global, padded - ICRC)
  }

  /** What is delivered lies inside the datagram: headers, data, pad, CRC and footer add up to its size. */
  lemma DeliveredAddsUp(datagram: seq<Byte>)
    requires Receive(datagram).Deliver?
    ensures var r := Receive(datagram);
      && HeaderSize(r.global) + r.size <= |datagram|
      && |datagram| == HeaderSize(r.global) + r.size + GetPadcnt(datagram[PadPosition(r.global)]) + ICRC + FOOTER
      && r.size >= 0 && (|datagram| - FOOTER) % 4 == 0
  {
    hide GetPktlen, GetPadcnt;
  }

  /** The fields `Finish` leaves in a packet whose route header names version 0 and the next header. */
  predicate Finished(p: seq<Byte>, global: bool, length: nat) {
    && |p| == PACKET_BUFFER
    && GetPktlen(p) == Words(length) % 0x800
    && GetPadcnt(p[PadPosition(global)]) == RoundUp4(length) - length
    && p[2] % 0x10 == 0 && p[3] % 4 == if global then 3 else 2
  }

  lemma WordsCount(length: nat)
    ensures Words(length) * 4 == RoundUp4(length) + ICRC
  {
  }

  /** The receiver recovers header size and data length if and only if the word count fits in 11 bits. */
  lemma RoundTripIff(p: seq<Byte>, footer: seq<Byte>, global: bool, length: nat)
    requires HeaderSize(global) <= length && |footer| == FOOTER && Finished(p, global, length)
    ensures Receive(Datagram(p, footer)) == Deliver(global, length - HeaderSize(global)) <==> Words(length) < 0x800
  {
    hide GetPktlen, GetPadcnt, Words, RoundUp4;
    WordsCount(length);
    var size := GetPktlen(p) * 4;
    var datagram := Datagram(p, footer);
    if size == 0 {
      assert datagram == [];
    } else {
      var q := datagram[..|datagram| - FOOTER];
      assert q == p[..size];
      if size >= LRH {
        SamePktlen(p, q);
      }
    }
  }

  /** Bytes of extended transport header each opcode carries. */
  function ExtendedSize(op: OpCode): nat {
    match op
    case Acknowledge | ReadResponseFirst | ReadResponseLast | ReadResponseOnly => 4
    case AtomicAcknowledge => 12
    case ReadResponseMiddle => 0
    case _ => ExtensionSize(op)
  }

  /** Every packet the transport builds survives the trip. */
  lemma SupportedPacketsArrive(p: seq<Byte>, footer: seq<Byte>, global: bool, op: OpCode, payload: nat)
    requires payload <= MAX_PACKET_PAYLOAD && |footer| == FOOTER
    requires Finished(p, global, HeaderSize(global) + ExtendedSize(op) + payload)
    ensures Receive(Datagram(p, footer)) == Deliver(global, ExtendedSize(op) + payload)
  {
    var length := HeaderSize(global) + ExtendedSize(op) + payload;
    RoundTripIff(p, footer, global, length);
    WordsCount(length);
    hide Words;
  }
}
