/** The journal's records as bytes, and what any byte string reads as (include/replay/event_journal.hpp). */
module JournalFormat {
  import opened Core
  import opened Bytes
  import Crc

  // ----- Records -----

  const ORDER_NEW: Byte := 0
  const ORDER_CANCEL: Byte := 1
  const ORDER_REPLACE: Byte := 2
  const TRADE: Byte := 3
  const BOOK_SNAPSHOT: Byte := 4

  const HEADER_SIZE := 32
  const ORDER_SIZE := 48
  const TRADE_SIZE := 56

  datatype Header = Header(
    sequence: Word64, timestamp: Word64, eventType: Byte, payloadSize: Quantity, checksum: Quantity)

  /** The enumerations are kept as the bytes stored, since a file may hold any. */
  datatype JournalOrder = JournalOrder(
    id: OrderId, symbol: Symbol, side: Byte, kind: Byte, tif: Byte,
    price: Price, quantity: Quantity, timestamp: Word64)

  datatype JournalTrade = JournalTrade(
    seqNum: Word64, symbol: Symbol, price: Price, quantity: Quantity,
    buyOrderId: OrderId, sellOrderId: OrderId, aggressor: Byte)

  function SideCode(s: Side): Byte {
    match s
    case Buy => 0
    case Sell => 1
  }

  function KindCode(k: OrderType): Byte {
    match k
    case Limit => 0
    case Market => 1
    case ImmediateOrCancel => 2
    case FillOrKill => 3
    case PostOnly => 4
  }

  function TifCode(t: TimeInForce): Byte {
    match t
    case Day => 0
    case GoodTillCancel => 1
    case IocTif => 2
    case FokTif => 3
  }

  function OrderRecord(o: Order): JournalOrder {
    JournalOrder(o.id, o.symbol, SideCode(o.side), KindCode(o.kind), TifCode(o.tif), o.price, o.quantity,
                 o.timestamp % 0x1_0000_0000_0000_0000)
  }

  function TradeRecord(t: Trade): JournalTrade {
    JournalTrade(t.seqNum % 0x1_0000_0000_0000_0000, t.symbol, t.price, t.quantity, t.buyOrderId, t.sellOrderId,
                 SideCode(t.aggressor))
  }

  // ----- Bytes of records -----

  function EncodeHeader(h: Header): (bytes: Data)
    ensures |bytes| == HEADER_SIZE
  {
    Put64(h.sequence) + Put64(h.timestamp) + [h.eventType] + [0, 0, 0, 0, 0, 0, 0]
    + Put32(h.payloadSize) + Put32(h.checksum)
  }

  function DecodeHeader(b: Data): Header
    requires |b| == HEADER_SIZE
  {
    Header(U64(b[0..8]), U64(b[8..16]), b[16], U32(b[24..28]), U32(b[28..32]))
  }

  /** Four bytes of struct padding follow the enumerations and four follow the quantity; nothing sets them. */
  function EncodeOrder(o: JournalOrder, pad: Data): (bytes: Data)
    requires |pad| == 8
    ensures |bytes| == ORDER_SIZE
  {
    Put64(o.id) + o.symbol + [o.side, o.kind, o.tif, 0] + pad[..4]
    + PutPrice(o.price) + Put32(o.quantity) + pad[4..] + Put64(o.timestamp)
  }

  function DecodeOrder(b: Data): JournalOrder
    requires |b| >= ORDER_SIZE
  {
    JournalOrder(U64(b[0..8]), b[8..16], b[16], b[17], b[18],
                 ToPrice(U64(b[24..32])), U32(b[32..36]), U64(b[40..48]))
  }

  function EncodeTrade(t: JournalTrade, pad: Data): (bytes: Data)
    requires |pad| == 4
    ensures |bytes| == TRADE_SIZE
  {
    Put64(t.seqNum) + t.symbol + PutPrice(t.price) + Put32(t.quantity) + pad
    + Put64(t.buyOrderId) + Put64(t.sellOrderId) + [t.aggressor] + [0, 0, 0, 0, 0, 0, 0]
  }

  function DecodeTrade(b: Data): JournalTrade
    requires |b| >= TRADE_SIZE
  {
    JournalTrade(U64(b[0..8]), b[8..16], ToPrice(U64(b[16..24])), U32(b[24..28]),
                 U64(b[32..40]), U64(b[40..48]), b[48])
  }

  lemma HeaderRoundTrip(h: Header)
    ensures DecodeHeader(EncodeHeader(h)) == h
  {
    hide Put64, Put32, U64, U32;
    var b := EncodeHeader(h);
    assert b[0..8] == Put64(h.sequence);
    assert b[8..16] == Put64(h.timestamp);
    assert b[24..28] == Put32(h.payloadSize);
    assert b[28..32] == Put32(h.checksum);
  }

  lemma OrderRoundTrip(o: JournalOrder, pad: Data)
    requires |pad| == 8
    ensures DecodeOrder(EncodeOrder(o, pad)) == o
  {
    hide Put64, Put32, PutPrice, U64, U32, ToPrice;
    var b := EncodeOrder(o, pad);
    assert b[0..8] == Put64(o.id);
    assert b[8..16] == o.symbol;
    assert b[24..32] == PutPrice(o.price);
    assert b[32..36] == Put32(o.quantity);
    assert b[40..48] == Put64(o.timestamp);
  }

  lemma TradeRoundTrip(t: JournalTrade, pad: Data)
    requires |pad| == 4
    ensures DecodeTrade(EncodeTrade(t, pad)) == t
  {
    hide Put64, Put32, PutPrice, U64, U32, ToPrice;
    var b := EncodeTrade(t, pad);
    assert b[0..8] == Put64(t.seqNum);
    assert b[8..16] == t.symbol;
    assert b[16..24] == PutPrice(t.price);
    assert b[24..28] == Put32(t.quantity);
    assert b[32..40] == Put64(t.buyOrderId);
    assert b[40..48] == Put64(t.sellOrderId);
  }

  // ----- Checksums -----

  function Bits(data: Data): (bits: seq<bv8>)
    ensures |bits| == |data|
  {
    seq(|data|, i requires 0 <= i < |data| => Octet(data[i]))
  }

  /** What the table in use computes. */
  function SumOf(table: seq<Crc.Word>, payload: Data): Quantity
    requires |table| == 256
  {
    Crc.Checksum(table, Bits(payload)) as int
  }

  /** What RFC 1952 defines. */
  function CrcOf(payload: Data): Quantity {
    Crc.Crc32(Bits(payload)) as int
  }

  lemma SumIsCrc(table: seq<Crc.Word>, payload: Data)
    requires Crc.TableOk(table)
    ensures SumOf(table, payload) == CrcOf(payload)
  {
    Crc.ChecksumIsCrc32(table, Bits(payload));
  }

  lemma SameWordSameInt(a: Crc.Word, b: Crc.Word)
    requires a as int == b as int
    ensures a == b
  {
    assert (a as int) as Crc.Word == a;
    assert (b as int) as Crc.Word == b;
  }

  lemma {:induction false} BitsInjective(v: Data, w: Data)
    requires |v| == |w| && Bits(v) == Bits(w)
    ensures v == w
  {
    hide Octet, Unsigned;
    forall i | 0 <= i < |v|
      ensures v[i] == w[i]
    {
      assert Octet(v[i]) == Bits(v)[i] == Octet(w[i]);
      OctetKeeps(v[i]);
      OctetKeeps(w[i]);
    }
  }

  lemma BitsOfParts(p: Data, v: Data, s: Data)
    ensures Bits(p + v + s) == Bits(p) + Bits(v) + Bits(s)
  {
    hide Octet;
  }

  /** Damage confined to four neighbouring bytes always changes the sum. */
  lemma DamageChangesCrc(p: Data, v: Data, w: Data, s: Data)
    requires |v| == |w| <= 4 && v != w
    ensures CrcOf(p + v + s) != CrcOf(p + w + s)
  {
    hide Bits, Crc.Crc32;
    if Bits(v) == Bits(w) {
      BitsInjective(v, w);
    }
    BitsOfParts(p, v, s);
    BitsOfParts(p, w, s);
    Crc.BurstIsDetected(Bits(p), Bits(v), Bits(w), Bits(s));
    if CrcOf(p + v + s) == CrcOf(p + w + s) {
      SameWordSameInt(Crc.Crc32(Bits(p + v + s)), Crc.Crc32(Bits(p + w + s)));
    }
  }
}
