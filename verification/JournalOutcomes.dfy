/** What a journal holds and hands back for an order or a trade, field by field and byte by byte
    (src/replay/event_journal.cpp): the enumeration values, widths and offsets are written out here. */
module JournalOutcomes {
  import opened Core
  import opened Bytes
  import opened JournalFormat
  import opened JournalEntries

  // ----- What replay hands back -----

  /** An order entry is delivered exactly when it is an order event, with the order's own fields and the values of
      its enumerations. */
  lemma OrderIsDelivered(sequence: Word64, now: Word64, o: Order, eventType: Byte, pad: Data)
    requires |pad| == 8
    ensures var heard := Heard(OrderEntry(sequence, now, o, eventType, pad), true, true);
      && (eventType > 2 ==> heard == [])
      && (eventType <= 2 ==>
        |heard| == 1 && heard[0].OrderDelivery? && heard[0].eventType == eventType && StoredOrder(o, heard[0].order))
  {
    hide EncodeOrder, DecodeOrder, CrcOf, StoredOrder;
    OrderRoundTrip(OrderRecord(o), pad);
    OrderIsStored(o);
  }

  ghost predicate StoredOrder(o: Order, j: JournalOrder) {
    && j.id == o.id && j.symbol == o.symbol && j.price == o.price && j.quantity == o.quantity
    && j.timestamp == o.timestamp % 0x1_0000_0000_0000_0000
    && (o.side == Buy ==> j.side == 0) && (o.side == Sell ==> j.side == 1)
    && (o.kind == Limit ==> j.kind == 0) && (o.kind == Market ==> j.kind == 1)
    && (o.kind == ImmediateOrCancel ==> j.kind == 2) && (o.kind == FillOrKill ==> j.kind == 3)
    && (o.kind == PostOnly ==> j.kind == 4)
    && (o.tif == Day ==> j.tif == 0) && (o.tif == GoodTillCancel ==> j.tif == 1)
    && (o.tif == IocTif ==> j.tif == 2) && (o.tif == FokTif ==> j.tif == 3)
  }

  lemma OrderIsStored(o: Order)
    ensures StoredOrder(o, OrderRecord(o))
  {
  }

  /** A trade entry is always delivered, with number, symbol, price, quantity and both parties as they were. */
  lemma TradeIsDelivered(sequence: Word64, now: Word64, t: Trade, pad: Data)
    requires |pad| == 4
    ensures var heard := Heard(TradeEntry(sequence, now, t, pad), true, true);
      |heard| == 1 && heard[0].TradeDelivery? && StoredTrade(t, heard[0].trade)
  {
    hide EncodeTrade, DecodeTrade, CrcOf;
    TradeRoundTrip(TradeRecord(t), pad);
  }

  ghost predicate StoredTrade(t: Trade, j: JournalTrade) {
    && j.seqNum == t.seqNum % 0x1_0000_0000_0000_0000 && j.symbol == t.symbol
    && j.price == t.price && j.quantity == t.quantity
    && j.buyOrderId == t.buyOrderId && j.sellOrderId == t.sellOrderId
    && (t.aggressor == Buy ==> j.aggressor == 0) && (t.aggressor == Sell ==> j.aggressor == 1)
  }

  // ----- A whole journal -----

  datatype Event =
    | OrderEvent(sequence: Word64, now: Word64, order: Order, eventType: Byte, pad: Data)
    | TradeEvent(sequence: Word64, now: Word64, trade: Trade, pad: Data)

  predicate Loggable(ev: Event) {
    match ev
    case OrderEvent(_, _, _, eventType, pad) => eventType <= 2 && |pad| == 8
    case TradeEvent(_, _, _, pad) => |pad| == 4
  }

  function Recorded(ev: Event): (e: Entry)
    requires Loggable(ev)
    ensures Whole(e)
  {
    match ev
    case OrderEvent(sequence, now, order, eventType, pad) => OrderEntry(sequence, now, order, eventType, pad)
    case TradeEvent(sequence, now, trade, pad) => TradeEntry(sequence, now, trade, pad)
  }

  function AllRecorded(evs: seq<Event>): (es: seq<Entry>)
    requires forall i :: 0 <= i < |evs| ==> Loggable(evs[i])
    ensures AllWhole(es)
  {
    if evs == [] then [] else [Recorded(evs[0])] + AllRecorded(evs[1..])
  }

  ghost predicate Tells(d: Delivery, ev: Event) {
    match ev
    case OrderEvent(_, _, order, eventType, _) =>
      d.OrderDelivery? && d.eventType == eventType && StoredOrder(order, d.order)
    case TradeEvent(_, _, trade, _) => d.TradeDelivery? && StoredTrade(trade, d.trade)
  }

  /** Replaying the bytes of a journal of orders and trades calls back once for each of them, in the order they were
      logged, with what was logged. */
  lemma JournalTellsAll(evs: seq<Event>)
    requires forall i :: 0 <= i < |evs| ==> Loggable(evs[i])
    ensures var heard := AllHeard(Parse(Flatten(AllRecorded(evs))), true, true);
      |heard| == |evs| && forall k :: 0 <= k < |evs| ==> Tells(heard[k], evs[k])
  {
    hide AllRecorded, Flatten, Parse, Tells, AllHeard;
    ReadsBack(AllRecorded(evs));
    AllTold(evs);
  }

  lemma {:induction false} AllTold(evs: seq<Event>)
    requires forall i :: 0 <= i < |evs| ==> Loggable(evs[i])
    ensures var heard := AllHeard(AllRecorded(evs), true, true);
      |heard| == |evs| && forall k :: 0 <= k < |evs| ==> Tells(heard[k], evs[k])
  {
    hide Tells, Heard, Recorded;
    if evs != [] {
      OneTold(evs[0]);
      AllTold(evs[1..]);
      var heard := AllHeard(AllRecorded(evs), true, true);
      var rest := AllHeard(AllRecorded(evs[1..]), true, true);
      assert heard == Heard(Recorded(evs[0]), true, true) + rest;
      forall k | 0 <= k < |evs|
        ensures Tells(heard[k], evs[k])
      {
        if k > 0 {
          assert Tells(rest[k - 1], evs[1..][k - 1]);
        }
      }
    }
  }

  lemma OneTold(ev: Event)
    requires Loggable(ev)
    ensures var heard := Heard(Recorded(ev), true, true); |heard| == 1 && Tells(heard[0], ev)
  {
    hide Heard, OrderEntry, TradeEntry, StoredOrder, StoredTrade;
    match ev
    case OrderEvent(sequence, now, order, eventType, pad) =>
      OrderIsDelivered(sequence, now, order, eventType, pad);
    case TradeEvent(sequence, now, trade, pad) =>
      TradeIsDelivered(sequence, now, trade, pad);
  }

  // ----- What the file holds -----

  /** `width` bytes from `at` on are the number `n`, least significant byte first. */
  ghost predicate LittleEndian(bytes: Data, at: nat, width: nat, n: int) {
    && at + width <= |bytes|
    && forall k :: 0 <= k < width ==> bytes[at + k] == n / Pow2(8 * k) % 256
  }

  ghost predicate ZerosIn(bytes: Data, from: nat, to: nat) {
    to <= |bytes| && forall k :: from <= k < to ==> bytes[k] == 0
  }

  /** The 32 bytes of a header. */
  lemma HeaderLayout(h: Header)
    ensures var b := EncodeHeader(h);
      && LittleEndian(b, 0, 8, h.sequence) && LittleEndian(b, 8, 8, h.timestamp)
      && b[16] == h.eventType && ZerosIn(b, 17, 24)
      && LittleEndian(b, 24, 4, h.payloadSize) && LittleEndian(b, 28, 4, h.checksum)
  {
    hide Put64, Put32, LittleEndian;
    var b := EncodeHeader(h);
    assert b[0..8] == Put64(h.sequence);
    assert b[8..16] == Put64(h.timestamp);
    assert b[24..28] == Put32(h.payloadSize);
    assert b[28..32] == Put32(h.checksum);
    Field64(b, 0, h.sequence);
    Field64(b, 8, h.timestamp);
    Field32(b, 24, h.payloadSize);
    Field32(b, 28, h.checksum);
  }

  /** An order entry: the header of 48 bytes of payload and their CRC-32, then the order's fields at their offsets,
      prices and times modulo 2^64. */
  lemma OrderEntryLayout(sequence: Word64, now: Word64, o: Order, eventType: Byte, pad: Data)
    requires |pad| == 8
    ensures var e := OrderEntry(sequence, now, o, eventType, pad); var b := e.payload;
      && e.header == Header(sequence, now, eventType, 48, CrcOf(b)) && |b| == 48
      && LittleEndian(b, 0, 8, o.id) && b[8..16] == o.symbol && b[19] == 0 && b[20..24] == pad[..4]
      && LittleEndian(b, 24, 8, o.price % 0x1_0000_0000_0000_0000) && LittleEndian(b, 32, 4, o.quantity)
      && b[36..40] == pad[4..] && LittleEndian(b, 40, 8, o.timestamp % 0x1_0000_0000_0000_0000)
  {
    hide EncodeOrder, Put64, Put32, LittleEndian, CrcOf;
    var j := OrderRecord(o);
    var b := EncodeOrder(j, pad);
    OrderParts(j, pad);
    Field64(b, 0, o.id);
    Field64(b, 24, FromPrice(o.price));
    Field32(b, 32, o.quantity);
    Field64(b, 40, j.timestamp);
  }

  lemma OrderParts(j: JournalOrder, pad: Data)
    requires |pad| == 8
    ensures var b := EncodeOrder(j, pad);
      && b[0..8] == Put64(j.id) && b[8..16] == j.symbol && b[19] == 0 && b[20..24] == pad[..4]
      && b[24..32] == Put64(FromPrice(j.price)) && b[32..36] == Put32(j.quantity)
      && b[36..40] == pad[4..] && b[40..48] == Put64(j.timestamp)
  {
    hide Put64, Put32;
  }

  /** Its three enumeration bytes. */
  lemma OrderEntryCodes(sequence: Word64, now: Word64, o: Order, eventType: Byte, pad: Data)
    requires |pad| == 8
    ensures var b := OrderEntry(sequence, now, o, eventType, pad).payload;
      && b[16] == (if o.side == Buy then 0 else 1)
      && b[17] == (match o.kind
                   case Limit => 0 case Market => 1 case ImmediateOrCancel => 2 case FillOrKill => 3 case PostOnly => 4)
      && b[18] == (match o.tif case Day => 0 case GoodTillCancel => 1 case IocTif => 2 case FokTif => 3)
  {
    hide Put64, Put32, CrcOf;
  }

  /** A trade entry likewise, of 56 bytes. */
  lemma TradeEntryLayout(sequence: Word64, now: Word64, t: Trade, pad: Data)
    requires |pad| == 4
    ensures var e := TradeEntry(sequence, now, t, pad); var b := e.payload;
      && e.header == Header(sequence, now, 3, 56, CrcOf(b)) && |b| == 56
      && LittleEndian(b, 0, 8, t.seqNum % 0x1_0000_0000_0000_0000) && b[8..16] == t.symbol
      && LittleEndian(b, 16, 8, t.price % 0x1_0000_0000_0000_0000) && LittleEndian(b, 24, 4, t.quantity)
      && b[28..32] == pad && LittleEndian(b, 32, 8, t.buyOrderId) && LittleEndian(b, 40, 8, t.sellOrderId)
      && b[48] == (if t.aggressor == Buy then 0 else 1) && ZerosIn(b, 49, 56)
  {
    hide EncodeTrade, Put64, Put32, LittleEndian, ZerosIn, CrcOf;
    var j := TradeRecord(t);
    var b := EncodeTrade(j, pad);
    TradeParts(j, pad);
    Field64(b, 0, j.seqNum);
    Field64(b, 16, FromPrice(t.price));
    Field32(b, 24, t.quantity);
    Field64(b, 32, t.buyOrderId);
    Field64(b, 40, t.sellOrderId);
  }

  lemma TradeParts(j: JournalTrade, pad: Data)
    requires |pad| == 4
    ensures var b := EncodeTrade(j, pad);
      && b[0..8] == Put64(j.seqNum) && b[8..16] == j.symbol && b[16..24] == Put64(FromPrice(j.price))
      && b[24..28] == Put32(j.quantity) && b[28..32] == pad
      && b[32..40] == Put64(j.buyOrderId) && b[40..48] == Put64(j.sellOrderId)
      && b[48] == j.aggressor && ZerosIn(b, 49, 56)
  {
    hide Put64, Put32;
  }

  lemma Field64(b: Data, at: nat, n: Word64)
    requires at + 8 <= |b| && b[at..at + 8] == Put64(n)
    ensures LittleEndian(b, at, 8, n)
  {
    forall k | 0 <= k < 8
      ensures b[at + k] == n / Pow2(8 * k) % 256
    {
      DigitAt(n, 8, k);
      assert b[at + k] == b[at..at + 8][k];
    }
  }

  lemma Field32(b: Data, at: nat, n: Quantity)
    requires at + 4 <= |b| && b[at..at + 4] == Put32(n)
    ensures LittleEndian(b, at, 4, n)
  {
    forall k | 0 <= k < 4
      ensures b[at + k] == n / Pow2(8 * k) % 256
    {
      DigitAt(n, 4, k);
      assert b[at + k] == b[at..at + 4][k];
    }
  }

  lemma {:induction false} DigitAt(n: nat, width: nat, k: nat)
    requires k < width
    ensures Encode(n, width)[k] == n / Pow2(8 * k) % 256
    decreases k
  {
    if k == 0 {
      assert Pow2(0) == 1;
    } else {
      DigitAt(n / 256, width - 1, k - 1);
      DivideTwice(n, Pow2(8 * (k - 1)));
      Pow2Octave(8 * (k - 1));
    }
  }

  lemma Pow2Octave(m: nat)
    ensures Pow2(m + 8) == 256 * Pow2(m)
  {
    assert Pow2(m + 2) == 4 * Pow2(m);
    assert Pow2(m + 4) == 4 * Pow2(m + 2);
    assert Pow2(m + 6) == 4 * Pow2(m + 4);
    assert Pow2(m + 8) == 4 * Pow2(m + 6);
  }

  lemma DivideTwice(n: nat, m: nat)
    requires m > 0
    ensures n / 256 / m == n / (256 * m)
  {
    var q, r := n / 256 / m, n / 256 % m;
    assert n / 256 == q * m + r;
    assert n == q * (256 * m) + (256 * r + n % 256);
    DivModUnique(n, 256 * m, q, 256 * r + n % 256);
  }
}
