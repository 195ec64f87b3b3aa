/** A journal as a sequence of entries: what a file of them holds, and what any file, whole or torn, reads as. */
module JournalEntries {
  import opened Core
  import opened Bytes
  import opened JournalFormat
  import Crc

  datatype Entry = Entry(header: Header, payload: Data)

  /** The header tells the true size of what follows it. */
  predicate Whole(e: Entry) {
    e.header.payloadSize == |e.payload|
  }

  predicate AllWhole(es: seq<Entry>) {
    forall i :: 0 <= i < |es| ==> Whole(es[i])
  }

  function Size(e: Entry): nat {
    HEADER_SIZE + |e.payload|
  }

  function EntryBytes(e: Entry): (bytes: Data)
    ensures |bytes| == Size(e)
  {
    EncodeHeader(e.header) + e.payload
  }

  function Flatten(es: seq<Entry>): Data {
    if es == [] then [] else EntryBytes(es[0]) + Flatten(es[1..])
  }

  /** One read: nothing when the header or the payload is cut short. */
  function NextEntry(data: Data): (next: Option<Entry>)
    ensures next.Some? ==> Whole(next.value) && Size(next.value) <= |data|
  {
    if |data| < HEADER_SIZE then None
    else
      var h := DecodeHeader(data[..HEADER_SIZE]);
      if |data| - HEADER_SIZE < h.payloadSize then None
      else Some(Entry(h, data[HEADER_SIZE..HEADER_SIZE + h.payloadSize]))
  }

  /** Reading until a read fails. */
  function Parse(data: Data): seq<Entry>
    decreases |data|
  {
    match NextEntry(data)
    case None => []
    case Some(e) => [e] + Parse(data[Size(e)..])
  }

  // ----- What the journal writes -----

  function OrderEntry(sequence: Word64, now: Word64, o: Order, eventType: Byte, pad: Data): (e: Entry)
    requires |pad| == 8
    ensures Whole(e)
  {
    var payload := EncodeOrder(OrderRecord(o), pad);
    Entry(Header(sequence, now, eventType, ORDER_SIZE, CrcOf(payload)), payload)
  }

  function TradeEntry(sequence: Word64, now: Word64, t: Trade, pad: Data): (e: Entry)
    requires |pad| == 4
    ensures Whole(e)
  {
    var payload := EncodeTrade(TradeRecord(t), pad);
    Entry(Header(sequence, now, TRADE, TRADE_SIZE, CrcOf(payload)), payload)
  }

  /** Entries as written pass the check and replay as what was logged, whatever the padding holds. */
  lemma OrderEntryReplays(sequence: Word64, now: Word64, o: Order, eventType: Byte, pad: Data, table: seq<Crc.Word>)
    requires |pad| == 8 && Crc.TableOk(table)
    ensures var e := OrderEntry(sequence, now, o, eventType, pad);
      && Sound(table, e)
      && Heard(e, true, true) ==
         if eventType in {ORDER_NEW, ORDER_CANCEL, ORDER_REPLACE} then [OrderDelivery(OrderRecord(o), eventType)] else []
  {
    hide CrcOf, SumOf, EncodeOrder, DecodeOrder;
    var e := OrderEntry(sequence, now, o, eventType, pad);
    SumIsCrc(table, e.payload);
    OrderRoundTrip(OrderRecord(o), pad);
  }

  lemma TradeEntryReplays(sequence: Word64, now: Word64, t: Trade, pad: Data, table: seq<Crc.Word>)
    requires |pad| == 4 && Crc.TableOk(table)
    ensures var e := TradeEntry(sequence, now, t, pad);
      Sound(table, e) && Heard(e, true, true) == [TradeDelivery(TradeRecord(t))]
  {
    hide CrcOf, SumOf, EncodeTrade, DecodeTrade;
    var e := TradeEntry(sequence, now, t, pad);
    SumIsCrc(table, e.payload);
    TradeRoundTrip(TradeRecord(t), pad);
  }

  // ----- Reading back -----

  lemma NextOfEntry(e: Entry, rest: Data)
    requires Whole(e)
    ensures NextEntry(EntryBytes(e) + rest) == Some(e)
    ensures (EntryBytes(e) + rest)[Size(e)..] == rest
  {
    hide EncodeHeader, DecodeHeader;
    var data := EntryBytes(e) + rest;
    assert data[..HEADER_SIZE] == EncodeHeader(e.header);
    HeaderRoundTrip(e.header);
    assert data[HEADER_SIZE..HEADER_SIZE + |e.payload|] == e.payload;
  }

  lemma {:induction false} ParseConcat(es: seq<Entry>, rest: Data)
    requires AllWhole(es)
    ensures Parse(Flatten(es) + rest) == es + Parse(rest)
  {
    hide NextEntry, EntryBytes, Size;
    if es == [] {
      assert [] + rest == rest;
    } else {
      var tail := Flatten(es[1..]) + rest;
      assert Flatten(es) + rest == EntryBytes(es[0]) + tail;
      NextOfEntry(es[0], tail);
      ParseConcat(es[1..], rest);
    }
  }

  /** Reading back any log gives exactly the logged entries, in order. */
  lemma ReadsBack(es: seq<Entry>)
    requires AllWhole(es)
    ensures Parse(Flatten(es)) == es
  {
    hide Flatten;
    ParseConcat(es, []);
    assert Flatten(es) + [] == Flatten(es);
    assert Parse([]) == [];
  }

  // ----- After a crash -----

  lemma TornEntry(e: Entry, n: nat)
    requires Whole(e) && n < Size(e)
    ensures NextEntry(EntryBytes(e)[..n]) == None
  {
    hide EncodeHeader, DecodeHeader;
    if n >= HEADER_SIZE {
      assert EntryBytes(e)[..n][..HEADER_SIZE] == EncodeHeader(e.header);
      HeaderRoundTrip(e.header);
    }
  }

  lemma {:induction false} FlattenConcat(a: seq<Entry>, b: seq<Entry>)
    ensures Flatten(a + b) == Flatten(a) + Flatten(b)
  {
    hide EntryBytes;
    if a == [] {
      assert a + b == b;
    } else {
      FlattenConcat(a[1..], b);
      assert (a + b)[1..] == a[1..] + b;
    }
  }

  lemma FlattenOne(e: Entry)
    ensures Flatten([e]) == EntryBytes(e)
  {
    hide EntryBytes;
    assert [e][1..] == [];
  }

  /** Any byte prefix of the file reads as exactly the k entries that lie wholly inside it. */
  lemma CrashPrefix(es: seq<Entry>, k: nat, n: nat)
    requires AllWhole(es) && k <= |es|
    requires |Flatten(es[..k])| <= n <= |Flatten(es)|
    requires k < |es| ==> n < |Flatten(es[..k + 1])|
    ensures Parse(Flatten(es)[..n]) == es[..k]
  {
    hide Flatten, NextEntry, EntryBytes;
    var kept := Flatten(es[..k]);
    assert es == es[..k] + es[k..];
    FlattenConcat(es[..k], es[k..]);
    var torn := Flatten(es[k..])[..n - |kept|];
    assert Flatten(es)[..n] == kept + torn;
    ParseConcat(es[..k], torn);
    if k == |es| {
      EmptyLog();
      assert es[k..] == [] && torn == [];
    } else {
      assert es[k..] == [es[k]] + es[k + 1..] && es[..k + 1] == es[..k] + [es[k]];
      FlattenConcat([es[k]], es[k + 1..]);
      FlattenConcat(es[..k], [es[k]]);
      FlattenOne(es[k]);
      assert torn == EntryBytes(es[k])[..|torn|];
      TornEntry(es[k], |torn|);
    }
    assert Parse(torn) == [];
  }

  lemma EmptyLog()
    ensures Flatten([]) == [] && NextEntry([]) == None
  {
  }

  /** Every prefix length has its k, so the statement above covers every crash. */
  lemma {:induction false} WholeInside(es: seq<Entry>, n: nat) returns (k: nat)
    requires n <= |Flatten(es)|
    ensures k <= |es| && |Flatten(es[..k])| <= n && (k < |es| ==> n < |Flatten(es[..k + 1])|)
  {
    hide Flatten;
    EmptyLog();
    assert es[..0] == [];
    k := 0;
    while k < |es| && |Flatten(es[..k + 1])| <= n
      invariant k <= |es| && |Flatten(es[..k])| <= n
    {
      k := k + 1;
    }
  }

  /** The same entry, written at another time. */
  function Stamped(e: Entry, now: Word64): Entry {
    e.(header := e.header.(timestamp := now))
  }

  /** Appending e to a log followed by some bytes that hold no whole entry. */
  predicate AppendReadsBack(earlier: seq<Entry>, tail: Data, e: Entry) {
    Parse(Flatten(earlier) + tail + EntryBytes(e)) == earlier + [e]
  }

  /** The file is appended to as it is found, so what is written can be read back, whatever the clock says, exactly
      when the file ends with a whole entry. */
  lemma AppendReadsBackIff(earlier: seq<Entry>, tail: Data, e: Entry)
    requires AllWhole(earlier) && NextEntry(tail) == None && Whole(e)
    ensures (forall now: Word64 :: AppendReadsBack(earlier, tail, Stamped(e, now))) <==> tail == []
  {
    hide Flatten, Parse, NextEntry, EntryBytes;
    if tail == [] {
      forall now: Word64
        ensures AppendReadsBack(earlier, tail, Stamped(e, now))
      {
        var e' := Stamped(e, now);
        ReadsBack(earlier + [e']);
        FlattenConcat(earlier, [e']);
        FlattenOne(e');
        assert Flatten(earlier) + tail == Flatten(earlier);
      }
    } else {
      var now: Word64 := if LowStampByte(tail, e) == 0 then 1 else 0;
      var e' := Stamped(e, now);
      var torn := tail + EntryBytes(e');
      assert Flatten(earlier) + tail + EntryBytes(e') == Flatten(earlier) + torn;
      ParseConcat(earlier, torn);
      ShiftedStamp(tail, e, now);
      ParseStarts(torn);
      assert (earlier + Parse(torn))[|earlier|..] == Parse(torn) && (earlier + [e'])[|earlier|..] == [e'];
      assert !AppendReadsBack(earlier, tail, e');
    }
  }

  /** The byte that will be read as the lowest of the timestamp: from the torn bytes, or from the sequence number. */
  function LowStampByte(tail: Data, e: Entry): Byte
    requires tail != []
  {
    if |tail| > 8 then tail[8] else Put64(e.header.sequence)[8 - |tail|]
  }

  lemma ParseStarts(data: Data)
    ensures Parse(data) == [] || NextEntry(data) == Some(Parse(data)[0])
  {
    hide NextEntry;
  }

  lemma ShiftedStamp(tail: Data, e: Entry, now: Word64)
    requires tail != [] && now < 256 && now != LowStampByte(tail, e)
    ensures NextEntry(tail + EntryBytes(Stamped(e, now))) != Some(Stamped(e, now))
  {
    hide Put64, Put32, U64, U32;
    var bytes := EntryBytes(Stamped(e, now));
    var b := (tail + bytes)[..HEADER_SIZE];
    assert bytes[..8] == Put64(e.header.sequence);
    assert b[8] == LowStampByte(tail, e);
    LowByteOf(b[8..16]);
    assert DecodeHeader(b).timestamp % 256 == b[8];
  }

  lemma LowByteOf(bytes: Data)
    requires |bytes| == 8
    ensures U64(bytes) % 256 == bytes[0]
  {
    assert Decode(bytes) == bytes[0] + 256 * Decode(bytes[1..]);
  }

  /** The file is appended to as it is found: one byte left of a torn entry hides the entry written after it. */
  lemma TornByteHidesNext(x: Byte, sequence: Word64, now: Word64, o: Order, eventType: Byte, pad: Data)
    requires |pad| == 8
    ensures Parse([x] + EntryBytes(OrderEntry(sequence, now, o, eventType, pad))) == []
  {
    hide EncodeOrder, CrcOf;
    var e := OrderEntry(sequence, now, o, eventType, pad);
    var data := [x] + EntryBytes(e);
    ShiftedSize(x, e.header, e.payload);
    assert NextEntry(data) == None;
  }

  lemma ShiftedSize(x: Byte, h: Header, payload: Data)
    requires h.payloadSize == 48
    ensures DecodeHeader(([x] + (EncodeHeader(h) + payload))[..HEADER_SIZE]).payloadSize == 12288
  {
    var b := ([x] + (EncodeHeader(h) + payload))[..HEADER_SIZE];
    SizeField();
    hide Put32, Put64, Decode, Encode;
    assert b[24..28] == [0] + Put32(48)[..3] == [0, 48, 0, 0];
  }

  lemma SizeField()
    ensures Put32(48) == [48, 0, 0, 0] && U32([0, 48, 0, 0]) == 12288
  {
    assert Encode(48, 4) == [48] + Encode(0, 3);
    assert Encode(0, 3) == [0] + Encode(0, 2);
    assert Encode(0, 2) == [0] + Encode(0, 1);
    assert Encode(0, 1) == [0] + Encode(0, 0);
    assert Decode([0, 48, 0, 0]) == 256 * Decode([48, 0, 0]);
    assert Decode([48, 0, 0]) == 48 + 256 * Decode([0, 0]);
    assert Decode([0, 0]) == 256 * Decode([0]);
    assert Decode([0]) == 256 * Decode([]);
  }

  // ----- Sequence numbers -----

  /** The first entry numbered s or later. */
  function FirstFrom(es: seq<Entry>, s: Word64): (i: nat)
    ensures i <= |es|
  {
    if es == [] || es[0].header.sequence >= s then 0 else 1 + FirstFrom(es[1..], s)
  }

  lemma {:induction false} FirstFromMeans(es: seq<Entry>, s: Word64)
    ensures forall j :: 0 <= j < FirstFrom(es, s) ==> es[j].header.sequence < s
    ensures FirstFrom(es, s) < |es| ==> es[FirstFrom(es, s)].header.sequence >= s
  {
    if es != [] && es[0].header.sequence < s {
      FirstFromMeans(es[1..], s);
    }
  }

  /** A file written by one journal object numbers its entries from zero. */
  predicate OneSession(es: seq<Entry>) {
    forall i :: 0 <= i < |es| ==> es[i].header.sequence == i
  }

  /** In a one-session file the sequence number is the position. */
  lemma SeekInOneSession(es: seq<Entry>, s: Word64)
    requires OneSession(es)
    ensures FirstFrom(es, s) == Min(s, |es|)
  {
    FirstFromMeans(es, s);
    var i := FirstFrom(es, s);
    assert i < |es| ==> es[i].header.sequence == i;
    assert s < |es| ==> es[s].header.sequence == s;
  }

  // ----- Replay -----

  datatype Delivery =
    | OrderDelivery(order: JournalOrder, eventType: Byte)
    | TradeDelivery(trade: JournalTrade)

  /** What one step hands to the callbacks. */
  function Heard(e: Entry, hearsOrders: bool, hearsTrades: bool): seq<Delivery> {
    var t := e.header.eventType;
    if t == ORDER_NEW || t == ORDER_CANCEL || t == ORDER_REPLACE then
      if hearsOrders && |e.payload| >= ORDER_SIZE then [OrderDelivery(DecodeOrder(e.payload), t)] else []
    else if t == TRADE then
      if hearsTrades && |e.payload| >= TRADE_SIZE then [TradeDelivery(DecodeTrade(e.payload))] else []
    else []
  }

  function AllHeard(es: seq<Entry>, hearsOrders: bool, hearsTrades: bool): seq<Delivery> {
    if es == [] then []
    else Heard(es[0], hearsOrders, hearsTrades) + AllHeard(es[1..], hearsOrders, hearsTrades)
  }

  lemma {:induction false} AllHeardConcat(a: seq<Entry>, b: seq<Entry>, ho: bool, ht: bool)
    ensures AllHeard(a + b, ho, ht) == AllHeard(a, ho, ht) + AllHeard(b, ho, ht)
  {
    hide Heard;
    if a == [] {
      assert a + b == b;
    } else {
      AllHeardConcat(a[1..], b, ho, ht);
      assert (a + b)[1..] == a[1..] + b;
    }
  }

  /** How many entries `replay_until` steps through, starting from sequence number cur. */
  function StepsUntil(es: seq<Entry>, cur: Word64, s: Word64): (n: nat)
    ensures n <= |es|
    decreases |es|
  {
    if cur >= s || es == [] then 0 else 1 + StepsUntil(es[1..], es[0].header.sequence, s)
  }

  /** From the start of a one-session file, entry s is the last one replayed; target zero replays nothing, though
      entry zero carries that number. */
  lemma ReplayUntilInOneSession(es: seq<Entry>, s: Word64)
    requires OneSession(es)
    ensures StepsUntil(es, 0, s) == if s == 0 then 0 else Min(s + 1, |es|)
  {
    if s > 0 && es != [] {
      StepsFrom(es, 0, s);
    }
  }

  lemma {:induction false} StepsFrom(es: seq<Entry>, i: nat, s: Word64)
    requires OneSession(es) && i < |es| && i <= s
    ensures StepsUntil(es[i..], if i == 0 then 0 else i - 1, s) == if s == 0 then 0 else Min(s + 1 - i, |es| - i)
    decreases |es| - i
  {
    assert es[i..][0].header.sequence == i && es[i..][1..] == es[i + 1..];
    if i < s && i + 1 < |es| {
      StepsFrom(es, i + 1, s);
    }
  }

  // ----- Checking -----

  /** What `verify_checksum` accepts; an empty payload never passes. */
  predicate Sound(table: seq<Crc.Word>, e: Entry)
    requires |table| == 256
  {
    e.payload != [] && SumOf(table, e.payload) == e.header.checksum
  }

  /** An entry as the journal writes it passes; damage within four neighbouring payload bytes never does. */
  lemma DamageIsCaught(table: seq<Crc.Word>, h: Header, p: Data, v: Data, w: Data, s: Data)
    requires Crc.TableOk(table) && Sound(table, Entry(h, p + v + s))
    requires |v| == |w| <= 4 && v != w
    ensures !Sound(table, Entry(h, p + w + s))
  {
    hide CrcOf, SumOf;
    SumIsCrc(table, p + v + s);
    SumIsCrc(table, p + w + s);
    DamageChangesCrc(p, v, w, s);
  }

  /** A process that only reads never fills the table: it then accepts one checksum for each payload length, whatever
      the bytes. For four bytes or more, as in every entry the journal writes, that is 0xFFFFFFFF. */
  lemma UnfilledTableChecks(table: seq<Crc.Word>, e: Entry)
    requires |table| == 256 && forall i :: 0 <= i < 256 ==> table[i] == 0
    ensures Sound(table, e) <==>
      e.payload != [] && e.header.checksum == Crc.Xor(Crc.Faded(|e.payload|), 0xFFFF_FFFF) as int
    ensures |e.payload| >= 4 ==> (Sound(table, e) <==> e.header.checksum == 0xFFFF_FFFF)
  {
    Crc.UninitialisedTable(table, Bits(e.payload));
  }

  /** Two entries the harness takes for the same: timestamps are not compared. */
  predicate Agree(a: Entry, b: Entry) {
    a == b.(header := b.header.(timestamp := a.header.timestamp))
  }

  predicate Verified(table: seq<Crc.Word>, a: seq<Entry>, b: seq<Entry>)
    requires |table| == 256
  {
    |a| == |b| && forall i :: 0 <= i < |a| ==> Sound(table, a[i]) && Sound(table, b[i]) && Agree(a[i], b[i])
  }

  /** Journals that verify against each other replay to the same deliveries. */
  lemma {:induction false} VerifiedReplaysAlike(table: seq<Crc.Word>, a: seq<Entry>, b: seq<Entry>, ho: bool, ht: bool)
    requires |table| == 256 && Verified(table, a, b)
    ensures AllHeard(a, ho, ht) == AllHeard(b, ho, ht)
  {
    hide Sound;
    if a != [] {
      assert Agree(a[0], b[0]);
      forall i | 0 <= i < |a[1..]|
        ensures Agree(a[1..][i], b[1..][i]) && Sound(table, a[1..][i]) && Sound(table, b[1..][i])
      {
        assert Agree(a[i + 1], b[i + 1]);
      }
      VerifiedReplaysAlike(table, a[1..], b[1..], ho, ht);
    }
  }
}
