/** The journal's writer, its reader and the replay harness (src/replay/event_journal.cpp). */
module Journals {
  import opened Core
  import opened Bytes
  import opened JournalFormat
  import opened JournalEntries
  import Crc

  // ----- Writing -----

  class EventJournal {
    /** The file's contents, what was there before included: it is readable for appending. */
    var file: Data
    var sequence: Word64
    var fileSize: nat
    const table: Crc.CrcTable
    ghost const existing: Data
    ghost var logged: seq<Entry>

    ghost predicate Valid()
      reads this, table, table.entries
    {
      && table.Valid() && table.initialised
      && file == existing + Flatten(logged)
      && fileSize == |Flatten(logged)|
      && AllWhole(logged)
      && sequence == |logged| % 0x1_0000_0000_0000_0000
      && forall i :: 0 <= i < |logged| ==> logged[i].header.sequence == i % 0x1_0000_0000_0000_0000
    }

    constructor (contents: Data, table: Crc.CrcTable)
      requires table.Valid()
      modifies table, table.entries
      ensures Valid() && this.table == table && existing == contents && logged == []
      ensures old(table.initialised) ==> table.entries[..] == old(table.entries[..])
    {
      file, existing, logged := contents, contents, [];
      sequence, fileSize := 0, 0;
      this.table := table;
      new;
      table.Init();
    }

    method LogOrder(order: Order, eventType: Byte, now: Word64, pad: Data)
      requires Valid() && |pad| == 8
      modifies this
      ensures Valid() && logged == old(logged) + [OrderEntry(old(sequence), now, order, eventType, pad)]
    {
      hide Flatten, EncodeOrder, SumOf, CrcOf, Crc.TableOk, AllWhole;
      var payload := EncodeOrder(OrderRecord(order), pad);
      var checksum := ComputeChecksum(payload);
      SumIsCrc(table.entries[..], payload);
      WriteHeader(eventType, ORDER_SIZE, checksum, now);
      file := file + payload;
      fileSize := fileSize + HEADER_SIZE + ORDER_SIZE;
      Logged(OrderEntry(old(sequence), now, order, eventType, pad));
    }

    method LogTrade(trade: Trade, now: Word64, pad: Data)
      requires Valid() && |pad| == 4
      modifies this
      ensures Valid() && logged == old(logged) + [TradeEntry(old(sequence), now, trade, pad)]
    {
      hide Flatten, EncodeTrade, SumOf, CrcOf, Crc.TableOk, AllWhole;
      var payload := EncodeTrade(TradeRecord(trade), pad);
      var checksum := ComputeChecksum(payload);
      SumIsCrc(table.entries[..], payload);
      WriteHeader(TRADE, TRADE_SIZE, checksum, now);
      file := file + payload;
      fileSize := fileSize + HEADER_SIZE + TRADE_SIZE;
      Logged(TradeEntry(old(sequence), now, trade, pad));
    }

    method WriteHeader(eventType: Byte, payloadSize: Quantity, checksum: Quantity, now: Word64)
      modifies this`file, this`sequence
      ensures file == old(file) + EncodeHeader(Header(old(sequence), now, eventType, payloadSize, checksum))
      ensures sequence == (old(sequence) + 1) % 0x1_0000_0000_0000_0000
    {
      var header := Header(sequence, now, eventType, payloadSize, checksum);
      sequence := (sequence + 1) % 0x1_0000_0000_0000_0000;
      file := file + EncodeHeader(header);
    }

    method ComputeChecksum(payload: Data) returns (sum: Quantity)
      requires table.entries.Length == 256
      ensures sum == SumOf(table.entries[..], payload)
    {
      var word := Crc.ComputeChecksum(table.entries, Bits(payload));
      sum := word as int;
    }

    /** Whatever was logged, in this session and before it, is what a reader of the file gets. */
    lemma FileReadsBack(earlier: seq<Entry>)
      requires Valid() && AllWhole(earlier) && existing == Flatten(earlier)
      ensures Parse(file) == earlier + logged
      ensures |logged| <= 0x1_0000_0000_0000_0000 ==> OneSession(logged)
    {
      hide Flatten, Parse;
      FlattenConcat(earlier, logged);
      ReadsBack(earlier + logged);
    }

    /** The bytes of e have just been appended. */
    ghost method Logged(e: Entry)
      requires table.Valid() && table.initialised && AllWhole(logged) && Whole(e)
      requires file == existing + Flatten(logged) + EncodeHeader(e.header) + e.payload
      requires fileSize == |Flatten(logged)| + HEADER_SIZE + |e.payload|
      requires e.header.sequence == |logged| % 0x1_0000_0000_0000_0000
      requires sequence == (e.header.sequence + 1) % 0x1_0000_0000_0000_0000
      requires forall i :: 0 <= i < |logged| ==> logged[i].header.sequence == i % 0x1_0000_0000_0000_0000
      modifies this`logged
      ensures Valid() && logged == old(logged) + [e]
    {
      hide Flatten, EncodeHeader, Crc.TableOk;
      FlattenConcat(logged, [e]);
      FlattenOne(e);
      assert file == existing + (Flatten(logged) + EntryBytes(e));
      logged := logged + [e];
    }
  }

  // ----- Reading -----

  class JournalReader {
    const data: Data
    const readable: bool
    const table: Crc.CrcTable
    var pos: nat
    var failed: bool
    var last: Entry
    var lastValid: bool

    ghost predicate Valid()
      reads this`pos, this`failed, this`lastValid
    {
      pos <= |data| && (failed || !readable ==> !lastValid)
    }

    /** What reads will return from here on. */
    ghost function Ahead(): seq<Entry>
      requires Valid()
      reads this`pos, this`failed, this`lastValid
    {
      if readable && !failed then Parse(data[pos..]) else []
    }

    constructor (data: Data, readable: bool, table: Crc.CrcTable)
      ensures Valid() && this.data == data && this.readable == readable && this.table == table
      ensures !lastValid && Ahead() == if readable then Parse(data) else []
    {
      this.data, this.readable, this.table := data, readable, table;
      pos, failed, lastValid := 0, false, false;
      last := Entry(Header(0, 0, 0, 0, 0), []);
      new;
      assert data[0..] == data;
    }

    method ReadNext() returns (next: Option<Entry>)
      requires Valid()
      modifies this
      ensures Valid()
      ensures old(Ahead()) == [] ==> next == None && Ahead() == [] && !lastValid
      ensures old(Ahead()) != [] ==>
        && next == Some(old(Ahead())[0]) && Ahead() == old(Ahead())[1..]
        && last == next.value && lastValid
        && pos == old(pos) + Size(last) && failed == old(failed)
    {
      if failed || !readable {
        return None;
      }
      var left := data[pos..];
      next := ReadFrom(left);
      if next.None? {
        failed, lastValid := true, false;
        return;
      }
      assert data[pos + Size(next.value)..] == left[Size(next.value)..];
      pos := pos + Size(next.value);
      last, lastValid := next.value, true;
    }

    /** The two stream reads: a fixed-size header, then as many bytes as it announces. */
    static method ReadFrom(left: Data) returns (next: Option<Entry>)
      ensures next == NextEntry(left)
    {
      if |left| < HEADER_SIZE {
        return None;
      }
      var header := DecodeHeader(left[..HEADER_SIZE]);
      if |left| - HEADER_SIZE < header.payloadSize {
        return None;
      }
      return Some(Entry(header, left[HEADER_SIZE..HEADER_SIZE + header.payloadSize]));
    }

    method Reset()
      modifies this
      ensures Valid() && Ahead() == (if readable then Parse(data) else []) && !lastValid
    {
      pos, failed, lastValid := 0, false, false;
      assert data[0..] == data;
    }

    /** On success the next read returns the first entry numbered s or later. */
    method SeekToSequence(s: Word64) returns (found: bool)
      modifies this
      ensures Valid()
      ensures var es := if readable then Parse(data) else [];
        && (found <==> FirstFrom(es, s) < |es|)
        && Ahead() == es[FirstFrom(es, s)..]
    {
      hide Parse, FirstFrom, Size;
      Reset();
      ghost var es := Ahead();
      ghost var k := 0;
      ghost var start := pos;
      var next := ReadNext();
      while next.Some?
        invariant Valid() && k <= |es| && 0 <= start <= |data|
        invariant forall j :: 0 <= j < k ==> es[j].header.sequence < s
        invariant next.None? ==> k == |es| && Ahead() == []
        invariant next.Some? ==> k < |es| && next.value == es[k] && Ahead() == es[k + 1..]
        invariant next.Some? ==> readable && !failed && pos == start + Size(es[k]) && Parse(data[start..]) == es[k..]
        decreases |es| - k, next.Some?
      {
        if next.value.header.sequence >= s {
          SizeIs(next.value);
          pos := pos - (HEADER_SIZE + |next.value.payload|);
          FirstFromIs(es, s, k);
          return true;
        }
        k, start := k + 1, pos;
        next := ReadNext();
      }
      FirstFromIs(es, s, k);
      return false;
    }

    /** Checks the entry read last; an empty payload never passes. */
    method VerifyChecksum() returns (ok: bool)
      requires table.Valid()
      ensures ok <==> lastValid && Sound(table.entries[..], last)
    {
      if !lastValid || last.payload == [] {
        return false;
      }
      var word := Crc.ComputeChecksum(table.entries, Bits(last.payload));
      return word as int == last.header.checksum;
    }
  }

  lemma SizeIs(e: Entry)
    ensures Size(e) == HEADER_SIZE + |e.payload|
  {
  }

  lemma FirstFromIs(es: seq<Entry>, s: Word64, k: nat)
    requires k <= |es|
    requires forall j :: 0 <= j < k ==> es[j].header.sequence < s
    requires k < |es| ==> es[k].header.sequence >= s
    ensures FirstFrom(es, s) == k
  {
    FirstFromMeans(es, s);
  }

  // ----- Replay -----

  class ReplayHarness {
    var reader: JournalReader?
    var currentSeq: Word64
    const hearsOrders: bool
    const hearsTrades: bool
    /** Everything handed to the callbacks. */
    ghost var delivered: seq<Delivery>

    ghost predicate Valid()
      reads this`reader, reader
    {
      reader != null ==> reader.Valid()
    }

    ghost function Ahead(): seq<Entry>
      requires Valid()
      reads this`reader, reader
    {
      if reader == null then [] else reader.Ahead()
    }

    constructor (hearsOrders: bool, hearsTrades: bool)
      ensures Valid() && reader == null && currentSeq == 0 && delivered == []
      ensures this.hearsOrders == hearsOrders && this.hearsTrades == hearsTrades
    {
      reader, currentSeq, delivered := null, 0, [];
      this.hearsOrders, this.hearsTrades := hearsOrders, hearsTrades;
    }

    method LoadJournal(data: Data, readable: bool, table: Crc.CrcTable)
      modifies this`reader, this`currentSeq
      ensures Valid() && reader != null && fresh(reader) && reader.data == data && reader.readable == readable
      ensures Ahead() == (if readable then Parse(data) else []) && currentSeq == 0 && reader.table == table
    {
      reader := new JournalReader(data, readable, table);
      currentSeq := 0;
    }

    method Step() returns (more: bool)
      requires Valid()
      modifies this`currentSeq, this`delivered, reader
      ensures Valid()
      ensures more <==> old(Ahead()) != []
      ensures more ==>
        && Ahead() == old(Ahead())[1..] && currentSeq == old(Ahead())[0].header.sequence
        && delivered == old(delivered) + Heard(old(Ahead())[0], hearsOrders, hearsTrades)
      ensures !more ==> Ahead() == [] && currentSeq == old(currentSeq) && delivered == old(delivered)
    {
      hide Parse, DecodeOrder, DecodeTrade;
      if reader == null {
        return false;
      }
      var next := reader.ReadNext();
      if next.None? {
        return false;
      }
      var e := next.value;
      currentSeq := e.header.sequence;
      var t := e.header.eventType;
      if t == ORDER_NEW || t == ORDER_CANCEL || t == ORDER_REPLACE {
        if hearsOrders && |e.payload| >= ORDER_SIZE {
          delivered := delivered + [OrderDelivery(DecodeOrder(e.payload), t)];
        }
      } else if t == TRADE {
        if hearsTrades && |e.payload| >= TRADE_SIZE {
          delivered := delivered + [TradeDelivery(DecodeTrade(e.payload))];
        }
      }
      return true;
    }

    /** Every readable entry is delivered once, in order. */
    method ReplayAll()
      requires Valid()
      modifies this`currentSeq, this`delivered, reader
      ensures Valid() && Ahead() == []
      ensures delivered == old(delivered) + AllHeard(old(Ahead()), hearsOrders, hearsTrades)
    {
      hide Heard, Ahead, AllHeard;
      NothingHeard(hearsOrders, hearsTrades);
      ghost var es := Ahead();
      ghost var k := 0;
      var more := true;
      assert es[0..] == es && es[..0] == [];
      while more
        invariant Valid() && k <= |es| && Ahead() == es[k..]
        invariant !more ==> k == |es|
        invariant delivered == old(delivered) + AllHeard(es[..k], hearsOrders, hearsTrades)
        decreases |es| - k, more
      {
        more := Step();
        if more {
          HeardNext(es, k, hearsOrders, hearsTrades);
          assert es[k..][1..] == es[k + 1..];
          k := k + 1;
        }
      }
      assert es[..k] == es;
    }

    /** Stops after the first entry that reaches the target number. */
    method ReplayUntil(s: Word64)
      requires Valid()
      modifies this`currentSeq, this`delivered, reader
      ensures Valid()
      ensures var es, n := old(Ahead()), StepsUntil(old(Ahead()), old(currentSeq), s);
        && delivered == old(delivered) + AllHeard(es[..n], hearsOrders, hearsTrades)
        && Ahead() == es[n..]
        && currentSeq == (if n == 0 then old(currentSeq) else es[n - 1].header.sequence)
    {
      hide Heard, Ahead, AllHeard, StepsUntil;
      NothingHeard(hearsOrders, hearsTrades);
      ghost var es := Ahead();
      ghost var k := 0;
      var more := true;
      assert es[0..] == es && es[..0] == [];
      while currentSeq < s && more
        invariant Valid() && k <= |es| && Ahead() == es[k..]
        invariant !more ==> k == |es|
        invariant delivered == old(delivered) + AllHeard(es[..k], hearsOrders, hearsTrades)
        invariant currentSeq == if k == 0 then old(currentSeq) else es[k - 1].header.sequence
        invariant StepsUntil(es, old(currentSeq), s) == k + StepsUntil(es[k..], currentSeq, s)
        decreases |es| - k, more
      {
        ghost var before := currentSeq;
        more := Step();
        if more {
          HeardNext(es, k, hearsOrders, hearsTrades);
          OneStep(es, k, before, s);
          k := k + 1;
        }
      }
      NoSteps(es, k, currentSeq, s);
    }

    /** True exactly when both files hold the same sound entries, timestamps aside. */
    method VerifyAgainst(data: Data, readable: bool) returns (same: bool)
      requires Valid() && (reader != null ==> reader.table.Valid())
      modifies reader
      ensures Valid()
      ensures reader == null ==> !same
      ensures reader != null ==>
        var mine, theirs := if reader.readable then Parse(reader.data) else [], if readable then Parse(data) else [];
        same <==> Verified(reader.table.entries[..], mine, theirs)
    {
      hide Parse, Verified, JournalReader.Ahead;
      if reader == null {
        return false;
      }
      var expected := new JournalReader(data, readable, reader.table);
      reader.Reset();
      ghost var table := reader.table.entries[..];
      ghost var a, b := reader.Ahead(), expected.Ahead();
      var verdict := None;
      while verdict == None
        invariant reader.Valid() && expected.Valid() && fresh(expected) && table == reader.table.entries[..]
        invariant verdict == None ==> (Verified(table, a, b) <==> Verified(table, reader.Ahead(), expected.Ahead()))
        invariant verdict.Some? ==> verdict.value == Verified(table, a, b)
        decreases verdict.None?, |reader.Ahead()|
      {
        verdict := CompareNext(reader, expected);
      }
      return verdict.value;
    }

    /** One round of the comparison; no verdict means that the rest decides. */
    static method CompareNext(mine: JournalReader, theirs: JournalReader) returns (verdict: Option<bool>)
      requires mine.Valid() && theirs.Valid() && mine != theirs
      requires mine.table == theirs.table && mine.table.Valid()
      modifies mine, theirs
      ensures mine.Valid() && theirs.Valid()
      ensures verdict.Some? ==>
        verdict.value == Verified(mine.table.entries[..], old(mine.Ahead()), old(theirs.Ahead()))
      ensures verdict.None? ==> |mine.Ahead()| < |old(mine.Ahead())|
      ensures verdict.None? ==>
        Verified(mine.table.entries[..], mine.Ahead(), theirs.Ahead())
        == Verified(mine.table.entries[..], old(mine.Ahead()), old(theirs.Ahead()))
    {
      hide Parse, Sound, Agree, Verified, JournalReader.Ahead;
      ghost var a, b := mine.Ahead(), theirs.Ahead();
      VerifiedStep(mine.table.entries[..], a, b);
      var next1 := mine.ReadNext();
      var next2 := theirs.ReadNext();
      if next1.Some? != next2.Some? {
        return Some(false);
      }
      if next1.None? {
        return Some(true);
      }
      var mineOk := mine.VerifyChecksum();
      var theirsOk := theirs.VerifyChecksum();
      if !mineOk || !theirsOk {
        return Some(false);
      }
      AgreeMeans(next1.value, next2.value);
      var h1, h2 := next1.value.header, next2.value.header;
      if h1.sequence != h2.sequence || h1.eventType != h2.eventType
         || h1.payloadSize != h2.payloadSize || h1.checksum != h2.checksum {
        return Some(false);
      }
      if next1.value.payload != next2.value.payload {
        return Some(false);
      }
      return None;
    }
  }

  lemma VerifiedStep(table: seq<Crc.Word>, a: seq<Entry>, b: seq<Entry>)
    requires |table| == 256
    ensures a == [] || b == [] ==> (Verified(table, a, b) <==> a == b)
    ensures a != [] && b != [] ==>
      (Verified(table, a, b) <==>
        Sound(table, a[0]) && Sound(table, b[0]) && Agree(a[0], b[0]) && Verified(table, a[1..], b[1..]))
  {
    hide Sound, Agree;
    if a != [] && b != [] && Verified(table, a[1..], b[1..])
       && Sound(table, a[0]) && Sound(table, b[0]) && Agree(a[0], b[0]) {
      forall i | 0 <= i < |a|
        ensures Sound(table, a[i]) && Sound(table, b[i]) && Agree(a[i], b[i])
      {
        assert i > 0 ==> a[i] == a[1..][i - 1] && b[i] == b[1..][i - 1];
      }
    }
  }

  lemma AgreeMeans(a: Entry, b: Entry)
    ensures Agree(a, b) <==>
      && a.header.sequence == b.header.sequence && a.header.eventType == b.header.eventType
      && a.header.payloadSize == b.header.payloadSize && a.header.checksum == b.header.checksum
      && a.payload == b.payload
  {
  }

  lemma NothingHeard(ho: bool, ht: bool)
    ensures AllHeard([], ho, ht) == []
  {
  }

  lemma OneStep(es: seq<Entry>, k: nat, cur: Word64, s: Word64)
    requires k < |es| && cur < s
    ensures es[k..][1..] == es[k + 1..]
    ensures StepsUntil(es[k..], cur, s) == 1 + StepsUntil(es[k + 1..], es[k].header.sequence, s)
  {
    assert es[k..][1..] == es[k + 1..];
  }

  lemma NoSteps(es: seq<Entry>, k: nat, cur: Word64, s: Word64)
    requires k <= |es| && (cur >= s || k == |es|)
    ensures StepsUntil(es[k..], cur, s) == 0
  {
  }

  lemma HeardOne(e: Entry, ho: bool, ht: bool)
    ensures AllHeard([e], ho, ht) == Heard(e, ho, ht)
  {
    hide Heard;
    assert [e][1..] == [];
  }

  lemma HeardNext(es: seq<Entry>, k: nat, ho: bool, ht: bool)
    requires k < |es|
    ensures AllHeard(es[..k + 1], ho, ht) == AllHeard(es[..k], ho, ht) + Heard(es[k], ho, ht)
  {
    hide Heard;
    assert es[..k + 1] == es[..k] + [es[k]];
    AllHeardConcat(es[..k], [es[k]], ho, ht);
    HeardOne(es[k], ho, ht);
  }
}
