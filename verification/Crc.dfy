/** The checksum of the journal (src/replay/event_journal.cpp): by table, the reflected CRC-32 of section 8 of
    RFC 1952. */
module Crc {

  type Word = bv32

  // ----- Bit by bit -----

  predicate Odd(c: Word) {
    c & 1 == 1
  }

  function Half(c: Word): Word {
    c >> 1
  }

  function Xor(a: Word, b: Word): Word {
    a ^ b
  }

  const POLYNOMIAL: Word := 0xEDB88320

  /** One bit of the reflected division. */
  function BitStep(c: Word): Word {
    if Odd(c) then Xor(POLYNOMIAL, Half(c)) else Half(c)
  }

  function BitSteps(c: Word, n: nat): Word
    decreases n
  {
    if n == 0 then c else BitSteps(BitStep(c), n - 1)
  }

  /** Feeding bytes one at a time, each by xor and eight bit steps. */
  function BitwiseCrc(crc: Word, data: seq<bv8>): Word
    decreases |data|
  {
    if data == [] then crc else BitwiseCrc(BitSteps(Xor(crc, data[0] as Word), 8), data[1..])
  }

  /** The definition of RFC 1952, with the register inverted before and after. */
  function Crc32(data: seq<bv8>): Word {
    Xor(BitwiseCrc(0xFFFF_FFFF, data), 0xFFFF_FFFF)
  }

  // ----- Algebra of words -----

  lemma XorAssoc(a: Word, b: Word, c: Word)
    ensures Xor(Xor(a, b), c) == Xor(a, Xor(b, c))
  {
  }

  lemma XorComm(a: Word, b: Word)
    ensures Xor(a, b) == Xor(b, a)
  {
  }

  lemma XorSelf(a: Word)
    ensures Xor(a, a) == 0 && Xor(a, 0) == a
  {
  }

  lemma XorPairs(a: Word, b: Word, c: Word, d: Word)
    ensures Xor(Xor(a, b), Xor(c, d)) == Xor(Xor(a, c), Xor(b, d))
  {
    XorAssoc(a, b, Xor(c, d));
    XorAssoc(b, c, d);
    XorComm(b, c);
    XorAssoc(c, b, d);
    XorAssoc(a, c, Xor(b, d));
    hide Xor;
  }

  lemma HalfXor(a: Word, b: Word)
    ensures Half(Xor(a, b)) == Xor(Half(a), Half(b))
  {
  }

  lemma OddXor(a: Word, b: Word)
    ensures Odd(Xor(a, b)) <==> Odd(a) != Odd(b)
  {
  }

  /** A bit step is linear. */
  lemma BitStepXor(a: Word, b: Word)
    ensures BitStep(Xor(a, b)) == Xor(BitStep(a), BitStep(b))
  {
    HalfXor(a, b);
    OddXor(a, b);
    XorPairs(POLYNOMIAL, Half(a), POLYNOMIAL, Half(b));
    XorSelf(POLYNOMIAL);
    XorSelf(Xor(Half(a), Half(b)));
    XorComm(0, Xor(Half(a), Half(b)));
    XorAssoc(POLYNOMIAL, Half(a), Half(b));
    XorAssoc(Half(a), POLYNOMIAL, Half(b));
    XorComm(Half(a), POLYNOMIAL);
    hide Odd, Half, Xor;
  }

  lemma {:induction false} BitStepsXor(a: Word, b: Word, n: nat)
    ensures BitSteps(Xor(a, b), n) == Xor(BitSteps(a, n), BitSteps(b, n))
    decreases n
  {
    hide BitStep, Xor;
    if n > 0 {
      BitStepXor(a, b);
      BitStepsXor(BitStep(a), BitStep(b), n - 1);
    }
  }

  // ----- The table -----

  function LowByte(c: Word): Word {
    c & 0xFF
  }

  function Drop8(c: Word): Word {
    c >> 8
  }

  function Up8(c: Word): Word {
    c << 8
  }

  function Raised(c: Word): Word {
    c & 0xFFFF_FF00
  }

  lemma SplitBytes(c: Word)
    ensures c == Xor(LowByte(c), Raised(c))
    ensures Drop8(Raised(c)) == Drop8(c)
    ensures LowByte(Raised(c)) == 0 && LowByte(c) < 256
  {
  }

  /** Eight steps on a word with an empty low byte are a shift by eight. */
  lemma EightShifts(c: Word)
    requires LowByte(c) == 0
    ensures BitSteps(c, 8) == Drop8(c)
  {
    var c1, c2, c3, c4 := c >> 1, c >> 2, c >> 3, c >> 4;
    var c5, c6, c7, c8 := c >> 5, c >> 6, c >> 7, c >> 8;
    assert !Odd(c) && Half(c) == c1;
    assert !Odd(c1) && Half(c1) == c2;
    assert !Odd(c2) && Half(c2) == c3;
    assert !Odd(c3) && Half(c3) == c4;
    assert !Odd(c4) && Half(c4) == c5;
    assert !Odd(c5) && Half(c5) == c6;
    assert !Odd(c6) && Half(c6) == c7;
    assert !Odd(c7) && Half(c7) == c8;
    hide Odd, Half, Xor;
    assert BitSteps(c, 8) == BitSteps(c1, 7) == BitSteps(c2, 6) == BitSteps(c3, 5);
    assert BitSteps(c3, 5) == BitSteps(c4, 4) == BitSteps(c5, 3) == BitSteps(c6, 2) == BitSteps(c7, 1);
    assert BitSteps(c7, 1) == BitSteps(c8, 0);
  }

  /** What makes a table possible: the low byte divides out on its own, the rest only shifts. */
  lemma ByteDividesOut(c: Word)
    ensures BitSteps(c, 8) == Xor(BitSteps(LowByte(c), 8), Drop8(c))
  {
    SplitBytes(c);
    BitStepsXor(LowByte(c), Raised(c), 8);
    EightShifts(Raised(c));
    hide LowByte, Drop8, Raised, Xor, BitSteps;
  }

  ghost predicate TableOk(table: seq<Word>) {
    |table| == 256 && forall i :: 0 <= i < 256 ==> table[i] == BitSteps(i as Word, 8)
  }

  /** The process-wide table and its flag; static storage starts as zeros. */
  class CrcTable {
    const entries: array<Word>
    var initialised: bool

    ghost predicate Valid()
      reads this, entries
    {
      && entries.Length == 256
      && (if initialised then TableOk(entries[..]) else forall i :: 0 <= i < 256 ==> entries[i] == 0)
    }

    constructor ()
      ensures Valid() && !initialised && fresh(entries)
    {
      entries := new Word[256](i => 0);
      initialised := false;
    }

    /** `init_crc32_table`: fills the table once. */
    method Init()
      requires Valid()
      modifies this, entries
      ensures Valid() && initialised
      ensures old(initialised) ==> entries[..] == old(entries[..])
    {
      hide BitSteps;
      if initialised {
        return;
      }
      for i := 0 to 256
        modifies entries
        invariant forall k :: 0 <= k < i ==> entries[k] == BitSteps(k as Word, 8)
      {
        var c := TableEntry(i as Word);
        entries[i] := c;
      }
      initialised := true;
    }
  }

  method TableEntry(i: Word) returns (c: Word)
    ensures c == BitSteps(i, 8)
  {
    hide BitStep;
    c := i;
    for j := 0 to 8
      invariant BitSteps(c, 8 - j) == BitSteps(i, 8)
    {
      c := NextBit(c);
    }
  }

  method NextBit(c: Word) returns (r: Word)
    ensures r == BitStep(c)
  {
    r := if c & 1 == 1 then 0xEDB88320 ^ (c >> 1) else c >> 1;
  }

  /** One byte by table. */
  function TableStep(table: seq<Word>, crc: Word, b: bv8): Word
    requires |table| == 256
  {
    Xor(table[LowByte(Xor(crc, b as Word)) as int], Drop8(crc))
  }

  function TableCrc(table: seq<Word>, crc: Word, data: seq<bv8>): Word
    requires |table| == 256
    decreases |data|
  {
    if data == [] then crc else TableCrc(table, TableStep(table, crc, data[0]), data[1..])
  }

  function Checksum(table: seq<Word>, data: seq<bv8>): Word
    requires |table| == 256
  {
    Xor(TableCrc(table, 0xFFFF_FFFF, data), 0xFFFF_FFFF)
  }

  lemma {:induction false} TableCrcSnoc(table: seq<Word>, crc: Word, data: seq<bv8>, b: bv8)
    requires |table| == 256
    ensures TableCrc(table, crc, data + [b]) == TableStep(table, TableCrc(table, crc, data), b)
    decreases |data|
  {
    hide TableStep;
    if data == [] {
      assert (data + [b])[1..] == [];
    } else {
      TableCrcSnoc(table, TableStep(table, crc, data[0]), data[1..], b);
      assert (data + [b])[1..] == data[1..] + [b];
    }
  }

  /** `compute_checksum`, also the loop of `verify_checksum`. */
  method ComputeChecksum(table: array<Word>, data: seq<bv8>) returns (sum: Word)
    requires table.Length == 256
    ensures sum == Checksum(table[..], data)
  {
    hide TableStep;
    var crc: Word := 0xFFFF_FFFF;
    for i := 0 to |data|
      invariant crc == TableCrc(table[..], 0xFFFF_FFFF, data[..i])
    {
      TableCrcSnoc(table[..], 0xFFFF_FFFF, data[..i], data[i]);
      assert data[..i + 1] == data[..i] + [data[i]];
      crc := TableStep(table[..], crc, data[i]);
    }
    assert data[..|data|] == data;
    sum := crc ^ 0xFFFF_FFFF;
  }

  lemma DropsByte(crc: Word, b: bv8)
    ensures Drop8(Xor(crc, b as Word)) == Drop8(crc)
  {
  }

  lemma IndexOfByte(c: Word)
    ensures 0 <= (LowByte(c) as int) < 256 && ((LowByte(c) as int) as Word) == LowByte(c)
  {
  }

  lemma TableStepIsBitwise(table: seq<Word>, crc: Word, b: bv8)
    requires TableOk(table)
    ensures TableStep(table, crc, b) == BitSteps(Xor(crc, b as Word), 8)
  {
    var x := Xor(crc, b as Word);
    ByteDividesOut(x);
    DropsByte(crc, b);
    IndexOfByte(x);
    hide BitSteps, LowByte, Xor, Drop8;
    assert table[LowByte(x) as int] == BitSteps((LowByte(x) as int) as Word, 8);
  }

  lemma {:induction false} TableCrcIsBitwise(table: seq<Word>, crc: Word, data: seq<bv8>)
    requires TableOk(table)
    ensures TableCrc(table, crc, data) == BitwiseCrc(crc, data)
    decreases |data|
  {
    hide TableStep, BitSteps;
    if data != [] {
      TableStepIsBitwise(table, crc, data[0]);
      TableCrcIsBitwise(table, TableStep(table, crc, data[0]), data[1..]);
    }
  }

  /** With an initialised table the journal computes the CRC-32 of RFC 1952, for every byte string. */
  lemma ChecksumIsCrc32(table: seq<Word>, data: seq<bv8>)
    requires TableOk(table)
    ensures Checksum(table, data) == Crc32(data)
  {
    TableCrcIsBitwise(table, 0xFFFF_FFFF, data);
    hide Xor;
  }

  /** The register after n bytes of zero table: shifted out, byte by byte. */
  function Faded(n: nat): Word {
    if n == 0 then 0xFFFF_FFFF
    else if n == 1 then 0x00FF_FFFF
    else if n == 2 then 0x0000_FFFF
    else if n == 3 then 0x0000_00FF
    else 0
  }

  /** A reader in a process that never built an `EventJournal` works with an all-zero table: the sum depends on nothing
      but the length, and is 0xFFFFFFFF from four bytes on. */
  lemma UninitialisedTable(table: seq<Word>, data: seq<bv8>)
    requires |table| == 256 && forall i :: 0 <= i < 256 ==> table[i] == 0
    ensures Checksum(table, data) == Xor(Faded(|data|), 0xFFFF_FFFF)
    ensures |data| >= 4 ==> Checksum(table, data) == 0xFFFF_FFFF
  {
    ZeroTableFades(table, 0, data);
  }

  lemma {:induction false} ZeroTableFades(table: seq<Word>, n: nat, data: seq<bv8>)
    requires |table| == 256 && forall i :: 0 <= i < 256 ==> table[i] == 0
    ensures TableCrc(table, Faded(n), data) == Faded(n + |data|)
    decreases |data|
  {
    hide TableStep;
    if data != [] {
      ZeroStep(table, Faded(n), data[0]);
      FadesOn(n);
      hide Faded;
      ZeroTableFades(table, n + 1, data[1..]);
    }
  }

  lemma FadesOn(n: nat)
    ensures Drop8(Faded(n)) == Faded(n + 1)
  {
  }

  lemma ZeroStep(table: seq<Word>, crc: Word, b: bv8)
    requires |table| == 256 && forall i :: 0 <= i < 256 ==> table[i] == 0
    ensures TableStep(table, crc, b) == Drop8(crc)
  {
    XorComm(0, Drop8(crc));
    XorSelf(Drop8(crc));
    IndexOfByte(Xor(crc, b as Word));
    hide LowByte, Xor, Drop8;
  }

  // ----- What the checksum detects -----

  /** The top bit of the polynomial makes every step reversible. */
  lemma OnlyZeroStepsToZero(c: Word)
    requires BitStep(c) == 0
    ensures c == 0
  {
  }

  lemma {:induction false} BitStepsInjective(a: Word, b: Word, n: nat)
    requires BitSteps(a, n) == BitSteps(b, n)
    ensures a == b
    decreases n
  {
    BitStepsXor(a, b, n);
    XorSelf(BitSteps(a, n));
    hide BitStep, Xor;
    NeverZero(Xor(a, b), n);
    XorZero(a, b);
  }

  lemma {:induction false} NeverZero(c: Word, n: nat)
    requires BitSteps(c, n) == 0
    ensures c == 0
    decreases n
  {
    hide BitStep;
    if n > 0 {
      NeverZero(BitStep(c), n - 1);
      OnlyZeroStepsToZero(c);
    }
  }

  lemma XorZero(a: Word, b: Word)
    requires Xor(a, b) == 0
    ensures a == b
  {
  }

  lemma XorCancels(a: Word, b: Word, c: Word)
    requires Xor(a, c) == Xor(b, c) || Xor(c, a) == Xor(c, b)
    ensures a == b
  {
  }

  /** Different registers stay different over equal bytes. */
  lemma {:induction false} EqualTailsKeepDifference(a: Word, b: Word, data: seq<bv8>)
    requires BitwiseCrc(a, data) == BitwiseCrc(b, data)
    ensures a == b
    decreases |data|
  {
    hide BitSteps, Xor;
    if data != [] {
      var byte := data[0] as Word;
      EqualTailsKeepDifference(BitSteps(Xor(a, byte), 8), BitSteps(Xor(b, byte), 8), data[1..]);
      BitStepsInjective(Xor(a, byte), Xor(b, byte), 8);
      XorCancels(a, b, byte);
    }
  }

  lemma {:induction false} BitwiseCrcConcat(crc: Word, a: seq<bv8>, b: seq<bv8>)
    ensures BitwiseCrc(crc, a + b) == BitwiseCrc(BitwiseCrc(crc, a), b)
    decreases |a|
  {
    hide BitSteps, Xor;
    if a == [] {
      assert a + b == b;
    } else {
      BitwiseCrcConcat(BitSteps(Xor(crc, a[0] as Word), 8), a[1..], b);
      assert (a + b)[1..] == a[1..] + b;
    }
  }

  /** Up to four bytes as one little-endian word. */
  function Packed(w: seq<bv8>): Word
    decreases |w|
  {
    if w == [] then 0 else Xor(w[0] as Word, Up8(Packed(w[1..])))
  }

  /** The bytes of a word above the lowest `n`. */
  function Above(c: Word, n: nat): Word {
    if n == 0 then c else if n == 1 then c & 0xFFFF_FF00 else if n == 2 then c & 0xFFFF_0000 else c & 0xFF00_0000
  }

  lemma Above1(b: bv8)
    ensures Above(Xor(b as Word, Up8(0)), 1) == 0
  {
  }

  lemma Above2(b: bv8, c: Word)
    requires Above(c, 1) == 0
    ensures Above(Xor(b as Word, Up8(c)), 2) == 0
  {
  }

  lemma Above3(b: bv8, c: Word)
    requires Above(c, 2) == 0
    ensures Above(Xor(b as Word, Up8(c)), 3) == 0
  {
  }

  lemma Above13(c: Word)
    requires Above(c, 1) == 0
    ensures Above(c, 3) == 0
  {
  }

  lemma Above23(c: Word)
    requires Above(c, 2) == 0
    ensures Above(c, 3) == 0
  {
  }

  lemma {:induction false} PackedFits(w: seq<bv8>)
    requires |w| <= 3
    ensures Above(Packed(w), |w|) == 0 && Above(Packed(w), 3) == 0
    decreases |w|
  {
    hide Xor, Above, Up8;
    if w == [] {
      AboveNone();
    } else {
      PackedFits(w[1..]);
      if |w| == 1 {
        Above1(w[0]);
        Above13(Packed(w));
      } else if |w| == 2 {
        Above2(w[0], Packed(w[1..]));
        Above23(Packed(w));
      } else {
        Above3(w[0], Packed(w[1..]));
      }
    }
  }

  lemma AboveNone()
    ensures Above(0, 0) == 0 && Above(0, 3) == 0
  {
  }

  /** Shifting up a byte and back loses nothing that fits in three bytes. */
  lemma UpAndDown(c: Word)
    requires Above(c, 3) == 0
    ensures LowByte(Up8(c)) == 0 && Drop8(Up8(c)) == c
  {
  }

  lemma BytesApart(b: bv8, c: Word)
    requires Above(c, 3) == 0
    ensures LowByte(Xor(b as Word, Up8(c))) == b as Word && Drop8(Xor(b as Word, Up8(c))) == c
  {
  }

  lemma {:induction false} BitStepsAdd(c: Word, m: nat, n: nat)
    ensures BitSteps(BitSteps(c, m), n) == BitSteps(c, m + n)
    decreases m
  {
    hide BitStep;
    if m > 0 {
      BitStepsAdd(BitStep(c), m - 1, n);
    }
  }

  /** Feeding up to four bytes is one xor with the packed word and eight bit steps for each byte. */
  lemma {:induction false} WindowIsOneWord(crc: Word, w: seq<bv8>)
    requires |w| <= 4
    ensures BitwiseCrc(crc, w) == BitSteps(Xor(crc, Packed(w)), 8 * |w|)
    decreases |w|
  {
    hide BitSteps, Xor, LowByte, Drop8, Up8, Above;
    if w == [] {
      XorSelf(crc);
      NoSteps(crc);
    } else {
      var b, rest := w[0] as Word, Packed(w[1..]);
      WindowIsOneWord(BitSteps(Xor(crc, b), 8), w[1..]);
      PackedFits(w[1..]);
      OneByteIn(crc, b, rest);
      BitStepsAdd(Xor(crc, Packed(w)), 8, 8 * (|w| - 1));
    }
  }

  lemma NoSteps(c: Word)
    ensures BitSteps(c, 0) == c
  {
  }

  /** A later word can be folded in a byte early, if shifted up. */
  lemma OneByteIn(crc: Word, b: Word, rest: Word)
    requires Above(rest, 3) == 0
    ensures Xor(BitSteps(Xor(crc, b), 8), rest) == BitSteps(Xor(crc, Xor(b, Up8(rest))), 8)
  {
    UpAndDown(rest);
    EightShifts(Up8(rest));
    hide BitSteps, Xor, LowByte, Drop8, Up8, Above;
    BitStepsXor(Xor(crc, b), Up8(rest), 8);
    XorAssoc(crc, b, Up8(rest));
  }

  lemma HeadAndTail(w: seq<bv8>)
    requires 0 < |w| <= 4
    ensures LowByte(Packed(w)) == w[0] as Word && Drop8(Packed(w)) == Packed(w[1..])
  {
    hide Xor, LowByte, Drop8, Up8, Above;
    PackedFits(w[1..]);
    BytesApart(w[0], Packed(w[1..]));
  }

  lemma {:induction false} PackedInjective(v: seq<bv8>, w: seq<bv8>)
    requires |v| == |w| <= 4 && Packed(v) == Packed(w)
    ensures v == w
    decreases |v|
  {
    hide Packed, LowByte, Drop8;
    if v != [] {
      HeadAndTail(v);
      HeadAndTail(w);
      SameByte(v[0], w[0]);
      PackedInjective(v[1..], w[1..]);
      assert v == [v[0]] + v[1..] && w == [w[0]] + w[1..];
    }
  }

  lemma SameByte(a: bv8, b: bv8)
    ensures a as Word == b as Word ==> a == b
  {
  }

  /** Two payloads of equal length that differ only within four consecutive bytes have different checksums. */
  lemma BurstIsDetected(p: seq<bv8>, v: seq<bv8>, w: seq<bv8>, s: seq<bv8>)
    requires |v| == |w| <= 4 && v != w
    ensures Crc32(p + v + s) != Crc32(p + w + s)
  {
    var r := BitwiseCrc(0xFFFF_FFFF, p);
    FeedThree(0xFFFF_FFFF, p, v, s);
    FeedThree(0xFFFF_FFFF, p, w, s);
    WindowIsOneWord(r, v);
    WindowIsOneWord(r, w);
    hide BitSteps, Xor, Packed, BitwiseCrc;
    if Crc32(p + v + s) == Crc32(p + w + s) {
      XorCancels(BitwiseCrc(0xFFFF_FFFF, p + v + s), BitwiseCrc(0xFFFF_FFFF, p + w + s), 0xFFFF_FFFF);
      EqualTailsKeepDifference(BitwiseCrc(r, v), BitwiseCrc(r, w), s);
      BitStepsInjective(Xor(r, Packed(v)), Xor(r, Packed(w)), 8 * |v|);
      XorCancels(Packed(v), Packed(w), r);
      PackedInjective(v, w);
    }
  }

  lemma FeedThree(crc: Word, a: seq<bv8>, b: seq<bv8>, c: seq<bv8>)
    ensures BitwiseCrc(crc, a + b + c) == BitwiseCrc(BitwiseCrc(BitwiseCrc(crc, a), b), c)
  {
    BitwiseCrcConcat(crc, a + b, c);
    BitwiseCrcConcat(crc, a, b);
  }
}
