/** The binary layout of an archive index (keg/archive.py:39-82): hex rendering of keys,
    the 28-byte footer `<8s8BI8s`, the 24-byte entries `>16sII`, and where the
    `items` walk reads each entry. */
module ArchiveFormat {
  import opened Common

  // ---------------------------------------------------------------------------------
  // hexlify

  predicate IsHexDigit(c: char) {
    '0' <= c <= '9' || 'a' <= c <= 'f'
  }

  /** The lower-case hex digit of `d`. */
  function HexDigit(d: nat): (c: char)
    requires d < 16
    ensures IsHexDigit(c)
  {
    if d < 10 then ('0' as int + d) as char else ('a' as int + d - 10) as char
  }

  function DigitValue(c: char): (v: nat)
    requires IsHexDigit(c)
    ensures v < 16 && HexDigit(v) == c
  {
    if '0' <= c <= '9' then c as int - '0' as int else c as int - 'a' as int + 10
  }

  /** `hexlify(b).decode()`: two lower-case hex digits per byte. */
  function Hexlify(b: Bytes): (s: string)
    ensures |s| == 2 * |b|
    ensures forall i :: 0 <= i < |s| ==> IsHexDigit(s[i])
  {
    if b == [] then [] else [HexDigit(b[0] / 16), HexDigit(b[0] % 16)] + Hexlify(b[1..])
  }

  /** The inverse of `Hexlify` on lower-case hex strings of even length. */
  function Unhexlify(s: string): (b: Bytes)
    requires |s| % 2 == 0 && forall i :: 0 <= i < |s| ==> IsHexDigit(s[i])
    ensures |b| == |s| / 2
  {
    if s == [] then [] else [DigitValue(s[0]) * 16 + DigitValue(s[1])] + Unhexlify(s[2..])
  }

  lemma {:induction false} UnhexlifyHexlify(b: Bytes)
    ensures Unhexlify(Hexlify(b)) == b
  {
    if b != [] {
      var s := Hexlify(b);
      assert s[2..] == Hexlify(b[1..]);
      UnhexlifyHexlify(b[1..]);
      assert s[0] == HexDigit(b[0] / 16) && s[1] == HexDigit(b[0] % 16);
      assert DigitValue(s[0]) * 16 + DigitValue(s[1]) == b[0];
      assert b == [b[0]] + b[1..];
    }
  }

  lemma {:induction false} HexlifyUnhexlify(s: string)
    requires |s| % 2 == 0 && forall i :: 0 <= i < |s| ==> IsHexDigit(s[i])
    ensures Hexlify(Unhexlify(s)) == s
  {
    if s != [] {
      var v := DigitValue(s[0]) * 16 + DigitValue(s[1]);
      assert v / 16 == DigitValue(s[0]) && v % 16 == DigitValue(s[1]);
      HexlifyUnhexlify(s[2..]);
      assert s == [s[0], s[1]] + s[2..];
    }
  }

  /** Distinct 16-byte keys render as distinct strings. */
  lemma HexlifyInjective(a: Bytes, b: Bytes)
    requires Hexlify(a) == Hexlify(b)
    ensures a == b
  {
    UnhexlifyHexlify(a);
    UnhexlifyHexlify(b);
  }

  // ---------------------------------------------------------------------------------
  // 32-bit integers

  const U32Limit: nat := 0x1_0000_0000

  /** `struct` `<I`: little-endian. */
  function LeU32(b: Bytes): nat
    requires |b| == 4
  {
    b[0] as int + 0x100 * b[1] as int + 0x1_0000 * b[2] as int + 0x100_0000 * b[3] as int
  }

  /** `struct` `>I`: big-endian. */
  function BeU32(b: Bytes): nat
    requires |b| == 4
  {
    0x100_0000 * b[0] as int + 0x1_0000 * b[1] as int + 0x100 * b[2] as int + b[3] as int
  }

  function PackLe(n: nat): (b: Bytes)
    requires n < U32Limit
    ensures |b| == 4
  {
    var q1 := n / 0x100;
    var q2 := q1 / 0x100;
    [n % 0x100, q1 % 0x100, q2 % 0x100, q2 / 0x100]
  }

  function PackBe(n: nat): (b: Bytes)
    requires n < U32Limit
    ensures |b| == 4
  {
    var q1 := n / 0x100;
    var q2 := q1 / 0x100;
    [q2 / 0x100, q2 % 0x100, q1 % 0x100, n % 0x100]
  }

  /** Base-256 digits: the last digit and the rest of `0x100 * hi + lo`. */
  lemma Digit(hi: int, lo: int)
    requires 0 <= lo < 0x100
    ensures (0x100 * hi + lo) / 0x100 == hi && (0x100 * hi + lo) % 0x100 == lo
  {
  }

  lemma LeRoundTrip(n: nat, b: Bytes)
    requires n < U32Limit && |b| == 4
    ensures LeU32(PackLe(n)) == n
    ensures LeU32(b) < U32Limit && PackLe(LeU32(b)) == b
  {
    var (b0, b1, b2, b3) := (b[0] as int, b[1] as int, b[2] as int, b[3] as int);
    Digit(b1 + 0x100 * b2 + 0x1_0000 * b3, b0);
    Digit(b2 + 0x100 * b3, b1);
    Digit(b3, b2);
  }

  lemma BeRoundTrip(n: nat, b: Bytes)
    requires n < U32Limit && |b| == 4
    ensures BeU32(PackBe(n)) == n
    ensures BeU32(b) < U32Limit && PackBe(BeU32(b)) == b
  {
    var (b0, b1, b2, b3) := (b[0] as int, b[1] as int, b[2] as int, b[3] as int);
    Digit(0x1_0000 * b0 + 0x100 * b1 + b2, b3);
    Digit(0x100 * b0 + b1, b2);
    Digit(b0, b1);
  }

  // ---------------------------------------------------------------------------------
  // The footer: `struct.unpack("<8s8BI8s", footer_data)`

  const FooterSize: nat := 28

  datatype Footer = Footer(
    tocHash: Bytes,
    version: Byte,
    unknown1: Byte,
    unknown2: Byte,
    blockSizeKb: Byte,
    offsetSize: Byte,
    sizeSize: Byte,
    keySize: Byte,
    checksumSize: Byte,
    numItems: nat,
    checksum: Bytes)
  {
    /** What one `struct.pack("<8s8BI8s", ...)` can produce. */
    predicate Packable() {
      |tocHash| == 8 && |checksum| == 8 && numItems < U32Limit
    }

    /** `block_size_kb * 1024`. */
    function BlockSize(): nat {
      blockSizeKb as nat * 1024
    }

    /** `key_size + size_size + offset_size`: the bytes read per entry. */
    function EntrySize(): nat {
      keySize as nat + sizeSize as nat + offsetSize as nat
    }
  }

  /** Unpacking fails unless there are exactly 28 bytes. */
  function UnpackFooter(b: Bytes): (r: Result<Footer>)
    ensures r.Ok? <==> |b| == FooterSize
    ensures r.Err? ==> r.error == StructError
    ensures r.Ok? ==> r.value.Packable()
  {
    if |b| != FooterSize then Err(StructError)
    else
      Ok(Footer(b[..8], b[8], b[9], b[10], b[11], b[12], b[13], b[14], b[15], LeU32(b[16..20]), b[20..]))
  }

  function PackFooter(f: Footer): (b: Bytes)
    requires f.Packable()
    ensures |b| == FooterSize
  {
    f.tocHash + [f.version, f.unknown1, f.unknown2, f.blockSizeKb, f.offsetSize, f.sizeSize, f.keySize, f.checksumSize]
      + PackLe(f.numItems) + f.checksum
  }

  /** The footer format loses nothing in either direction. */
  lemma FooterRoundTrip(f: Footer, b: Bytes)
    requires f.Packable()
    ensures UnpackFooter(PackFooter(f)) == Ok(f)
    ensures UnpackFooter(b).Ok? ==> PackFooter(UnpackFooter(b).value) == b
  {
    var p := PackFooter(f);
    assert p[..8] == f.tocHash;
    assert p[16..20] == PackLe(f.numItems);
    assert p[20..] == f.checksum;
    LeRoundTrip(f.numItems, p[16..20]);
    if |b| == FooterSize {
      LeRoundTrip(0, b[16..20]);
      assert b == b[..8] + b[8..16] + b[16..20] + b[20..];
    }
  }

  // ---------------------------------------------------------------------------------
  // An entry: `struct.unpack(">16sII", _data)`, key rendered with `hexlify`

  const EntrySize: nat := 24

  /** One entry as `struct.unpack(">16sII", ...)` returns it: the 16 key bytes, then
      size and offset. */
  datatype Entry = Entry(rawKey: Bytes, size: nat, offset: nat)
  {
    predicate Packable() {
      |rawKey| == 16 && size < U32Limit && offset < U32Limit
    }

    /** `hexlify(key).decode()`: the key as `items` yields it. */
    function Key(): (k: string)
      ensures |k| == 2 * |rawKey|
      ensures forall i :: 0 <= i < |k| ==> IsHexDigit(k[i])
    {
      Hexlify(rawKey)
    }
  }

  /** The key an entry is yielded under names it: two entries with the same key have
      the same key bytes. */
  lemma KeyNamesEntry(a: Entry, b: Entry)
    requires a.Key() == b.Key()
    ensures a.rawKey == b.rawKey
  {
    HexlifyInjective(a.rawKey, b.rawKey);
  }

  function UnpackEntry(b: Bytes): (r: Result<Entry>)
    ensures r.Ok? <==> |b| == EntrySize
    ensures r.Err? ==> r.error == StructError
    ensures r.Ok? ==> r.value.Packable()
  {
    if |b| != EntrySize then Err(StructError)
    else Ok(Entry(b[..16], BeU32(b[16..20]), BeU32(b[20..24])))
  }

  /** `struct.unpack(">16sII", ...)` of a read known to be 24 bytes long. */
  function Decode(b: Bytes): (e: Entry)
    requires |b| == EntrySize
    ensures UnpackEntry(b) == Ok(e)
  {
    UnpackEntry(b).value
  }

  /** Every record is a full 24-byte read. */
  predicate Full(records: seq<Bytes>) {
    forall i :: 0 <= i < |records| ==> |records[i]| == EntrySize
  }

  function PackEntry(e: Entry): (b: Bytes)
    requires e.Packable()
    ensures |b| == EntrySize
  {
    e.rawKey + PackBe(e.size) + PackBe(e.offset)
  }

  /** The entry format loses nothing in either direction. */
  lemma EntryRoundTrip(e: Entry, b: Bytes)
    requires e.Packable()
    ensures UnpackEntry(PackEntry(e)) == Ok(e)
    ensures UnpackEntry(b).Ok? ==> PackEntry(UnpackEntry(b).value) == b
  {
    var p := PackEntry(e);
    assert p[..16] == e.rawKey;
    assert p[16..20] == PackBe(e.size);
    assert p[20..24] == PackBe(e.offset);
    BeRoundTrip(e.size, p[16..20]);
    BeRoundTrip(e.offset, p[20..24]);
    if |b| == EntrySize {
      BeRoundTrip(0, b[16..20]);
      BeRoundTrip(0, b[20..24]);
      assert b == b[..16] + b[16..20] + b[20..24];
    }
  }

  // ---------------------------------------------------------------------------------
  // Where the `items` walk reads

  /** Where the next entry is read from: `pos`, or, when the entry does not fit in the
      `left` bytes left of the block, the start of the next block (a relative seek,
      clamped at the start of the stream). */
  function ReadStart(entrySize: nat, pos: nat, left: int): (at: nat)
    ensures entrySize <= left ==> at == pos
    ensures entrySize > left && pos + left >= 0 ==> at == pos + left
  {
    if entrySize <= left then pos else if pos + left < 0 then 0 else pos + left
  }

  /** The room left in the block the next entry is read from. */
  function RoomAt(block: nat, entrySize: nat, left: int): int {
    if entrySize > left then block else left
  }

  /** The offsets the walk reads its entries from, starting at `pos` with `left` bytes
      left in the current block: when an entry does not fit in what is left, the
      stream first skips the rest of the block (a relative seek, clamped at the
      start of the stream). These are the offsets as long as every read is full. */
  function Starts(block: nat, entrySize: nat, count: nat, pos: nat, left: int): (s: seq<nat>)
    ensures |s| == count
    decreases count
  {
    if count == 0 then []
    else
      var at := ReadStart(entrySize, pos, left);
      [at] + Starts(block, entrySize, count - 1, at + entrySize, RoomAt(block, entrySize, left) - entrySize)
  }

  /** The records read from `starts`, up to the first that cannot be unpacked: one of a
      size other than 24, or one cut short by the end of the data. */
  function RecordsAt(data: Bytes, starts: seq<nat>, entrySize: nat): (r: (seq<Bytes>, Option<Error>))
    ensures |r.0| <= |starts|
    ensures r.1.None? <==> |r.0| == |starts|
    ensures r.1.Some? ==> r.1.value == StructError
  {
    if starts == [] then ([], None)
    else if entrySize != EntrySize || starts[0] + EntrySize > |data| then ([], Some(StructError))
    else
      var rest := RecordsAt(data, starts[1..], entrySize);
      ([data[starts[0]..starts[0] + EntrySize]] + rest.0, rest.1)
  }

  /** Record `i` is the 24 bytes at `starts[i]`. */
  lemma {:induction false} RecordsAtSlices(data: Bytes, starts: seq<nat>, entrySize: nat)
    ensures var r := RecordsAt(data, starts, entrySize);
            forall i :: 0 <= i < |r.0| ==> starts[i] + EntrySize <= |data| && r.0[i] == data[starts[i]..starts[i] + EntrySize]
  {
    if starts != [] && entrySize == EntrySize && starts[0] + EntrySize <= |data| {
      RecordsAtSlices(data, starts[1..], entrySize);
    }
  }

  /** The walk stops early exactly when the entry size is not 24 or an entry runs past
      the end of the data. */
  lemma {:induction false} RecordsAtComplete(data: Bytes, starts: seq<nat>, entrySize: nat)
    ensures RecordsAt(data, starts, entrySize).1.None? <==>
              starts == [] || (entrySize == EntrySize && forall i :: 0 <= i < |starts| ==> starts[i] + EntrySize <= |data|)
  {
    if starts != [] && entrySize == EntrySize && starts[0] + EntrySize <= |data| {
      RecordsAtComplete(data, starts[1..], entrySize);
      if forall i :: 0 <= i < |starts[1..]| ==> starts[1..][i] + EntrySize <= |data| {
        forall i | 0 <= i < |starts| ensures starts[i] + EntrySize <= |data| {
          if i > 0 {
            assert starts[i] == starts[1..][i - 1];
          }
        }
      }
    }
  }

  /** `read(n)` on a `BytesIO` positioned at `pos`: nothing past the end. */
  function ReadAt(data: Bytes, pos: nat, n: nat): (r: Bytes)
    ensures |r| <= n
    ensures pos + n <= |data| ==> r == data[pos..pos + n]
  {
    if pos >= |data| then [] else data[pos..Min(pos + n, |data|)]
  }

  /** The reads of the `items` generator as written: `count` reads of `entrySize` bytes
      each, from `pos` with `left` bytes left in the block, skipping to the next block
      when an entry does not fit; it stops at the first read that `struct.unpack(">16sII",
      ...)` refuses, that is, one that is not exactly 24 bytes long. */
  function Walk(data: Bytes, block: nat, entrySize: nat, count: nat, pos: nat, left: int): (r: (seq<Bytes>, Option<Error>))
    ensures |r.0| <= count
    ensures r.1.None? <==> |r.0| == count
    ensures r.1.Some? ==> r.1.value == StructError
    ensures entrySize < EntrySize && count > 0 ==> r == ([], Some(StructError))
    decreases count
  {
    if count == 0 then ([], None)
    else
      var at := ReadStart(entrySize, pos, left);
      var chunk := ReadAt(data, at, entrySize);
      if |chunk| != EntrySize then ([], Some(StructError))
      else
        var rest := Walk(data, block, entrySize, count - 1, at + |chunk|, RoomAt(block, entrySize, left) - entrySize);
        ([chunk] + rest.0, rest.1)
  }

  /** Every record the walk yields is a full 24-byte read. */
  lemma {:induction false} WalkYieldsFullRecords(data: Bytes, block: nat, entrySize: nat, count: nat, pos: nat, left: int)
    ensures Full(Walk(data, block, entrySize, count, pos, left).0)
    decreases count
  {
    if count > 0 {
      var at := ReadStart(entrySize, pos, left);
      var chunk := ReadAt(data, at, entrySize);
      if |chunk| == EntrySize {
        WalkYieldsFullRecords(data, block, entrySize, count - 1, at + |chunk|, RoomAt(block, entrySize, left) - entrySize);
      }
    }
  }

  /** With the standard entry size the walk reads entry `i` at `Starts(...)[i]` and stops
      at the first entry cut short by the end of the data. */
  lemma {:induction false} WalkReadsStarts(data: Bytes, block: nat, count: nat, pos: nat, left: int)
    ensures Walk(data, block, EntrySize, count, pos, left) == RecordsAt(data, Starts(block, EntrySize, count, pos, left), EntrySize)
    decreases count
  {
    if count > 0 {
      var at := ReadStart(EntrySize, pos, left);
      var next := RoomAt(block, EntrySize, left) - EntrySize;
      var starts := Starts(block, EntrySize, count, pos, left);
      assert starts[0] == at && starts[1..] == Starts(block, EntrySize, count - 1, at + EntrySize, next);
      var chunk := ReadAt(data, at, EntrySize);
      if at + EntrySize <= |data| {
        assert chunk == data[at..at + EntrySize];
        WalkReadsStarts(data, block, count - 1, at + EntrySize, next);
      } else {
        assert |chunk| < EntrySize;
      }
    }
  }

  /** How many 24-byte entries fit in a block. */
  function PerBlock(block: nat): nat {
    block / EntrySize
  }

  /** The closed form of the walk for 24-byte entries and blocks of at least 24 bytes:
      entry `i` sits at slot `i % per` of block `i / per`. */
  function Slot(block: nat, i: nat): nat
    requires block >= EntrySize
  {
    (i / PerBlock(block)) * block + (i % PerBlock(block)) * EntrySize
  }

  /** Entry `i` lies inside block `i / per`: no entry crosses a block boundary. */
  lemma SlotInsideBlock(block: nat, i: nat)
    requires block >= EntrySize
    ensures (i / PerBlock(block)) * block <= Slot(block, i)
    ensures Slot(block, i) + EntrySize <= (i / PerBlock(block) + 1) * block
  {
    var per := PerBlock(block);
    assert (i % per + 1) * EntrySize <= per * EntrySize <= block;
  }

  /** The walk state before entry `i`: where the stream is and how much of the block is
      left. After a block's last slot the stream sits at the end of that slot. */
  function StateBefore(block: nat, i: nat): (nat, int)
    requires block >= EntrySize
  {
    var per := PerBlock(block);
    if i > 0 && i % per == 0 then ((i / per - 1) * block + per * EntrySize, block - per * EntrySize)
    else (Slot(block, i), block - (i % per) * EntrySize)
  }

  /** From the state before entry `i`, the next read is at `Slot(block, i)` and leaves the
      state before entry `i + 1`. */
  lemma StepFromState(block: nat, i: nat)
    requires block >= EntrySize
    ensures var (pos, left) := StateBefore(block, i);
            && ReadStart(EntrySize, pos, left) == Slot(block, i)
            && (Slot(block, i) + EntrySize, RoomAt(block, EntrySize, left) - EntrySize) == StateBefore(block, i + 1)
  {
    ReadPosition(block, i);
    NextState(block, i);
  }

  /** Where entry `i` is read, and what is left of its block before the read. */
  lemma ReadPosition(block: nat, i: nat)
    requires block >= EntrySize
    ensures var (pos, left) := StateBefore(block, i);
            && ReadStart(EntrySize, pos, left) == Slot(block, i)
            && RoomAt(block, EntrySize, left) == block - (i % PerBlock(block)) * EntrySize
  {
    var per := PerBlock(block);
    var q, r := i / per, i % per;
    assert per * EntrySize <= block < (per + 1) * EntrySize;
    if i > 0 && r == 0 {
      assert q >= 1;
      assert (q - 1) * block + block == q * block;
    } else {
      assert r * EntrySize + EntrySize <= per * EntrySize;
    }
  }

  /** After reading entry `i` the walk is in the state before entry `i + 1`. */
  lemma NextState(block: nat, i: nat)
    requires block >= EntrySize
    ensures (Slot(block, i) + EntrySize, block - (i % PerBlock(block)) * EntrySize - EntrySize) == StateBefore(block, i + 1)
  {
    var per := PerBlock(block);
    var q, r := i / per, i % per;
    assert i == q * per + r;
    if r + 1 < per {
      DivModUnique(i + 1, per, q, r + 1);
    } else {
      DivModUnique(i + 1, per, q + 1, 0);
    }
  }

  lemma DivModUnique(n: nat, d: nat, q: nat, r: nat)
    requires d > 0 && r < d && n == q * d + r
    ensures n / d == q && n % d == r
  {
    var k := q - n / d;
    assert k * d == n % d - r;
    MulAtLeast(k, d);
  }

  lemma MulAtLeast(k: int, d: nat)
    ensures k >= 1 ==> k * d >= d
    ensures k <= -1 ==> k * d <= -(d as int)
  {
  }

  /** With 24-byte entries and blocks of at least 24 bytes, the walk from the start of
      the data reads entry `i` from slot `i % per` of block `i / per`. */
  lemma {:induction false} StartsAreSlots(block: nat, count: nat, i: nat)
    requires block >= EntrySize
    ensures var (pos, left) := StateBefore(block, i);
            forall j :: 0 <= j < count ==> Starts(block, EntrySize, count, pos, left)[j] == Slot(block, i + j)
    decreases count
  {
    if count > 0 {
      var (pos, left) := StateBefore(block, i);
      StepFromState(block, i);
      StartsAreSlots(block, count - 1, i + 1);
      var s := Starts(block, EntrySize, count, pos, left);
      forall j | 0 <= j < count ensures s[j] == Slot(block, i + j) {
        if j > 0 {
          assert s[j] == Starts(block, EntrySize, count - 1, StateBefore(block, i + 1).0, StateBefore(block, i + 1).1)[j - 1];
          assert i + 1 + (j - 1) == i + j;
        }
      }
    }
  }

  /** The walk as `items` starts it: at offset 0 with a whole block left. */
  lemma WalkFromStartUsesSlots(block: nat, count: nat)
    requires block >= EntrySize
    ensures forall j :: 0 <= j < count ==> Starts(block, EntrySize, count, 0, block)[j] == Slot(block, j)
  {
    assert StateBefore(block, 0) == (0, block);
    StartsAreSlots(block, count, 0);
  }
}
