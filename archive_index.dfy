/** One archive index (keg/archive.py:39-82): the footer check and decode done when the
    index is opened, and the `items` walk over its fixed-size entries. */
module ArchiveIndexes {
  import opened Common
  import opened Utils
  import opened ArchiveFormat
  import Cdn

  /** `ArchiveIndex.__init__` up to the footer: `seek(-28, SEEK_END)` on a `BytesIO`
      (clamped at the start, so a shorter index is read whole), `verify_data` on what
      was read, then `struct.unpack("<8s8BI8s", ...)`. */
  function ParseFooter(md5: Digest, data: Bytes, key: string, verify: bool): (r: Result<Footer>)
    ensures r.Ok? <==> |data| >= FooterSize && (!verify || md5(Tail(data, FooterSize)) == key)
    ensures r.Ok? ==> r.value.Packable() && PackFooter(r.value) == data[|data| - FooterSize..]
    ensures verify && md5(Tail(data, FooterSize)) != key ==>
              r == Err(IntegrityError("archive index", md5(Tail(data, FooterSize)), key))
    ensures (!verify || md5(Tail(data, FooterSize)) == key) && |data| < FooterSize ==> r == Err(StructError)
  {
    var footerData := Tail(data, FooterSize);
    var _ :- VerifyData(md5, "archive index", footerData, key, verify);
    var footer :- UnpackFooter(footerData);
    FooterRoundTrip(footer, footerData);
    assert footerData == data[|data| - FooterSize..] by {
      if |data| >= FooterSize {
        assert |footerData| == FooterSize;
      }
    }
    Ok(footer)
  }

  /** Only the footer is checked: two index payloads with the same last 28 bytes open
      alike, whatever entries precede the footer. */
  lemma FooterOnlyIsVerified(md5: Digest, a: Bytes, b: Bytes, key: string, verify: bool)
    requires |a| >= FooterSize && |b| >= FooterSize
    requires a[|a| - FooterSize..] == b[|b| - FooterSize..]
    ensures ParseFooter(md5, a, key, verify) == ParseFooter(md5, b, key, verify)
  {
    assert Tail(a, FooterSize) == a[|a| - FooterSize..];
    assert Tail(b, FooterSize) == b[|b| - FooterSize..];
  }

  /** An opened index: its payload and the decoded footer. The read position of the
      `BytesIO` is not kept: every walk starts with `seek(0)`. */
  datatype ArchiveIndex = ArchiveIndex(key: string, verify: bool, data: Bytes, footer: Footer) {

    /** What `items` yields, and how it stops: the records `Walk` reads, unpacked. */
    function Walked(): (seq<Entry>, Option<Error>) {
      var (records, error) := Walk(data, footer.BlockSize(), footer.EntrySize(), footer.numItems, 0, footer.BlockSize());
      WalkYieldsFullRecords(data, footer.BlockSize(), footer.EntrySize(), footer.numItems, 0, footer.BlockSize());
      (Unpacked(records), error)
    }

    /** `items`: `num_items` entries read one after the other from the start of the
        payload; an entry that does not fit in what is left of the block is read from
        the start of the next block. The walk stops at the first read that does not
        unpack as `>16sII`. */
    method Items() returns (entries: seq<Entry>, error: Option<Error>)
      ensures (entries, error) == Walked()
      ensures |entries| <= footer.numItems
      ensures error.None? <==> |entries| == footer.numItems
    {
      var records;
      records, error := ReadRecords(data, footer.BlockSize(), footer.EntrySize(), footer.numItems);
      WalkYieldsFullRecords(data, footer.BlockSize(), footer.EntrySize(), footer.numItems, 0, footer.BlockSize());
      entries := Unpacked(records);
    }
  }

  /** Each record unpacked, in order. */
  function Unpacked(records: seq<Bytes>): (entries: seq<Entry>)
    requires Full(records)
    ensures |entries| == |records|
  {
    if records == [] then [] else [Decode(records[0])] + Unpacked(records[1..])
  }

  /** Entry `i` is what `struct.unpack(">16sII", ...)` makes of record `i`. */
  lemma {:induction false} UnpackedEntries(records: seq<Bytes>)
    requires Full(records)
    ensures forall i :: 0 <= i < |records| ==> UnpackEntry(records[i]) == Ok(Unpacked(records)[i])
  {
    if records != [] {
      UnpackedEntries(records[1..]);
      assert forall i :: 1 <= i < |records| ==> records[i] == records[1..][i - 1];
    }
  }

  /** The loop of `items` over a `BytesIO` holding `data`: `seek(0)`, then `count`
      reads of `entrySize` bytes, each preceded by a relative seek to the next block
      when the entry does not fit in what is left of the current one, and each refused
      by `struct.unpack` unless it is exactly 24 bytes long. */
  method ReadRecords(data: Bytes, block: nat, entrySize: nat, count: nat) returns (records: seq<Bytes>, error: Option<Error>)
    ensures (records, error) == Walk(data, block, entrySize, count, 0, block)
  {
    var pos: nat := 0;
    var left: int := block;
    records, error := [], None;
    ghost var whole := WalkFrom(data, block, entrySize, count, 0, block, []);
    var i := 0;
    while i < count
      invariant i <= count
      invariant whole == WalkFrom(data, block, entrySize, count - i, pos, left, records)
    {
      var at, room := SkipToEntry(block, entrySize, pos, left);
      var chunk := ReadAt(data, at, entrySize);
      ReadStep(data, block, entrySize, count - i, pos, left, records, at, room, chunk);
      pos, left := at + |chunk|, room;
      if |chunk| != EntrySize {
        error := Some(StructError);
        break;
      }
      records := records + [chunk];
      i := i + 1;
    }
    WalkFromStart(data, block, entrySize, count, 0, block);
  }

  /** The seek of `items` before each read: when the entry does not fit in what is left
      of the block, `seek(left, SEEK_CUR)` (clamped at the start of the stream) and a
      fresh block; then the room left once the entry is read. */
  method SkipToEntry(block: nat, entrySize: nat, pos: nat, left: int) returns (at: nat, room: int)
    ensures at == ReadStart(entrySize, pos, left) && room == RoomAt(block, entrySize, left) - entrySize
  {
    at, room := pos, left;
    if entrySize > room {
      at := if at + room < 0 then 0 else at + room;
      room := block;
    }
    room := room - entrySize;
  }

  /** One pass of the loop of `items`, from the stream at `pos` with `left` bytes left
      in the block: the read `chunk` at `at` either ends the walk or joins the records,
      with `room` bytes left in the block after it. */
  lemma ReadStep(data: Bytes, block: nat, entrySize: nat, count: nat, pos: nat, left: int, done: seq<Bytes>,
                 at: nat, room: int, chunk: Bytes)
    requires count > 0
    requires at == ReadStart(entrySize, pos, left) && room == RoomAt(block, entrySize, left) - entrySize
    requires chunk == ReadAt(data, at, entrySize)
    ensures |chunk| != EntrySize ==> WalkFrom(data, block, entrySize, count, pos, left, done) == (done, Some(StructError))
    ensures |chunk| == EntrySize ==>
              WalkFrom(data, block, entrySize, count, pos, left, done)
                == WalkFrom(data, block, entrySize, count - 1, at + |chunk|, room, done + [chunk])
  {
  }

  /** `Walk` with the records read so far carried along. */
  function WalkFrom(data: Bytes, block: nat, entrySize: nat, count: nat, pos: nat, left: int, done: seq<Bytes>): (seq<Bytes>, Option<Error>)
    decreases count
  {
    if count == 0 then (done, None)
    else
      var at := ReadStart(entrySize, pos, left);
      var chunk := ReadAt(data, at, entrySize);
      if |chunk| != EntrySize then (done, Some(StructError))
      else WalkFrom(data, block, entrySize, count - 1, at + |chunk|, RoomAt(block, entrySize, left) - entrySize, done + [chunk])
  }

  lemma {:induction false} WalkFromAcc(data: Bytes, block: nat, entrySize: nat, count: nat, pos: nat, left: int, done: seq<Bytes>)
    ensures var w := Walk(data, block, entrySize, count, pos, left);
            WalkFrom(data, block, entrySize, count, pos, left, done) == (done + w.0, w.1)
    decreases count
  {
    if count == 0 {
      assert done + [] == done;
    } else {
      var at := ReadStart(entrySize, pos, left);
      var chunk := ReadAt(data, at, entrySize);
      if |chunk| != EntrySize {
        assert done + [] == done;
      } else {
        var next := RoomAt(block, entrySize, left) - entrySize;
        WalkFromAcc(data, block, entrySize, count - 1, at + |chunk|, next, done + [chunk]);
        var rest := Walk(data, block, entrySize, count - 1, at + |chunk|, next);
        assert Walk(data, block, entrySize, count, pos, left) == ([chunk] + rest.0, rest.1);
        assert (done + [chunk]) + rest.0 == done + ([chunk] + rest.0);
      }
    }
  }

  /** Carrying nothing along, `WalkFrom` is `Walk`. */
  lemma WalkFromStart(data: Bytes, block: nat, entrySize: nat, count: nat, pos: nat, left: int)
    ensures WalkFrom(data, block, entrySize, count, pos, left, []) == Walk(data, block, entrySize, count, pos, left)
  {
    WalkFromAcc(data, block, entrySize, count, pos, left, []);
    var w := Walk(data, block, entrySize, count, pos, left);
    assert [] + w.0 == w.0;
  }

  /** `ArchiveIndex(data, key, verify)`. */
  function OpenIndex(md5: Digest, data: Bytes, key: string, verify: bool): (r: Result<ArchiveIndex>)
    ensures r.Ok? <==> ParseFooter(md5, data, key, verify).Ok?
    ensures r.Ok? ==> r.value.data == data && r.value.footer == ParseFooter(md5, data, key, verify).value
  {
    var footer :- ParseFooter(md5, data, key, verify);
    Ok(ArchiveIndex(key, verify, data, footer))
  }

  /** `cdn.get_index(key, verify)`: the index payload is fetched unverified, and only
      its footer is checked, by `ArchiveIndex`. */
  function GetIndex(src: Cdn.ContentSource, md5: Digest, key: string, verify: bool): (r: Result<ArchiveIndex>)
    ensures r.Ok? <==> Cdn.FetchIndex(src, md5, key, false).Ok?
                       && OpenIndex(md5, Cdn.FetchIndex(src, md5, key, false).value, key, verify).Ok?
    ensures r.Ok? ==> r.value.data == Cdn.FetchIndex(src, md5, key, false).value && r.value.key == key
  {
    var data :- Cdn.FetchIndex(src, md5, key, false);
    OpenIndex(md5, data, key, verify)
  }

  /** With the standard layout (24-byte entries, blocks of at least 24 bytes) entry `i`
      is the one packed at slot `i % per` of block `i / per`, no entry crosses a block
      boundary, and the walk yields all `num_items` entries exactly when every slot lies
      inside the payload. */
  lemma {:induction false} StandardItems(index: ArchiveIndex)
    requires index.footer.EntrySize() == EntrySize && index.footer.BlockSize() >= EntrySize
    ensures var block := index.footer.BlockSize();
            var (entries, error) := index.Walked();
            && (forall i :: 0 <= i < |entries| ==>
                  && Slot(block, i) + EntrySize <= |index.data|
                  && UnpackEntry(index.data[Slot(block, i)..Slot(block, i) + EntrySize]) == Ok(entries[i]))
            && (error.None? <==> forall i :: 0 <= i < index.footer.numItems ==> Slot(block, i) + EntrySize <= |index.data|)
  {
    var block := index.footer.BlockSize();
    var n := index.footer.numItems;
    var starts := Starts(block, EntrySize, n, 0, block);
    WalkReadsStarts(index.data, block, n, 0, block);
    WalkYieldsFullRecords(index.data, block, EntrySize, n, 0, block);
    UnpackedEntries(Walk(index.data, block, EntrySize, n, 0, block).0);
    WalkFromStartUsesSlots(block, n);
    RecordsAtSlices(index.data, starts, EntrySize);
    RecordsAtComplete(index.data, starts, EntrySize);
  }

  /** A footer that records blocks of 0 KiB: every relative seek goes back to the
      start, so the walk reads the first record over and over. */
  lemma {:induction false} EmptyBlocksRepeatFirstRecord(data: Bytes, count: nat, pos: nat, left: int)
    requires |data| >= EntrySize && count > 0
    requires (pos == 0 && left == 0) || (pos == EntrySize && left == -(EntrySize as int))
    ensures var (records, error) := Walk(data, 0, EntrySize, count, pos, left);
            && error.None? && |records| == count
            && forall i :: 0 <= i < count ==> records[i] == data[..EntrySize]
    decreases count
  {
    assert ReadStart(EntrySize, pos, left) == 0;
    assert ReadAt(data, 0, EntrySize) == data[..EntrySize];
    if count > 1 {
      EmptyBlocksRepeatFirstRecord(data, count - 1, EntrySize, -(EntrySize as int));
    }
  }
}
