// Loading a saved binary: the file with its cached position, the index, and single blocks
// (src/lib-sieve/sieve-binary-file.c).
module BinaryLoad {
  import opened BinaryCode
  import opened Bytes
  import opened BinaryFile

  // ----- What a file holds at an offset -----

  // Data asked for at `at` and taken from `from`.
  function TakenFrom(file: seq<Byte>, from: nat, at: nat, size: nat): Read<seq<Byte>>
  {
    if size == 0 then Got([], at)
    else if from + size <= |file| then Got(file[from..from + size], at + size)
    else Corrupt
  }

  function ReadAt(file: seq<Byte>, offset: nat, size: nat): Read<seq<Byte>>
  {
    TakenFrom(file, Align(offset), Align(offset), size)
  }

  // The data at the offset are there.
  predicate There(file: seq<Byte>, offset: nat, size: nat)
  {
    size > 0 && Align(offset) + size <= |file|
  }

  function Word(bytes: seq<Byte>, at: nat): nat
    requires at + 4 <= |bytes|
  {
    OffsetAt(bytes, at).value
  }

  // The number of blocks, and the size of the header.
  function HeaderAt(file: seq<Byte>): Read<nat>
  {
    if |file| < HEADER_SIZE || Word(file, 0) != MAGIC then Corrupt
    else
      var major, minor, blocks := Word(file, 4) / 65536, Word(file, 4) % 65536, Word(file, 8);
      var early := major == PRE_HDR_SIZE_MAJOR && minor == PRE_HDR_SIZE_MINOR;
      var size := if early then PRE_HDR_SIZE_HDR_SIZE else Word(file, 12);
      if !early && (major != VERSION_MAJOR || size < BASE_HEADER_SIZE) then Corrupt
      else if blocks == 0 then Corrupt
      else Got(blocks, size)
  }

  datatype Entry = Entry(offset: nat, ext: nat)

  function RecordAt(file: seq<Byte>, offset: nat, id: nat): Read<Entry>
  {
    match ReadAt(file, offset, RECORD_SIZE)
    case Corrupt => Corrupt
    case Got(record, next) =>
      if |record| < RECORD_SIZE || Word(record, 0) != id then Corrupt
      else Got(Entry(Word(record, 8), Word(record, 12)), next)
  }

  // The records from number `id` on.
  function IndexAt(file: seq<Byte>, offset: nat, id: nat, count: nat): Read<seq<Entry>>
    decreases count - id
  {
    if id >= count then Got([], offset)
    else
      match RecordAt(file, offset, id)
      case Corrupt => Corrupt
      case Got(entry, next) =>
        match IndexAt(file, next, id + 1, count)
        case Corrupt => Corrupt
        case Got(entries, end) => Got([entry] + entries, end)
  }

  function BlockAt(file: seq<Byte>, offset: nat, id: nat): Read<seq<Byte>>
  {
    match ReadAt(file, offset, BLOCK_HEADER_SIZE)
    case Corrupt => Corrupt
    case Got(header, next) =>
      if |header| < BLOCK_HEADER_SIZE || Word(header, 0) != id then Corrupt else ReadAt(file, next, Word(header, 4))
  }

  // The same for a file that is at `from` when it is taken to be at `at`.
  function RecordTaken(file: seq<Byte>, from: nat, at: nat, id: nat): Read<Entry>
  {
    match TakenFrom(file, from, at, RECORD_SIZE)
    case Corrupt => Corrupt
    case Got(record, next) =>
      if |record| < RECORD_SIZE || Word(record, 0) != id then Corrupt
      else Got(Entry(Word(record, 8), Word(record, 12)), next)
  }

  function BlockTaken(file: seq<Byte>, from: nat, at: nat, id: nat): Read<seq<Byte>>
  {
    match TakenFrom(file, from, at, BLOCK_HEADER_SIZE)
    case Corrupt => Corrupt
    case Got(header, next) =>
      if |header| < BLOCK_HEADER_SIZE || Word(header, 0) != id then Corrupt
      else
        var there := if Align(next) == next then from + BLOCK_HEADER_SIZE else Align(next);
        TakenFrom(file, there, Align(next), Word(header, 4))
  }

  lemma TakenInPlace(file: seq<Byte>, offset: nat, id: nat)
    ensures RecordTaken(file, Align(offset), Align(offset), id) == RecordAt(file, offset, id)
    ensures BlockTaken(file, Align(offset), Align(offset), id) == BlockAt(file, offset, id)
  {
    hide OffsetAt, Align;
  }

  // From the end of the file there is nothing to take.
  lemma NothingToTake(file: seq<Byte>, from: nat, at: nat, id: nat)
    requires from >= |file|
    ensures RecordTaken(file, from, at, id) == Corrupt && BlockTaken(file, from, at, id) == Corrupt
  {
    hide OffsetAt, Align;
  }

  // ----- A saved file loads -----

  lemma ReadsPart(file: seq<Byte>, at: nat, part: seq<Byte>)
    requires Has(file, at, part) && at % 4 == 0 && at + 3 < FILE_LIMIT
    ensures ReadAt(file, at, |part|) == Got(part, at + |part|)
  {
    Aligned(at);
    if part != [] { assert file[at..at + |part|] == part; }
  }

  lemma WordHas(bytes: seq<Byte>, at: nat, n: nat)
    requires Has(bytes, at, OffsetBytes(n)) && n < OFFSET_LIMIT
    ensures at + 4 <= |bytes| && Word(bytes, at) == n
  {
    hide OffsetBytes, OffsetAt;
    OffsetRoundTrip(bytes, at, n);
  }

  lemma HasItself(bytes: seq<Byte>)
    ensures Has(bytes, 0, bytes)
  {
  }

  lemma RecordReads(id: nat, size: nat, offset: nat, ext: nat)
    requires id < OFFSET_LIMIT && offset < OFFSET_LIMIT && ext < OFFSET_LIMIT
    ensures var r := RecordBytes(id, size, offset, ext); Word(r, 0) == id && Word(r, 8) == offset && Word(r, 12) == ext
  {
    hide OffsetBytes, OffsetAt, Has;
    var a, b, c, d := OffsetBytes(id), OffsetBytes(size), OffsetBytes(offset), OffsetBytes(ext);
    var r := RecordBytes(id, size, offset, ext);
    HasItself(r);
    HasParts(r, 0, a + b + c, d);
    HasParts(r, 0, a + b, c);
    HasParts(r, 0, a, b);
    WordHas(r, 0, id);
    WordHas(r, 8, offset);
    WordHas(r, 12, ext);
  }

  lemma BlockHeaderReads(id: nat, size: nat)
    requires id < OFFSET_LIMIT && size < OFFSET_LIMIT
    ensures var r := BlockHeaderBytes(id, size); Word(r, 0) == id && Word(r, 4) == size
  {
    hide OffsetBytes, OffsetAt, Has;
    var r := BlockHeaderBytes(id, size);
    HasItself(r);
    HasParts(r, 0, OffsetBytes(id), OffsetBytes(size));
    WordHas(r, 0, id);
    WordHas(r, 4, size);
  }

  lemma HeaderLoads(file: seq<Byte>, usage: seq<Byte>, blocks: nat)
    requires |usage| == HEADER_SIZE - 16 && 0 < blocks < OFFSET_LIMIT && Has(file, 0, HeaderBytes(blocks, usage))
    ensures HeaderAt(file) == Got(blocks, HEADER_SIZE)
  {
    hide OffsetBytes, OffsetAt, Has;
    var a, b, c, d := OffsetBytes(MAGIC), OffsetBytes(VERSION_MAJOR * 65536 + VERSION_MINOR), OffsetBytes(blocks),
      OffsetBytes(HEADER_SIZE);
    HasFits(file, 0, HeaderBytes(blocks, usage));
    HasParts(file, 0, a + b + c + d, usage);
    HasParts(file, 0, a + b + c, d);
    HasParts(file, 0, a + b, c);
    HasParts(file, 0, a, b);
    WordHas(file, 0, MAGIC);
    WordHas(file, 4, VERSION_MAJOR * 65536 + VERSION_MINOR);
    WordHas(file, 8, blocks);
    WordHas(file, 12, HEADER_SIZE);
  }

  lemma RecordLoads(file: seq<Byte>, blocks: seq<Block>, k: nat)
    requires Fits(blocks) && k < |blocks| && HasRecord(file, blocks, k)
    ensures RecordAt(file, INDEX_AT + RECORD_SIZE * k, k)
            == Got(Entry(OffsetOf(blocks, k), blocks[k].ext), INDEX_AT + RECORD_SIZE * (k + 1))
  {
    hide RecordBytes, ReadAt, Has, Fits, EndOf, OffsetOf, OffsetAt;
    var record := RecordBytes(k, |blocks[k].data|, OffsetOf(blocks, k), blocks[k].ext);
    IndexFits(blocks, k);
    ReadsPart(file, INDEX_AT + RECORD_SIZE * k, record);
    OffsetFits(blocks, k);
    RecordReads(k, |blocks[k].data|, OffsetOf(blocks, k), blocks[k].ext);
  }

  lemma IndexFits(blocks: seq<Block>, k: nat)
    requires Fits(blocks) && k < |blocks|
    ensures INDEX_AT + RECORD_SIZE * k + 3 < FILE_LIMIT && (INDEX_AT + RECORD_SIZE * k) % 4 == 0
  {
    assert EndOf(blocks, 0) + 3 < FILE_LIMIT;
    IndexSize(blocks);
  }

  lemma OffsetFits(blocks: seq<Block>, k: nat)
    requires Fits(blocks) && k < |blocks|
    ensures k < OFFSET_LIMIT && blocks[k].ext < OFFSET_LIMIT && |blocks[k].data| < OFFSET_LIMIT
    ensures OffsetOf(blocks, k) % 4 == 0 && OffsetOf(blocks, k) + BLOCK_HEADER_SIZE + 3 < FILE_LIMIT
  {
    BlocksInOrder(blocks, k, k);
    BlockSize(blocks, k);
    assert EndOf(blocks, k + 1) + 3 < FILE_LIMIT;
  }

  lemma BlockLoads(file: seq<Byte>, blocks: seq<Block>, k: nat)
    requires Fits(blocks) && k < |blocks| && HasBlock(file, blocks, k)
    ensures var r := BlockAt(file, OffsetOf(blocks, k), k); r.Got? && r.value == blocks[k].data
  {
    hide BlockHeaderBytes, ReadAt, Has, Fits, EndOf, OffsetOf;
    var at, data := OffsetOf(blocks, k), blocks[k].data;
    OffsetFits(blocks, k);
    ReadsPart(file, at, BlockHeaderBytes(k, |data|));
    BlockHeaderReads(k, |data|);
    ReadsPart(file, at + BLOCK_HEADER_SIZE, data);
  }

  function Entries(blocks: seq<Block>, k: nat): seq<Entry>
    requires k <= |blocks|
    decreases |blocks| - k
  {
    if k == |blocks| then [] else [Entry(OffsetOf(blocks, k), blocks[k].ext)] + Entries(blocks, k + 1)
  }

  lemma {:induction false} IndexLoads(file: seq<Byte>, blocks: seq<Block>, k: nat)
    requires Fits(blocks) && k <= |blocks| && forall i | 0 <= i < |blocks| :: HasRecord(file, blocks, i)
    ensures var r := IndexAt(file, INDEX_AT + RECORD_SIZE * k, k, |blocks|); r.Got? && r.value == Entries(blocks, k)
    decreases |blocks| - k
  {
    hide Fits, HasRecord, RecordAt, OffsetOf;
    if k < |blocks| {
      RecordLoads(file, blocks, k);
      IndexLoads(file, blocks, k + 1);
    }
  }

  lemma {:induction false} EntryOf(blocks: seq<Block>, from: nat, k: nat)
    requires from <= k < |blocks|
    ensures |Entries(blocks, from)| == |blocks| - from
    ensures Entries(blocks, from)[k - from] == Entry(OffsetOf(blocks, k), blocks[k].ext)
    decreases |blocks| - from
  {
    hide OffsetOf;
    if from < k { EntryOf(blocks, from + 1, k); } else { EntriesLength(blocks, from); }
  }

  lemma {:induction false} EntriesLength(blocks: seq<Block>, from: nat)
    requires from <= |blocks|
    ensures |Entries(blocks, from)| == |blocks| - from
    decreases |blocks| - from
  {
    hide OffsetOf;
    if from < |blocks| { EntriesLength(blocks, from + 1); }
  }

  // ----- The reader -----

  // An open file. `offset` is where the reader takes the file position to be. Calls on a file that
  // is not healthy may fail; any call may return less than asked for.
  class InputFile {
    const bytes: seq<Byte>
    const healthy: bool
    var position: nat
    var offset: nat

    constructor (bytes: seq<Byte>, healthy: bool)
      ensures this.bytes == bytes && this.healthy == healthy && Coherent() && offset == 0
    {
      this.bytes, this.healthy := bytes, healthy;
      position, offset := 0, 0;
    }

    ghost predicate Coherent()
      reads this
    {
      position == offset
    }

    // What holds of a healthy file whatever has been read: where it is not at the cached position, it
    // is at its end.
    ghost predicate Settled()
      reads this
    {
      Coherent() || position >= |bytes|
    }

    // The file is not moved for data at the offset, although it is elsewhere.
    ghost predicate Misled(start: nat)
      reads this
    {
      !Coherent() && Align(start) == offset
    }

    // read(2): at least one byte unless at the end or failing.
    method Take(size: nat) returns (ok: bool, data: seq<Byte>)
      modifies this`position
      ensures |data| <= size && position == old(position) + |data|
      ensures data == [] || (position <= |bytes| && data == bytes[old(position)..position])
      ensures ok && size > 0 && old(position) < |bytes| ==> data != []
      ensures healthy ==> ok
      ensures !ok ==> data == []
    {
      data := [];
      ok := true;
      if !healthy {
        if * { return false, []; }
      }
      if position < |bytes| && size > 0 {
        var n :| 1 <= n <= size && position + n <= |bytes|;
        data := bytes[position..position + n];
        position := position + n;
      }
    }

    // Where a read that is to start at `at` does start: the file is not moved when it seems to be
    // there already.
    ghost function From(at: nat): nat
      reads this
    {
      if at != offset then at else position
    }

    // sieve_binary_file_read
    method Read(start: nat, size: nat) returns (r: Read<seq<Byte>>)
      modifies this
      ensures r.Got? ==> r == TakenFrom(bytes, old(From(Align(start))), Align(start), size)
      ensures healthy ==> r == TakenFrom(bytes, old(From(Align(start))), Align(start), size)
      ensures r.Got? ==> offset == Align(start) + size && position == old(From(Align(start))) + size
      ensures r.Corrupt? ==> offset == old(offset)
      ensures r.Corrupt? && healthy ==> position == Max(old(From(Align(start))), |bytes|)
      ensures healthy && old(Settled()) ==>
                Settled() && (r == ReadAt(bytes, start, size) <==> !(old(Misled(start)) && There(bytes, start, size)))
    {
      hide Align;
      RightUnlessMisled(bytes, start, size, offset, position);
      var at := Align(start);
      ghost var from := From(at);
      hide TakenFrom, ReadAt, There;
      TakenParts(bytes, from, at, size);
      if at != offset {
        if !healthy {
          if * { return Corrupt; }
        }
        position := at;
      }
      var data := [];
      while |data| < size
        invariant |data| <= size && position == from + |data| && offset == old(offset)
        invariant data == [] || (from + |data| <= |bytes| && data == bytes[from..from + |data|])
        decreases size - |data|
      {
        var ok, more := Take(size - |data|);
        if more == [] { return Corrupt; }
        ghost var n := |data|;
        assert bytes[from..from + n + |more|] == bytes[from..from + n] + bytes[from + n..from + n + |more|];
        data := data + more;
      }
      offset := at + size;
      r := Got(data, at + size);
    }

    // The block index record `id`.
    method ReadIndexRecord(start: nat, id: nat) returns (r: Read<Entry>)
      modifies this
      ensures r.Got? || healthy ==> r == RecordTaken(bytes, old(From(Align(start))), Align(start), id)
      ensures old(Coherent()) && (r.Got? || healthy) ==> r == RecordAt(bytes, start, id)
      ensures old(Coherent()) && r.Got? ==> Coherent()
      ensures healthy && old(Settled()) ==>
                Settled() && (r == RecordAt(bytes, start, id)
                              <==> !(old(Misled(start)) && RecordAt(bytes, start, id).Got?))
    {
      hide OffsetAt, Align, RecordAt, RecordTaken;
      TakenInPlace(bytes, start, id);
      if position >= |bytes| { NothingToTake(bytes, position, Align(start), id); }
      RecordParts(bytes, From(Align(start)), Align(start), id);
      var record := Read(start, RECORD_SIZE);
      if record.Corrupt? || Word(record.value, 0) != id { return Corrupt; }
      r := Got(Entry(Word(record.value, 8), Word(record.value, 12)), record.next);
    }

    // The index of the binary; it is read with the header, which is read without moving the file.
    method Open() returns (ok: bool, index: seq<Entry>)
      requires Coherent()
      modifies this
      ensures ok ==> HeaderAt(bytes).Got? && Coherent()
                     && IndexAt(bytes, HeaderAt(bytes).next, 0, HeaderAt(bytes).value).Got?
                     && index == IndexAt(bytes, HeaderAt(bytes).next, 0, HeaderAt(bytes).value).value
      ensures healthy ==>
                (ok <==>
                 HeaderAt(bytes).Got? && IndexAt(bytes, HeaderAt(bytes).next, 0, HeaderAt(bytes).value).Got?)
    {
      hide RecordAt;
      index := [];
      if !healthy {
        if * { return false, []; }
      }
      var header := HeaderAt(bytes);
      if header.Corrupt? { return false, []; }
      var start, i := header.next, 0;
      ghost var goal := IndexAt(bytes, start, 0, header.value);
      assert goal.Got? ==> [] + goal.value == goal.value;
      while i < header.value
        invariant 0 <= i <= header.value && Coherent()
        invariant var rest := IndexAt(bytes, start, i, header.value);
                  (goal.Got? <==> rest.Got?) && (goal.Got? ==> goal.value == index + rest.value)
      {
        var record := ReadIndexRecord(start, i);
        if record.Corrupt? { return false, []; }
        ghost var rest := IndexAt(bytes, record.next, i + 1, header.value);
        assert rest.Got? ==> index + ([record.value] + rest.value) == index + [record.value] + rest.value;
        index := index + [record.value];
        start, i := record.next, i + 1;
      }
      assert index + [] == index;
      ok := true;
    }

    // sieve_binary_load_block
    method LoadBlock(start: nat, id: nat) returns (r: Read<seq<Byte>>)
      modifies this
      ensures r.Got? || healthy ==> r == BlockTaken(bytes, old(From(Align(start))), Align(start), id)
      ensures old(Coherent()) && (r.Got? || healthy) ==> r == BlockAt(bytes, start, id)
      ensures old(Coherent()) && r.Got? ==> Coherent()
      ensures healthy && old(Settled()) ==>
                Settled() && (r == BlockAt(bytes, start, id)
                              <==> !(old(Misled(start)) && BlockAt(bytes, start, id).Got?))
    {
      hide OffsetAt, Align, BlockAt, BlockTaken;
      TakenInPlace(bytes, start, id);
      if position >= |bytes| { NothingToTake(bytes, position, Align(start), id); }
      BlockParts(bytes, From(Align(start)), Align(start), id);
      var header := Read(start, BLOCK_HEADER_SIZE);
      if header.Corrupt? || Word(header.value, 0) != id { return Corrupt; }
      r := Read(header.next, Word(header.value, 4));
    }
  }

  function Max(a: nat, b: nat): nat { if a < b then b else a }

  lemma TakenParts(file: seq<Byte>, from: nat, at: nat, size: nat)
    ensures size == 0 ==> TakenFrom(file, from, at, size) == Got([], at)
    ensures size > 0 && from + size <= |file|
            ==> TakenFrom(file, from, at, size) == Got(file[from..from + size], at + size)
    ensures size > 0 && from + size > |file| ==> TakenFrom(file, from, at, size) == Corrupt
  {
  }

  // Of a file at its end, or at the cached position.
  lemma RightUnlessMisled(file: seq<Byte>, start: nat, size: nat, offset: nat, position: nat)
    ensures var at := Align(start);
            var from := if at != offset then at else position;
            position == offset || position >= |file| ==>
              (TakenFrom(file, from, at, size) == ReadAt(file, start, size) <==>
               !(position != offset && at == offset && There(file, start, size)))
  {
    hide Align;
  }

  lemma RecordParts(file: seq<Byte>, from: nat, at: nat, id: nat)
    ensures var record := TakenFrom(file, from, at, RECORD_SIZE);
            RecordTaken(file, from, at, id)
            == if record.Corrupt? || |record.value| < RECORD_SIZE || Word(record.value, 0) != id then Corrupt
               else Got(Entry(Word(record.value, 8), Word(record.value, 12)), record.next)
  {
    hide OffsetAt, Align;
  }

  lemma BlockParts(file: seq<Byte>, from: nat, at: nat, id: nat)
    ensures var header := TakenFrom(file, from, at, BLOCK_HEADER_SIZE);
            BlockTaken(file, from, at, id)
            == if header.Corrupt? || |header.value| < BLOCK_HEADER_SIZE || Word(header.value, 0) != id then Corrupt
               else
                 var next := header.next;
                 TakenFrom(file, if Align(next) == next then from + BLOCK_HEADER_SIZE else Align(next), Align(next),
                           Word(header.value, 4))
  {
    hide OffsetAt, Align;
  }

  // After a read that fails, the next read is right if and only if it does not ask, at the cached
  // position, for data that are there.
  method ReadAfterFailure(file: InputFile, start: nat, size: nat, start': nat, size': nat)
    returns (first: Read<seq<Byte>>, second: Read<seq<Byte>>)
    requires file.healthy && file.Coherent()
    modifies file
    ensures first == ReadAt(file.bytes, start, size)
    ensures first.Corrupt? ==>
              (second == ReadAt(file.bytes, start', size') <==>
               !(Align(start') == old(file.offset) && There(file.bytes, start', size')))
    ensures first.Got? ==> second == ReadAt(file.bytes, start', size')
  {
    hide Align;
    first := file.Read(start, size);
    second := file.Read(start', size');
  }

  // The same of loading a block after a read that fails.
  method LoadAfterFailure(file: InputFile, start: nat, size: nat, start': nat, id: nat)
    returns (first: Read<seq<Byte>>, second: Read<seq<Byte>>)
    requires file.healthy && file.Coherent()
    modifies file
    ensures first == ReadAt(file.bytes, start, size)
    ensures first.Corrupt? ==>
              (second == BlockAt(file.bytes, start', id) <==>
               !(Align(start') == old(file.offset) && BlockAt(file.bytes, start', id).Got?))
    ensures first.Got? ==> second == BlockAt(file.bytes, start', id)
  {
    hide Align, BlockAt, BlockTaken;
    first := file.Read(start, size);
    TakenInPlace(file.bytes, start', id);
    if Align(start') >= |file.bytes| { NothingToTake(file.bytes, Align(start'), Align(start'), id); }
    second := file.LoadBlock(start', id);
  }

  // A file of eight bytes: reading a hundred at 4 fails, and then so does reading four at 0.
  method FailedReadSpoilsTheNext(file: InputFile) returns (first: Read<seq<Byte>>, second: Read<seq<Byte>>)
    requires file.healthy && file.Coherent() && file.offset == 0 && |file.bytes| == 8
    modifies file
    ensures first.Corrupt? && second.Corrupt? && ReadAt(file.bytes, 0, 4).Got?
  {
    first := file.Read(4, 100);
    second := file.Read(0, 4);
  }

  // ----- Saving and loading -----

  // What is saved is loaded back, block for block and byte for byte.
  lemma SavedFileLoads(file: seq<Byte>, usage: seq<Byte>, blocks: seq<Block>)
    requires |usage| == HEADER_SIZE - 16 && blocks != [] && Fits(blocks) && Holds(file, usage, blocks)
    ensures HeaderAt(file) == Got(|blocks|, INDEX_AT)
    ensures var index := IndexAt(file, INDEX_AT, 0, |blocks|);
            index.Got? && |index.value| == |blocks|
            && forall k | 0 <= k < |blocks| ::
                 && index.value[k].ext == blocks[k].ext
                 && BlockAt(file, index.value[k].offset, k).Got?
                 && BlockAt(file, index.value[k].offset, k).value == blocks[k].data
  {
    hide HasBlock, HasRecord, HeaderAt, IndexAt, BlockAt, OffsetOf, EndOf, Has, HeaderBytes;
    HeaderLoads(file, usage, |blocks|);
    IndexLoads(file, blocks, 0);
    EntriesLength(blocks, 0);
    forall k | 0 <= k < |blocks|
      ensures Entries(blocks, 0)[k] == Entry(OffsetOf(blocks, k), blocks[k].ext)
      ensures BlockAt(file, OffsetOf(blocks, k), k).Got?
              && BlockAt(file, OffsetOf(blocks, k), k).value == blocks[k].data
    {
      EntryOf(blocks, 0, k);
      BlockLoads(file, blocks, k);
    }
  }

  method SaveAndLoad(blocks: seq<Block>, usage: seq<Byte>, healthy: bool) returns (ok: bool, loaded: seq<Block>)
    requires |usage| == HEADER_SIZE - 16 && blocks != [] && Fits(blocks)
    ensures ok ==> loaded == blocks
    ensures healthy ==> ok
  {
    hide HeaderAt, IndexAt, BlockAt, Fits, Holds;
    var stream := new OutputStream(healthy);
    var binary := new Binary(blocks);
    ok := binary.SaveToStream(stream, usage);
    loaded := [];
    if !ok { return; }
    SavedFileLoads(stream.bytes, usage, blocks);
    var file := new InputFile(stream.bytes, true);
    var index;
    ok, index := file.Open();
    for k := 0 to |blocks|
      invariant loaded == blocks[..k] && file.Coherent()
    {
      var r := file.LoadBlock(index[k].offset, k);
      loaded := loaded + [Block(r.value, index[k].ext)];
    }
  }
}
