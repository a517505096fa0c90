// Which files a binary is opened from: every check on the header, the index and the blocks, in terms of the
// bytes that are there (src/lib-sieve/sieve-binary-file.c).
module BinaryChecks {
  import opened Bytes
  import opened BinaryCode
  import opened CodeReading
  import opened BinaryFile
  import opened BinaryLoad

  // The word at an offset.
  ghost predicate HasWord(file: seq<Byte>, at: nat, n: nat)
  {
    n < OFFSET_LIMIT && Has(file, at, OffsetBytes(n))
  }

  lemma WordIs(file: seq<Byte>, at: nat, n: nat)
    requires at + 4 <= |file|
    ensures Word(file, at) == n <==> HasWord(file, at, n)
  {
    hide OffsetBytes, OffsetAt;
    OffsetReadsExactly(file, at, n, at + 4);
    var m := Word(file, at);
    OffsetGot(file, at);
  }

  lemma OffsetGot(file: seq<Byte>, at: nat)
    requires at + 4 <= |file|
    ensures OffsetAt(file, at) == Got(Word(file, at), at + 4)
  {
  }

  // ----- The header -----

  // A header for `blocks` blocks that is `size` bytes long: of this major version, or of version 1.4, which had
  // no size in it.
  ghost predicate GoodHeader(file: seq<Byte>, blocks: nat, size: nat)
  {
    && |file| >= 40 && Has(file, 0, [0xca, 0xfe, 0xba, 0xbe]) && HasWord(file, 8, blocks) && blocks > 0
    && (if Has(file, 4, [0, 1, 0, 4]) then size == 12 else HasSize(file, size))
  }

  ghost predicate HasSize(file: seq<Byte>, size: nat)
  {
    Has(file, 4, [0, 3]) && HasWord(file, 12, size) && size >= 20
  }

  function Joined4(a: Byte, b: Byte, c: Byte, d: Byte): nat { Join(Join(Join(a, b), c), d) }

  lemma BytesOfJoined(a: Byte, b: Byte, c: Byte, d: Byte)
    ensures OffsetBytes(Joined4(a, b, c, d)) == [a, b, c, d] && Joined4(a, b, c, d) < OFFSET_LIMIT
  {
    assert Joined4(a, b, c, d) < OFFSET_LIMIT;
    SplitJoin(Join(Join(a, b), c), d);
    SplitJoin(Join(a, b), c);
    SplitJoin(a, b);
    hide Join;
  }

  lemma BytesAre(file: seq<Byte>, at: nat, a: Byte, b: Byte, c: Byte, d: Byte)
    ensures Has(file, at, [a, b, c, d]) <==> HasWord(file, at, Joined4(a, b, c, d))
  {
    hide OffsetBytes, Joined4;
    BytesOfJoined(a, b, c, d);
  }

  lemma MajorIs(file: seq<Byte>, at: nat, a: Byte, b: Byte)
    requires at + 4 <= |file|
    ensures Has(file, at, [a, b]) <==> Word(file, at) / 65536 == a * 256 + b
  {
    var p: int, q: int, r: int, s: int := file[at], file[at + 1], file[at + 2], file[at + 3];
    assert Word(file, at) == (p * 256 + q) * 65536 + (r * 256 + s);
    assert Word(file, at) / 65536 == p * 256 + q;
    assert file[at..at + 2] == [p, q];
    if p * 256 + q == a * 256 + b { assert p == a && q == b; }
  }

  // A file is opened exactly when its header is good.
  lemma HeaderDecides(file: seq<Byte>, blocks: nat, size: nat)
    ensures HeaderAt(file) == Got(blocks, size) <==> GoodHeader(file, blocks, size)
  {
    hide Has, OffsetBytes, OffsetAt;
    if |file| >= 40 {
      BytesAre(file, 0, 0xca, 0xfe, 0xba, 0xbe);
      WordIs(file, 0, 0xcafebabe);
      BytesAre(file, 4, 0, 1, 0, 4);
      WordIs(file, 4, 0x10004);
      MajorIs(file, 4, 0, 3);
      WordIs(file, 8, blocks);
      WordIs(file, 12, size);
    }
  }

  // No other header is taken: without the magic, without blocks, of another version, too small.
  lemma OtherHeadersAreRefused(file: seq<Byte>)
    ensures HeaderAt(file).Corrupt? <==> forall blocks, size :: !GoodHeader(file, blocks, size)
  {
    hide HeaderAt, GoodHeader;
    forall blocks: nat, size: nat ensures HeaderAt(file) == Got(blocks, size) <==> GoodHeader(file, blocks, size) {
      HeaderDecides(file, blocks, size);
    }
    var r := HeaderAt(file);
    if r.Got? { assert GoodHeader(file, r.value, r.next); }
  }

  // A saved file whose version is changed is still opened exactly when the major version stays, or when it then
  // looks like one of version 1.4.
  lemma ChangedVersion(file: seq<Byte>, usage: seq<Byte>, blocks: seq<Block>, version: seq<Byte>)
    requires |usage| == HEADER_SIZE - 16 && blocks != [] && Fits(blocks) && Holds(file, usage, blocks) && |version| == 4
    ensures HeaderAt(Written(file, 4, version)).Got? <==> version[..2] == [0, 3] || version == [0, 1, 0, 4]
  {
    hide Has, OffsetBytes, OffsetAt, HasRecord, HasBlock, HeaderAt, Fits, Written, GoodHeader, HeaderBytes;
    BlockCount(blocks);
    HeaderLoads(file, usage, |blocks|);
    HeaderDecides(file, |blocks|, HEADER_SIZE);
    VersionWritten(file, |blocks|, version);
    var changed := Written(file, 4, version);
    OtherHeadersAreRefused(changed);
    forall n: nat, size: nat
      ensures GoodHeader(changed, n, size) ==> version[..2] == [0, 3] || version == [0, 1, 0, 4]
    {
      GoodVersion(changed, n, size, version);
    }
  }

  lemma VersionWritten(file: seq<Byte>, blocks: nat, version: seq<Byte>)
    requires GoodHeader(file, blocks, HEADER_SIZE) && |version| == 4
    ensures var changed := Written(file, 4, version);
            && Has(changed, 4, version)
            && (version[..2] == [0, 3] ==> GoodHeader(changed, blocks, HEADER_SIZE))
            && (version == [0, 1, 0, 4] ==> GoodHeader(changed, blocks, 12))
  {
    hide OffsetBytes, Written;
    var changed := Written(file, 4, version);
    WrittenHas(file, 4, version);
    WrittenLength(file, 4, version);
    WrittenKeeps(file, 4, version, 0, [0xca, 0xfe, 0xba, 0xbe]);
    WrittenKeeps(file, 4, version, 8, OffsetBytes(blocks));
    SizeThere(file, blocks);
    WrittenKeeps(file, 4, version, 12, OffsetBytes(HEADER_SIZE));
    assert changed[4..8] == version && changed[4..6] == version[..2];
    if version[..2] == [0, 3] { assert version[1] == version[..2][1]; }
  }

  lemma BlockCount(blocks: seq<Block>)
    requires Fits(blocks)
    ensures |blocks| < OFFSET_LIMIT
  {
  }

  lemma SizeThere(file: seq<Byte>, blocks: nat)
    requires GoodHeader(file, blocks, HEADER_SIZE)
    ensures Has(file, 12, OffsetBytes(HEADER_SIZE))
  {
  }

  lemma WrittenLength(file: seq<Byte>, at: nat, data: seq<Byte>)
    requires at + |data| <= |file|
    ensures |Written(file, at, data)| == |file|
  {
  }

  lemma GoodVersion(file: seq<Byte>, blocks: nat, size: nat, version: seq<Byte>)
    requires |version| == 4 && Has(file, 4, version)
    ensures GoodHeader(file, blocks, size) ==> version[..2] == [0, 3] || version == [0, 1, 0, 4]
  {
    assert file[4..8] == version && file[4..6] == version[..2];
  }

  // ----- The index -----

  // A record is read exactly when all of it is there and it has the number asked for.
  lemma RecordDecides(file: seq<Byte>, offset: nat, id: nat, entry: Entry, next: nat)
    ensures var at := Align(offset);
            RecordAt(file, offset, id) == Got(entry, next)
            <==> at + 16 <= |file| && HasWord(file, at, id) && HasWord(file, at + 8, entry.offset)
                 && HasWord(file, at + 12, entry.ext) && next == at + 16
  {
    hide OffsetBytes, OffsetAt, Align, Has;
    var at := Align(offset);
    if at + 16 <= |file| {
      var record := file[at..at + 16];
      PartWord(file, at, 0);
      PartWord(file, at, 8);
      PartWord(file, at, 12);
      WordIs(file, at, id);
      WordIs(file, at + 8, entry.offset);
      WordIs(file, at + 12, entry.ext);
    }
  }

  lemma PartWord(file: seq<Byte>, at: nat, i: nat)
    requires at + 16 <= |file| && i + 4 <= 16
    ensures Word(file[at..at + 16], i) == Word(file, at + i)
  {
  }

  // Record `k` of an index that begins with record `id` at `at`.
  ghost predicate RecordHere(file: seq<Byte>, at: nat, id: nat, k: nat)
    requires id <= k
  {
    at + 16 * (k - id) + 16 <= |file| && HasWord(file, at + 16 * (k - id), k)
  }

  // Every record carries its own number.
  ghost predicate Numbered(file: seq<Byte>, at: nat, id: nat, count: nat)
  {
    forall k | id <= k < count :: RecordHere(file, at, id, k)
  }

  // The index is read exactly when its records are numbered from zero on.
  lemma {:induction false} IndexDecides(file: seq<Byte>, offset: nat, id: nat, count: nat)
    requires id <= count && Align(offset) + 16 * (count - id) + 3 < FILE_LIMIT
    ensures IndexAt(file, offset, id, count).Got? <==> Numbered(file, Align(offset), id, count)
    decreases count - id
  {
    hide OffsetBytes, HasWord, RecordAt, RecordHere;
    if id < count {
      var at := Align(offset);
      Aligned(at + 16);
      RecordThere(file, offset, id);
      IndexDecides(file, at + 16, id + 1, count);
      NumberedFirst(file, at, id, count);
    }
  }

  lemma RecordThere(file: seq<Byte>, offset: nat, id: nat)
    ensures var r := RecordAt(file, offset, id); var at := Align(offset);
            (r.Got? <==> at + 16 <= |file| && HasWord(file, at, id)) && (r.Got? ==> r.next == at + 16)
  {
    hide OffsetBytes, OffsetAt, Align, HasWord, RecordAt;
    var r, at := RecordAt(file, offset, id), Align(offset);
    if r.Got? { RecordDecides(file, offset, id, r.value, r.next); }
    if at + 16 <= |file| {
      var entry := Entry(Word(file, at + 8), Word(file, at + 12));
      WordIs(file, at + 8, entry.offset);
      WordIs(file, at + 12, entry.ext);
      RecordDecides(file, offset, id, entry, at + 16);
    }
  }

  lemma NumberedFirst(file: seq<Byte>, at: nat, id: nat, count: nat)
    requires id < count
    ensures Numbered(file, at, id, count)
            <==> at + 16 <= |file| && HasWord(file, at, id) && Numbered(file, at + 16, id + 1, count)
  {
    hide RecordHere;
    FirstRecord(file, at, id);
    var behind, second := at + 16, id + 1;
    if Numbered(file, at, id, count) {
      assert RecordHere(file, at, id, id);
      forall k | second <= k < count ensures RecordHere(file, behind, second, k) { SameRecord(file, at, id, k); }
    }
    if RecordHere(file, at, id, id) && Numbered(file, at + 16, id + 1, count) {
      forall k | id <= k < count ensures RecordHere(file, at, id, k) {
        if k > id { SameRecord(file, at, id, k); }
      }
    }
  }

  lemma FirstRecord(file: seq<Byte>, at: nat, id: nat)
    ensures RecordHere(file, at, id, id) <==> at + 16 <= |file| && HasWord(file, at, id)
  {
  }

  lemma SameRecord(file: seq<Byte>, at: nat, id: nat, k: nat)
    requires id < k
    ensures RecordHere(file, at, id, k) <==> RecordHere(file, at + 16, id + 1, k)
  {
    assert at + 16 + 16 * (k - (id + 1)) == at + 16 * (k - id);
  }

  // ----- Blocks -----

  // A block is loaded exactly when its header is there, has its number, and the data it announces follow.
  lemma BlockDecides(file: seq<Byte>, offset: nat, id: nat, data: seq<Byte>)
    requires Align(offset) + 8 + 3 < FILE_LIMIT
    ensures var at := Align(offset); var r := BlockAt(file, offset, id);
            r.Got? && r.value == data
            <==> at + 8 <= |file| && HasWord(file, at, id) && HasWord(file, at + 4, |data|) && Has(file, at + 8, data)
  {
    hide OffsetBytes, OffsetAt;
    var at := Align(offset);
    if at + 8 <= |file| {
      var header := file[at..at + 8];
      assert Word(header, 0) == Word(file, at) && Word(header, 4) == Word(file, at + 4) by { HeaderWords(file, at); }
      WordIs(file, at, id);
      WordIs(file, at + 4, |data|);
      Aligned(at + 8);
    }
  }

  lemma HeaderWords(file: seq<Byte>, at: nat)
    requires at + 8 <= |file|
    ensures Word(file[at..at + 8], 0) == Word(file, at) && Word(file[at..at + 8], 4) == Word(file, at + 4)
  {
  }

  // A healthy file is opened exactly when its header is good and its index can be read.
  method OpenGood(file: InputFile) returns (ok: bool, index: seq<Entry>)
    requires file.healthy && file.Coherent()
    modifies file
    ensures ok <==> exists blocks: nat, size: nat ::
                      GoodHeader(file.bytes, blocks, size) && IndexAt(file.bytes, size, 0, blocks).Got?
  {
    hide HeaderAt, GoodHeader, IndexAt;
    OtherHeadersAreRefused(file.bytes);
    forall blocks: nat, size: nat
      ensures HeaderAt(file.bytes) == Got(blocks, size) <==> GoodHeader(file.bytes, blocks, size)
    {
      HeaderDecides(file.bytes, blocks, size);
    }
    ok, index := file.Open();
  }
}
