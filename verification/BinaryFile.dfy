// The file of a compiled script: a header, an index that is skipped and written last, and aligned
// blocks (src/lib-sieve/sieve-binary-file.c). Words are in the order of the host; here the most
// significant byte comes first.
module BinaryFile {
  import opened BinaryCode
  import opened Bytes

  const FILE_LIMIT := OFFSET_LIMIT
  const MAGIC := 0xcafebabe
  const VERSION_MAJOR := 3
  const VERSION_MINOR := 0
  const PRE_HDR_SIZE_MAJOR := 1
  const PRE_HDR_SIZE_MINOR := 4
  const PRE_HDR_SIZE_HDR_SIZE := 12
  const BASE_HEADER_SIZE := 20
  const HEADER_SIZE := 40
  const RECORD_SIZE := 16
  const BLOCK_HEADER_SIZE := 8

  // A block of the binary and the number of the extension it belongs to.
  datatype Block = Block(data: seq<Byte>, ext: nat)

  // The alignment mask is 32 bits wide.
  function Align(offset: nat): nat
  {
    (offset + 3) % FILE_LIMIT / 4 * 4
  }

  lemma Aligned(offset: nat)
    requires offset + 3 < FILE_LIMIT
    ensures offset <= Align(offset) < offset + 4 && Align(offset) % 4 == 0
    ensures offset % 4 == 0 ==> Align(offset) == offset
  {
  }

  // ----- Records -----

  // Magic, version, number of blocks, header size; then the flags and the resource usage, which
  // are not interpreted here.
  function HeaderBytes(blocks: nat, usage: seq<Byte>): (r: seq<Byte>)
    requires |usage| == HEADER_SIZE - 16
    ensures |r| == HEADER_SIZE
  {
    OffsetBytes(MAGIC) + OffsetBytes(VERSION_MAJOR * 65536 + VERSION_MINOR) + OffsetBytes(blocks)
    + OffsetBytes(HEADER_SIZE) + usage
  }

  function RecordBytes(id: nat, size: nat, offset: nat, ext: nat): (r: seq<Byte>)
    ensures |r| == RECORD_SIZE
  {
    OffsetBytes(id) + OffsetBytes(size) + OffsetBytes(offset) + OffsetBytes(ext)
  }

  function BlockHeaderBytes(id: nat, size: nat): (r: seq<Byte>)
    ensures |r| == BLOCK_HEADER_SIZE
  {
    OffsetBytes(id) + OffsetBytes(size)
  }

  // ----- Where everything is -----

  const INDEX_AT := HEADER_SIZE

  // The end of block `k - 1`, or of the index.
  function EndOf(blocks: seq<Block>, k: nat): nat
    requires k <= |blocks|
    decreases k, 0
  {
    if k == 0 then INDEX_AT + RECORD_SIZE * |blocks|
    else OffsetOf(blocks, k - 1) + BLOCK_HEADER_SIZE + |blocks[k - 1].data|
  }

  // The header of block `k`; its data follow at once.
  function OffsetOf(blocks: seq<Block>, k: nat): nat
    requires k < |blocks|
    decreases k, 1
  {
    Align(EndOf(blocks, k))
  }

  // All offsets fit a word: the end of every block is at least three bytes below the limit.
  ghost predicate Fits(blocks: seq<Block>)
  {
    && |blocks| < FILE_LIMIT
    && (forall k | 0 <= k <= |blocks| :: EndOf(blocks, k) + 3 < FILE_LIMIT)
    && (forall k | 0 <= k < |blocks| :: blocks[k].ext < FILE_LIMIT)
  }

  // Blocks are behind the index and do not overlap, one behind the other.
  lemma {:induction false} BlocksInOrder(blocks: seq<Block>, j: nat, k: nat)
    requires Fits(blocks) && j <= k < |blocks|
    ensures OffsetOf(blocks, k) % 4 == 0 && EndOf(blocks, j) <= EndOf(blocks, k) <= OffsetOf(blocks, k)
    decreases k
  {
    Aligned(EndOf(blocks, k));
    if j < k { BlocksInOrder(blocks, j, k - 1); }
  }

  ghost predicate HasBlock(file: seq<Byte>, blocks: seq<Block>, k: nat)
    requires k < |blocks|
  {
    var b := blocks[k];
    && Has(file, OffsetOf(blocks, k), BlockHeaderBytes(k, |b.data|))
    && Has(file, OffsetOf(blocks, k) + BLOCK_HEADER_SIZE, b.data)
  }

  ghost predicate HasRecord(file: seq<Byte>, blocks: seq<Block>, k: nat)
    requires k < |blocks|
  {
    Has(file, INDEX_AT + RECORD_SIZE * k, RecordBytes(k, |blocks[k].data|, OffsetOf(blocks, k), blocks[k].ext))
  }

  // A complete file.
  ghost predicate Holds(file: seq<Byte>, usage: seq<Byte>, blocks: seq<Block>)
    requires |usage| == HEADER_SIZE - 16
  {
    && Has(file, 0, HeaderBytes(|blocks|, usage))
    && (forall k | 0 <= k < |blocks| :: HasRecord(file, blocks, k))
    && (forall k | 0 <= k < |blocks| :: HasBlock(file, blocks, k))
  }

  // ----- Writing at a position -----

  function Zeros(n: nat): (r: seq<Byte>)
    ensures |r| == n
  {
    seq(n, i => 0)
  }

  // Data written at a position, beyond the end behind zeros.
  function Written(file: seq<Byte>, at: nat, data: seq<Byte>): seq<Byte>
  {
    if data == [] then file
    else
      (if at <= |file| then file[..at] else file + Zeros(at - |file|)) + data
      + (if at + |data| <= |file| then file[at + |data|..] else [])
  }

  lemma WrittenHas(file: seq<Byte>, at: nat, data: seq<Byte>)
    requires data != [] || at <= |file|
    ensures Has(Written(file, at, data), at, data)
  {
  }

  lemma WrittenKeeps(file: seq<Byte>, at: nat, data: seq<Byte>, p: nat, part: seq<Byte>)
    requires Has(file, p, part) && (p + |part| <= at || at + |data| <= p)
    ensures Has(Written(file, at, data), p, part)
  {
    var result := Written(file, at, data);
    assert forall i | p <= i < p + |part| :: result[i] == file[i];
    assert result[p..p + |part|] == file[p..p + |part|];
  }

  lemma WrittenOnce(file: seq<Byte>, at: nat, a: seq<Byte>, b: seq<Byte>)
    ensures Written(Written(file, at, a), at + |a|, b) == Written(file, at, a + b)
  {
    if a == [] {
      assert a + b == b;
    } else if b == [] {
      assert a + b == a;
    } else {
      var once, twice := Written(file, at, a + b), Written(Written(file, at, a), at + |a|, b);
      assert |once| == |twice|;
      assert forall i | 0 <= i < |once| :: once[i] == twice[i];
    }
  }

  // ----- Saving -----

  // The output stream. Calls on a stream that is not healthy may fail, and once one has, all later
  // ones do. Any call may send less than it was given.
  class OutputStream {
    const healthy: bool
    var bytes: seq<Byte>
    var offset: nat
    var failed: bool

    constructor (healthy: bool)
      ensures this.healthy == healthy && bytes == [] && offset == 0 && !failed
    {
      this.healthy := healthy;
      bytes, offset, failed := [], 0, false;
    }

    method Seek(to: nat) returns (ok: bool)
      modifies this`offset, this`failed
      ensures offset == (if ok then to else old(offset)) && failed == !ok
      ensures ok ==> !old(failed)
      ensures healthy && !old(failed) ==> ok
    {
      ok := !failed;
      if !healthy {
        if * { ok := false; }
      }
      if ok { offset := to; }
      failed := !ok;
    }

    method Send(data: seq<Byte>) returns (sent: nat)
      modifies this
      ensures sent <= |data| && offset == old(offset) + sent && bytes == Written(old(bytes), old(offset), data[..sent])
      ensures data != [] ==> (sent == 0 <==> failed)
      ensures old(failed) ==> failed && sent == 0
      ensures healthy && !old(failed) ==> !failed
    {
      if !healthy {
        if * { failed := true; }
      }
      sent := 0;
      if !failed && data != [] { sent :| 1 <= sent <= |data|; }
      bytes := Written(bytes, offset, data[..sent]);
      offset := offset + sent;
    }

    // o_stream_finish
    method Finish() returns (ok: bool)
      modifies this`failed
      ensures failed == !ok && (old(failed) ==> !ok)
      ensures healthy && !old(failed) ==> ok
    {
      ok := !failed;
      if !healthy {
        if * { ok := false; }
      }
      failed := !ok;
    }
  }

  method SaveFull(stream: OutputStream, data: seq<Byte>) returns (ok: bool)
    modifies stream
    ensures ok ==> stream.bytes == Written(old(stream.bytes), old(stream.offset), data)
                   && stream.offset == old(stream.offset) + |data|
    ensures !ok || old(stream.failed) ==> stream.failed
    ensures ok && data != [] ==> !stream.failed
    ensures stream.healthy && !old(stream.failed) ==> !stream.failed
  {
    var done := 0;
    while done < |data|
      invariant done <= |data| && stream.offset == old(stream.offset) + done
      invariant old(stream.failed) ==> stream.failed
      invariant done > 0 ==> !stream.failed
      invariant stream.healthy && !old(stream.failed) ==> !stream.failed
      invariant stream.bytes == Written(old(stream.bytes), old(stream.offset), data[..done])
      decreases |data| - done
    {
      var sent := stream.Send(data[done..]);
      WrittenOnce(old(stream.bytes), old(stream.offset), data[..done], data[done..][..sent]);
      assert data[..done] + data[done..][..sent] == data[..done + sent];
      if sent == 0 { return false; }
      done := done + sent;
    }
    assert data[..done] == data;
    ok := true;
  }

  method SaveAligned(stream: OutputStream, data: seq<Byte>) returns (ok: bool, at: nat)
    requires stream.offset + 3 < FILE_LIMIT
    modifies stream
    ensures ok ==> at == Align(old(stream.offset)) && stream.bytes == Written(old(stream.bytes), at, data)
                   && stream.offset == at + |data|
    ensures !ok || old(stream.failed) ==> stream.failed
    ensures stream.healthy && !old(stream.failed) ==> !stream.failed
  {
    at := Align(stream.offset);
    Aligned(stream.offset);
    if stream.offset < at {
      ok := stream.Seek(at);
      if !ok { return; }
    }
    ok := SaveFull(stream, data);
  }

  method SaveSkipAligned(stream: OutputStream, size: nat) returns (ok: bool, at: nat)
    modifies stream
    ensures at == Align(old(stream.offset)) && stream.bytes == old(stream.bytes)
    ensures ok ==> stream.offset == at + size
    ensures stream.failed == !ok && (old(stream.failed) ==> !ok)
    ensures stream.healthy && !old(stream.failed) ==> ok
  {
    at := Align(stream.offset);
    ok := stream.Seek(at + size);
  }

  // The binary in memory, with the offsets noted while saving.
  class Binary {
    const blocks: seq<Block>
    var offsets: seq<nat>

    constructor (blocks: seq<Block>)
      ensures this.blocks == blocks && |offsets| == |blocks|
    {
      this.blocks := blocks;
      offsets := seq(|blocks|, i => 0);
    }

    method SaveBlock(stream: OutputStream, id: nat) returns (ok: bool)
      requires Fits(blocks) && id < |blocks| == |offsets| && stream.offset == EndOf(blocks, id)
      modifies this`offsets, stream
      ensures |offsets| == |blocks|
      ensures ok ==> offsets == old(offsets)[id := OffsetOf(blocks, id)] && stream.offset == EndOf(blocks, id + 1)
                     && stream.bytes
                        == Written(Written(old(stream.bytes), OffsetOf(blocks, id),
                                           BlockHeaderBytes(id, |blocks[id].data|)),
                                   OffsetOf(blocks, id) + BLOCK_HEADER_SIZE, blocks[id].data)
      ensures !ok || old(stream.failed) ==> stream.failed
      ensures stream.healthy && !old(stream.failed) ==> !stream.failed
    {
      hide OffsetBytes, Written;
      var data := blocks[id].data;
      var at;
      assert stream.offset + 3 < FILE_LIMIT && EndOf(blocks, id + 1) + 3 < FILE_LIMIT;
      ok, at := SaveAligned(stream, BlockHeaderBytes(id, |data|));
      if !ok { return; }
      offsets := offsets[id := at];
      Aligned(EndOf(blocks, id));
      Aligned(stream.offset);
      ok, at := SaveAligned(stream, data);
    }

    method SaveIndexRecord(stream: OutputStream, id: nat) returns (ok: bool)
      requires id < |blocks| == |offsets|
      modifies stream
      ensures ok ==> stream.offset == old(stream.offset) + RECORD_SIZE
                     && stream.bytes == Written(old(stream.bytes), old(stream.offset),
                                                RecordBytes(id, |blocks[id].data|, offsets[id], blocks[id].ext))
      ensures ok <==> !stream.failed
      ensures old(stream.failed) ==> stream.failed
      ensures stream.healthy && !old(stream.failed) ==> ok
    {
      hide OffsetBytes, Written;
      ok := SaveFull(stream, RecordBytes(id, |blocks[id].data|, offsets[id], blocks[id].ext));
    }

    method SaveBlocks(stream: OutputStream, ghost header: seq<Byte>) returns (ok: bool)
      requires Fits(blocks) && |offsets| == |blocks| && stream.offset == EndOf(blocks, 0)
      requires |header| == HEADER_SIZE && Has(stream.bytes, 0, header)
      modifies this`offsets, stream
      ensures |offsets| == |blocks|
      ensures ok ==> Has(stream.bytes, 0, header)
                     && forall k | 0 <= k < |blocks| ::
                          HasBlock(stream.bytes, blocks, k) && offsets[k] == OffsetOf(blocks, k)
      ensures !ok || old(stream.failed) ==> stream.failed
      ensures stream.healthy && !old(stream.failed) ==> !stream.failed
    {
      hide Written, Has, HasBlock, EndOf, OffsetOf, Fits, BlockHeaderBytes;
      var i := 0;
      while i < |blocks|
        invariant old(stream.failed) ==> stream.failed
        invariant stream.healthy && !old(stream.failed) ==> !stream.failed
        invariant 0 <= i <= |blocks| == |offsets| && stream.offset == EndOf(blocks, i) && Has(stream.bytes, 0, header)
        invariant forall k | 0 <= k < i :: HasBlock(stream.bytes, blocks, k) && offsets[k] == OffsetOf(blocks, k)
      {
        ghost var before := stream.bytes;
        ok := SaveBlock(stream, i);
        if !ok { return; }
        BlockWritten(before, blocks, i, header);
        i := i + 1;
      }
      ok := true;
    }

    method SaveIndex(stream: OutputStream, ghost header: seq<Byte>) returns (ok: bool)
      requires Fits(blocks) && |offsets| == |blocks| && (stream.failed || stream.offset == INDEX_AT)
      requires |header| == HEADER_SIZE && Has(stream.bytes, 0, header)
      requires forall k | 0 <= k < |blocks| :: HasBlock(stream.bytes, blocks, k) && offsets[k] == OffsetOf(blocks, k)
      modifies stream
      ensures ok && !stream.failed ==>
                Has(stream.bytes, 0, header)
                && forall k | 0 <= k < |blocks| ::
                     HasBlock(stream.bytes, blocks, k) && HasRecord(stream.bytes, blocks, k)
      ensures !ok || old(stream.failed) ==> stream.failed
      ensures stream.healthy && !old(stream.failed) ==> ok && !stream.failed
    {
      hide Written, Has, HasBlock, HasRecord, EndOf, OffsetOf, Fits, RecordBytes;
      var i := 0;
      while i < |blocks|
        invariant old(stream.failed) ==> stream.failed && i == 0
        invariant stream.failed ==> old(stream.failed)
        invariant 0 <= i <= |blocks| && (stream.failed || stream.offset == INDEX_AT + RECORD_SIZE * i)
        invariant Has(stream.bytes, 0, header)
        invariant forall k | 0 <= k < |blocks| :: HasBlock(stream.bytes, blocks, k)
        invariant forall k | 0 <= k < i :: HasRecord(stream.bytes, blocks, k)
      {
        ghost var before := stream.bytes;
        ok := SaveIndexRecord(stream, i);
        if !ok { return; }
        RecordWritten(before, blocks, i, header);
        i := i + 1;
      }
      ok := true;
    }

    // sieve_binary_save_to_stream
    method SaveToStream(stream: OutputStream, usage: seq<Byte>) returns (ok: bool)
      requires Fits(blocks) && |offsets| == |blocks| && stream.bytes == [] && stream.offset == 0 && !stream.failed
      requires |usage| == HEADER_SIZE - 16
      modifies this`offsets, stream
      ensures ok ==> Holds(stream.bytes, usage, blocks)
      ensures stream.healthy ==> ok
    {
      hide HasBlock, HasRecord, OffsetOf, Fits, RecordBytes, OffsetBytes;
      var header := HeaderBytes(|blocks|, usage);
      var at;
      ok, at := SaveAligned(stream, header);
      if !ok { return; }
      WrittenHas([], 0, header);
      hide Written, Has, HeaderBytes;
      ok, at := SaveSkipAligned(stream, RECORD_SIZE * |blocks|);
      if !ok { return; }
      ok := SaveBlocks(stream, header);
      if !ok { return; }
      var _ := stream.Seek(at);
      ok := SaveIndex(stream, header);
      if !ok { return; }
      ok := stream.Finish();
    }
  }

  lemma BlockWritten(before: seq<Byte>, blocks: seq<Block>, id: nat, header: seq<Byte>)
    requires Fits(blocks) && id < |blocks| && |header| == HEADER_SIZE && Has(before, 0, header)
    requires forall k | 0 <= k < id :: HasBlock(before, blocks, k)
    ensures var at := OffsetOf(blocks, id);
            var file := Written(Written(before, at, BlockHeaderBytes(id, |blocks[id].data|)), at + BLOCK_HEADER_SIZE,
                                blocks[id].data);
            Has(file, 0, header) && forall k | 0 <= k <= id :: HasBlock(file, blocks, k)
  {
    hide Has, Written, BlockHeaderBytes, Fits, EndOf, OffsetOf;
    var at, data, start := OffsetOf(blocks, id), blocks[id].data, BlockHeaderBytes(id, |blocks[id].data|);
    var middle := Written(before, at, start);
    var file := Written(middle, at + BLOCK_HEADER_SIZE, data);
    BlocksInOrder(blocks, 0, id);
    IndexSize(blocks);
    WrittenHas(before, at, start);
    HasFits(middle, at, start);
    WrittenHas(middle, at + BLOCK_HEADER_SIZE, data);
    WrittenKeeps(middle, at + BLOCK_HEADER_SIZE, data, at, start);
    WrittenKeeps(before, at, start, 0, header);
    WrittenKeeps(middle, at + BLOCK_HEADER_SIZE, data, 0, header);
    forall k | 0 <= k < id ensures HasBlock(file, blocks, k) {
      BlocksInOrder(blocks, k + 1, id);
      BlockSize(blocks, k);
      KeepsBlock(before, at, start, blocks, k);
      KeepsBlock(middle, at + BLOCK_HEADER_SIZE, data, blocks, k);
    }
  }

  lemma IndexSize(blocks: seq<Block>)
    ensures EndOf(blocks, 0) == INDEX_AT + RECORD_SIZE * |blocks|
  {
  }

  lemma BlockSize(blocks: seq<Block>, k: nat)
    requires k < |blocks|
    ensures EndOf(blocks, k + 1) == OffsetOf(blocks, k) + BLOCK_HEADER_SIZE + |blocks[k].data|
  {
  }

  // Writing behind or in front of a block keeps it.
  lemma KeepsBlock(file: seq<Byte>, at: nat, data: seq<Byte>, blocks: seq<Block>, k: nat)
    requires k < |blocks| && HasBlock(file, blocks, k)
    requires EndOf(blocks, k + 1) <= at || at + |data| <= OffsetOf(blocks, k)
    ensures HasBlock(Written(file, at, data), blocks, k)
  {
    hide Has, Written, BlockHeaderBytes, EndOf, OffsetOf;
    BlockSize(blocks, k);
    var b := blocks[k];
    WrittenKeeps(file, at, data, OffsetOf(blocks, k), BlockHeaderBytes(k, |b.data|));
    WrittenKeeps(file, at, data, OffsetOf(blocks, k) + BLOCK_HEADER_SIZE, b.data);
  }

  lemma RecordWritten(before: seq<Byte>, blocks: seq<Block>, id: nat, header: seq<Byte>)
    requires Fits(blocks) && id < |blocks| && |header| == HEADER_SIZE && Has(before, 0, header)
    requires forall k | 0 <= k < |blocks| :: HasBlock(before, blocks, k)
    requires forall k | 0 <= k < id :: HasRecord(before, blocks, k)
    ensures var record := RecordBytes(id, |blocks[id].data|, OffsetOf(blocks, id), blocks[id].ext);
            var file := Written(before, INDEX_AT + RECORD_SIZE * id, record);
            Has(file, 0, header) && (forall k | 0 <= k < |blocks| :: HasBlock(file, blocks, k))
            && forall k | 0 <= k <= id :: HasRecord(file, blocks, k)
  {
    hide Has, Written, RecordBytes, Fits, EndOf, OffsetOf, HasBlock;
    var record := RecordBytes(id, |blocks[id].data|, OffsetOf(blocks, id), blocks[id].ext);
    var at := INDEX_AT + RECORD_SIZE * id;
    var file := Written(before, at, record);
    WrittenHas(before, at, record);
    WrittenKeeps(before, at, record, 0, header);
    forall k | 0 <= k < |blocks| ensures HasBlock(file, blocks, k) {
      BlocksInOrder(blocks, 0, k);
      IndexSize(blocks);
      KeepsBlock(before, at, record, blocks, k);
    }
    forall k | 0 <= k < id ensures HasRecord(file, blocks, k) {
      assert HasRecord(before, blocks, k);
      WrittenKeeps(before, at, record, INDEX_AT + RECORD_SIZE * k,
                   RecordBytes(k, |blocks[k].data|, OffsetOf(blocks, k), blocks[k].ext));
    }
  }
}
