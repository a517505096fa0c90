// The line program of a compiled script: a DWARF-like table of (address, line) rows, its
// writer, and a reader that keeps its place between queries (src/lib-sieve/sieve-binary-debug.c).
module DebugLines {
  import opened BinaryCode
  import opened Bytes

  // One past the largest unsigned int.
  const WORD := 0x1_0000_0000

  // Special opcodes are computed in an unsigned int: in a block shorter than this they cannot wrap.
  const BLOCK_LIMIT := 0x4000_0000

  const OP_COPY: Byte := 0
  const OP_ADVANCE_PC: Byte := 1
  const OP_ADVANCE_LINE: Byte := 2
  const OP_SET_COLUMN: Byte := 3
  const OP_SPECIAL_BASE: Byte := 4
  const LINE_RANGE := 4

  datatype Row = Row(address: nat, line: nat, column: nat)

  const ORIGIN := Row(0, 0, 0)

  predicate IsRow(r: Row)
  {
    r.address + 1 < BLOCK_LIMIT && r.line < WORD && r.column < WORD
  }

  // ----- The program of a table -----

  // The increment of the line register, in two's complement.
  function LineStep(from: Row, to: Row): (step: nat)
    ensures step < WORD
  {
    (to.line - from.line) % WORD
  }

  // 0 when no special opcode applies.
  function SpecialOpcode(step: nat, gap: nat): (op: Byte)
  {
    var op: int := (OP_SPECIAL_BASE + step + LINE_RANGE * gap) % WORD;
    if 0 < step < LINE_RANGE && op <= 255 then op else 0
  }

  function LineBytes(step: nat): seq<Byte>
  {
    if step == 0 then [] else [OP_ADVANCE_LINE] + IntegerBytes(step)
  }

  function AddressBytes(gap: nat): seq<Byte>
  {
    if gap == 0 then [] else [OP_ADVANCE_PC] + IntegerBytes(gap % WORD)
  }

  function MoveBytes(from: Row, to: Row): seq<Byte>
    requires from.address <= to.address
  {
    var step := LineStep(from, to);
    var gap := to.address - from.address;
    var op := SpecialOpcode(step, gap);
    if op == 0 then LineBytes(step) + AddressBytes(gap) else [op]
  }

  function ColumnBytes(from: Row, to: Row): seq<Byte>
  {
    if from.column == to.column then [] else [OP_SET_COLUMN] + IntegerBytes(to.column)
  }

  function RowBytes(from: Row, to: Row): (r: seq<Byte>)
    requires from.address <= to.address
  {
    MoveBytes(from, to) + ColumnBytes(from, to) + [OP_COPY]
  }

  // The row in front of index `k`.
  function Before(rows: seq<Row>, k: nat): (r: Row)
    requires k <= |rows|
  {
    if k == 0 then ORIGIN else rows[k - 1]
  }

  // Rows as the generator emits them: addresses never fall.
  ghost predicate IsTable(rows: seq<Row>)
  {
    && (forall i | 0 <= i < |rows| :: IsRow(rows[i]))
    && (forall i, j | 0 <= i < j < |rows| :: rows[i].address <= rows[j].address)
  }

  ghost function Program(rows: seq<Row>): seq<Byte>
    requires IsTable(rows)
  {
    if rows == [] then []
    else
      var n := |rows| - 1;
      Program(rows[..n]) + RowBytes(Before(rows, n), rows[n])
  }

  // Where the program of the first `k` rows ends.
  ghost function Position(rows: seq<Row>, k: nat): nat
    requires IsTable(rows) && k <= |rows|
  {
    |Program(rows[..k])|
  }

  lemma {:induction false} RowInProgram(rows: seq<Row>, k: nat)
    requires IsTable(rows) && k < |rows|
    ensures Has(Program(rows), Position(rows, k), RowBytes(Before(rows, k), rows[k]))
    ensures Position(rows, k + 1) == Position(rows, k) + |RowBytes(Before(rows, k), rows[k])|
    ensures Position(rows, k + 1) <= |Program(rows)|
    decreases |rows|
  {
    hide RowBytes;
    var n := |rows| - 1;
    var front := rows[..n];
    assert rows[..k + 1][..k] == rows[..k];
    if k < n {
      assert front[..k] == rows[..k] && front[..k + 1] == rows[..k + 1];
      RowInProgram(front, k);
    } else {
      assert rows[..k + 1] == rows;
    }
  }

  // ----- The writer -----

  class DebugWriter {
    const block: BinaryBlock
    var address: nat
    var line: nat
    var column: nat
    ghost var rows: seq<Row>

    ghost predicate Valid()
      reads this, block
    {
      && IsTable(rows)
      && block.data == Program(rows)
      && Row(address, line, column) == Before(rows, |rows|)
    }

    constructor (block: BinaryBlock)
      requires block.data == []
      ensures Valid() && this.block == block && rows == []
    {
      this.block := block;
      address, line, column, rows := 0, 0, 0, [];
    }

    method Emit(codeAddress: nat, codeLine: nat, codeColumn: nat)
      requires Valid() && codeAddress >= address && IsRow(Row(codeAddress, codeLine, codeColumn))
      modifies this, block
      ensures Valid() && rows == old(rows) + [Row(codeAddress, codeLine, codeColumn)]
    {
      hide Program, IntegerBytes;
      ghost var to := Row(codeAddress, codeLine, codeColumn);
      ghost var from := Row(address, line, column);
      ghost var before := block.data;
      var gap := codeAddress - address;
      var step: nat := (codeLine - line) % WORD;
      var op: int := 0;
      if 0 < step < LINE_RANGE {
        op := (OP_SPECIAL_BASE + step + LINE_RANGE * gap) % WORD;
        if op > 255 { op := 0; }
      }
      EmitMove(step, gap, op);
      assert block.data == before + MoveBytes(from, to);
      if column != codeColumn {
        var _ := block.EmitByte(OP_SET_COLUMN);
        var _ := block.EmitInteger(codeColumn);
        Assoc(before + MoveBytes(from, to), [OP_SET_COLUMN], IntegerBytes(codeColumn));
      } else {
        assert block.data + [] == block.data;
      }
      var _ := block.EmitByte(OP_COPY);
      RowAppends(before, from, to);
      address, line, column := codeAddress, codeLine, codeColumn;
      TableGrows(rows, to);
      rows := rows + [to];
    }

    method EmitMove(step: nat, gap: nat, op: int)
      requires op == SpecialOpcode(step, gap) && step < WORD
      modifies block
      ensures block.data == old(block.data) + if op == 0 then LineBytes(step) + AddressBytes(gap) else [op]
    {
      hide SpecialOpcode, IntegerBytes;
      ghost var before := block.data;
      if op == 0 {
        if step != 0 {
          var _ := block.EmitByte(OP_ADVANCE_LINE);
          var _ := block.EmitInteger(step);
          Assoc(before, [OP_ADVANCE_LINE], IntegerBytes(step));
        } else {
          assert before + [] == before;
        }
        ghost var middle := block.data;
        if gap > 0 {
          var _ := block.EmitByte(OP_ADVANCE_PC);
          var _ := block.EmitInteger(gap % WORD);
          Assoc(middle, [OP_ADVANCE_PC], IntegerBytes(gap % WORD));
        } else {
          assert middle + [] == middle;
        }
        Assoc(before, LineBytes(step), AddressBytes(gap));
      } else {
        var _ := block.EmitByte(op);
      }
    }
  }

  lemma RowAppends(before: seq<Byte>, from: Row, to: Row)
    requires from.address <= to.address
    ensures before + MoveBytes(from, to) + ColumnBytes(from, to) + [OP_COPY] == before + RowBytes(from, to)
  {
    hide MoveBytes, ColumnBytes;
  }

  lemma TableGrows(rows: seq<Row>, to: Row)
    requires IsTable(rows) && IsRow(to) && Before(rows, |rows|).address <= to.address
    ensures IsTable(rows + [to])
    ensures Program(rows + [to]) == Program(rows) + RowBytes(Before(rows, |rows|), to)
  {
    hide RowBytes;
    TableExtends(rows, to);
    hide IsTable;
    assert (rows + [to])[..|rows|] == rows && Before(rows + [to], |rows|) == Before(rows, |rows|);
  }

  lemma TableExtends(rows: seq<Row>, to: Row)
    requires IsTable(rows) && IsRow(to) && Before(rows, |rows|).address <= to.address
    ensures IsTable(rows + [to])
  {
  }

  // ----- The reader -----

  // The registers and the two latest rows of the reader, and how far it has read.
  datatype Reader = Reader(address: nat, line: nat, lastAddress: nat, lastLine: nat, column: nat, pos: nat)

  const FRESH := Reader(0, 0, 0, 0, 0, 0)

  function Reset(s: Reader): Reader { s.(address := 0, line := 0, column := 0, pos := 0) }

  datatype Advance = Copied(row: Row, next: nat) | Ended(column: nat) | Failed

  // Runs opcodes up to the next row.
  function NextRow(data: seq<Byte>, pos: nat, r: Row): (a: Advance)
    ensures a.Copied? ==> pos < a.next <= |data|
    decreases |data| - pos
  {
    if pos >= |data| then Ended(r.column)
    else if data[pos] == OP_COPY then Copied(r, pos + 1)
    else if data[pos] >= OP_SPECIAL_BASE then
      var op := Signless(data[pos], OP_SPECIAL_BASE);
      NextRow(data, pos + 1, r.(address := r.address + op / LINE_RANGE, line := (r.line + op % LINE_RANGE) % WORD))
    else
      IntegerAdvances(data, pos + 1, 0, 64);
      match UnsignedAt(data, pos + 1)
      case Corrupt => Failed
      case Got(v, next) =>
        NextRow(data, next,
                if data[pos] == OP_ADVANCE_PC then r.(address := r.address + v)
                else if data[pos] == OP_ADVANCE_LINE then r.(line := (r.line + v) % WORD)
                else r.(column := v))
  }

  function Signless(a: int, b: int): nat
    requires a >= b
  {
    a - b
  }

  // Reads rows until one at or behind the queried address.
  function Search(data: seq<Byte>, s: Reader, query: nat): (nat, Reader)
    decreases |data| - s.pos
  {
    match NextRow(data, s.pos, Row(s.address, s.line, s.column))
    case Failed => (0, Reset(s))
    case Ended(column) => (s.line, s.(column := column, pos := if s.pos < |data| then |data| else s.pos))
    case Copied(row, next) =>
      var t := Reader(row.address, row.line, s.address, s.line, row.column, next);
      if query < row.address then (t.lastLine, t)
      else if query == row.address then (t.line, t)
      else Search(data, t, query)
  }

  // The line reported for an address, and the reader afterwards.
  function LineAt(data: seq<Byte>, s: Reader, query: nat): (nat, Reader)
  {
    var s := if query < s.lastAddress then Reset(s) else s;
    if s.lastAddress <= query < s.address then (s.lastLine, s) else Search(data, s, query)
  }

  class DebugReader {
    const block: BinaryBlock
    var address: nat
    var lastAddress: nat
    var line: nat
    var lastLine: nat
    var column: nat
    var state: nat

    constructor (block: BinaryBlock)
      ensures this.block == block && Registers() == FRESH
    {
      this.block := block;
      address, lastAddress, line, lastLine, column, state := 0, 0, 0, 0, 0, 0;
    }

    function Registers(): Reader
      reads this
    {
      Reader(address, line, lastAddress, lastLine, column, state)
    }

    method ResetRegisters()
      modifies this
      ensures Registers() == Reset(old(Registers()))
    {
      address, line, column, state := 0, 0, 0, 0;
    }

    method ReadLine(codeAddress: nat) returns (r: nat)
      modifies this
      ensures (r, Registers()) == LineAt(block.data, old(Registers()), codeAddress)
    {
      if codeAddress < lastAddress { ResetRegisters(); }
      if lastAddress <= codeAddress < address { return lastLine; }
      r := ReadRows(codeAddress);
    }

    method ReadRows(codeAddress: nat) returns (r: nat)
      modifies this
      ensures (r, Registers()) == Search(block.data, old(Registers()), codeAddress)
    {
      hide IntegerFrom;
      var row := Row(address, line, column);
      ghost var start := Registers();
      ghost var data := block.data;
      // Registers when the row in progress was begun: `start` until a row is copied.
      ghost var s := start;
      while state < |block.data|
        invariant s == Registers().(column := s.column, pos := s.pos) && column == row.column
        invariant if state > |data| then s == Registers() else s.pos <= state
        invariant Search(data, start, codeAddress) == Search(data, s, codeAddress)
        invariant NextRow(data, s.pos, Row(s.address, s.line, s.column)) == NextRow(data, state, row)
        decreases |block.data| - state
      {
        var opcode := block.data[state];
        state := state + 1;
        if opcode == OP_COPY {
          lastAddress, lastLine := address, line;
          address, line := row.address, row.line;
          if codeAddress < address { return lastLine; }
          if codeAddress == address { return line; }
          s := Registers();
        } else if opcode >= OP_SPECIAL_BASE {
          var op := Signless(opcode, OP_SPECIAL_BASE);
          row := row.(address := row.address + op / LINE_RANGE, line := (row.line + op % LINE_RANGE) % WORD);
        } else {
          ghost var at := state;
          IntegerAdvances(block.data, state, 0, 64);
          var value := block.ReadInteger(state);
          if value.Corrupt? {
            ResetRegisters();
            return 0;
          }
          state := value.next;
          var v := value.value % WORD;
          if opcode == OP_ADVANCE_PC {
            row := row.(address := row.address + v);
          } else if opcode == OP_ADVANCE_LINE {
            row := row.(line := (row.line + v) % WORD);
          } else {
            row := row.(column := v);
            column := v;
          }
        }
      }
      r := line;
    }
  }
}
