// What the debug reader answers on a written line program, whatever was asked before.
module DebugLookup {
  import opened BinaryCode
  import opened CodeReading
  import opened Bytes
  import opened DebugLines

  // ----- A row reads back as it was written -----

  lemma ReadsLine(data: seq<Byte>, pos: nat, step: nat, r: Row)
    requires step < WORD && Has(data, pos, LineBytes(step)) && r.line < WORD
    ensures NextRow(data, pos, r) == NextRow(data, pos + |LineBytes(step)|, r.(line := (r.line + step) % WORD))
  {
    hide IntegerFrom, IntegerBytes, Has;
    if step != 0 {
      HasParts(data, pos, [OP_ADVANCE_LINE], IntegerBytes(step));
      OpcodeAt(data, pos, OP_ADVANCE_LINE);
      IntegerRoundTrip(data, pos + 1, step);
    }
  }

  lemma ReadsAddress(data: seq<Byte>, pos: nat, gap: nat, r: Row)
    requires gap < WORD && Has(data, pos, AddressBytes(gap))
    ensures NextRow(data, pos, r) == NextRow(data, pos + |AddressBytes(gap)|, r.(address := r.address + gap))
  {
    hide IntegerFrom, IntegerBytes, Has;
    if gap != 0 {
      HasParts(data, pos, [OP_ADVANCE_PC], IntegerBytes(gap));
      OpcodeAt(data, pos, OP_ADVANCE_PC);
      IntegerRoundTrip(data, pos + 1, gap);
    }
  }

  lemma ReadsColumn(data: seq<Byte>, pos: nat, from: Row, to: Row, r: Row)
    requires to.column < WORD && Has(data, pos, ColumnBytes(from, to)) && r.column == from.column
    ensures NextRow(data, pos, r) == NextRow(data, pos + |ColumnBytes(from, to)|, r.(column := to.column))
  {
    hide IntegerFrom, IntegerBytes, Has;
    if from.column != to.column {
      HasParts(data, pos, [OP_SET_COLUMN], IntegerBytes(to.column));
      OpcodeAt(data, pos, OP_SET_COLUMN);
      IntegerRoundTrip(data, pos + 1, to.column);
    }
  }

  lemma OpcodeAt(data: seq<Byte>, pos: nat, op: Byte)
    requires Has(data, pos, [op])
    ensures pos < |data| && data[pos] == op
  {
    HasByte(data, pos, [op], 0);
  }

  // A special opcode splits into the two increments it was made of.
  lemma SpecialSplits(step: nat, gap: nat)
    requires step < WORD && gap + 1 < BLOCK_LIMIT && SpecialOpcode(step, gap) != 0
    ensures var op := SpecialOpcode(step, gap);
            op > OP_SPECIAL_BASE && (op - OP_SPECIAL_BASE) / LINE_RANGE == gap
              && (op - OP_SPECIAL_BASE) % LINE_RANGE == step
  {
    var sum: int := OP_SPECIAL_BASE + step + LINE_RANGE * gap;
    assert sum < WORD;
    assert sum % WORD == sum;
  }

  lemma StepArrives(from: Row, to: Row)
    requires from.line < WORD && to.line < WORD
    ensures (from.line + LineStep(from, to)) % WORD == to.line
  {
  }

  lemma ReadsMove(data: seq<Byte>, pos: nat, from: Row, to: Row)
    requires from.address <= to.address && from.line < WORD && IsRow(to) && Has(data, pos, MoveBytes(from, to))
    ensures NextRow(data, pos, from) == NextRow(data, pos + |MoveBytes(from, to)|, to.(column := from.column))
  {
    hide IntegerFrom, IntegerBytes, Has, SpecialOpcode, LineBytes, AddressBytes, LineStep;
    var step := LineStep(from, to);
    var gap := to.address - from.address;
    var op := SpecialOpcode(step, gap);
    StepArrives(from, to);
    if op == 0 {
      HasParts(data, pos, LineBytes(step), AddressBytes(gap));
      ReadsLine(data, pos, step, from);
      ReadsAddress(data, pos + |LineBytes(step)|, gap, from.(line := to.line));
    } else {
      OpcodeAt(data, pos, op);
      SpecialSplits(step, gap);
    }
  }

  lemma RowReadsBack(data: seq<Byte>, pos: nat, from: Row, to: Row)
    requires from.address <= to.address && from.line < WORD && IsRow(to) && Has(data, pos, RowBytes(from, to))
    ensures NextRow(data, pos, from) == Copied(to, pos + |RowBytes(from, to)|)
  {
    hide Has, MoveBytes, ColumnBytes;
    var move, column := MoveBytes(from, to), ColumnBytes(from, to);
    HasParts(data, pos, move + column, [OP_COPY]);
    HasParts(data, pos, move, column);
    ReadsMove(data, pos, from, to);
    ReadsColumn(data, pos + |move|, from, to, to.(column := from.column));
    OpcodeAt(data, pos + |move| + |column|, OP_COPY);
  }

  // ----- Where the reader stands -----

  // The reader has copied the first `k` rows.
  ghost predicate Stands(rows: seq<Row>, s: Reader, k: nat)
    requires IsTable(rows)
  {
    && k <= |rows| && s.pos == Position(rows, k)
    && Row(s.address, s.line, s.column) == Before(rows, k)
    && (k > 0 ==> Before(rows, k - 1).address == s.lastAddress && Before(rows, k - 1).line == s.lastLine)
  }

  // Between two queries.
  ghost predicate Rests(rows: seq<Row>, s: Reader, k: nat)
    requires IsTable(rows)
  {
    Stands(rows, s, k) && (k == 0 ==> s == FRESH)
  }

  lemma RestsFresh(rows: seq<Row>)
    requires IsTable(rows)
    ensures Rests(rows, FRESH, 0)
  {
    assert rows[..0] == [];
  }

  // The reader copies row `k` next, or is at the end.
  lemma NextRowOfTable(rows: seq<Row>, s: Reader, k: nat)
    requires IsTable(rows) && Stands(rows, s, k)
    ensures var a := NextRow(Program(rows), s.pos, Row(s.address, s.line, s.column));
            if k == |rows| then a == Ended(s.column) && s.pos == |Program(rows)|
            else a == Copied(rows[k], Position(rows, k + 1))
                 && Stands(rows, Reader(rows[k].address, rows[k].line, s.address, s.line, rows[k].column, a.next),
                           k + 1)
  {
    hide NextRow, RowBytes, Program;
    if k == |rows| {
      assert rows[..k] == rows;
      NextRowAtEnd(Program(rows), Row(s.address, s.line, s.column));
    } else {
      RowInProgram(rows, k);
      RowReadsBack(Program(rows), s.pos, Before(rows, k), rows[k]);
    }
  }

  lemma NextRowAtEnd(data: seq<Byte>, r: Row)
    ensures NextRow(data, |data|, r) == Ended(r.column)
  {
  }

  // ----- The answer -----

  // Row `i` is at the greatest address up to the query; -1: no row is.
  ghost predicate IsLatest(rows: seq<Row>, query: nat, i: int)
  {
    && -1 <= i < |rows|
    && (i >= 0 ==> rows[i].address <= query)
    && forall j | 0 <= j < |rows| && rows[j].address <= query :: i >= 0 && rows[j].address <= rows[i].address
  }

  function LineOf(rows: seq<Row>, i: int): nat
    requires -1 <= i < |rows|
  {
    if i < 0 then 0 else rows[i].line
  }

  lemma LatestBefore(rows: seq<Row>, query: nat, k: nat)
    requires IsTable(rows) && k <= |rows|
    requires k > 0 ==> rows[k - 1].address <= query
    requires k < |rows| ==> query < rows[k].address
    ensures IsLatest(rows, query, k - 1)
  {
  }

  // From row `k` on, with nothing behind the query copied yet, the search answers with a latest row.
  lemma {:induction false} SearchAnswers(rows: seq<Row>, s: Reader, k: nat, query: nat) returns (k': nat, i: int)
    requires IsTable(rows) && Stands(rows, s, k) && Before(rows, k).address <= query
    requires k == 0 && rows == [] ==> s == FRESH
    ensures var r := Search(Program(rows), s, query);
            Rests(rows, r.1, k') && IsLatest(rows, query, i) && r.0 == LineOf(rows, i)
    ensures k < |rows| && rows[k].address == query ==> k' == k + 1 && i == k
    ensures i >= k && rows[i].address == query ==> k' == i + 1 && (i == k || rows[i - 1].address < query)
    decreases |rows| - k
  {
    hide NextRow, Program, Position, IsTable;
    NextRowOfTable(rows, s, k);
    if k == |rows| {
      k', i := k, k - 1;
      LatestBefore(rows, query, k);
    } else {
      var row := rows[k];
      var t := Reader(row.address, row.line, s.address, s.line, row.column, Position(rows, k + 1));
      if query < row.address {
        k', i := k + 1, k - 1;
        LatestBefore(rows, query, k);
      } else if query == row.address {
        k', i := k + 1, k;
      } else {
        k', i := SearchAnswers(rows, t, k + 1, query);
      }
    }
  }

  // One query: the answer is the line of a row at the greatest address up to the query, and the
  // reader is left where the next query finds it again.
  lemma QueryAnswers(rows: seq<Row>, s: Reader, k: nat, query: nat) returns (k': nat, i: int)
    requires IsTable(rows) && Rests(rows, s, k)
    ensures var r := LineAt(Program(rows), s, query);
            Rests(rows, r.1, k') && IsLatest(rows, query, i) && r.0 == LineOf(rows, i)
    ensures k == 0 && i >= 0 && rows[i].address == query ==> k' == i + 1 && (i == 0 || rows[i - 1].address < query)
    ensures Before(rows, k).address <= query && k < |rows| && rows[k].address == query ==> k' == k + 1 && i == k
  {
    hide Search, Program, IsLatest, Position;
    if query < s.lastAddress {
      assert rows[..0] == [] by { hide *; }
      FreshStands(rows, s);
      k', i := SearchAnswers(rows, Reset(s), 0, query);
    } else if s.lastAddress <= query < s.address {
      k', i := k, k - 2;
      LatestBefore(rows, query, k - 1);
    } else {
      k', i := SearchAnswers(rows, s, k, query);
    }
  }

  lemma FreshStands(rows: seq<Row>, s: Reader)
    requires IsTable(rows)
    ensures Stands(rows, Reset(s), 0)
  {
    assert rows[..0] == [];
  }

  // ----- Whole histories -----

  // The reader after a history of queries.
  function After(data: seq<Byte>, queries: seq<nat>): Reader
  {
    if queries == [] then FRESH else LineAt(data, After(data, queries[..|queries| - 1]), queries[|queries| - 1]).1
  }

  function Answer(data: seq<Byte>, history: seq<nat>, query: nat): nat
  {
    LineAt(data, After(data, history), query).0
  }

  lemma {:induction false} HistoryRests(rows: seq<Row>, queries: seq<nat>) returns (k: nat)
    requires IsTable(rows)
    ensures Rests(rows, After(Program(rows), queries), k)
    decreases |queries|
  {
    hide Rests, LineAt, Program, IsTable;
    if queries == [] {
      RestsFresh(rows);
      k := 0;
    } else {
      var n := |queries| - 1;
      var before := HistoryRests(rows, queries[..n]);
      var i;
      k, i := QueryAnswers(rows, After(Program(rows), queries[..n]), before, queries[n]);
    }
  }

  // Every answer, after every history, is the line of a row at the greatest address up to the
  // query, and 0 when there is none.
  lemma EveryAnswerIsLatest(rows: seq<Row>, history: seq<nat>, query: nat) returns (i: int)
    requires IsTable(rows)
    ensures IsLatest(rows, query, i) && Answer(Program(rows), history, query) == LineOf(rows, i)
  {
    hide Rests, LineAt, Program, IsTable, IsLatest;
    var k := HistoryRests(rows, history);
    var k';
    k', i := QueryAnswers(rows, After(Program(rows), history), k, query);
  }

  // ----- When the answer is a plain table lookup -----

  // The table, searched from its end.
  function Lookup(rows: seq<Row>, query: nat): nat
  {
    if rows == [] then 0
    else if rows[|rows| - 1].address <= query then rows[|rows| - 1].line
    else Lookup(rows[..|rows| - 1], query)
  }

  // Rows of one address are of one line.
  ghost predicate OneLinePerAddress(rows: seq<Row>)
  {
    forall i, j | 0 <= i < |rows| && 0 <= j < |rows| && rows[i].address == rows[j].address ::
      rows[i].line == rows[j].line
  }

  lemma {:induction false} LookupIsLatest(rows: seq<Row>, query: nat) returns (i: int)
    requires IsTable(rows)
    ensures IsLatest(rows, query, i) && Lookup(rows, query) == LineOf(rows, i)
    decreases |rows|
  {
    var n := |rows| - 1;
    if rows == [] {
      i := -1;
    } else if rows[n].address <= query {
      i := n;
    } else {
      i := LookupIsLatest(rows[..n], query);
    }
  }

  lemma LatestAgree(rows: seq<Row>, query: nat, i: int, j: int)
    requires OneLinePerAddress(rows) && IsLatest(rows, query, i) && IsLatest(rows, query, j)
    ensures LineOf(rows, i) == LineOf(rows, j)
  {
  }

  lemma FirstOf(rows: seq<Row>, i: nat) returns (first: nat)
    requires IsTable(rows) && i < |rows|
    ensures first <= i && rows[first].address == rows[i].address
    ensures first == 0 || rows[first - 1].address < rows[first].address
  {
    first := i;
    while first > 0 && rows[first - 1].address == rows[first].address
      invariant first <= i && rows[first].address == rows[i].address
    {
      first := first - 1;
    }
  }

  lemma AfterOneMore(data: seq<Byte>, history: seq<nat>, query: nat)
    ensures After(data, history + [query]) == LineAt(data, After(data, history), query).1
  {
    assert (history + [query])[..|history|] == history;
  }

  // Asking again for an address that has several rows moves on to the next of them.
  lemma {:induction false} AskingAgain(rows: seq<Row>, first: nat, m: nat) returns (history: seq<nat>)
    requires IsTable(rows) && first + m < |rows| && rows[first].address == rows[first + m].address
    requires first == 0 || rows[first - 1].address < rows[first].address
    ensures var query := rows[first].address;
            Rests(rows, After(Program(rows), history + [query]), first + m + 1)
            && Answer(Program(rows), history, query) == rows[first + m].line
    decreases m
  {
    hide After, Answer, Rests, Program;
    var query := rows[first].address;
    if m > 0 {
      AddressBetween(rows, first, m);
      var before := AskingAgain(rows, first, m - 1);
      history := before + [query];
      AskedNext(rows, history, first + m, query);
    } else {
      history := [];
      AskedFirst(rows, first);
      assert [] + [query] == [query];
    }
  }

  // The reader rests in front of a row at the queried address.
  lemma AskedNext(rows: seq<Row>, history: seq<nat>, k: nat, query: nat)
    requires IsTable(rows) && Rests(rows, After(Program(rows), history), k)
    requires k < |rows| && rows[k].address == query && Before(rows, k).address <= query
    ensures Rests(rows, After(Program(rows), history + [query]), k + 1)
            && Answer(Program(rows), history, query) == rows[k].line
  {
    hide After, LineAt, Rests, Program, IsLatest, IsTable;
    var k', i := QueryAnswers(rows, After(Program(rows), history), k, query);
    AfterOneMore(Program(rows), history, query);
  }

  lemma AskedFirst(rows: seq<Row>, first: nat)
    requires IsTable(rows) && first < |rows| && (first == 0 || rows[first - 1].address < rows[first].address)
    ensures var query := rows[first].address;
            Rests(rows, After(Program(rows), [query]), first + 1)
              && Answer(Program(rows), [], query) == rows[first].line
  {
    hide After, LineAt, Rests, Program, IsLatest, IsTable;
    var query := rows[first].address;
    AfterNothing(Program(rows));
    RestsFresh(rows);
    var k', i := QueryAnswers(rows, FRESH, 0, query);
    FirstIsLatest(rows, first, i);
    assert [] + [query] == [query];
    AfterOneMore(Program(rows), [], query);
  }

  lemma FirstIsLatest(rows: seq<Row>, first: nat, i: int)
    requires IsTable(rows) && first < |rows| && IsLatest(rows, rows[first].address, i)
    requires first == 0 || rows[first - 1].address < rows[first].address
    ensures i >= 0 && rows[i].address == rows[first].address
    ensures i == 0 || rows[i - 1].address < rows[i].address ==> i == first
  {
    assert rows[first].address <= rows[i].address;
  }

  lemma AddressBetween(rows: seq<Row>, first: nat, m: nat)
    requires IsTable(rows) && 0 < m && first + m < |rows| && rows[first].address == rows[first + m].address
    ensures rows[first + m - 1].address == rows[first].address
  {
  }

  lemma AfterNothing(data: seq<Byte>)
    ensures After(data, []) == FRESH
  {
  }

  lemma SomeAnswerDiffers(rows: seq<Row>) returns (history: seq<nat>, query: nat)
    requires IsTable(rows) && !OneLinePerAddress(rows)
    ensures Answer(Program(rows), history, query) != Lookup(rows, query)
  {
    hide Answer, Program, Lookup, IsTable;
    var i, j :| 0 <= i < |rows| && 0 <= j < |rows| && rows[i].address == rows[j].address
      && rows[i].line != rows[j].line;
    query := rows[i].address;
    var m := if rows[i].line != Lookup(rows, query) then i else j;
    var first := FirstOf(rows, m);
    history := AskingAgain(rows, first, m - first);
  }

  // The reader is a plain lookup in the table, whatever was asked before, exactly when no address
  // carries two lines.
  lemma ReaderIsLookupExactlyWhenOneLinePerAddress(rows: seq<Row>)
    requires IsTable(rows)
    ensures OneLinePerAddress(rows)
            <==> forall history, query :: Answer(Program(rows), history, query) == Lookup(rows, query)
  {
    hide Answer, Program, Lookup, IsTable, IsLatest;
    if OneLinePerAddress(rows) {
      forall history, query ensures Answer(Program(rows), history, query) == Lookup(rows, query) {
        var i := EveryAnswerIsLatest(rows, history, query);
        var j := LookupIsLatest(rows, query);
        LatestAgree(rows, query, i, j);
      }
    } else {
      var history, query := SomeAnswerDiffers(rows);
    }
  }

  // What the generator notes of an `if true` and, on the next line, the first command of its block:
  // the condition has no code, so both are at one address, and some query gets the wrong line.
  lemma ConstantIfHasTwoLines(address: nat, line: nat) returns (history: seq<nat>, query: nat)
    requires IsRow(Row(address, line, 0)) && IsRow(Row(address, line + 1, 0))
    ensures var rows := [Row(address, line, 0), Row(address, line + 1, 0)];
            && IsTable(rows) && !OneLinePerAddress(rows)
            && Answer(Program(rows), history, query) != Lookup(rows, query)
  {
    var rows := [Row(address, line, 0), Row(address, line + 1, 0)];
    assert IsTable(rows);
    assert rows[0].line != rows[1].line;
    hide Answer, Program, Lookup, IsTable;
    history, query := SomeAnswerDiffers(rows);
  }

  // When every row has an address of its own.
  lemma {:induction false} LookupWhenAddressesRise(rows: seq<Row>, history: seq<nat>, query: nat)
    requires IsTable(rows) && forall i, j | 0 <= i < j < |rows| :: rows[i].address < rows[j].address
    ensures Answer(Program(rows), history, query) == Lookup(rows, query)
  {
    RisingHasOneLine(rows);
    hide Answer, Program, Lookup, IsTable, OneLinePerAddress;
    ReaderIsLookupExactlyWhenOneLinePerAddress(rows);
  }

  lemma RisingHasOneLine(rows: seq<Row>)
    requires forall i, j | 0 <= i < j < |rows| :: rows[i].address < rows[j].address
    ensures OneLinePerAddress(rows)
  {
  }

  // ----- Truncated programs -----

  lemma OperandCut(data: seq<Byte>, pos: nat, op: Byte, n: nat, r: Row)
    requires CutOff(data, pos, [op] + IntegerBytes(n)) && OP_COPY < op < OP_SPECIAL_BASE
    ensures NextRow(data, pos, r) == if pos == |data| then Ended(r.column) else Failed
  {
    hide CutOff, IntegerBytes, IntegerAt, Has;
    CutShort(data, pos, [op] + IntegerBytes(n));
    CutParts(data, pos, [op], IntegerBytes(n));
    if pos < |data| {
      HeadThere(data, pos, [op]);
      OpcodeAt(data, pos, op);
      IntegerCut(data, pos + 1, n);
    }
  }

  lemma MoveCut(data: seq<Byte>, pos: nat, from: Row, to: Row)
    requires from.address <= to.address && from.line < WORD && IsRow(to) && CutOff(data, pos, MoveBytes(from, to))
    ensures !NextRow(data, pos, from).Copied?
  {
    hide CutOff, IntegerBytes, Has, SpecialOpcode, NextRow;
    var step, gap := LineStep(from, to), to.address - from.address;
    CutShort(data, pos, MoveBytes(from, to));
    if SpecialOpcode(step, gap) == 0 {
      CutParts(data, pos, LineBytes(step), AddressBytes(gap));
      if CutOff(data, pos, LineBytes(step)) {
        CutShort(data, pos, LineBytes(step));
        OperandCut(data, pos, OP_ADVANCE_LINE, step, from);
      } else {
        ReadsLine(data, pos, step, from);
        var at := pos + |LineBytes(step)|;
        CutShort(data, at, AddressBytes(gap));
        OperandCut(data, at, OP_ADVANCE_PC, gap % WORD, from.(line := (from.line + step) % WORD));
      }
    } else {
      NextRowAtEnd(data, from);
    }
  }

  // A row that is cut off is not reported.
  lemma TruncatedRowIsNotReported(data: seq<Byte>, pos: nat, from: Row, to: Row)
    requires from.address <= to.address && from.line < WORD && IsRow(to) && CutOff(data, pos, RowBytes(from, to))
    ensures !NextRow(data, pos, from).Copied?
  {
    hide CutOff, IntegerBytes, Has, MoveBytes, NextRow;
    var move, column := MoveBytes(from, to), ColumnBytes(from, to);
    CutParts(data, pos, move + column, [OP_COPY]);
    if CutOff(data, pos, move + column) {
      CutParts(data, pos, move, column);
      if CutOff(data, pos, move) {
        MoveCut(data, pos, from, to);
      } else {
        ReadsMove(data, pos, from, to);
        CutShort(data, pos + |move|, column);
        OperandCut(data, pos + |move|, OP_SET_COLUMN, to.column, to.(column := from.column));
      }
    } else {
      HasParts(data, pos, move, column);
      ReadsMove(data, pos, from, to);
      ReadsColumn(data, pos + |move|, from, to, to.(column := from.column));
      CutShort(data, pos + |move + column|, [OP_COPY]);
      NextRowAtEnd(data, to);
    }
  }

  // Where an operand is cut off, the reader says that it knows no line and begins anew.
  lemma TruncatedOperandResets(data: seq<Byte>, s: Reader, op: Byte, n: nat, query: nat)
    requires s.pos < |data| && CutOff(data, s.pos, [op] + IntegerBytes(n)) && OP_COPY < op < OP_SPECIAL_BASE
    requires s.lastAddress <= query && s.address <= query
    ensures LineAt(data, s, query) == (0, Reset(s))
  {
    hide NextRow, CutOff, IntegerBytes;
    OperandCut(data, s.pos, op, n, Row(s.address, s.line, s.column));
  }
}
