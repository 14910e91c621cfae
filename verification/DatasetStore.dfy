/**
 Chunked inserts with a row-by-row fallback (backend/assemblage/dataset/store.py).
 */
module DatasetStore {

  // --- the rows ------------------------------------------------------------------------------

  datatype BinaryRow = BinaryRow(id: int, fileName: string)

  datatype FunctionRow = FunctionRow(id: int, binaryId: int, name: string)

  datatype RvaRow = RvaRow(start: nat, end: nat, functionId: int)

  datatype SourceLine = SourceLine(line: int, file: string, code: string, functionId: int, rva: string, length: int)

  /** What one flush sends. */
  datatype Batch = Batch(binaries: seq<BinaryRow>, functions: seq<FunctionRow>, lines: seq<SourceLine>, rvas: seq<RvaRow>)

  // --- tables with constraints ---------------------------------------------------------------

  class Table<R> {
    var rows: seq<R>

    constructor ()
      ensures rows == []
    {
      rows := [];
    }
  }

  /** Trying each row in order; a row the table rejects is dropped. */
  function RowByRow<R>(table: seq<R>, rows: seq<R>, accepts: (seq<R>, R) -> bool): seq<R> {
    if rows == [] then table
    else
      var before := RowByRow(table, rows[..|rows| - 1], accepts);
      if accepts(before, rows[|rows| - 1]) then before + [rows[|rows| - 1]] else before
  }

  /** The rows rejected on their own, in order. */
  function Dropped<R>(table: seq<R>, rows: seq<R>, accepts: (seq<R>, R) -> bool): seq<R> {
    if rows == [] then []
    else
      var n := |rows| - 1;
      Dropped(table, rows[..n], accepts) +
      if accepts(RowByRow(table, rows[..n], accepts), rows[n]) then [] else [rows[n]]
  }

  /** Every row of a chunk is accepted after those before it: the whole chunk commits. */
  predicate AllAccepted<R>(table: seq<R>, rows: seq<R>, accepts: (seq<R>, R) -> bool) {
    forall i :: 0 <= i < |rows| ==> accepts(table + rows[..i], rows[i])
  }

  lemma AcceptedFront<R>(table: seq<R>, rows: seq<R>, n: nat, accepts: (seq<R>, R) -> bool)
    requires n <= |rows| && AllAccepted(table, rows, accepts)
    ensures AllAccepted(table, rows[..n], accepts)
  {
    forall i | 0 <= i < n ensures accepts(table + rows[..n][..i], rows[..n][i]) {
      assert rows[..n][..i] == rows[..i];
    }
  }

  lemma {:induction false} AcceptedChunk<R>(table: seq<R>, rows: seq<R>, accepts: (seq<R>, R) -> bool)
    requires AllAccepted(table, rows, accepts)
    ensures RowByRow(table, rows, accepts) == table + rows
  {
    if rows != [] {
      var n := |rows| - 1;
      AcceptedFront(table, rows, n, accepts);
      AcceptedChunk(table, rows[..n], accepts);
      assert table + rows == (table + rows[..n]) + [rows[n]];
    }
  }

  lemma {:induction false} RowByRowConcat<R>(table: seq<R>, a: seq<R>, b: seq<R>, accepts: (seq<R>, R) -> bool)
    ensures RowByRow(table, a + b, accepts) == RowByRow(RowByRow(table, a, accepts), b, accepts)
  {
    if b == [] {
      assert a + b == a;
    } else {
      RowByRowConcat(table, a, b[..|b| - 1], accepts);
      assert (a + b)[..|a + b| - 1] == a + b[..|b| - 1];
    }
  }

  /** Kept rows and dropped rows make up what was offered, and nothing stored is lost. */
  lemma {:induction false} OnlyRejectedDropped<R(!new)>(table: seq<R>, rows: seq<R>, accepts: (seq<R>, R) -> bool)
    ensures var after := RowByRow(table, rows, accepts);
            && table <= after
            && multiset(after[|table|..]) + multiset(Dropped(table, rows, accepts)) == multiset(rows)
  {
    if rows != [] {
      var n := |rows| - 1;
      OnlyRejectedDropped(table, rows[..n], accepts);
      assert rows == rows[..n] + [rows[n]];
      var before := RowByRow(table, rows[..n], accepts);
      if accepts(before, rows[n]) {
        assert (before + [rows[n]])[|table|..] == before[|table|..] + [rows[n]];
      }
    }
  }

  /** The fallback: each row in its own transaction. */
  method InsertRows<R>(table: Table<R>, rows: seq<R>, accepts: (seq<R>, R) -> bool)
    modifies table
    ensures table.rows == RowByRow(old(table.rows), rows, accepts)
  {
    for i := 0 to |rows|
      invariant table.rows == RowByRow(old(table.rows), rows[..i], accepts)
    {
      assert rows[..i + 1][..i] == rows[..i];
      if accepts(table.rows, rows[i]) {
        table.rows := table.rows + [rows[i]];
      }
    }
    assert rows[..|rows|] == rows;
  }

  /** Chunks in order; a chunk that fails, for a rejected row or for no reason of its own, is
      retried row by row. The table ends as if each row had been tried in order. */
  method InsertChunked<R>(table: Table<R>, rows: seq<R>, size: nat, accepts: (seq<R>, R) -> bool, spurious: nat -> bool)
    requires size >= 1
    modifies table
    ensures table.rows == RowByRow(old(table.rows), rows, accepts)
  {
    var i := 0;
    while i < |rows|
      invariant i <= |rows|
      invariant table.rows == RowByRow(old(table.rows), rows[..i], accepts)
    {
      var end := if i + size < |rows| then i + size else |rows|;
      var chunk := rows[i..end];
      RowByRowConcat(old(table.rows), rows[..i], chunk, accepts);
      assert rows[..end] == rows[..i] + chunk;
      if !spurious(i) && AllAccepted(table.rows, chunk, accepts) {
        AcceptedChunk(table.rows, chunk, accepts);
        table.rows := table.rows + chunk;
      } else {
        InsertRows(table, chunk, accepts);
      }
      i := end;
    }
    assert rows[..i] == rows;
  }

  const BULK_CHUNK_SIZE := 5000

  datatype PdbRow = PdbRow(binaryId: int, path: string)

  class Tables {
    const binaries: Table<BinaryRow>
    const functions: Table<FunctionRow>
    const lines: Table<SourceLine>
    const rvas: Table<RvaRow>
    const pdbs: Table<PdbRow>

    constructor ()
      ensures fresh(binaries) && fresh(functions) && fresh(lines) && fresh(rvas) && fresh(pdbs)
    {
      binaries := new Table<BinaryRow>();
      functions := new Table<FunctionRow>();
      lines := new Table<SourceLine>();
      rvas := new Table<RvaRow>();
      pdbs := new Table<PdbRow>();
    }
  }

  datatype Constraints = Constraints(
    binary: (seq<BinaryRow>, BinaryRow) -> bool, function_: (seq<FunctionRow>, FunctionRow) -> bool,
    line: (seq<SourceLine>, SourceLine) -> bool, rva: (seq<RvaRow>, RvaRow) -> bool, pdb: (seq<PdbRow>, PdbRow) -> bool)

  /** Which tables beside the binaries are wanted. */
  datatype Include = Include(functions: bool, lines: bool, rvas: bool, pdbs: bool)

  /** The rows of a table that is wanted, or none. */
  function Wanted<R>(rows: seq<R>, include_: bool): seq<R> { if include_ then rows else [] }

  /** Table by table, so that what one rejects costs the others nothing. */
  method BulkFlush(db: Tables, batch: Batch, pdbs: seq<PdbRow>, c: Constraints, inc: Include, spurious: nat -> bool)
    modifies db.binaries, db.functions, db.lines, db.rvas, db.pdbs
    ensures db.binaries.rows == RowByRow(old(db.binaries.rows), batch.binaries, c.binary)
    ensures db.functions.rows == RowByRow(old(db.functions.rows), Wanted(batch.functions, inc.functions), c.function_)
    ensures db.lines.rows == RowByRow(old(db.lines.rows), Wanted(batch.lines, inc.lines), c.line)
    ensures db.rvas.rows == RowByRow(old(db.rvas.rows), Wanted(batch.rvas, inc.rvas), c.rva)
    ensures db.pdbs.rows == RowByRow(old(db.pdbs.rows), Wanted(pdbs, inc.pdbs), c.pdb)
  {
    InsertChunked(db.binaries, batch.binaries, BULK_CHUNK_SIZE, c.binary, spurious);
    if inc.functions && batch.functions != [] {
      InsertChunked(db.functions, batch.functions, BULK_CHUNK_SIZE, c.function_, spurious);
    }
    if inc.lines && batch.lines != [] {
      InsertChunked(db.lines, batch.lines, BULK_CHUNK_SIZE, c.line, spurious);
    }
    if inc.rvas && batch.rvas != [] {
      InsertChunked(db.rvas, batch.rvas, BULK_CHUNK_SIZE, c.rva, spurious);
    }
    if inc.pdbs && pdbs != [] {
      InsertChunked(db.pdbs, pdbs, BULK_CHUNK_SIZE, c.pdb, spurious);
    }
  }
}
