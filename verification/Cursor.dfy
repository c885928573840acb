/** The statement cursor: rows arrive in chunks, PHP sees one row after the other. */
module Cursor {
  import opened Columns
  import opened Decoder
  import opened PhpReading
  import opened PhpValues
  import RoundTrip
  import opened Wrappers

  /** The SQL values of a row, one for each column. */
  type Row = seq<Val>

  predicate HasColumn(types: seq<LType>, row: Row, c: nat) {
    c < |types| == |row| && HasType(types[c], row[c])
  }

  predicate IsRow(types: seq<LType>, row: Row) {
    |row| == |types| && forall c :: 0 <= c < |types| ==> HasColumn(types, row, c)
  }

  predicate AreRows(types: seq<LType>, rows: seq<Row>) {
    forall i {:trigger rows[i]} :: 0 <= i < |rows| ==> IsRow(types, rows[i])
  }

  /** A query result: its chunks, and whether DuckDB reports an error after them, as only a
      streaming result can. */
  datatype ResultData = ResultData(chunks: seq<seq<Row>>, types: seq<LType>, streaming: bool, failed: bool) {
    predicate Valid() {
      && (failed ==> streaming)
      && forall c :: 0 <= c < |chunks| ==> AreRows(types, chunks[c])
    }
  }

  /** What comes of executing the prepared statement: a result that holds an error, no result
      at all when the thread pool refuses the call, or a result with rows. */
  datatype Outcome = Failure | Refused | Success(data: ResultData)

  // ---------------------------------------------------------------- the flat list of rows

  /** The rows a cursor stops at. An empty chunk still costs one stop, with no row in it:
      the cursor does not look at the size of a chunk it has just loaded. */
  function Stops(chunks: seq<seq<Row>>): seq<Option<Row>> {
    if chunks == [] then [] else
      var last := chunks[|chunks| - 1];
      Stops(chunks[..|chunks| - 1]) + if last == [] then [None] else Somes(last)
  }

  function Somes(rows: seq<Row>): seq<Option<Row>> {
    seq(|rows|, i requires 0 <= i < |rows| => Some(rows[i]))
  }

  function Concat(chunks: seq<seq<Row>>): seq<Row> {
    if chunks == [] then [] else Concat(chunks[..|chunks| - 1]) + chunks[|chunks| - 1]
  }

  predicate NoEmptyChunk(chunks: seq<seq<Row>>) {
    forall c :: 0 <= c < |chunks| ==> chunks[c] != []
  }

  /** The stops, and those on the way to which DuckDB is asked for a chunk. */
  datatype Tape = Tape(types: seq<LType>, stops: seq<Option<Row>>, failed: bool, calls: set<nat>)

  function TapeOf(data: ResultData): Tape {
    Tape(data.types, Stops(data.chunks), data.failed,
         set n | 0 <= n <= |data.chunks| && Asks(data, n) :: StopCount(data.chunks, n))
  }

  /** Past chunk `n - 1` DuckDB is asked for the next one; a result that is not streaming
      tells how many there are. */
  predicate Asks(data: ResultData, n: nat) { n < |data.chunks| || data.streaming }

  /** The cursor without its chunks. */
  datatype View =
    | Closed
    | Before(tape: Tape)
    | At(tape: Tape, pos: nat)
    | Ended

  datatype Fetched = GotRow | NoMore | Broken

  function FlatExecute(outcome: Outcome): View {
    match outcome
    case Failure => Closed
    case Refused => Closed
    case Success(data) => if data.types == [] then Ended else Before(TapeOf(data))
  }

  /** A chunk call can be refused by the thread pool; then no chunk comes, and the cursor
      takes the result to be at its end. */
  function FlatFetch(v: View, refused: bool): (View, Fetched) {
    match v
    case Closed => (Closed, NoMore)
    case Ended => (Ended, NoMore)
    case Before(tape) => Onto(tape, 0, refused)
    case At(tape, pos) => Onto(tape, pos + 1, refused)
  }

  function Onto(tape: Tape, n: nat, refused: bool): (View, Fetched) {
    if refused && n in tape.calls then (Ended, NoMore)
    else if n < |tape.stops| then (At(tape, n), GotRow)
    else (Ended, EndOf(tape))
  }

  function EndOf(tape: Tape): Fetched { if tape.failed then Broken else NoMore }

  /** A column value; `Beyond` is a read past the end of an empty chunk. */
  datatype Column = Missing | Beyond | Value(v: Php)

  function FlatGetCol(lib: Lib, v: View, columns: nat, colno: int): Column {
    if colno < 0 || colno >= columns || !v.At? || v.pos >= |v.tape.stops| then Missing
    else match v.tape.stops[v.pos]
      case None => Beyond
      case Some(row) =>
        if HasColumn(v.tape.types, row, colno) then Value(ToPhp(lib, v.tape.types[colno], row[colno])) else Beyond
  }

  /** How many stops, and how many rows, the first `n` chunks make. */
  function StopCount(chunks: seq<seq<Row>>, n: nat): nat
    requires n <= |chunks|
  {
    if n == 0 then 0 else StopCount(chunks, n - 1) + if chunks[n - 1] == [] then 1 else |chunks[n - 1]|
  }

  function RowCount(chunks: seq<seq<Row>>, n: nat): nat
    requires n <= |chunks|
  {
    if n == 0 then 0 else RowCount(chunks, n - 1) + |chunks[n - 1]|
  }

  lemma {:induction false} CountsOfPrefix(chunks: seq<seq<Row>>, m: nat, n: nat)
    requires n <= m <= |chunks|
    ensures StopCount(chunks[..m], n) == StopCount(chunks, n) && RowCount(chunks[..m], n) == RowCount(chunks, n)
  {
    if n > 0 {
      CountsOfPrefix(chunks, m, n - 1);
    }
  }

  lemma {:induction false} Counts(chunks: seq<seq<Row>>)
    ensures |Stops(chunks)| == StopCount(chunks, |chunks|) && |Concat(chunks)| == RowCount(chunks, |chunks|)
  {
    if chunks != [] {
      var n := |chunks| - 1;
      Counts(chunks[..n]);
      CountsOfPrefix(chunks, n, n);
    }
  }

  /** Stop `i` of chunk `n`. */
  lemma {:induction false} StopAt(chunks: seq<seq<Row>>, n: nat, i: nat)
    requires n < |chunks| && (i < |chunks[n]| || i == 0)
    ensures StopCount(chunks, n) + i < |Stops(chunks)|
    ensures Stops(chunks)[StopCount(chunks, n) + i] == if chunks[n] == [] then None else Some(chunks[n][i])
    decreases |chunks|
  {
    var init := chunks[..|chunks| - 1];
    Counts(init);
    hide StopCount;
    if n < |init| {
      StopAt(init, n, i);
      CountsOfPrefix(chunks, |init|, n);
    } else {
      CountsOfPrefix(chunks, n, n);
    }
  }

  lemma {:induction false} SameCounts(chunks: seq<seq<Row>>, n: nat)
    requires n <= |chunks| && NoEmptyChunk(chunks)
    ensures StopCount(chunks, n) == RowCount(chunks, n)
  {
    if n > 0 {
      SameCounts(chunks, n - 1);
    }
  }

  /** The cursor stops at exactly the rows of the result when, and only when, no chunk
      is empty; so two ways to cut the same rows into chunks look the same. */
  lemma {:induction false} StopsAreRows(chunks: seq<seq<Row>>)
    ensures Stops(chunks) == Somes(Concat(chunks)) <==> NoEmptyChunk(chunks)
    ensures |Stops(chunks)| >= |Concat(chunks)|
    ensures |Stops(chunks)| == |Concat(chunks)| <==> NoEmptyChunk(chunks)
  {
    if chunks != [] {
      var init, last := chunks[..|chunks| - 1], chunks[|chunks| - 1];
      StopsAreRows(init);
      assert NoEmptyChunk(chunks) <==> NoEmptyChunk(init) && last != [] by {
        assert forall c :: 0 <= c < |init| ==> init[c] == chunks[c];
      }
      if NoEmptyChunk(chunks) {
        assert Somes(Concat(chunks)) == Somes(Concat(init)) + Somes(last);
      }
    }
  }

  /** The state after the first `n` fetches, each refused its chunk call or not. */
  function FlatFetches(v: View, rs: seq<bool>, n: nat): View
    requires n <= |rs|
  {
    if n == 0 then v else FlatFetch(FlatFetches(v, rs, n - 1), rs[n - 1]).0
  }

  /** One of the first `n` fetches asked for a chunk and was refused it. */
  predicate Cut(tape: Tape, rs: seq<bool>, n: nat)
    requires n <= |rs|
  {
    exists k :: 0 <= k < n && rs[k] && k in tape.calls
  }

  lemma {:induction false} CutStep(tape: Tape, rs: seq<bool>, n: nat)
    requires n < |rs|
    ensures Cut(tape, rs, n + 1) <==> Cut(tape, rs, n) || (rs[n] && n in tape.calls)
  {
    if Cut(tape, rs, n) {
      var k :| 0 <= k < n && rs[k] && k in tape.calls;
      assert rs[k] && k in tape.calls && k < n + 1;
    }
  }

  /** Fetch n stops at stop n, and as many succeed as there are stops, if and only if no
      chunk call was refused; the fetch after the last stop ends with the error, unless
      refused, and all other fetches fail quietly. */
  lemma {:induction false} FetchesWalkTheTape(tape: Tape, rs: seq<bool>, n: nat)
    requires n < |rs|
    ensures FlatFetches(Before(tape), rs, n + 1) ==
            if n < |tape.stops| && !Cut(tape, rs, n + 1) then At(tape, n) else Ended
    ensures FlatFetch(FlatFetches(Before(tape), rs, n), rs[n]).1 ==
            if n > |tape.stops| || Cut(tape, rs, n + 1) then NoMore
            else if n < |tape.stops| then GotRow
            else if tape.failed then Broken
            else NoMore
  {
    CutStep(tape, rs, n);
    if n > 0 {
      FetchesWalkTheTape(tape, rs, n - 1);
    }
  }

  /** Where moving on to chunk `n` leads. */
  function Entering(data: ResultData, n: nat, refused: bool): (View, Fetched)
    requires n <= |data.chunks|
  {
    if refused && Asks(data, n) then (Ended, NoMore)
    else if n < |data.chunks| then (At(TapeOf(data), StopCount(data.chunks, n)), GotRow)
    else (Ended, EndOf(TapeOf(data)))
  }

  /** Chunks take up one stop at least. */
  lemma {:induction false} StopsGrow(chunks: seq<seq<Row>>, m: nat, n: nat)
    requires m < n <= |chunks|
    ensures StopCount(chunks, m) + |chunks[m]| <= StopCount(chunks, n) && StopCount(chunks, m) < StopCount(chunks, n)
  {
    if m < n - 1 {
      StopsGrow(chunks, m, n - 1);
    }
  }

  /** DuckDB is asked on the way to the first stop of a chunk, or past the last chunk, and
      nowhere else. */
  lemma {:induction false} CallsAreBetweenChunks(data: ResultData, n: nat, i: nat)
    requires n < |data.chunks| ==> i < |data.chunks[n]| || i == 0
    requires n <= |data.chunks| && (n == |data.chunks| ==> i == 0)
    ensures StopCount(data.chunks, n) + i in TapeOf(data).calls <==> i == 0 && (n < |data.chunks| || data.streaming)
  {
    forall m | 0 <= m <= |data.chunks| && StopCount(data.chunks, m) == StopCount(data.chunks, n) + i
      ensures m == n && i == 0
    {
      if m < n {
        StopsGrow(data.chunks, m, n);
      } else if n < m {
        StopsGrow(data.chunks, n, m);
      }
    }
  }

  /** From the last stop of the chunk before, the flat cursor moves to the same place. */
  lemma {:induction false} NextStop(data: ResultData, n: nat, v: View, refused: bool)
    requires n <= |data.chunks|
    requires
      || (v == Before(TapeOf(data)) && n == 0)
      || (v.At? && v.tape == TapeOf(data) && v.pos + 1 == StopCount(data.chunks, n))
    ensures FlatFetch(v, refused) == Entering(data, n, refused)
  {
    CallsAreBetweenChunks(data, n, 0);
    if n < |data.chunks| {
      StopAt(data.chunks, n, 0);
    } else {
      Counts(data.chunks);
    }
  }

  /** Inside a chunk the flat cursor moves on by one, whatever is refused. */
  lemma {:induction false} SameChunk(data: ResultData, n: nat, i: nat, refused: bool)
    requires n < |data.chunks| && 0 < i < |data.chunks[n]|
    ensures var pos := StopCount(data.chunks, n) + i;
            FlatFetch(At(TapeOf(data), pos - 1), refused) == (At(TapeOf(data), pos), GotRow)
  {
    StopAt(data.chunks, n, i);
    CallsAreBetweenChunks(data, n, i);
  }

  function ColumnOf(types: seq<LType>, rows: seq<Row>, c: nat): (xs: seq<Val>)
    requires c < |types| && AreRows(types, rows)
    ensures |xs| == |rows| && AllHaveType(types[c], xs)
    ensures forall i :: 0 <= i < |rows| ==> xs[i] == rows[i][c]
  {
    assert forall i :: 0 <= i < |rows| ==> HasColumn(types, rows[i], c);
    seq(|rows|, i requires 0 <= i < |rows| => rows[i][c])
  }

  function VectorOf(types: seq<LType>, rows: seq<Row>, c: nat): Vec
    requires c < |types| && AreRows(types, rows)
  {
    RoundTrip.Shred(types[c], ColumnOf(types, rows, c))
  }

  lemma {:induction false} VectorHolds(types: seq<LType>, rows: seq<Row>, c: nat)
    requires c < |types| && AreRows(types, rows)
    ensures forall i :: 0 <= i < |rows| ==>
              && Readable(types[c], VectorOf(types, rows, c), i)
              && Read(types[c], VectorOf(types, rows, c), i) == rows[i][c]
  {
    var xs, v := ColumnOf(types, rows, c), VectorOf(types, rows, c);
    forall i | 0 <= i < |rows| ensures Readable(types[c], v, i) && Read(types[c], v, i) == rows[i][c] {
      RoundTrip.ReadShredded(types[c], xs, i);
    }
  }

  // ---------------------------------------------------------------- DuckDB's side

  /** The results and chunks DuckDB keeps for one statement. A handle is made once, is
      live until it is released, and only a live handle can be released. */
  class DuckDb {
    var results: map<nat, ResultData>
    var chunks: map<nat, seq<Row>>
    var served: nat
    var next: nat
    var erred: bool  // the result reports an error
    ghost var made: set<nat>
    ghost var released: set<nat>

    ghost predicate Valid()
      reads this
    {
      && results.Keys !! chunks.Keys && (results.Keys + chunks.Keys) !! released
      && results.Keys + chunks.Keys + released == made
      && forall h :: h in made ==> h < next
    }

    constructor ()
      ensures Valid() && results == map[] && chunks == map[] && made == {}
    {
      results, chunks, served, next, erred, made, released := map[], map[], 0, 0, false, {}, {};
    }

    /** Executing makes a result, to be released even when it only holds an error. */
    method ExecutePrepared(outcome: Outcome) returns (h: nat)
      requires Valid() && results == map[] && !outcome.Refused?
      modifies `results, `served, `next, `erred, `made
      ensures Valid() && served == 0 && erred == outcome.Failure?
      ensures results == map[h := if outcome.Success? then outcome.data else ResultData([], [], false, true)]
    {
      h := next;
      results := map[h := if outcome.Success? then outcome.data else ResultData([], [], false, true)];
      served, erred := 0, outcome.Failure?;
      next, made := next + 1, made + {h};
    }

    method NewChunk(rows: seq<Row>) returns (c: nat)
      requires Valid() && chunks == map[]
      modifies `chunks, `next, `made
      ensures Valid() && chunks == map[c := rows]
    {
      c := next;
      chunks := map[c := rows];
      next, made := next + 1, made + {c};
    }

    method FetchChunk(h: nat) returns (c: Option<nat>)
      requires Valid() && h in results && chunks == map[] && served <= |results[h].chunks|
      modifies `chunks, `next, `made, `served, `erred
      ensures Valid()
      ensures old(served) < |results[h].chunks| ==>
                && c.Some? && served == old(served) + 1 && chunks == map[c.value := results[h].chunks[old(served)]]
                && erred == old(erred)
      ensures old(served) == |results[h].chunks| ==>
                c == None && served == old(served) && chunks == map[] && erred == results[h].failed
    {
      if served < |results[h].chunks| {
        var n := NewChunk(results[h].chunks[served]);
        served := served + 1;
        c := Some(n);
      } else {
        c := None;
        erred := results[h].failed;
      }
    }

    method ResultGetChunk(h: nat, i: nat) returns (c: Option<nat>)
      requires Valid() && h in results && i < |results[h].chunks| && chunks == map[]
      modifies `chunks, `next, `made
      ensures Valid() && c.Some? && chunks == map[c.value := results[h].chunks[i]]
    {
      var n := NewChunk(results[h].chunks[i]);
      c := Some(n);
    }

    /** The vector of a column of a chunk, whatever its form. */
    method GetVector(c: nat, types: seq<LType>, colno: nat) returns (v: Vec)
      requires c in chunks && colno < |types| && AreRows(types, chunks[c])
      ensures forall i :: 0 <= i < |chunks[c]| ==>
                Readable(types[colno], v, i) && Read(types[colno], v, i) == chunks[c][i][colno]
    {
      v := VectorOf(types, chunks[c], colno);
      VectorHolds(types, chunks[c], colno);
    }

    method DestroyResult(h: nat)
      requires Valid() && h in results
      modifies `results, `released
      ensures Valid() && results == old(results) - {h} && released == old(released) + {h}
    {
      results := results - {h};
      released := released + {h};
    }

    method DestroyDataChunk(c: nat)
      requires Valid() && c in chunks
      modifies `chunks, `released
      ensures Valid() && chunks == old(chunks) - {c} && released == old(released) + {c}
    {
      chunks := chunks - {c};
      released := released + {c};
    }
  }

  // ---------------------------------------------------------------- the statement

  class Statement {
    const lib: Lib
    const db: DuckDb
    var result: nat
    var chunk: Option<nat>
    var chunkIdx: nat
    var chunkSize: nat
    var done: bool
    var resultSet: bool
    var isStreaming: bool
    var nextChunkIndex: nat
    var totalRows: nat
    var columnCount: nat
    ghost var data: ResultData  // the current result, when there is one

    /** How many chunks of the result have been loaded. */
    ghost function Loaded(): nat
      reads `isStreaming, `nextChunkIndex, db`served
    {
      if isStreaming then db.served else nextChunkIndex
    }

    /** The live handles are exactly the current result and the chunk last loaded. */
    ghost predicate Owns()
      reads `chunk, `result, `resultSet, `isStreaming, `nextChunkIndex, `columnCount, `data, db
    {
      && db.Valid()
      && db.results == (if resultSet then map[result := data] else map[])
      && (chunk.Some? ==> resultSet && 0 < Loaded() <= |data.chunks|)
      && db.chunks == (if chunk.Some? then map[chunk.value := data.chunks[Loaded() - 1]] else map[])
      && (resultSet ==>
            && data.Valid() && isStreaming == data.streaming && columnCount == |data.types|
            && db.served <= |data.chunks| && Loaded() <= |data.chunks|)
    }

    /** The cursor stands before the first chunk or inside the one last loaded. */
    ghost predicate Standing()
      reads this, db
    {
      && (chunk.Some? ==> !done)
      && (resultSet && !done ==> !db.erred)
      && (resultSet && data.types == [] ==> done)
      && (resultSet && chunk.None? && !done ==> Loaded() == 0 && totalRows == 0 && chunkIdx == 0)
      && (chunk.Some? && 0 < Loaded() <= |data.chunks| ==>
            && chunkSize == |data.chunks[Loaded() - 1]|
            && (chunkIdx < chunkSize || chunkIdx == 0)
            && totalRows == RowCount(data.chunks, Loaded() - 1))
    }

    ghost predicate Valid()
      reads this, db
    {
      Owns() && Standing()
    }

    ghost function View(): View
      requires Valid()
      reads this, db
    {
      if !resultSet then Closed
      else if done then Ended
      else if chunk.None? then Before(TapeOf(data))
      else At(TapeOf(data), StopCount(data.chunks, Loaded() - 1) + chunkIdx)
    }

    constructor (lib: Lib)
      ensures Valid() && fresh(db) && View() == Closed && columnCount == 0 && this.lib == lib
    {
      this.lib := lib;
      db := new DuckDb();
      result, chunk, chunkIdx, chunkSize, done := 0, None, 0, 0, false;
      resultSet, isStreaming, nextChunkIndex, totalRows, columnCount := false, false, 0, 0, 0;
    }

    /** Releases what an earlier execute left, the result before the chunk. */
    method Release()
      requires Owns()
      modifies `resultSet, `chunk, db
      ensures Owns() && !resultSet && chunk == None
    {
      if resultSet {
        db.DestroyResult(result);
        resultSet := false;
      }
      if chunk.Some? {
        db.DestroyDataChunk(chunk.value);
        chunk := None;
      }
    }

    method Execute(outcome: Outcome) returns (ok: bool)
      requires Valid() && (outcome.Success? ==> outcome.data.Valid())
      modifies this, db
      ensures Valid() && ok == outcome.Success?
      ensures View() == FlatExecute(outcome)
      ensures columnCount == if ok then |outcome.data.types| else old(columnCount)
    {
      Release();
      if outcome.Refused? {
        return false;  // destroying the result that was never made releases nothing
      }
      result := db.ExecutePrepared(outcome);
      if outcome.Failure? {
        db.DestroyResult(result);
        return false;
      }
      Begin(outcome.data);
      return true;
    }

    /** Clears what an earlier result left in the fields. */
    method Reset(made: ResultData)
      modifies `data, `resultSet, `done, `isStreaming, `nextChunkIndex, `chunk, `chunkIdx, `chunkSize, `totalRows
      ensures data == made && resultSet && !done && isStreaming == made.streaming && chunk == None
      ensures nextChunkIndex == chunkIdx == chunkSize == totalRows == 0
    {
      data := made;
      resultSet := true;
      done := false;
      isStreaming := made.streaming;
      nextChunkIndex := 0;
      chunk := None;
      chunkIdx := 0;
      chunkSize := 0;
      totalRows := 0;
    }

    /** Sets the cursor before the first row of the result just made. */
    method Begin(made: ResultData)
      requires db.Valid() && db.results == map[result := made] && db.chunks == map[] && db.served == 0 && !db.erred
      requires made.Valid()
      modifies this
      ensures Valid() && View() == FlatExecute(Success(made)) && columnCount == |made.types|
    {
      Reset(made);
      columnCount := |made.types|;
      if columnCount == 0 {
        done := true;
      }
    }

    /** Asks DuckDB for the next chunk; `refused` says whether the thread pool would not
        run the call. */
    method LoadChunk(refused: bool)
      requires Owns() && resultSet && chunk == None
      modifies `chunk, `nextChunkIndex, db`chunks, db`next, db`made, db`served, db`erred
      ensures Owns()
      ensures if old(Loaded()) < |data.chunks| && !refused
              then chunk.Some? && Loaded() == old(Loaded()) + 1
                   && chunk.value in db.chunks && db.chunks[chunk.value] == data.chunks[old(Loaded())]
              else chunk == None
      ensures db.erred == if isStreaming && !refused && chunk == None then data.failed else old(db.erred)
    {
      if isStreaming {
        if refused {
          chunk := None;
        } else {
          chunk := db.FetchChunk(result);
        }
      } else if nextChunkIndex >= |db.results[result].chunks| {
        chunk := None;
      } else {
        nextChunkIndex := nextChunkIndex + 1;
        if refused {
          chunk := None;
        } else {
          chunk := db.ResultGetChunk(result, nextChunkIndex - 1);
        }
      }
    }

    /** Gives back the chunk that is used up and counts its rows. */
    method LetGo()
      requires Owns() && chunk.Some? && chunkSize == |data.chunks[Loaded() - 1]|
      requires totalRows == RowCount(data.chunks, Loaded() - 1)
      modifies `chunk, `totalRows, db`chunks, db`released
      ensures Owns() && chunk == None && totalRows == RowCount(data.chunks, Loaded())
    {
      totalRows := totalRows + chunkSize;
      db.DestroyDataChunk(chunk.value);
      chunk := None;
    }

    /** There is no chunk left: report the error, if there is one. */
    method End() returns (r: Fetched)
      modifies `chunkSize, `chunkIdx, `done
      ensures done && chunkSize == chunkIdx == 0 && r == if db.erred then Broken else NoMore
    {
      r := if db.erred then Broken else NoMore;
      chunkSize := 0;
      chunkIdx := 0;
      done := true;
    }

    /** The chunk is used up: put the next one in its place, or end. */
    method NextChunk(refused: bool) returns (r: Fetched)
      requires Owns() && resultSet && !done && data.types != [] && !db.erred
      requires chunk.None? ==> Loaded() == 0 && totalRows == 0
      requires chunk.Some? ==> chunkSize == |data.chunks[Loaded() - 1]|
      requires chunk.Some? ==> totalRows == RowCount(data.chunks, Loaded() - 1)
      modifies `chunk, `nextChunkIndex, `chunkIdx, `chunkSize, `done, `totalRows, db
      ensures Valid()
      ensures (View(), r) == Entering(data, old(Loaded()), refused)
    {
      hide Stops, StopCount, AreRows, DuckDb.Valid;
      if chunk.Some? {
        LetGo();
      }
      LoadChunk(refused);
      if chunk.None? {
        r := End();
        return;
      }
      chunkSize := |db.chunks[chunk.value]|;
      chunkIdx := 0;
      r := GotRow;
    }

    method Fetch(refused: bool) returns (r: Fetched)
      requires Valid()
      modifies `chunk, `nextChunkIndex, `chunkIdx, `chunkSize, `done, `totalRows, db
      ensures Valid()
      ensures (View(), r) == FlatFetch(old(View()), refused)
    {
      if !resultSet || done {
        return NoMore;
      }
      hide Stops, StopCount, AreRows, DuckDb.Valid;
      ghost var before := View();
      chunkIdx := chunkIdx + 1;
      if chunk.None? || chunkIdx >= chunkSize {
        NextStop(data, Loaded(), before, refused);
        r := NextChunk(refused);
      } else {
        r := GotRow;
        SameChunk(data, Loaded() - 1, chunkIdx, refused);
        assert View() == At(before.tape, before.pos + 1);
      }
    }

    /** On a result without empty chunks, the position is the index of the row. */
    lemma RowIndex()
      requires Valid() && View().At? && NoEmptyChunk(data.chunks)
      ensures totalRows + chunkIdx == View().pos < |Concat(data.chunks)|
    {
      var chunks := data.chunks;
      SameCounts(chunks, Loaded() - 1);
      StopAt(chunks, Loaded() - 1, chunkIdx);
      StopsAreRows(chunks);
    }

    /** With a chunk loaded the flat cursor stands on its row, or on no row if it is empty. */
    lemma OnRow()
      requires Valid() && chunk.Some?
      ensures chunk.value in db.chunks && AreRows(data.types, db.chunks[chunk.value])
      ensures var rows := db.chunks[chunk.value];
              && (chunkIdx < |rows| || rows == [])
              && View().At? && View().tape == TapeOf(data) && View().pos < |TapeOf(data).stops|
              && TapeOf(data).stops[View().pos] == if chunkIdx < |rows| then Some(rows[chunkIdx]) else None
    {
      hide RowCount, IsRow, DuckDb.Valid;
      StopAt(data.chunks, Loaded() - 1, chunkIdx);
    }

    method GetCol(colno: int) returns (r: Column)
      requires Valid()
      ensures r == FlatGetCol(lib, View(), columnCount, colno)
    {
      if colno < 0 || colno >= columnCount || chunk.None? {
        return Missing;
      }
      OnRow();
      var rows, types := db.chunks[chunk.value], db.results[result].types;
      hide View, Stops, StopCount, RowCount, HasType, Readable, Read, ToPhp;
      var vec := db.GetVector(chunk.value, types, colno);
      if chunkIdx >= |rows| {
        return Beyond;
      }
      var v := ValFromVector(lib, types[colno], vec, chunkIdx);
      assert HasColumn(types, rows[chunkIdx], colno);
      return Value(v);
    }

    method CloseCursor()
      requires Valid()
      modifies this, db
      ensures Valid() && View() == Closed && columnCount == 0
    {
      if chunk.Some? {
        db.DestroyDataChunk(chunk.value);
        chunk := None;
      }
      if resultSet {
        db.DestroyResult(result);
        resultSet := false;
      }
      columnCount := 0;
    }

    /** After the statement is destroyed no handle it ever made is live: each was
        released, once, since only a live handle can be. */
    method Destroy()
      requires Valid()
      modifies this, db
      ensures db.results == map[] && db.chunks == map[]
      ensures db.released == db.made
    {
      if chunk.Some? {
        db.DestroyDataChunk(chunk.value);
        chunk := None;
      }
      if resultSet {
        db.DestroyResult(result);
        resultSet := false;
      }
    }
  }

  // ---------------------------------------------------------------- whole runs

  datatype Op = Execute(outcome: Outcome) | Fetch(refused: bool) | GetCol(colno: int) | CloseCursor

  datatype Seen = Executed(ok: bool) | FetchedRow(r: Fetched) | GotColumn(c: Column) | ClosedCursor

  /** All a run depends on: the flat view and the column count. */
  datatype Flat = Flat(view: View, columns: nat)

  function FlatStep(lib: Lib, s: Flat, op: Op): (Flat, Seen) {
    match op
    case Execute(outcome) =>
      (Flat(FlatExecute(outcome), if outcome.Success? then |outcome.data.types| else s.columns),
       Executed(outcome.Success?))
    case Fetch(refused) => var (v, r) := FlatFetch(s.view, refused); (Flat(v, s.columns), FetchedRow(r))
    case GetCol(colno) => (s, GotColumn(FlatGetCol(lib, s.view, s.columns, colno)))
    case CloseCursor => (Flat(Closed, 0), ClosedCursor)
  }

  function FlatRun(lib: Lib, ops: seq<Op>): (Flat, seq<Seen>) {
    if ops == [] then (Flat(Closed, 0), []) else
      var (s, seen) := FlatRun(lib, ops[..|ops| - 1]);
      var (s', o) := FlatStep(lib, s, ops[|ops| - 1]);
      (s', seen + [o])
  }

  predicate ValidOps(ops: seq<Op>) {
    forall i :: 0 <= i < |ops| ==> ops[i].Execute? && ops[i].outcome.Success? ==> ops[i].outcome.data.Valid()
  }

  /** One call does and shows what it does and shows on the flat rows. */
  method Call(s: Statement, op: Op) returns (o: Seen)
    requires s.Valid() && (op.Execute? && op.outcome.Success? ==> op.outcome.data.Valid())
    modifies s, s.db
    ensures s.Valid()
    ensures (Flat(s.View(), s.columnCount), o) == FlatStep(s.lib, old(Flat(s.View(), s.columnCount)), op)
  {
    hide TapeOf, FlatFetch, FlatGetCol, FlatExecute, ResultData.Valid, DuckDb.Valid;
    match op {
      case Execute(outcome) =>
        var ok := s.Execute(outcome);
        o := Executed(ok);
      case Fetch(refused) =>
        var r := s.Fetch(refused);
        o := FetchedRow(r);
      case GetCol(colno) =>
        var c := s.GetCol(colno);
        o := GotColumn(c);
      case CloseCursor =>
        s.CloseCursor();
        o := ClosedCursor;
    }
  }

  /** Any life of a statement shows exactly what the flat rows show, and ends with every
      handle released that was ever made. */
  method Live(lib: Lib, ops: seq<Op>) returns (seen: seq<Seen>, s: Statement)
    requires ValidOps(ops)
    ensures seen == FlatRun(lib, ops).1
    ensures s.db.results == map[] && s.db.chunks == map[] && s.db.released == s.db.made
  {
    s := new Statement(lib);
    seen := [];
    for i := 0 to |ops|
      invariant s.Valid() && fresh(s) && fresh(s.db) && s.lib == lib
      invariant FlatRun(lib, ops[..i]) == (Flat(s.View(), s.columnCount), seen)
    {
      hide FlatRun, FlatStep;
      assert ops[..i + 1] == ops[..i] + [ops[i]];
      OneOpMore(lib, ops[..i], ops[i]);
      var o := Call(s, ops[i]);
      seen := seen + [o];
    }
    assert ops[..|ops|] == ops;
    s.Destroy();
  }

  /** The last execute of a run, if any. */
  function LastOutcome(ops: seq<Op>): Option<Outcome> {
    if ops == [] then None
    else if ops[|ops| - 1].Execute? then Some(ops[|ops| - 1].outcome)
    else LastOutcome(ops[..|ops| - 1])
  }

  /** Only rows of the latest execute are ever in view, and only when it succeeded. */
  lemma {:induction false} OnlyTheLatestResult(lib: Lib, ops: seq<Op>)
    ensures var v := FlatRun(lib, ops).0.view;
            v.Before? || v.At? ==>
              && LastOutcome(ops).Some? && LastOutcome(ops).value.Success?
              && v.tape == TapeOf(LastOutcome(ops).value.data)
  {
    if ops != [] {
      OnlyTheLatestResult(lib, ops[..|ops| - 1]);
    }
  }

  // ---------------------------------------------------------------- what a run shows

  /** What the latest execute or close leaves to fetch, with the fetches since. */
  datatype Left = Nothing | Rows(data: ResultData, rs: seq<bool>)

  function LeftThen(left: Left, op: Op): Left {
    match op
    case Execute(outcome) =>
      if outcome.Success? && outcome.data.types != [] then Rows(outcome.data, []) else Nothing
    case CloseCursor => Nothing
    case GetCol(_) => left
    case Fetch(refused) => if left.Rows? then Rows(left.data, left.rs + [refused]) else Nothing
  }

  function LeftBy(ops: seq<Op>): Left {
    if ops == [] then Nothing else LeftThen(LeftBy(ops[..|ops| - 1]), ops[|ops| - 1])
  }

  lemma {:induction false} SameFetches(v: View, tape: Tape, rs: seq<bool>, refused: bool, n: nat)
    requires n <= |rs|
    ensures FlatFetches(v, rs + [refused], n) == FlatFetches(v, rs, n)
    ensures Cut(tape, rs + [refused], n) <==> Cut(tape, rs, n)
  {
    if n > 0 {
      SameFetches(v, tape, rs, refused, n - 1);
      CutStep(tape, rs, n - 1);
      CutStep(tape, rs + [refused], n - 1);
    }
  }

  ghost predicate ViewIs(left: Left, s: Flat) {
    match left
    case Nothing => s.view == Closed || s.view == Ended
    case Rows(data, rs) =>
      data.types != [] && s == Flat(FlatFetches(Before(TapeOf(data)), rs, |rs|), |data.types|)
  }

  lemma {:induction false} ViewThen(lib: Lib, left: Left, s: Flat, op: Op)
    requires ViewIs(left, s)
    ensures ViewIs(LeftThen(left, op), FlatStep(lib, s, op).0)
  {
    if op.Fetch? && left.Rows? {
      OneFetchOn(Before(TapeOf(left.data)), left.rs, op.refused);
    }
    assert forall v: View :: FlatFetches(v, [], 0) == v;
    EndsStay();
    hide Stops, TapeOf, FlatFetches, FlatFetch;
  }

  lemma {:induction false} ViewOfRun(lib: Lib, ops: seq<Op>)
    ensures ViewIs(LeftBy(ops), FlatRun(lib, ops).0)
  {
    if ops != [] {
      var init, op := ops[..|ops| - 1], ops[|ops| - 1];
      ViewOfRun(lib, init);
      OneOpMore(lib, init, op);
      assert init + [op] == ops;
      ViewThen(lib, LeftBy(init), FlatRun(lib, init).0, op);
      hide ViewIs, FlatRun, FlatStep, LeftThen;
    }
  }

  lemma {:induction false} EndsStay()
    ensures forall r: bool :: FlatFetch(Closed, r) == (Closed, NoMore) && FlatFetch(Ended, r) == (Ended, NoMore)
  {
  }

  lemma {:induction false} OneFetchOn(v: View, rs: seq<bool>, refused: bool)
    ensures FlatFetches(v, rs + [refused], |rs| + 1) == FlatFetch(FlatFetches(v, rs, |rs|), refused).0
  {
    SameFetches(v, Tape([], [], false, {}), rs, refused, |rs|);
  }

  /** What a fetch finds after the fetches `rs` of a result. */
  function FetchAfter(data: ResultData, rs: seq<bool>, refused: bool): Fetched {
    var n := |rs|;
    if n > |Stops(data.chunks)| || Cut(TapeOf(data), rs + [refused], n + 1) then NoMore
    else if n < |Stops(data.chunks)| then GotRow
    else if data.failed then Broken
    else NoMore
  }

  /** The column of the row the last of the fetches `rs` found. */
  function ColumnAfter(lib: Lib, data: ResultData, rs: seq<bool>, colno: int): Column {
    var n := |rs|;
    if n == 0 || n > |Stops(data.chunks)| || Cut(TapeOf(data), rs, n) || colno < 0 || colno >= |data.types| then Missing
    else match Stops(data.chunks)[n - 1]
      case None => Beyond
      case Some(row) =>
        if HasColumn(data.types, row, colno) then Value(ToPhp(lib, data.types[colno], row[colno])) else Beyond
  }

  lemma {:induction false} FetchAfterFetches(data: ResultData, rs: seq<bool>, refused: bool)
    ensures FlatFetch(FlatFetches(Before(TapeOf(data)), rs, |rs|), refused).1 == FetchAfter(data, rs, refused)
  {
    SameFetches(Before(TapeOf(data)), TapeOf(data), rs, refused, |rs|);
    FetchesWalkTheTape(TapeOf(data), rs + [refused], |rs|);
    hide FlatFetches, FlatFetch, Cut;
  }

  lemma {:induction false} ColumnAfterFetches(lib: Lib, data: ResultData, rs: seq<bool>, colno: int)
    ensures FlatGetCol(lib, FlatFetches(Before(TapeOf(data)), rs, |rs|), |data.types|, colno)
         == ColumnAfter(lib, data, rs, colno)
  {
    if rs != [] {
      FetchesWalkTheTape(TapeOf(data), rs, |rs| - 1);
      hide FlatFetches, Cut;
    }
  }

  /** After any run, what the next call shows. With nothing left a fetch finds no row and there
      is no column. With rows left, after n fetches since, the next one finds a row while there
      is one and no chunk call has been refused; right past the last row it reports the error,
      if the result has one. A column is that of row n, if that was found. */
  lemma {:induction false} RunShows(lib: Lib, ops: seq<Op>, refused: bool, colno: int)
    ensures var s := FlatRun(lib, ops).0;
            var (fetched, column) := (FlatStep(lib, s, Fetch(refused)).1, FlatStep(lib, s, GetCol(colno)).1);
            match LeftBy(ops)
            case Nothing => fetched == FetchedRow(NoMore) && column == GotColumn(Missing)
            case Rows(data, rs) =>
              && fetched == FetchedRow(FetchAfter(data, rs, refused))
              && column == GotColumn(ColumnAfter(lib, data, rs, colno))
  {
    ViewOfRun(lib, ops);
    match LeftBy(ops) {
      case Nothing => EndsStay();
      case Rows(data, rs) =>
        hide FlatRun, FlatFetches, FlatFetch, FlatGetCol, FetchAfter, ColumnAfter;
        FetchAfterFetches(data, rs, refused);
        ColumnAfterFetches(lib, data, rs, colno);
    }
  }

  // ---------------------------------------------------------------- chunks do not show

  /** The same rows, whatever the chunks and whether they are streamed. */
  ghost predicate SameRows(a: ResultData, b: ResultData) {
    && NoEmptyChunk(a.chunks) && NoEmptyChunk(b.chunks) && Concat(a.chunks) == Concat(b.chunks)
    && a.types == b.types && a.failed == b.failed
  }

  ghost predicate SameOp(a: Op, b: Op) {
    || (a == b && (a.Fetch? ==> !a.refused))
    || (a.Execute? && b.Execute? && a.outcome.Success? && b.outcome.Success?
        && SameRows(a.outcome.data, b.outcome.data))
  }

  predicate SameView(v: View, w: View) {
    match (v, w)
    case (Before(s), Before(t)) => s.types == t.types && s.stops == t.stops && s.failed == t.failed
    case (At(s, m), At(t, n)) => s.types == t.types && s.stops == t.stops && s.failed == t.failed && m == n
    case _ => v == w
  }

  /** Two lives of a statement that differ only in how results are cut into chunks that are
      not empty, and in whether they are streamed, show the same, when no chunk call is
      refused. */
  lemma {:induction false} ChunkingIsInvisible(lib: Lib, a: seq<Op>, b: seq<Op>)
    requires |a| == |b| && forall i :: 0 <= i < |a| ==> SameOp(a[i], b[i])
    ensures FlatRun(lib, a).1 == FlatRun(lib, b).1
    ensures SameView(FlatRun(lib, a).0.view, FlatRun(lib, b).0.view)
    ensures FlatRun(lib, a).0.columns == FlatRun(lib, b).0.columns
  {
    if a != [] {
      var x, y := a[|a| - 1], b[|b| - 1];
      ChunkingIsInvisible(lib, a[..|a| - 1], b[..|b| - 1]);
      assert SameOp(x, y);
      SameStep(lib, FlatRun(lib, a[..|a| - 1]).0, FlatRun(lib, b[..|b| - 1]).0, x, y);
    }
  }

  lemma {:induction false} SameStep(lib: Lib, s: Flat, t: Flat, x: Op, y: Op)
    requires SameView(s.view, t.view) && s.columns == t.columns && SameOp(x, y)
    ensures var ((s', o), (t', p)) := (FlatStep(lib, s, x), FlatStep(lib, t, y));
            SameView(s'.view, t'.view) && s'.columns == t'.columns && o == p
  {
    if x.Execute? && x.outcome.Success? {
      StopsAreRows(x.outcome.data.chunks);
      StopsAreRows(y.outcome.data.chunks);
    }
  }

  /** An empty chunk costs a stop: the fetch succeeds, and there is no row to read. */
  lemma {:induction false} EmptyChunkIsSeen(lib: Lib, t: LType)
    ensures var data := ResultData([[]], [t], true, false);
            FlatRun(lib, [Execute(Success(data)), Fetch(false), GetCol(0)]).1
            == [Executed(true), FetchedRow(GotRow), GotColumn(Beyond)]
  {
    var data := ResultData([[]], [t], true, false);
    assert data.chunks[..0] == [] && Stops(data.chunks) == [None];
    OneOpMore(lib, [], Execute(Success(data)));
    OneOpMore(lib, [Execute(Success(data))], Fetch(false));
    OneOpMore(lib, [Execute(Success(data)), Fetch(false)], GetCol(0));
    assert [] + [Execute(Success(data))] == [Execute(Success(data))];
    assert [Execute(Success(data))] + [Fetch(false)] == [Execute(Success(data)), Fetch(false)];
    assert [Execute(Success(data)), Fetch(false)] + [GetCol(0)] == [Execute(Success(data)), Fetch(false), GetCol(0)];
  }

  /** A refused chunk call hides the rows still to come, and no error tells of it. */
  lemma {:induction false} RefusedIsTheEnd(lib: Lib, data: ResultData)
    requires data.types != [] && (data.chunks != [] || data.streaming)
    ensures FlatRun(lib, [Execute(Success(data)), Fetch(true), Fetch(false)]).1
         == [Executed(true), FetchedRow(NoMore), FetchedRow(NoMore)]
  {
    RefusedSteps(lib, data);
    EmptyRun(lib);
    hide *;
    var first, second, third := Execute(Success(data)), Fetch(true), Fetch(false);
    OneOpMore(lib, [], first);
    OneOpMore(lib, [first], second);
    OneOpMore(lib, [first, second], third);
    assert [] + [first] == [first] && [first] + [second] == [first, second];
    assert [first, second] + [third] == [first, second, third];
    assert [] + [Executed(true)] + [FetchedRow(NoMore)] + [FetchedRow(NoMore)]
        == [Executed(true), FetchedRow(NoMore), FetchedRow(NoMore)];
  }

  lemma {:induction false} EmptyRun(lib: Lib)
    ensures FlatRun(lib, []) == (Flat(Closed, 0), [])
  {
  }

  lemma {:induction false} RefusedSteps(lib: Lib, data: ResultData)
    requires data.types != [] && (data.chunks != [] || data.streaming)
    ensures var s := FlatStep(lib, Flat(Closed, 0), Execute(Success(data)));
            && s.1 == Executed(true)
            && FlatStep(lib, s.0, Fetch(true)) == (Flat(Ended, |data.types|), FetchedRow(NoMore))
    ensures FlatStep(lib, Flat(Ended, |data.types|), Fetch(false)) == (Flat(Ended, |data.types|), FetchedRow(NoMore))
  {
    RefusedAtOnce(data);
  }

  lemma {:induction false} RefusedAtOnce(data: ResultData)
    requires data.chunks != [] || data.streaming
    ensures FlatFetch(Before(TapeOf(data)), true) == FlatFetch(Ended, false) == (Ended, NoMore)
  {
    CallsAreBetweenChunks(data, 0, 0);
  }

  lemma {:induction false} OneOpMore(lib: Lib, ops: seq<Op>, op: Op)
    ensures var (s, o) := FlatStep(lib, FlatRun(lib, ops).0, op);
            FlatRun(lib, ops + [op]) == (s, FlatRun(lib, ops).1 + [o])
  {
    assert (ops + [op])[..|ops|] == ops;
  }

  // ---------------------------------------------------------------- rows of SQL values

  lemma {:induction false} RowsAreRows(chunks: seq<seq<Row>>, types: seq<LType>)
    requires forall c :: 0 <= c < |chunks| ==> AreRows(types, chunks[c])
    ensures AreRows(types, Concat(chunks))
  {
    if chunks != [] {
      RowsAreRows(chunks[..|chunks| - 1], types);
    }
  }

  function Fetches(data: ResultData, n: nat): seq<Op> {
    if n == 0 then [Execute(Success(data))] else Fetches(data, n - 1) + [Fetch(false)]
  }

  lemma {:induction false} OneFetchMore(lib: Lib, data: ResultData, n: nat)
    ensures FlatRun(lib, Fetches(data, 0)).0 == Flat(FlatExecute(Success(data)), |data.types|)
    ensures var s := FlatRun(lib, Fetches(data, n)).0;
            FlatRun(lib, Fetches(data, n + 1)).0 == Flat(FlatFetch(s.view, false).0, s.columns)
  {
    hide FlatFetch, TapeOf;
    OneOpMore(lib, [], Execute(Success(data)));
    assert [] + [Execute(Success(data))] == Fetches(data, 0) && FlatRun(lib, []) == (Flat(Closed, 0), []);
    OneOpMore(lib, Fetches(data, n), Fetch(false));
  }

  lemma {:induction false} FetchesStandAt(lib: Lib, data: ResultData, n: nat)
    requires data.types != [] && n < |Stops(data.chunks)|
    ensures FlatRun(lib, Fetches(data, n + 1)).0 == Flat(At(TapeOf(data), n), |data.types|)
  {
    FlatBegins(data);
    hide *;
    OneFetchMore(lib, data, n);
    NoRefusal(data, n);
    if n > 0 {
      FetchesStandAt(lib, data, n - 1);
    }
  }

  lemma {:induction false} FlatBegins(data: ResultData)
    requires data.types != []
    ensures FlatExecute(Success(data)) == Before(TapeOf(data))
  {
  }

  lemma {:induction false} NoRefusal(data: ResultData, n: nat)
    requires n < |Stops(data.chunks)|
    ensures var v := if n == 0 then Before(TapeOf(data)) else At(TapeOf(data), n - 1);
            FlatFetch(v, false) == (At(TapeOf(data), n), GotRow)
  {
  }

  /** From DuckDB's vectors to PHP: cut into chunks that are not empty, streamed or not, the
      table gives, after k + 1 fetches, in column `c`, a PHP value that reads as its value
      there. */
  lemma {:induction false} ColumnsArrive(lib: Lib, data: ResultData, k: nat, c: nat)
    requires data.Valid() && NoEmptyChunk(data.chunks) && k < |Concat(data.chunks)| && c < |data.types|
    ensures IsRow(data.types, Concat(data.chunks)[k]) && HasColumn(data.types, Concat(data.chunks)[k], c)
    ensures var v := ToPhp(lib, data.types[c], Concat(data.chunks)[k][c]);
            && FlatStep(lib, FlatRun(lib, Fetches(data, k + 1)).0, GetCol(c)).1 == GotColumn(Value(v))
            && ReadsAs(lib, v, data.types[c], Concat(data.chunks)[k][c])
  {
    RowsAreRows(data.chunks, data.types);
    StopsAreRows(data.chunks);
    FetchesStandAt(lib, data, k);
    assert HasColumn(data.types, Concat(data.chunks)[k], c);
    DecodedReads(lib, data.types[c], Concat(data.chunks)[k][c]);
  }
}
