/**
 The usage table with its unique index on `request_id`, the conversion of events to rows, and the
 batch insert that first drops duplicates within the batch.
 */
module UsageTable {
  import opened Basics
  import opened EventQueue

  /** A row without its generated id; a missing column reads as its default. */
  datatype Row = Row(
    userId: Json, apiKeyId: Json, logicalModelId: Json, channelId: Json, upstreamModel: Json,
    promptTokens: Json, completionTokens: Json, totalTokens: Json, cost: Json, status: Json,
    latencyMs: Json, requestId: Json, downgradedFeatures: Json)

  function GetOr(o: Object, column: Column, default: Json): Json {
    if Of(column) in o then o[Of(column)] else default
  }

  /** The two columns without which a row cannot be built. */
  predicate Convertible(o: Object) {
    Of(UserId) in o && Of(LogicalModelId) in o
  }

  function IdOf(o: Object): Json {
    Get(o, Of(RequestId))
  }

  /** `_to_usage_row`. */
  function ToRow(o: Object): Row {
    Row(GetOr(o, UserId, Null), GetOr(o, ApiKeyId, Null), GetOr(o, LogicalModelId, Null), GetOr(o, ChannelId, Null),
        GetOr(o, UpstreamModel, Null), GetOr(o, PromptTokens, Number(0)), GetOr(o, CompletionTokens, Number(0)),
        GetOr(o, TotalTokens, Number(0)), GetOr(o, CostPoints, Null), GetOr(o, Status, Text("error")),
        GetOr(o, LatencyMs, Null), GetOr(o, RequestId, Null), GetOr(o, DowngradedFeatures, Null))
  }

  function Cell(row: Row, column: Column): Json {
    match column
    case UserId => row.userId
    case ApiKeyId => row.apiKeyId
    case LogicalModelId => row.logicalModelId
    case ChannelId => row.channelId
    case UpstreamModel => row.upstreamModel
    case PromptTokens => row.promptTokens
    case CompletionTokens => row.completionTokens
    case TotalTokens => row.totalTokens
    case CostPoints => row.cost
    case Status => row.status
    case LatencyMs => row.latencyMs
    case RequestId => row.requestId
    case DowngradedFeatures => row.downgradedFeatures
  }

  /** Every column of a row holds what the event says under the column's own name, or its default. */
  lemma ColumnsMatchNames(o: Object, column: Column)
    ensures Of(column) in o ==> Cell(ToRow(o), column) == o[Of(column)]
    ensures Of(column) !in o ==>
              Cell(ToRow(o), column) == if column in {PromptTokens, CompletionTokens, TotalTokens} then Number(0)
                                        else if column == Status then Text("error") else Null
  {
    match column
    case _ =>
  }

  type Table = seq<Row>

  predicate HasId(table: Table, id: Json) {
    exists r <- table :: r.requestId == id
  }

  /** `ON CONFLICT DO NOTHING` for one row: null ids never collide. */
  function Insert(table: Table, row: Row): Table {
    if row.requestId != Null && HasId(table, row.requestId) then table else table + [row]
  }

  function InsertAll(table: Table, rows: seq<Row>): Table
    decreases |rows|
  {
    if rows == [] then table else InsertAll(Insert(table, rows[0]), rows[1..])
  }

  function RowsOf(records: seq<Object>): seq<Row> {
    if records == [] then [] else [ToRow(records[0])] + RowsOf(records[1..])
  }

  /** The records that survive the batch's own duplicate check, given the ids already seen. */
  function Distinct(records: seq<Object>, seen: set<Json>): seq<Object> {
    if records == [] then []
    else
      var id := IdOf(records[0]);
      if !Truthy(id) then [records[0]] + Distinct(records[1..], seen)
      else if id in seen then Distinct(records[1..], seen)
      else [records[0]] + Distinct(records[1..], seen + {id})
  }

  /** No two rows share an id other than null. */
  ghost predicate UniqueIds(table: Table) {
    forall i, j :: 0 <= i < j < |table| && table[i].requestId != Null ==> table[i].requestId != table[j].requestId
  }

  /** The rows of a batch, without duplicates; fails on the first record that lacks a required column. */
  method BuildRows(records: seq<Object>) returns (ok: bool, rows: seq<Row>)
    ensures ok <==> forall o <- Distinct(records, {}) :: Convertible(o)
    ensures ok ==> rows == RowsOf(Distinct(records, {}))
    ensures ok <==> forall o <- Distinct(records, {}) :: Of(UserId) in o && Of(LogicalModelId) in o
  {
    var seen: set<Json> := {};
    ghost var done: seq<Object> := [];
    rows := [];
    for i := 0 to |records|
      invariant Distinct(records, {}) == done + Distinct(records[i..], seen)
      invariant rows == RowsOf(done) && forall o <- done :: Convertible(o)
    {
      var record := records[i];
      var id := IdOf(record);
      assert records[i..][1..] == records[i + 1..];
      if Truthy(id) {
        if id in seen {
          continue;
        }
        seen := seen + {id};
      }
      Associate(done, record, Distinct(records[i + 1..], seen));
      if !Convertible(record) {
        assert record in Distinct(records, {});
        return false, [];
      }
      RowsOfAppend(done, record);
      done := done + [record];
      rows := rows + [ToRow(record)];
    }
    assert done + [] == done;
    return true, rows;
  }

  /** The usage table, written by whole batches. */
  class UsageStore {
    var table: Table

    constructor ()
      ensures table == []
    {
      table := [];
    }

    /**
     `_bulk_insert_usage` inside its transaction: a record without a required column fails the
     whole batch, and nothing is written.
     */
    method BulkInsert(records: seq<Object>) returns (ok: bool, written: nat)
      modifies this
      ensures ok <==> forall o <- Distinct(records, {}) :: Of(UserId) in o && Of(LogicalModelId) in o
      ensures ok ==> table == InsertAll(old(table), RowsOf(records)) && |table| == |old(table)| + written
      ensures !ok ==> table == old(table)
    {
      var rows;
      ok, rows := BuildRows(records);
      written := 0;
      if !ok {
        return;
      }
      DistinctIsEnough(table, records, {});
      for i := 0 to |rows|
        invariant |table| == |old(table)| + written && InsertAll(old(table), rows) == InsertAll(table, rows[i..])
      {
        assert rows[i..][1..] == rows[i + 1..];
        var before := |table|;
        table := Insert(table, rows[i]);
        written := written + (|table| - before);
      }
    }
  }

  lemma {:induction false} RowsOfAppend(records: seq<Object>, o: Object)
    ensures RowsOf(records + [o]) == RowsOf(records) + [ToRow(o)]
  {
    if records == [] {
      assert records + [o] == [o];
    } else {
      assert (records + [o])[1..] == records[1..] + [o];
      RowsOfAppend(records[1..], o);
    }
  }

  /** The duplicate check within the batch never changes what the index would have kept. */
  lemma {:induction false} DistinctIsEnough(table: Table, records: seq<Object>, seen: set<Json>)
    requires forall id <- seen :: id != Null && HasId(table, id)
    ensures InsertAll(table, RowsOf(Distinct(records, seen))) == InsertAll(table, RowsOf(records))
    decreases |records|
  {
    if records != [] {
      var row := ToRow(records[0]);
      var next := Insert(table, row);
      var id := IdOf(records[0]);
      assert row.requestId == id;
      InsertKeepsIds(table, row);
      if !Truthy(id) {
        DistinctIsEnough(next, records[1..], seen);
      } else if id in seen {
        assert next == table;
        DistinctIsEnough(table, records[1..], seen);
      } else {
        DistinctIsEnough(next, records[1..], seen + {id});
      }
    }
  }

  /** Afterwards every old id is still there, and so is the row's own. */
  lemma InsertKeepsIds(table: Table, row: Row)
    ensures forall id :: HasId(table, id) ==> HasId(Insert(table, row), id)
    ensures row.requestId != Null ==> HasId(Insert(table, row), row.requestId)
    ensures forall r <- Insert(table, row) :: r in table || r == row
    ensures forall r <- table :: r in Insert(table, row)
  {
    var after := Insert(table, row);
    assert forall r <- table :: r in after;
    assert after != table ==> row in after;
  }

  lemma InsertKeepsUnique(table: Table, row: Row)
    requires UniqueIds(table)
    ensures UniqueIds(Insert(table, row))
  {
    assert forall i :: 0 <= i < |table| ==> table[i] in table;
  }

  /** A batch keeps ids unique, adds a row for every id it names, and adds nothing else. */
  lemma {:induction false} InsertAllEffect(table: Table, rows: seq<Row>)
    requires UniqueIds(table)
    ensures var after := InsertAll(table, rows);
            && UniqueIds(after)
            && (forall r <- table :: r in after)
            && (forall r <- after :: r in table || r in rows)
            && (forall r <- rows :: r.requestId != Null ==> HasId(after, r.requestId))
    decreases |rows|
  {
    if rows != [] {
      var next := Insert(table, rows[0]);
      InsertKeepsUnique(table, rows[0]);
      InsertKeepsIds(table, rows[0]);
      InsertAllEffect(next, rows[1..]);
      var after := InsertAll(table, rows);
      forall r <- rows | r.requestId != Null ensures HasId(after, r.requestId) {
        if r == rows[0] {
          var earlier :| earlier in next && earlier.requestId == r.requestId;
          assert earlier in after;
        } else {
          assert r in rows[1..];
        }
      }
    }
  }

  lemma {:induction false} StoredIsNoOp(table: Table, rows: seq<Row>)
    requires forall r <- rows :: r.requestId != Null && HasId(table, r.requestId)
    ensures InsertAll(table, rows) == table
  {
    if rows != [] {
      StoredIsNoOp(table, rows[1..]);
    }
  }

  lemma {:induction false} InsertAllStores(table: Table, rows: seq<Row>)
    ensures forall id :: HasId(table, id) ==> HasId(InsertAll(table, rows), id)
    ensures forall r <- rows :: r.requestId != Null ==> HasId(InsertAll(table, rows), r.requestId)
    decreases |rows|
  {
    if rows != [] {
      InsertKeepsIds(table, rows[0]);
      InsertAllStores(Insert(table, rows[0]), rows[1..]);
    }
  }

  /** Inserting a batch a second time changes nothing when every row has an id, whatever is in the table. */
  lemma SecondInsertIsNoOp(table: Table, rows: seq<Row>)
    requires forall r <- rows :: r.requestId != Null
    ensures InsertAll(InsertAll(table, rows), rows) == InsertAll(table, rows)
  {
    InsertAllStores(table, rows);
    StoredIsNoOp(InsertAll(table, rows), rows);
  }

  /**
   `ON CONFLICT DO NOTHING`, row by row: after any batch, a row that follows is appended exactly if it has
   no id, or one that no row so far has; otherwise the table stays as it is.
   */
  lemma {:induction false} InsertAppends(table: Table, rows: seq<Row>, row: Row)
    ensures var before, after := InsertAll(table, rows), InsertAll(table, rows + [row]);
            after == if row.requestId == Null || (forall r <- before :: r.requestId != row.requestId)
                     then before + [row] else before
    decreases |rows|
  {
    if rows == [] {
      assert rows + [row] == [row] && [row][1..] == [];
      assert InsertAll(Insert(table, row), []) == Insert(table, row);
    } else {
      assert (rows + [row])[1..] == rows[1..] + [row];
      InsertAppends(Insert(table, rows[0]), rows[1..], row);
    }
  }

  /** The request id of a record, where null, zero and the empty string stand for none. */
  ghost predicate Named(o: Object, id: Json) {
    Of(RequestId) in o && o[Of(RequestId)] == id && id != Null && id != Number(0) && id != Text("")
  }

  /** A record of a batch is kept exactly if no earlier one has its id; records without an id are all kept. */
  lemma {:induction false} FirstOfEachIdIsKept(records: seq<Object>, seen: set<Json>, o: Object)
    ensures var all, kept := Distinct(records + [o], seen), Distinct(records, seen);
            all == if exists id :: Named(o, id) && (id in seen || exists x <- records :: Named(x, id))
                   then kept else kept + [o]
    decreases |records|
  {
    if records == [] {
      assert records + [o] == [o];
      assert forall id :: Named(o, id) ==> id == IdOf(o);
      assert Truthy(IdOf(o)) ==> Named(o, IdOf(o));
    } else {
      var id, rest := IdOf(records[0]), records[1..];
      assert (records + [o])[1..] == rest + [o];
      assert Truthy(id) <==> Named(records[0], id);
      assert forall x :: Named(records[0], x) ==> x == id;
      assert forall x :: x in records <==> x == records[0] || x in rest;
      FirstOfEachIdIsKept(rest, if Truthy(id) then seen + {id} else seen, o);
      if Truthy(id) && id in seen {
        assert seen + {id} == seen;
      }
    }
  }

  /** The retry counter is not part of a row. */
  lemma RetryKeepsRow(o: Object)
    ensures var (next, attempts) := IncrementAttempt(Obj(o));
            ToRow(next.fields) == ToRow(o) && IdOf(next.fields) == IdOf(o)
            && Attempts(next.fields) == Attempts(o) + 1 == attempts
  {
  }
}
