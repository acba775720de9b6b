// The older collection of the TinySyncLib copy (its DbSet): a table name,
// the column maps keyed by column name, and the two record queues. Its
// save only inserts; changed records are queued but never written.

module LegacyDb {
  import opened Common
  import opened Values
  import opened Records
  import opened Naming
  import opened Schema
  import opened Persist
  import opened SaveResults
  import Db

  /** The column map the constructor builds: each column put under its
    * name, so that of two columns with one name the later one stays. */
  function ByColumnName(columns: seq<ColumnMap>): map<string, ColumnMap>
    decreases |columns|
  {
    if columns == [] then map[]
    else
      var last := columns[|columns| - 1];
      ByColumnName(columns[..|columns| - 1])[last.columnName := last]
  }

  /** A name is a key exactly when some column has it, and it maps to the
    * last column that has it. */
  lemma {:induction false} ByColumnNameMeaning(columns: seq<ColumnMap>)
    ensures forall n :: n in ByColumnName(columns) <==> exists i :: 0 <= i < |columns| && columns[i].columnName == n
    ensures forall n :: n in ByColumnName(columns) ==>
              exists i :: 0 <= i < |columns| && columns[i] == ByColumnName(columns)[n] && columns[i].columnName == n &&
                          forall j :: i < j < |columns| ==> columns[j].columnName != n
    decreases |columns|
  {
    if columns != [] {
      var init, last := columns[..|columns| - 1], columns[|columns| - 1];
      ByColumnNameMeaning(init);
      assert forall i :: 0 <= i < |init| ==> init[i] == columns[i];
      var m := ByColumnName(columns);
      forall n | n in m
        ensures exists i :: 0 <= i < |columns| && columns[i] == m[n] && columns[i].columnName == n &&
                            forall j :: i < j < |columns| ==> columns[j].columnName != n
      {
        if n == last.columnName {
          assert columns[|columns| - 1] == m[n];
        } else {
          var i :| 0 <= i < |init| && init[i] == ByColumnName(init)[n] && init[i].columnName == n &&
                   forall j :: i < j < |init| ==> init[j].columnName != n;
          assert columns[i] == m[n];
        }
      }
    }
  }

  /** No name occurs twice. */
  predicate Distinct(s: seq<string>) {
    forall i, j :: 0 <= i < j < |s| ==> s[i] != s[j]
  }

  /** `order` lists the keys of `m`, each once: an iteration order of the
    * hash map. */
  predicate Enumerates(order: seq<string>, m: map<string, ColumnMap>) {
    Distinct(order) && (forall i :: 0 <= i < |order| ==> order[i] in m) && forall n :: n in m ==> n in order
  }

  /** An iteration order visits as many names as the map has keys. */
  lemma EnumerationLength(order: seq<string>, m: map<string, ColumnMap>)
    requires Enumerates(order, m)
    ensures |order| == |m|
  {
    DistinctCount(order);
    assert m.Keys == set n | n in order;
  }

  lemma {:induction false} DistinctCount(s: seq<string>)
    requires Distinct(s)
    ensures |set n | n in s| == |s|
    decreases |s|
  {
    if s != [] {
      var init, last := s[..|s| - 1], s[|s| - 1];
      assert Distinct(init);
      DistinctCount(init);
      assert (set n | n in s) == (set n | n in init) + {last};
      assert last !in (set n | n in init);
    }
  }

  class LegacySet {
    const modelClass: string
    const tableName: string
    /** The column maps by column name. */
    const columnMaps: map<string, ColumnMap>
    /** The order the hash map hands its entries out in. */
    const keyOrder: seq<string>
    var newRecords: set<LegacyRecord>
    var changedRecords: set<LegacyRecord>

    /**
     * DbSet(modelClass): the table name is the tableized simple class
     * name; every column-annotated field (`columns`, in the order the
     * fields are visited) is put in the map under its column name. How the
     * map orders its entries is not fixed by the source: `order` is that
     * order.
     */
    constructor (modelClass: string, columns: seq<ColumnMap>, order: seq<string>)
      requires Enumerates(order, ByColumnName(columns))
      ensures this.modelClass == modelClass && tableName == TableName(modelClass)
      ensures columnMaps == ByColumnName(columns) && keyOrder == order
      ensures newRecords == {} && changedRecords == {}
      ensures Valid()
    {
      var maps: map<string, ColumnMap> := map[];
      for i := 0 to |columns|
        invariant maps == ByColumnName(columns[..i])
      {
        assert columns[..i + 1][..i] == columns[..i];
        maps := maps[columns[i].columnName := columns[i]];
      }
      assert columns[..|columns|] == columns;
      this.modelClass := modelClass;
      tableName := TableName(modelClass);
      columnMaps := maps;
      keyOrder := order;
      newRecords, changedRecords := {}, {};
    }

    /** The order visits every column map once. */
    predicate Valid() {
      Enumerates(keyOrder, columnMaps)
    }

    /** getColumnDefs: one definition per entry of the column map, in the
      * map's order, so each column name is defined exactly once. */
    method GetColumnDefs() returns (defs: seq<string>)
      requires Valid()
      ensures |defs| == |keyOrder| == |columnMaps|
      ensures forall i :: 0 <= i < |defs| ==> defs[i] == ColumnDef(columnMaps[keyOrder[i]])
      ensures forall n :: n in columnMaps ==> exists i :: 0 <= i < |defs| && keyOrder[i] == n
    {
      EnumerationLength(keyOrder, columnMaps);
      defs := [];
      for i := 0 to |keyOrder|
        invariant |defs| == i
        invariant forall k :: 0 <= k < i ==> defs[k] == ColumnDef(columnMaps[keyOrder[k]])
      {
        defs := defs + [ColumnDef(columnMaps[keyOrder[i]])];
      }
    }

    /** add: a persisted record is queued as changed, any other as new. */
    method Add(record: LegacyRecord)
      modifies this
      ensures record.persisted ==> changedRecords == old(changedRecords) + {record} && newRecords == old(newRecords)
      ensures !record.persisted ==> newRecords == old(newRecords) + {record} && changedRecords == old(changedRecords)
    {
      if record.IsPersisted() {
        changedRecords := changedRecords + {record};
      } else {
        newRecords := newRecords + {record};
      }
    }

    /**
     * insertRecord: assigns the columns in the map's order, an error named
     * after each column that cannot be assigned, then inserts the row, a
     * record-wide error if the store refuses it (`a` gives both outcomes).
     * Succeeds iff the record has no errors afterwards. Unlike the newer
     * collection it neither stamps nor caches the record.
     */
    method InsertRecord(record: LegacyRecord, a: Attempt) returns (ok: bool)
      modifies record
      ensures record.errors == old(record.errors) + WriteErrors(keyOrder, a)
      ensures ok <==> record.errors == []
      ensures record.persisted == old(record.persisted) && record.values == old(record.values)
      ensures record.createdAt == old(record.createdAt) && record.updatedAt == old(record.updatedAt)
      ensures record.syncState == old(record.syncState)
    {
      ghost var prior := record.errors;
      for i := 0 to |keyOrder|
        invariant record.errors == prior + FailureErrors(keyOrder[..i], a.failures)
        invariant record.persisted == old(record.persisted) && record.values == old(record.values)
        invariant record.createdAt == old(record.createdAt) && record.updatedAt == old(record.updatedAt)
        invariant record.syncState == old(record.syncState)
      {
        AppendFailureStep(prior, keyOrder, i, a.failures);
        if keyOrder[i] in a.failures {
          record.AddErrorException(Some(keyOrder[i]), a.failures[keyOrder[i]]);
        }
      }
      assert keyOrder[..|keyOrder|] == keyOrder;
      if a.storeFailure.Some? {
        record.AddErrorException(None, a.storeFailure.value);
      }
      ok := !record.HasErrors();
    }

    /** The records the loop of save has not visited yet still have their
      * errors (`errs0`) and flags (`pers0`). */
    ghost predicate Unvisited(todo: set<LegacyRecord>, errs0: map<LegacyRecord, seq<RecordError>>, pers0: map<LegacyRecord, bool>)
      reads todo
    {
      forall x :: x in todo ==> x in errs0 && x in pers0 && x.errors == errs0[x] && x.persisted == pers0[x]
    }

    /** The errors each record of `all` ends its insert with. */
    ghost predicate Expected(all: set<LegacyRecord>, outcomes: map<LegacyRecord, Attempt>,
                             errs0: map<LegacyRecord, seq<RecordError>>, expected: map<LegacyRecord, seq<RecordError>>)
    {
      forall x :: x in all ==>
        x in errs0 && x in expected && expected[x] == errs0[x] + WriteErrors(keyOrder, AttemptFor(outcomes, x))
    }

    /** A visited record has the errors `expected` gives, and is persisted
      * if it had been or if it ended without errors. */
    ghost predicate Visited(done: set<LegacyRecord>, pers0: map<LegacyRecord, bool>, expected: map<LegacyRecord, seq<RecordError>>)
      reads done
    {
      forall x :: x in done ==>
        x in expected && x in pers0 && x.errors == expected[x] && (x.persisted <==> pers0[x] || expected[x] == [])
    }

    /** The result so far: each visited record is reported as inserted or
      * as errored by whether it ended without errors; nothing is updated. */
    ghost predicate Reported(result: SaveResult<LegacyRecord>, done: set<LegacyRecord>, expected: map<LegacyRecord, seq<RecordError>>)
      reads result
    {
      result.updated == {} && result.inserted <= done && result.errored <= done &&
      forall x :: x in done ==>
        x in expected && (x in result.inserted <==> expected[x] == []) && (x in result.errored <==> expected[x] != [])
    }

    /** The record half of one iteration: insertRecord, then the flag. */
    method InsertOne(r: LegacyRecord, a: Attempt, ghost errs0: map<LegacyRecord, seq<RecordError>>, ghost pers0: map<LegacyRecord, bool>,
                     ghost expected: map<LegacyRecord, seq<RecordError>>, ghost done: set<LegacyRecord>, ghost todo: set<LegacyRecord>)
      returns (ok: bool)
      requires r in todo && todo !! done
      requires Unvisited(todo, errs0, pers0) && Visited(done, pers0, expected)
      requires r in expected && expected[r] == errs0[r] + WriteErrors(keyOrder, a)
      modifies r
      ensures Unvisited(todo - {r}, errs0, pers0) && Visited(done + {r}, pers0, expected)
      ensures ok <==> expected[r] == []
    {
      ok := InsertRecord(r, a);
      assert Unvisited(todo - {r}, errs0, pers0);
      if ok {
        r.persisted := true;
      }
    }

    /** The result half of one iteration. */
    method ReportOne(result: SaveResult<LegacyRecord>, r: LegacyRecord, ok: bool,
                     ghost expected: map<LegacyRecord, seq<RecordError>>, ghost done: set<LegacyRecord>)
      requires r in expected && (ok <==> expected[r] == [])
      requires Reported(result, done, expected)
      modifies result
      ensures Reported(result, done + {r}, expected)
    {
      if ok {
        result.AddInserted(r);
      } else {
        result.AddErrored(r);
      }
    }

    /** One iteration of the insert loop of save, on a record it picks. */
    method InsertStep(result: SaveResult<LegacyRecord>, outcomes: map<LegacyRecord, Attempt>, todo: set<LegacyRecord>,
                      ghost done: set<LegacyRecord>, ghost all: set<LegacyRecord>, ghost errs0: map<LegacyRecord, seq<RecordError>>,
                      ghost pers0: map<LegacyRecord, bool>, ghost expected: map<LegacyRecord, seq<RecordError>>)
      returns (todo': set<LegacyRecord>, ghost done': set<LegacyRecord>)
      requires todo != {} && todo !! done && todo + done == all && Expected(all, outcomes, errs0, expected)
      requires Unvisited(todo, errs0, pers0) && Visited(done, pers0, expected) && Reported(result, done, expected)
      modifies result, todo
      ensures todo' < todo && todo' !! done' && todo' + done' == all
      ensures Unvisited(todo', errs0, pers0) && Visited(done', pers0, expected) && Reported(result, done', expected)
    {
      var r :| r in todo;
      var ok := InsertOne(r, AttemptFor(outcomes, r), errs0, pers0, expected, done, todo);
      ReportOne(result, r, ok, expected, done);
      todo', done' := todo - {r}, done + {r};
    }

    /** The insert loop of save over `queue`, stated through the ghost
      * snapshots of the records' errors and flags taken before it. */
    method InsertQueue(result: SaveResult<LegacyRecord>, outcomes: map<LegacyRecord, Attempt>, queue: set<LegacyRecord>,
                     ghost errs0: map<LegacyRecord, seq<RecordError>>, ghost pers0: map<LegacyRecord, bool>,
                     ghost expected: map<LegacyRecord, seq<RecordError>>)
      requires Unvisited(queue, errs0, pers0) && Expected(queue, outcomes, errs0, expected)
      requires Reported(result, {}, expected)
      modifies result, queue
      ensures Visited(queue, pers0, expected) && Reported(result, queue, expected)
    {
      var todo := queue;
      ghost var done: set<LegacyRecord> := {};
      while todo != {}
        invariant todo !! done && todo + done == queue
        invariant Unvisited(todo, errs0, pers0) && Visited(done, pers0, expected) && Reported(result, done, expected)
        decreases todo
      {
        todo, done := InsertStep(result, outcomes, todo, done, queue, errs0, pers0, expected);
      }
    }

    /** The loop of save: each record of `queue` is inserted, persisted if
      * it ends without errors, and reported as inserted or errored. */
    method InsertAll(result: SaveResult<LegacyRecord>, outcomes: map<LegacyRecord, Attempt>, queue: set<LegacyRecord>)
      requires result.inserted == {} && result.updated == {} && result.errored == {}
      modifies result, queue
      ensures forall x :: x in queue ==>
                x.errors == old(x.errors) + WriteErrors(keyOrder, AttemptFor(outcomes, x)) &&
                (x.persisted <==> old(x.persisted) || x.errors == [])
      ensures result.updated == {} && result.inserted <= queue && result.errored <= queue
      ensures forall x :: x in queue ==>
                (x in result.inserted <==> x.errors == []) && (x in result.errored <==> x.errors != [])
    {
      ghost var errs0 := map x | x in queue :: x.errors;
      ghost var pers0 := map x | x in queue :: x.persisted;
      ghost var expected := map x | x in queue :: errs0[x] + WriteErrors(keyOrder, AttemptFor(outcomes, x));
      InsertQueue(result, outcomes, queue, errs0, pers0, expected);
    }

    /**
     * save: every new record is inserted (the store's outcome for each
     * comes from `outcomes`); one that ends without errors is persisted
     * and reported as inserted, any other as errored. The inserted records
     * leave the new queue. Changed records are never written: the updated
     * set stays empty and the changed queue stays as it was.
     */
    method Save(outcomes: map<LegacyRecord, Attempt>) returns (result: SaveResult<LegacyRecord>)
      modifies this, newRecords
      ensures fresh(result) && result.updated == {}
      ensures forall x :: x in old(newRecords) ==>
                x.errors == old(x.errors) + WriteErrors(keyOrder, AttemptFor(outcomes, x)) &&
                (x.persisted <==> old(x.persisted) || x.errors == [])
      ensures result.inserted <= old(newRecords) && result.errored <= old(newRecords)
      ensures forall x :: x in old(newRecords) ==>
                (x in result.inserted <==> x.errors == []) && (x in result.errored <==> x.errors != [])
      ensures newRecords == old(newRecords) - result.inserted
      ensures changedRecords == old(changedRecords)
    {
      result := new SaveResult<LegacyRecord>();
      InsertAll(result, outcomes, newRecords);
      newRecords := Db.Collection.Without(newRecords, result.inserted);
      // the loop over the updated set finds it empty
      changedRecords := Db.Collection.Without(changedRecords, result.updated);
    }
  }
}
