// The persistence core: a collection per model class (DbCollection), the
// lazily filled result set a query returns (DbSet), and the context that
// holds the collections (DbContext). The three refer to one another, so
// they share one module.

module Db {
  import opened Common
  import opened Values
  import opened Naming
  import opened Records
  import opened SaveResults
  import opened Validation
  import opened Schema
  import opened Queries
  import opened Persist

  // ---- the store's side of a query

  /** The value a row holds in a column: its id, one of the base columns
    * every model declares (a null timestamp is SQL NULL; the state is
    * stored by name), or one of its fields. */
  function CellValue(row: Row, column: string): Option<Value> {
    if column == "id" then Some(Id(row.id))
    else if column == "sync_state" then Some(Sym(SyncStateName(row.syncState)))
    else if column == "created_at" then Some(if row.createdAt.Some? then Time(row.createdAt.value) else Null)
    else if column == "updated_at" then Some(if row.updatedAt.Some? then Time(row.updatedAt.value) else Null)
    else if column in row.values then Some(row.values[column])
    else None
  }

  /** The number SQLite's NUMERIC affinity makes of a text compared with
    * an INTEGER column: an optional sign and one or more decimal digits,
    * leading zeros allowed, convert; any other text stays text. */
  function NumericText(s: string): (r: Option<int>)
    ensures (|s| > 0 && forall i :: 0 <= i < |s| ==> IsDigit(s[i])) ==> r == Some(DigitsValue(s))
    ensures (exists i :: 0 <= i < |s| && !IsDigit(s[i]) && !(i == 0 && (s[i] == '+' || s[i] == '-'))) ==> r.None?
    ensures s == [] || s == "+" || s == "-" ==> r.None?
  {
    if |s| > 1 && s[0] == '+' && IsDigit(s[1]) then ParseDecimal(s[1..]) else ParseDecimal(s)
  }

  /** Every number's decimal text converts back to it. */
  lemma NumericDecimal(n: int)
    ensures NumericText(IntToDecimal(n)) == Some(n)
  {
    DecimalRoundTrip(n);
    if n >= 0 {
      assert IsDigit(IntToDecimal(n)[0]);
    }
  }

  /** SQLite's `column = ?` on one stored cell, the argument bound as text.
    * An INTEGER column (an int field, or a DateTime stored as its millis)
    * applies NUMERIC affinity to the argument, so an integer literal
    * compares as its number and any other text equals no cell; a TEXT
    * column compares the texts; SQL NULL equals nothing. */
  predicate CellEquals(cell: Value, arg: string, dateText: DateTime -> string) {
    match cell
    case Null => false
    case Int(i) => NumericText(arg) == Some(i)
    case Time(t) => NumericText(arg) == Some(t.millis)
    case _ => ValueText(cell, dateText) == Ok(arg)
  }

  /** A row satisfies the selection when, for every criterion, the column
    * exists and its cell equals the criterion's value as the argument
    * text toString() renders. */
  predicate Matches(row: Row, criteria: seq<Equality>, dateText: DateTime -> string) {
    forall i :: 0 <= i < |criteria| ==>
      CellValue(row, criteria[i].column).Some? &&
      ValueText(criteria[i].value, dateText).Ok? &&
      CellEquals(CellValue(row, criteria[i].column).value, ValueText(criteria[i].value, dateText).value, dateText)
  }

  /** The rows of a table a selection picks, in table order. */
  function Select(table: seq<Row>, criteria: seq<Equality>, dateText: DateTime -> string): (rows: seq<Row>)
    ensures |rows| <= |table|
    ensures forall k :: 0 <= k < |rows| ==> rows[k] in table && Matches(rows[k], criteria, dateText)
    ensures forall k :: 0 <= k < |table| && Matches(table[k], criteria, dateText) ==> table[k] in rows
  {
    if table == [] then []
    else
      var rest := Select(table[1..], criteria, dateText);
      if Matches(table[0], criteria, dateText) then [table[0]] + rest else rest
  }

  /** The columns of a collection's table: the base columns every model
    * declares and the columns its schema creates. */
  predicate HasColumn(schema: CollectionSchema, column: string) {
    column in {"id", "sync_state", "created_at", "updated_at"} || column in ColumnNames(schema)
  }

  /** The columns a query names: those of its criteria, then those of its
    * orderings. */
  function QueryColumns(criteria: seq<Equality>, orderBys: seq<OrderBy>): (cs: seq<string>)
    ensures |cs| == |criteria| + |orderBys|
    ensures forall i :: 0 <= i < |criteria| ==> cs[i] == criteria[i].column
    ensures forall i :: 0 <= i < |orderBys| ==> cs[|criteria| + i] == orderBys[i].column
  {
    seq(|criteria|, i requires 0 <= i < |criteria| => criteria[i].column) +
    seq(|orderBys|, i requires 0 <= i < |orderBys| => orderBys[i].column)
  }

  /** The first of `columns` the table lacks, the one SQLite's "no such
    * column" names when it refuses to prepare the statement. */
  function FirstUnknown(schema: CollectionSchema, columns: seq<string>): (r: Option<string>)
    ensures r.None? <==> forall i :: 0 <= i < |columns| ==> HasColumn(schema, columns[i])
    ensures r.Some? ==> r.value in columns && !HasColumn(schema, r.value)
    ensures r.Some? ==> exists i :: 0 <= i < |columns| && columns[i] == r.value &&
                                   forall j :: 0 <= j < i ==> HasColumn(schema, columns[j])
  {
    if columns == [] then None
    else if !HasColumn(schema, columns[0]) then Some(columns[0])
    else
      var r := FirstUnknown(schema, columns[1..]);
      assert forall i :: 0 <= i < |columns[1..]| ==> columns[1..][i] == columns[i + 1];
      r
  }

  /** where(column, v) on a column the table lacks is refused, naming
    * that column, whatever the orderings. */
  lemma MissingColumnRejected(schema: CollectionSchema, column: string, v: Value, orderBys: seq<OrderBy>)
    requires !HasColumn(schema, column)
    ensures FirstUnknown(schema, QueryColumns([Equality(column, v)], orderBys)) == Some(column)
  {
    assert QueryColumns([Equality(column, v)], orderBys)[0] == column;
  }

  /** A query on the base columns only, such as populate's where on
    * sync_state, names no unknown column on any table. */
  lemma BaseColumnsKnown(schema: CollectionSchema, criteria: seq<Equality>, orderBys: seq<OrderBy>)
    requires forall i :: 0 <= i < |criteria| ==> criteria[i].column in {"id", "sync_state", "created_at", "updated_at"}
    requires forall i :: 0 <= i < |orderBys| ==> orderBys[i].column in {"id", "sync_state", "created_at", "updated_at"}
    ensures FirstUnknown(schema, QueryColumns(criteria, orderBys)).None?
  {
    var cs := QueryColumns(criteria, orderBys);
    forall i | 0 <= i < |cs|
      ensures HasColumn(schema, cs[i])
    {
      if i >= |criteria| {
        assert cs[i] == orderBys[i - |criteria|].column;
      }
    }
  }

  /** A selection that exactly one row of the table satisfies returns that
    * row alone. */
  lemma {:induction false} SelectSingleMatch(table: seq<Row>, criteria: seq<Equality>, dateText: DateTime -> string, n: nat)
    requires n < |table|
    requires forall k :: 0 <= k < |table| ==> (Matches(table[k], criteria, dateText) <==> k == n)
    ensures Select(table, criteria, dateText) == [table[n]]
    decreases |table|
  {
    assert forall k :: 0 <= k < |table[1..]| ==> table[1..][k] == table[k + 1];
    if n == 0 {
      SelectNoMatch(table[1..], criteria, dateText);
    } else {
      SelectSingleMatch(table[1..], criteria, dateText, n - 1);
    }
  }

  lemma {:induction false} SelectNoMatch(table: seq<Row>, criteria: seq<Equality>, dateText: DateTime -> string)
    requires forall k :: 0 <= k < |table| ==> !Matches(table[k], criteria, dateText)
    ensures Select(table, criteria, dateText) == []
    decreases |table|
  {
    if table != [] {
      assert forall k :: 0 <= k < |table[1..]| ==> table[1..][k] == table[k + 1];
      SelectNoMatch(table[1..], criteria, dateText);
    }
  }

  /** The query test: of authors aged 0, 1, 2, ... (in table order), the
    * selection `age = ?` with argument n returns exactly the author aged n. */
  lemma WhereAgeSelectsOne(table: seq<Row>, n: nat, dateText: DateTime -> string)
    requires n < |table|
    requires forall k :: 0 <= k < |table| ==> "age" in table[k].values && table[k].values["age"] == Int(k)
    ensures Select(table, [Equality("age", Int(n))], dateText) == [table[n]]
  {
    forall k | 0 <= k < |table|
      ensures Matches(table[k], [Equality("age", Int(n))], dateText) <==> k == n
    {
      AgeMatches(table[k], k, n, dateText);
    }
    SelectSingleMatch(table, [Equality("age", Int(n))], dateText, n);
  }

  lemma AgeMatches(row: Row, k: int, n: int, dateText: DateTime -> string)
    requires "age" in row.values && row.values["age"] == Int(k)
    ensures Matches(row, [Equality("age", Int(n))], dateText) <==> k == n
  {
    var criteria := [Equality("age", Int(n))];
    assert CellValue(row, "age") == Some(Int(k));
    NumericDecimal(n);
    assert ValueText(Int(n), dateText) == Ok(IntToDecimal(n));
    assert Matches(row, criteria, dateText) <==> CellEquals(Int(k), IntToDecimal(n), dateText) by {
      assert criteria[0].column == "age" && criteria[0].value == Int(n);
    }
  }

  /** Against an INTEGER column, the text "05" selects the cell holding
    * 5, as SQLite converts the argument before comparing. */
  lemma PaddedTextMatchesInteger(row: Row, column: string, dateText: DateTime -> string)
    requires column !in {"id", "sync_state", "created_at", "updated_at"}
    requires column in row.values && row.values[column] == Int(5)
    ensures Matches(row, [Equality(column, Str("05"))], dateText)
  {
    assert DigitsValue("05") == 5 by {
      assert "05"[..1] == "0";
      assert "0"[..0] == [];
    }
    assert NumericText("05") == Some(5);
  }

  /** A DateTime criterion renders the instant as its toString() text; an
    * INTEGER timestamp column holds the millis, so when that text is not
    * an integer literal (as an ISO-8601 text never is) no row matches. */
  lemma {:induction false} TimeTextSelectsNothing(table: seq<Row>, column: string, t: DateTime, dateText: DateTime -> string)
    requires column == "created_at" || column == "updated_at"
    requires NumericText(dateText(t)).None?
    ensures Select(table, [Equality(column, Time(t))], dateText) == []
  {
    forall k | 0 <= k < |table|
      ensures !Matches(table[k], [Equality(column, Time(t))], dateText)
    {
      var criteria := [Equality(column, Time(t))];
      assert criteria[0].column == column && criteria[0].value == Time(t);
      assert ValueText(Time(t), dateText) == Ok(dateText(t));
    }
    SelectNoMatch(table, [Equality(column, Time(t))], dateText);
  }

  /** Java's HashMap of records by id keeps each record under its own id. */
  predicate CacheById(cache: map<ObjectId, Record>) {
    forall id :: id in cache ==> cache[id].id == id
  }

  /** The identity cache after each record of `s` was cached in turn, a
    * later record replacing an earlier one with the same id. */
  function Cached(m: map<ObjectId, Record>, s: seq<Record>): (c: map<ObjectId, Record>)
    decreases |s|
  {
    if s == [] then m else Cached(m, s[..|s| - 1])[s[|s| - 1].id := s[|s| - 1]]
  }

  lemma CachedStep(m: map<ObjectId, Record>, s: seq<Record>, r: Record)
    ensures Cached(m, s + [r]) == Cached(m, s)[r.id := r]
  {
    assert (s + [r])[..|s|] == s;
  }

  /** Caching a list of records keeps every earlier id, adds the id of each
    * cached record, leaves the entry of an id no cached record has as it
    * was, and files each id under its last record in the list; so a cache
    * that keeps each record under its own id goes on doing so. */
  lemma {:induction false} CachedMeaning(m: map<ObjectId, Record>, s: seq<Record>)
    ensures forall id :: id in Cached(m, s) <==> id in m || exists i :: 0 <= i < |s| && s[i].id == id
    ensures forall id :: id in m && (forall i :: 0 <= i < |s| ==> s[i].id != id) ==> Cached(m, s)[id] == m[id]
    ensures forall i :: 0 <= i < |s| && (forall j :: i < j < |s| ==> s[j].id != s[i].id) ==> Cached(m, s)[s[i].id] == s[i]
    ensures CacheById(m) ==> CacheById(Cached(m, s))
    decreases |s|
  {
    if s != [] {
      var init, r := s[..|s| - 1], s[|s| - 1];
      CachedMeaning(m, init);
      assert forall i :: 0 <= i < |init| ==> init[i] == s[i];
    }
  }

  /** Moving one element from the unvisited to the visited part of a set
    * keeps the two parts disjoint and their union the same. */
  lemma MoveOne<T>(todo: set<T>, done: set<T>, r: T)
    requires r in todo && todo !! done
    ensures (todo - {r}) + (done + {r}) == todo + done && (todo - {r}) !! (done + {r})
  {
  }

  /** The elements of a list, as a set. */
  function Elements<T>(s: seq<T>): set<T>
    decreases |s|
  {
    if s == [] then {} else Elements(s[..|s| - 1]) + {s[|s| - 1]}
  }

  lemma ElementsStep<T>(s: seq<T>, x: T)
    ensures Elements(s + [x]) == Elements(s) + {x}
  {
    assert (s + [x])[..|s|] == s;
  }

  lemma {:induction false} ElementsMeaning<T>(s: seq<T>)
    ensures forall x :: x in Elements(s) <==> x in s
    decreases |s|
  {
    if s != [] {
      ElementsMeaning(s[..|s| - 1]);
      assert s == s[..|s| - 1] + [s[|s| - 1]];
    }
  }

  /** A record freshly read from row `row` of the collection's table: its
    * fields are what the serializers make of the row (Loaded). */
  predicate Describes(rec: Record, modelClass: string, row: Row)
    reads rec
  {
    var l := Loaded(row);
    rec.modelClass == modelClass && rec.id == l.id && rec.values == l.values &&
    rec.createdAt == l.createdAt && rec.updatedAt == l.updatedAt &&
    rec.syncState == l.syncState && rec.persisted && rec.errors == []
  }

  // ---- DbCollection

  class Collection {
    /** The columns and associations parsed from the model class. */
    const schema: CollectionSchema
    const tableName: string
    /** The field validators found on the model's annotations. */
    const validators: seq<FieldValidator>
    /** The errors the model class's onValidate adds each time it runs
      * (none for the default hook); every record the collection makes
      * from a row carries it. */
    const customErrors: seq<RecordError>
    var context: Context?
    var newRecords: set<Record>
    var changedRecords: set<Record>
    var cache: map<ObjectId, Record>

    predicate Valid()
      reads this
    {
      CacheById(cache)
    }

    /** The table is named after the model class. */
    constructor (schema: CollectionSchema, validators: seq<FieldValidator>, customErrors: seq<RecordError>)
      ensures this.schema == schema && this.validators == validators && this.customErrors == customErrors
      ensures tableName == TableName(schema.modelClass)
      ensures context == null && newRecords == {} && changedRecords == {} && cache == map[]
      ensures Valid()
    {
      this.schema := schema;
      this.validators := validators;
      this.customErrors := customErrors;
      tableName := TableName(schema.modelClass);
      context := null;
      newRecords, changedRecords := {}, {};
      cache := map[];
    }

    method SetContext(c: Context)
      modifies this
      ensures context == c
      ensures newRecords == old(newRecords) && changedRecords == old(changedRecords) && cache == old(cache)
    {
      context := c;
    }

    /** getColumnDefs: one definition per column map, then one per
      * belongs-to. */
    method GetColumnDefs() returns (defs: seq<string>)
      ensures defs == ColumnDefs(schema)
    {
      defs := [];
      var i := 0;
      while i < |schema.columns|
        invariant 0 <= i <= |schema.columns|
        invariant defs == seq(i, k requires 0 <= k < i => ColumnDef(schema.columns[k]))
      {
        defs := defs + [ColumnDef(schema.columns[i])];
        i := i + 1;
      }
      var j := 0;
      while j < |schema.belongsTos|
        invariant 0 <= j <= |schema.belongsTos|
        invariant defs == seq(|schema.columns|, k requires 0 <= k < |schema.columns| => ColumnDef(schema.columns[k]))
                          + seq(j, k requires 0 <= k < j => BelongsToDef(schema.belongsTos[k]))
      {
        defs := defs + [BelongsToDef(schema.belongsTos[j])];
        j := j + 1;
      }
    }

    /** add: a persisted record is queued as changed, any other as new;
      * adding a queued record again changes nothing. */
    method Add(record: Record)
      modifies this
      ensures record.persisted ==> changedRecords == old(changedRecords) + {record} && newRecords == old(newRecords)
      ensures !record.persisted ==> newRecords == old(newRecords) + {record} && changedRecords == old(changedRecords)
      ensures cache == old(cache) && context == old(context)
    {
      if record.IsPersisted() {
        changedRecords := changedRecords + {record};
      } else {
        newRecords := newRecords + {record};
      }
    }

    // ---- the identity cache

    /** cacheRecord: the record is stored under its id, replacing any
      * earlier entry. */
    method CacheRecord(record: Record)
      requires Valid()
      modifies this
      ensures Valid() && cache == old(cache)[record.id := record]
      ensures newRecords == old(newRecords) && changedRecords == old(changedRecords) && context == old(context)
    {
      cache := cache[record.id := record];
    }

    method ClearCache()
      modifies this
      ensures Valid() && cache == map[]
      ensures newRecords == old(newRecords) && changedRecords == old(changedRecords) && context == old(context)
    {
      cache := map[];
    }

    /**
     * find: always asks the store (`table` is the collection's table). The
     * first row with the id becomes a persisted record, which is cached;
     * no row gives null, since the lookup's failure is caught. Without a
     * context the database handle cannot be obtained, and a null id throws
     * again inside the handler, which prints it.
     */
    method Find(id: Option<ObjectId>, table: seq<Row>) returns (r: Result<Option<Record>>)
      requires Valid()
      modifies this
      ensures Valid()
      ensures r.Err? <==> context == null || id.None?
      ensures r.Err? ==> r.error == NullPointer && cache == old(cache)
      ensures r.Ok? ==> (r.value.Some? <==> exists k :: 0 <= k < |table| && table[k].id == id.value)
      ensures r.Ok? && r.value.Some? ==>
                var k := FirstIndex(table, (row: Row) => row.id == id.value);
                fresh(r.value.value) && Describes(r.value.value, schema.modelClass, table[k]) &&
                r.value.value.id == id.value && r.value.value.customErrors == customErrors &&
                cache == old(cache)[id.value := r.value.value]
      ensures r.Ok? && r.value.None? ==> cache == old(cache)
      ensures newRecords == old(newRecords) && changedRecords == old(changedRecords) && context == old(context)
    {
      if context == null {
        return Err(NullPointer);
      }
      if id.None? {
        return Err(NullPointer);
      }
      var k := FirstIndex(table, (row: Row) => row.id == id.value);
      if k < 0 {
        return Ok(None);
      }
      var rec := DeserializeRow(table[k]);
      CacheRecord(rec);
      return Ok(Some(rec));
    }

    /** deserializeRow: a new record of the model class filled from the
      * row, marked persisted. */
    method DeserializeRow(row: Row) returns (rec: Record)
      ensures fresh(rec) && Describes(rec, schema.modelClass, row) && rec.customErrors == customErrors
    {
      rec := new Record.Load(schema.modelClass, row, customErrors);
      rec.persisted := true;
    }

    /** cachedFind: the cached record when the id is cached, otherwise
      * find. */
    method CachedFind(id: Option<ObjectId>, table: seq<Row>) returns (r: Result<Option<Record>>)
      requires Valid()
      modifies this
      ensures Valid()
      ensures id.Some? && id.value in old(cache) ==> r == Ok(Some(old(cache)[id.value])) && cache == old(cache)
      ensures r.Ok? && r.value.Some? ==> id.Some? && r.value.value.id == id.value
      ensures r.Err? ==> r.error == NullPointer
      ensures !(id.Some? && id.value in old(cache)) ==>
                (r.Err? <==> context == null || id.None?) &&
                (r.Ok? ==> id.Some? && (r.value.Some? <==> exists k :: 0 <= k < |table| && table[k].id == id.value))
      ensures newRecords == old(newRecords) && changedRecords == old(changedRecords) && context == old(context)
    {
      if id.Some? && id.value in cache {
        return Ok(Some(cache[id.value]));
      }
      r := Find(id, table);
    }

    // ---- validation

    /**
     * validate: clears the record's errors, then runs each field validator
     * in order, calling the record's onValidate hook after each one; a
     * validator that throws ends the loop and the exception propagates.
     * Otherwise the record is valid iff no errors remain.
     */
    method Validate(record: Record) returns (r: Result<bool>)
      modifies record
      ensures var run := RunRules(RulesOf(validators), record.values, record.customErrors);
              record.errors == run.errors && (r.Err? <==> run.thrown)
      ensures r.Err? ==> r.error == NullPointer
      ensures r.Ok? ==> r.value == (record.errors == [])
      ensures record.values == old(record.values) && record.persisted == old(record.persisted)
      ensures record.syncState == old(record.syncState)
      ensures record.createdAt == old(record.createdAt) && record.updatedAt == old(record.updatedAt)
    {
      ghost var rules, vals, hook := RulesOf(validators), record.values, record.customErrors;
      record.ClearErrors();
      assert rules[..0] == [];
      var i, thrown := 0, false;
      while i < |validators| && !thrown
        invariant 0 <= i <= |validators|
        invariant record.errors == RunRules(rules[..i], vals, hook).errors
        invariant thrown == RunRules(rules[..i], vals, hook).thrown
        invariant record.values == vals && record.persisted == old(record.persisted)
        invariant record.syncState == old(record.syncState)
        invariant record.createdAt == old(record.createdAt) && record.updatedAt == old(record.updatedAt)
      {
        thrown := ValidateOne(record, i, rules);
        i := i + 1;
      }
      if thrown {
        ThrownIsFinal(rules, i, vals, hook);
        return Err(NullPointer);
      }
      assert rules[..i] == rules;
      return Ok(!record.HasErrors());
    }

    /** One pass of validate's loop: validator `i`, then the hook unless
      * the validator threw. */
    method ValidateOne(record: Record, i: nat, ghost rules: seq<Rule>) returns (thrown: bool)
      requires i < |validators| && rules == RulesOf(validators)
      requires record.errors == RunRules(rules[..i], record.values, record.customErrors).errors
      requires !RunRules(rules[..i], record.values, record.customErrors).thrown
      modifies record
      ensures record.errors == RunRules(rules[..i + 1], record.values, record.customErrors).errors
      ensures thrown == RunRules(rules[..i + 1], record.values, record.customErrors).thrown
      ensures record.values == old(record.values) && record.persisted == old(record.persisted)
      ensures record.syncState == old(record.syncState)
      ensures record.createdAt == old(record.createdAt) && record.updatedAt == old(record.updatedAt)
    {
      RunRulesStep(rules, i, record.values, record.customErrors);
      RulesOfIndex(validators, i);
      var verdict := validators[i].Validate(record);
      thrown := verdict.Err?;
      if !thrown {
        record.OnValidate();
      }
    }

    // ---- querying

    /** where(property, value): a new query holding that one criterion. */
    method Where(column: string, value: Value) returns (q: Query)
      ensures fresh(q) && q.criteria == [Equality(column, value)] && q.orderBys == []
    {
      q := new Query();
      q := q.Where(column, value);
    }

    /** orderBy(column, direction): a new query holding that one ordering. */
    method OrderByColumn(column: string, direction: int) returns (q: Query)
      ensures fresh(q) && q.orderBys == [OrderBy(column, direction)] && q.criteria == []
    {
      q := new Query();
      q := q.OrderByColumn(column, direction);
    }

    /**
     * runQuery: selects the rows of the collection's table (`table`) that
     * the query's criteria match and wraps them in a result set with
     * nothing computed yet. Without a context the database handle cannot
     * be obtained; a null criterion value throws while the arguments are
     * rendered; a criterion or ordering on a column the table lacks makes
     * SQLite refuse the statement. `broken` marks the returned rows that
     * fail to deserialise.
     */
    method RunQuery(query: Query, table: seq<Row>, broken: set<int>, dateText: DateTime -> string)
      returns (r: Result<ResultSet>)
      ensures r.Err? <==> context == null || SelectionArgs(query.criteria, dateText).Err? ||
                          FirstUnknown(schema, QueryColumns(query.criteria, query.orderBys)).Some?
      ensures r.Err? ==> r.error == if context == null || SelectionArgs(query.criteria, dateText).Err? then NullPointer
                                    else NoSuchColumn(FirstUnknown(schema, QueryColumns(query.criteria, query.orderBys)).value)
      ensures r.Ok? ==> fresh(r.value) && r.value.collection == this &&
                        r.value.rows == Select(table, query.criteria, dateText) && r.value.broken == broken &&
                        r.value.records == [] && r.value.computedIndex == -1
    {
      if context == null {
        return Err(NullPointer);
      }
      var selection := query.GetSelection();
      var args := query.GetSelectionArgs(dateText);
      var ordering := query.GetOrderBy();
      if args.Err? {
        return Err(args.error);
      }
      var unknown := FirstUnknown(schema, QueryColumns(query.criteria, query.orderBys));
      if unknown.Some? {
        return Err(NoSuchColumn(unknown.value));
      }
      var results := new ResultSet(this, Select(table, query.criteria, dateText), broken);
      return Ok(results);
    }

    // ---- saving

    /** contentValuesForRecord: visits the column maps, then the belongs-tos;
      * a column whose value cannot be assigned adds an error named after
      * it. Returns the columns that were written. */
    method ContentValuesForRecord(record: Record, failures: map<string, string>) returns (written: seq<string>)
      modifies record
      ensures record.errors == old(record.errors) + FailureErrors(ColumnNames(schema), failures)
      ensures written == Written(ColumnNames(schema), failures)
      ensures record.values == old(record.values) && record.persisted == old(record.persisted)
      ensures record.syncState == old(record.syncState)
      ensures record.createdAt == old(record.createdAt) && record.updatedAt == old(record.updatedAt)
    {
      var names := ColumnNames(schema);
      assert names[..0] == [];
      // the column maps, then the belongs-tos
      written := AssignColumns(record, names, 0, |schema.columns|, failures, old(record.errors), []);
      written := AssignColumns(record, names, |schema.columns|, |names|, failures, old(record.errors), written);
      assert names[..|names|] == names;
    }

    /** One of the two loops of contentValuesForRecord, over the columns
      * `names[lo..hi]`, which it visits in order. */
    method AssignColumns(record: Record, names: seq<string>, lo: nat, hi: nat, failures: map<string, string>,
                         ghost prior: seq<RecordError>, written: seq<string>) returns (written': seq<string>)
      requires lo <= hi <= |names|
      requires record.errors == prior + FailureErrors(names[..lo], failures)
      requires written == Written(names[..lo], failures)
      modifies record
      ensures record.errors == prior + FailureErrors(names[..hi], failures)
      ensures written' == Written(names[..hi], failures)
      ensures record.values == old(record.values) && record.persisted == old(record.persisted)
      ensures record.syncState == old(record.syncState)
      ensures record.createdAt == old(record.createdAt) && record.updatedAt == old(record.updatedAt)
    {
      written' := written;
      var k := lo;
      while k < hi
        invariant lo <= k <= hi
        invariant record.errors == prior + FailureErrors(names[..k], failures)
        invariant written' == Written(names[..k], failures)
        invariant record.values == old(record.values) && record.persisted == old(record.persisted)
        invariant record.syncState == old(record.syncState)
        invariant record.createdAt == old(record.createdAt) && record.updatedAt == old(record.updatedAt)
      {
        AppendFailureStep(prior, names, k, failures);
        written' := AssignColumn(record, names[k], failures, written');
        k := k + 1;
      }
    }

    /** assignContentValue for one column, inside its try block: a failure
      * becomes an error named after the column. */
    method AssignColumn(record: Record, name: string, failures: map<string, string>, written: seq<string>)
      returns (written': seq<string>)
      modifies record
      ensures record.errors == old(record.errors) + ColumnFailure(name, failures)
      ensures written' == written + (if name in failures then [] else [name])
      ensures record.values == old(record.values) && record.persisted == old(record.persisted)
      ensures record.syncState == old(record.syncState)
      ensures record.createdAt == old(record.createdAt) && record.updatedAt == old(record.updatedAt)
    {
      if name in failures {
        record.AddErrorException(Some(name), failures[name]);
        written' := written;
      } else {
        written' := written + [name];
      }
    }

    /**
     * insertRecord / updateRecord (the two differ only in the statement
     * sent to the store): stamps updatedAt, assigns the columns, writes the
     * row and caches the record; an exception from the store adds a
     * record-wide error and skips the caching. Succeeds iff the record has
     * no errors afterwards.
     */
    method WriteRecord(record: Record, now: DateTime, a: Attempt) returns (ok: bool)
      requires Valid()
      modifies this, record
      ensures Valid()
      ensures record.errors == old(record.errors) + WriteErrors(ColumnNames(schema), a)
      ensures record.updatedAt == Some(now)
      ensures record.values == old(record.values) && record.persisted == old(record.persisted)
      ensures record.syncState == old(record.syncState) && record.createdAt == old(record.createdAt)
      ensures ok <==> record.errors == []
      ensures cache == if a.storeFailure.None? then old(cache)[record.id := record] else old(cache)
      ensures newRecords == old(newRecords) && changedRecords == old(changedRecords) && context == old(context)
    {
      record.Touch(now);
      var written := ContentValuesForRecord(record, a.failures);
      if a.storeFailure.Some? {
        record.AddErrorException(None, a.storeFailure.value);
      } else {
        CacheRecord(record);
      }
      ok := !record.HasErrors();
    }

    // The two write loops of save differ only in where a success is
    // reported and in that the first one also sets the persisted flag; one
    // method models both, `inserting` telling which.

    /** The records a loop of save has not visited yet: they still have
      * their errors (`errs0`) and flags (`pers0`). */
    ghost predicate Untouched(todo: set<Record>, errs0: map<Record, seq<RecordError>>, pers0: map<Record, bool>)
      reads todo
    {
      forall x :: x in todo ==> x in errs0 && x in pers0 && x.errors == errs0[x] && x.persisted == pers0[x]
    }

    /** The records a loop of save has visited: each now has the errors
      * `expected` gives and the clock reading as updatedAt; an insert that
      * ended without errors also set the persisted flag. */
    ghost predicate Visited(done: set<Record>, now: DateTime, inserting: bool, pers0: map<Record, bool>,
                            expected: map<Record, seq<RecordError>>)
      reads done
    {
      forall x :: x in done ==>
        x in expected && x in pers0 &&
        x.errors == expected[x] && x.updatedAt == Some(now) &&
        (x.persisted <==> pers0[x] || (inserting && expected[x] == []))
    }

    /** The set a loop of save reports successes in. */
    function Successes(result: SaveResult<Record>, inserting: bool): set<Record>
      reads result
    {
      if inserting then result.inserted else result.updated
    }

    /** The result so far: the visited records that ended without errors
      * were reported as successes, the others as errored; the third set is
      * untouched. `ok0`, `err0` and `other0` are the sets before the loop. */
    ghost predicate Reported(result: SaveResult<Record>, inserting: bool, done: set<Record>, expected: map<Record, seq<RecordError>>,
                             ok0: set<Record>, err0: set<Record>, other0: set<Record>)
      reads result
    {
      ok0 <= Successes(result, inserting) && err0 <= result.errored &&
      (if inserting then result.updated else result.inserted) == other0 &&
      (forall x :: x in Successes(result, inserting) ==> x in ok0 || (x in done && x in expected && expected[x] == [])) &&
      (forall x :: x in result.errored ==> x in err0 || (x in done && x in expected && expected[x] != [])) &&
      (forall x :: x in done && x in expected ==>
                    (expected[x] == [] ==> x in Successes(result, inserting)) && (expected[x] != [] ==> x in result.errored))
    }

    /** The record half of one iteration: insertRecord or updateRecord,
      * then, for an insert that succeeded, the persisted flag. */
    method WriteOne(r: Record, now: DateTime, a: Attempt, inserting: bool,
                    ghost errs0: map<Record, seq<RecordError>>, ghost pers0: map<Record, bool>,
                    ghost expected: map<Record, seq<RecordError>>, ghost done: set<Record>, ghost todo: set<Record>)
      returns (ok: bool)
      requires Valid()
      requires r in todo && todo !! done
      requires Untouched(todo, errs0, pers0) && Visited(done, now, inserting, pers0, expected)
      requires r in expected && expected[r] == errs0[r] + WriteErrors(ColumnNames(schema), a)
      modifies this, r
      ensures Valid()
      ensures Untouched(todo - {r}, errs0, pers0) && Visited(done + {r}, now, inserting, pers0, expected)
      ensures ok <==> expected[r] == []
      ensures cache == if a.storeFailure.None? then old(cache)[r.id := r] else old(cache)
      ensures newRecords == old(newRecords) && changedRecords == old(changedRecords) && context == old(context)
    {
      ok := WriteRecord(r, now, a);
      assert Untouched(todo - {r}, errs0, pers0);
      if ok && inserting {
        r.persisted := true;
      }
    }

    /** The result half of one iteration. */
    method ReportOne(result: SaveResult<Record>, r: Record, ok: bool, inserting: bool,
                     ghost expected: map<Record, seq<RecordError>>, ghost done: set<Record>,
                     ghost ok0: set<Record>, ghost err0: set<Record>, ghost other0: set<Record>)
      requires r in expected && (ok <==> expected[r] == [])
      requires Reported(result, inserting, done, expected, ok0, err0, other0)
      modifies result
      ensures Reported(result, inserting, done + {r}, expected, ok0, err0, other0)
    {
      if !ok {
        result.AddErrored(r);
      } else if inserting {
        result.AddInserted(r);
      } else {
        result.AddUpdated(r);
      }
    }

    /** One iteration of a write loop of save, for record `r`. */
    method WriteStep(result: SaveResult<Record>, r: Record, now: DateTime, a: Attempt, inserting: bool,
                     ghost errs0: map<Record, seq<RecordError>>, ghost pers0: map<Record, bool>,
                     ghost expected: map<Record, seq<RecordError>>, ghost done: set<Record>, ghost todo: set<Record>,
                     ghost ok0: set<Record>, ghost err0: set<Record>, ghost other0: set<Record>)
      requires Valid()
      requires r in todo && todo !! done
      requires Untouched(todo, errs0, pers0) && Visited(done, now, inserting, pers0, expected)
      requires r in expected && expected[r] == errs0[r] + WriteErrors(ColumnNames(schema), a)
      requires Reported(result, inserting, done, expected, ok0, err0, other0)
      modifies this, result, r
      ensures Valid()
      ensures Untouched(todo - {r}, errs0, pers0) && Visited(done + {r}, now, inserting, pers0, expected)
      ensures Reported(result, inserting, done + {r}, expected, ok0, err0, other0)
      ensures cache == if a.storeFailure.None? then old(cache)[r.id := r] else old(cache)
      ensures newRecords == old(newRecords) && changedRecords == old(changedRecords) && context == old(context)
    {
      var ok := WriteOne(r, now, a, inserting, errs0, pers0, expected, done, todo);
      ReportOne(result, r, ok, inserting, expected, done, ok0, err0, other0);
    }

    /** The errors each record of `all` ends a write loop with. */
    ghost predicate Expected(all: set<Record>, outcomes: map<Record, Attempt>,
                             errs0: map<Record, seq<RecordError>>, expected: map<Record, seq<RecordError>>)
    {
      forall x :: x in all ==>
        x in errs0 && x in expected && expected[x] == errs0[x] + WriteErrors(ColumnNames(schema), AttemptFor(outcomes, x))
    }

    /** Where a write loop of save stands: `done` visited, `todo` not yet;
      * `stored` lists, in order, the visited records the store accepted
      * (`accepted` as a set), and the cache is the one before the loop with
      * each of them cached in turn. */
    ghost predicate WriteLoop(result: SaveResult<Record>, now: DateTime, outcomes: map<Record, Attempt>, inserting: bool,
                              errs0: map<Record, seq<RecordError>>, pers0: map<Record, bool>,
                              expected: map<Record, seq<RecordError>>,
                              ok0: set<Record>, err0: set<Record>, other0: set<Record>, cache0: map<ObjectId, Record>,
                              all: set<Record>, todo: set<Record>, done: set<Record>,
                              stored: seq<Record>, accepted: set<Record>)
      reads this, result, todo, done
    {
      Valid() && todo !! done && todo + done == all &&
      Untouched(todo, errs0, pers0) && Visited(done, now, inserting, pers0, expected) &&
      Reported(result, inserting, done, expected, ok0, err0, other0) &&
      cache == Cached(cache0, stored) && Elements(stored) == accepted &&
      accepted <= done &&
      (forall x :: x in done ==> (x in accepted <==> AttemptFor(outcomes, x).storeFailure.None?))
    }

    /** One iteration of a write loop, on a record it picks from `todo`. */
    method WriteLoopStep(result: SaveResult<Record>, now: DateTime, outcomes: map<Record, Attempt>, inserting: bool,
                         ghost errs0: map<Record, seq<RecordError>>, ghost pers0: map<Record, bool>,
                         ghost expected: map<Record, seq<RecordError>>,
                         ghost ok0: set<Record>, ghost err0: set<Record>, ghost other0: set<Record>,
                         ghost cache0: map<ObjectId, Record>, ghost all: set<Record>,
                         todo: set<Record>, ghost done: set<Record>, ghost stored: seq<Record>, ghost accepted: set<Record>)
      returns (todo': set<Record>, ghost done': set<Record>, ghost stored': seq<Record>, ghost accepted': set<Record>)
      requires todo != {}
      requires Expected(all, outcomes, errs0, expected)
      requires WriteLoop(result, now, outcomes, inserting, errs0, pers0, expected, ok0, err0, other0, cache0,
                         all, todo, done, stored, accepted)
      modifies this, result, todo
      ensures WriteLoop(result, now, outcomes, inserting, errs0, pers0, expected, ok0, err0, other0, cache0,
                        all, todo', done', stored', accepted')
      ensures todo' < todo
      ensures newRecords == old(newRecords) && changedRecords == old(changedRecords) && context == old(context)
    {
      var r :| r in todo;
      WriteStep(result, r, now, AttemptFor(outcomes, r), inserting, errs0, pers0, expected, done, todo, ok0, err0, other0);
      if AttemptFor(outcomes, r).storeFailure.None? {
        CachedStep(cache0, stored, r);
        ElementsStep(stored, r);
        stored', accepted' := stored + [r], accepted + {r};
      } else {
        stored', accepted' := stored, accepted;
      }
      MoveOne(todo, done, r);
      todo', done' := todo - {r}, done + {r};
    }

    /** A write loop of save over `queue`, stated through the ghost
      * snapshots of the records' errors and flags taken before it. */
    method WriteQueue(result: SaveResult<Record>, now: DateTime, outcomes: map<Record, Attempt>, inserting: bool, queue: set<Record>,
                      ghost errs0: map<Record, seq<RecordError>>, ghost pers0: map<Record, bool>,
                      ghost expected: map<Record, seq<RecordError>>)
      returns (ghost stored: seq<Record>)
      requires Valid()
      requires Untouched(queue, errs0, pers0) && Expected(queue, outcomes, errs0, expected)
      modifies this, result, queue
      ensures Valid()
      ensures newRecords == old(newRecords) && changedRecords == old(changedRecords) && context == old(context)
      ensures Visited(queue, now, inserting, pers0, expected)
      ensures Reported(result, inserting, queue, expected, old(Successes(result, inserting)), old(result.errored),
                       old(if inserting then result.updated else result.inserted))
      ensures Elements(stored) <= queue
      ensures forall x :: x in queue ==> (x in Elements(stored) <==> AttemptFor(outcomes, x).storeFailure.None?)
      ensures cache == Cached(old(cache), stored)
    {
      ghost var ok0, err0, cache0 := Successes(result, inserting), result.errored, cache;
      ghost var other0 := if inserting then result.updated else result.inserted;
      var todo := queue;
      ghost var done, accepted: set<Record> := {}, {};
      stored := [];
      while todo != {}
        invariant WriteLoop(result, now, outcomes, inserting, errs0, pers0, expected, ok0, err0, other0, cache0,
                            queue, todo, done, stored, accepted)
        invariant newRecords == old(newRecords) && changedRecords == old(changedRecords) && context == old(context)
        decreases todo
      {
        todo, done, stored, accepted := WriteLoopStep(result, now, outcomes, inserting, errs0, pers0, expected,
                                                      ok0, err0, other0, cache0, queue, todo, done, stored, accepted);
      }
    }

    /**
     * The first two loops of save: every record of `queue` (the new
     * records when `inserting`, the changed ones otherwise) is written;
     * one that ends without errors is reported as inserted (and becomes
     * persisted) or as updated, any other as errored. `stored` lists the
     * records the store accepted, in the order they were written, and the
     * cache is the old one with each of them cached in turn.
     */
    method WriteAll(result: SaveResult<Record>, now: DateTime, outcomes: map<Record, Attempt>, inserting: bool, queue: set<Record>)
      returns (ghost stored: seq<Record>)
      requires Valid()
      modifies this, result, queue
      ensures Valid()
      ensures newRecords == old(newRecords) && changedRecords == old(changedRecords) && context == old(context)
      ensures forall x :: x in queue ==>
                x.errors == old(x.errors) + WriteErrors(ColumnNames(schema), AttemptFor(outcomes, x)) &&
                x.updatedAt == Some(now) && (x.persisted <==> old(x.persisted) || (inserting && x.errors == []))
      ensures forall x :: x in Successes(result, inserting) <==>
                x in old(Successes(result, inserting)) || (x in queue && x.errors == [])
      ensures forall x :: x in result.errored <==> x in old(result.errored) || (x in queue && x.errors != [])
      ensures if inserting then result.updated == old(result.updated) else result.inserted == old(result.inserted)
      ensures forall x :: x in stored <==> x in queue && AttemptFor(outcomes, x).storeFailure.None?
      ensures cache == Cached(old(cache), stored)
    {
      ghost var errs0 := map x | x in queue :: x.errors;
      ghost var pers0 := map x | x in queue :: x.persisted;
      ghost var expected := map x | x in queue :: errs0[x] + WriteErrors(ColumnNames(schema), AttemptFor(outcomes, x));
      stored := WriteQueue(result, now, outcomes, inserting, queue, errs0, pers0, expected);
      ElementsMeaning(stored);
    }

    /** The errors a record has after one write loop of save: the loop's
      * write appends its errors when the record is in the loop's queue. */
    function AfterLoop(errs: seq<RecordError>, queued: bool, a: Attempt): seq<RecordError> {
      if queued then errs + WriteErrors(ColumnNames(schema), a) else errs
    }

    /**
     * What save reports for the queues `news` and `changes`, whose records
     * had the errors `errs` before it: a new record is inserted when its
     * insert leaves it without errors, a changed record is updated when it
     * ends both write loops without errors, and every other queued record
     * is errored.
     */
    /** A new record ends the insert loop without errors. */
    predicate InsertsClean(errs: map<Record, seq<RecordError>>, ins: map<Record, Attempt>, x: Record) {
      AfterLoop(ErrorsBefore(errs, x), true, AttemptFor(ins, x)) == []
    }

    /** A changed record ends both write loops without errors. */
    predicate UpdatesClean(news: set<Record>, errs: map<Record, seq<RecordError>>,
                           ins: map<Record, Attempt>, upd: map<Record, Attempt>, x: Record) {
      AfterLoop(AfterLoop(ErrorsBefore(errs, x), x in news, AttemptFor(ins, x)), true, AttemptFor(upd, x)) == []
    }

    /** The new records whose insert leaves them without errors. */
    ghost function CleanInserts(news: set<Record>, errs: map<Record, seq<RecordError>>, ins: map<Record, Attempt>): set<Record> {
      set x | x in news && InsertsClean(errs, ins, x)
    }

    /** The changed records that end both write loops without errors. */
    ghost function CleanUpdates(news: set<Record>, changes: set<Record>, errs: map<Record, seq<RecordError>>,
                                ins: map<Record, Attempt>, upd: map<Record, Attempt>): set<Record> {
      set x | x in changes && UpdatesClean(news, errs, ins, upd, x)
    }

    ghost function SaveOutcome(news: set<Record>, changes: set<Record>, errs: map<Record, seq<RecordError>>,
                               ins: map<Record, Attempt>, upd: map<Record, Attempt>): (v: SaveView<Record>)
      ensures QueuedIn(v, news, changes) && v.inserted + v.updated + v.errored == news + changes
    {
      var inserted := CleanInserts(news, errs, ins);
      var updated := CleanUpdates(news, changes, errs, ins, upd);
      SaveView(inserted, updated, (news - inserted) + (changes - updated))
    }

    /**
     * save: inserts every new record and updates every changed one (the
     * store's outcome for each comes from `ins` and `upd`), reporting each
     * as a success or as errored by whether it ends its write without
     * errors; then the successes leave their queue, while errored records
     * stay queued. `stored1` and `stored2` list, in order, the records the
     * store accepted in the two loops; each was cached in turn.
     */
    method Save(now: DateTime, ins: map<Record, Attempt>, upd: map<Record, Attempt>)
      returns (result: SaveResult<Record>, ghost stored1: seq<Record>, ghost stored2: seq<Record>)
      requires Valid()
      modifies this, newRecords, changedRecords
      ensures Valid() && fresh(result) && context == old(context)
      ensures forall x :: x in old(newRecords) || x in old(changedRecords) ==>
                x.errors == AfterLoop(AfterLoop(old(x.errors), x in old(newRecords), AttemptFor(ins, x)),
                                      x in old(changedRecords), AttemptFor(upd, x)) &&
                x.updatedAt == Some(now) && (x.persisted <==> old(x.persisted) || x in result.inserted)
      ensures forall x :: x in result.inserted <==>
                x in old(newRecords) && old(x.errors) + WriteErrors(ColumnNames(schema), AttemptFor(ins, x)) == []
      ensures forall x :: x in result.updated <==> x in old(changedRecords) && x.errors == []
      ensures forall x :: x in result.errored <==>
                (x in old(newRecords) && x !in result.inserted) || (x in old(changedRecords) && x !in result.updated)
      ensures newRecords == old(newRecords) - result.inserted
      ensures changedRecords == old(changedRecords) - result.updated
      ensures forall x :: x in stored1 <==> x in old(newRecords) && AttemptFor(ins, x).storeFailure.None?
      ensures forall x :: x in stored2 <==> x in old(changedRecords) && AttemptFor(upd, x).storeFailure.None?
      ensures cache == Cached(Cached(old(cache), stored1), stored2)
      ensures result.View() == SaveOutcome(old(newRecords), old(changedRecords),
                                           old(ErrorsOf(newRecords + changedRecords)), ins, upd)
    {
      ghost var errs := ErrorsOf(newRecords + changedRecords);
      ErrorsOfMeaning(newRecords + changedRecords);
      result, stored1, stored2 := SaveQueues(now, ins, upd);
      assert forall x :: x in old(newRecords) + old(changedRecords) ==> ErrorsBefore(errs, x) == old(x.errors);
      assert forall x :: x in result.inserted <==> x in old(newRecords) && InsertsClean(errs, ins, x);
      assert forall x :: x in result.updated <==> x in old(changedRecords) && UpdatesClean(old(newRecords), errs, ins, upd, x);
      OutcomeIs(old(newRecords), old(changedRecords), errs, ins, upd, result.View());
    }

    /** The writes and removals of save, which Save states as an outcome. */
    method SaveQueues(now: DateTime, ins: map<Record, Attempt>, upd: map<Record, Attempt>)
      returns (result: SaveResult<Record>, ghost stored1: seq<Record>, ghost stored2: seq<Record>)
      requires Valid()
      modifies this, newRecords, changedRecords
      ensures Valid() && fresh(result) && context == old(context)
      ensures forall x :: x in old(newRecords) || x in old(changedRecords) ==>
                x.errors == AfterLoop(AfterLoop(old(x.errors), x in old(newRecords), AttemptFor(ins, x)),
                                      x in old(changedRecords), AttemptFor(upd, x)) &&
                x.updatedAt == Some(now) && (x.persisted <==> old(x.persisted) || x in result.inserted)
      ensures forall x :: x in result.inserted <==>
                x in old(newRecords) && old(x.errors) + WriteErrors(ColumnNames(schema), AttemptFor(ins, x)) == []
      ensures forall x :: x in result.updated <==> x in old(changedRecords) && x.errors == []
      ensures forall x :: x in result.errored <==>
                (x in old(newRecords) && x !in result.inserted) || (x in old(changedRecords) && x !in result.updated)
      ensures newRecords == old(newRecords) - result.inserted
      ensures changedRecords == old(changedRecords) - result.updated
      ensures forall x :: x in stored1 <==> x in old(newRecords) && AttemptFor(ins, x).storeFailure.None?
      ensures forall x :: x in stored2 <==> x in old(changedRecords) && AttemptFor(upd, x).storeFailure.None?
      ensures cache == Cached(Cached(old(cache), stored1), stored2)
    {
      result := new SaveResult<Record>();
      stored1 := WriteAll(result, now, ins, true, newRecords);
      stored2 := WriteAll(result, now, upd, false, changedRecords);
      newRecords := Without(newRecords, result.inserted);
      changedRecords := Without(changedRecords, result.updated);
    }

    /** A view that reports exactly what save decides reports the outcome. */
    lemma OutcomeIs(news: set<Record>, changes: set<Record>, errs: map<Record, seq<RecordError>>,
                    ins: map<Record, Attempt>, upd: map<Record, Attempt>, v: SaveView<Record>)
      requires forall x :: x in v.inserted <==> x in news && InsertsClean(errs, ins, x)
      requires forall x :: x in v.updated <==> x in changes && UpdatesClean(news, errs, ins, upd, x)
      requires forall x :: x in v.errored <==> (x in news && x !in v.inserted) || (x in changes && x !in v.updated)
      ensures v == SaveOutcome(news, changes, errs, ins, upd)
    {
      var w := SaveOutcome(news, changes, errs, ins, upd);
      assert v.inserted == w.inserted;
      assert v.updated == w.updated;
      assert v.errored == w.errored;
    }

    /** The outcome depends only on the errors of the queued records. */
    lemma OutcomeLocal(news: set<Record>, changes: set<Record>, e1: map<Record, seq<RecordError>>,
                       e2: map<Record, seq<RecordError>>, ins: map<Record, Attempt>, upd: map<Record, Attempt>)
      requires forall x :: x in news + changes ==> ErrorsBefore(e1, x) == ErrorsBefore(e2, x)
      ensures SaveOutcome(news, changes, e1, ins, upd) == SaveOutcome(news, changes, e2, ins, upd)
    {
      CleanLocal(news, changes, e1, e2, ins, upd);
      assert CleanInserts(news, e1, ins) == CleanInserts(news, e2, ins);
      assert CleanUpdates(news, changes, e1, ins, upd) == CleanUpdates(news, changes, e2, ins, upd);
    }

    lemma CleanLocal(news: set<Record>, changes: set<Record>, e1: map<Record, seq<RecordError>>,
                     e2: map<Record, seq<RecordError>>, ins: map<Record, Attempt>, upd: map<Record, Attempt>)
      requires forall x :: x in news + changes ==> ErrorsBefore(e1, x) == ErrorsBefore(e2, x)
      ensures forall x :: x in news ==> (InsertsClean(e1, ins, x) <==> InsertsClean(e2, ins, x))
      ensures forall x :: x in changes ==> (UpdatesClean(news, e1, ins, upd, x) <==> UpdatesClean(news, e2, ins, upd, x))
    {
    }

    /** The two removal loops of save: each reported record still in the
      * queue is removed from it. */
    static method Without<R(==)>(queue: set<R>, gone: set<R>) returns (rest: set<R>)
      ensures rest == queue - gone
    {
      rest := queue;
      var left := gone;
      while left != {}
        invariant left <= gone
        invariant rest == queue - (gone - left)
        decreases left
      {
        var r :| r in left;
        if r in rest {
          rest := rest - {r};
        }
        left := left - {r};
      }
    }
  }

  // ---- DbSet (Lib): the lazily filled result of a query

  /** How deserializeRow reaches a row: the cursor is moved to the first
    * row when the set is built and never moved again, so as written every
    * row is read from position 0; the documented behaviour reads row k for
    * the k-th record. */
  function RowRead(k: int, advances: bool): int {
    if advances then k else 0
  }

  /** The message of the RuntimeException a failed row raises. */
  const RowFailure := Runtime("Error deserializing database row")

  class ResultSet {
    const collection: Collection
    /** The cursor's rows, in the order the store returns them. */
    const rows: seq<Row>
    /** The positions of the rows whose deserialisation throws (the model
      * class cannot be instantiated, or a column cannot be read). */
    const broken: set<int>
    var records: seq<Record>
    var computedIndex: int

    /** computedIndex counts up from -1 and stays below the size; one
      * record per computed row is kept, except that a row that threw
      * leaves the counter one ahead of the list. */
    predicate Valid()
      reads this
    {
      -1 <= computedIndex <= |rows| - 1 && |records| <= computedIndex + 1
    }

    /** No row has thrown: one record per computed row. */
    predicate Healthy()
      reads this
    {
      |records| == computedIndex + 1
    }

    /** The counter compute(i) stops at when no row throws. */
    function Target(i: int): (t: int)
      reads this
      requires Valid()
      ensures computedIndex <= t <= if computedIndex < |rows| - 1 then |rows| - 1 else computedIndex
      ensures computedIndex < i ==> (t == i || t == |rows| - 1)
    {
      if computedIndex < i && computedIndex < |rows| - 1 then (if i < |rows| - 1 then i else |rows| - 1)
      else computedIndex
    }

    /** None of the rows read for counters lo+1 .. hi throws. */
    predicate NoneBroken(lo: int, hi: int, advances: bool)
      reads this
    {
      forall k :: lo < k <= hi ==> RowRead(k, advances) !in broken
    }

    /** The set over the rows a query selected: size() is the row count
      * and nothing is computed yet. */
    constructor (collection: Collection, rows: seq<Row>, broken: set<int>)
      ensures this.collection == collection && this.rows == rows && this.broken == broken
      ensures records == [] && computedIndex == -1
      ensures Valid() && Healthy()
    {
      this.collection := collection;
      this.rows := rows;
      this.broken := broken;
      records := [];
      computedIndex := -1;
    }

    function Size(): (n: nat)
      ensures n == |rows|
    {
      |rows|
    }

    predicate IsEmpty()
      ensures IsEmpty() <==> Size() == 0
    {
      |rows| == 0
    }

    /** Where compute stands: the counter has moved from `ci0` towards
      * `target`, `loaded` lists the records deserialised so far, and each
      * is cached; while no row has thrown, the list is the one before plus
      * `loaded`. */
    ghost predicate Computing(advances: bool, ci0: int, cache0: map<ObjectId, Record>, target: int, healthy0: bool,
                              records0: seq<Record>, loaded: seq<Record>)
      reads this, collection
    {
      Valid() && collection.Valid() &&
      ci0 <= computedIndex <= target && (target == ci0 || target <= |rows| - 1) &&
      |loaded| == computedIndex - ci0 && healthy0 == (|records0| == ci0 + 1) &&
      (healthy0 ==> Healthy() && records == records0 + loaded && NoneBroken(ci0, computedIndex, advances)) &&
      (!healthy0 ==> records == records0 && loaded == []) &&
      collection.cache == Cached(cache0, loaded)
    }

    /** `rec` was read from the row counter `k` names. */
    ghost predicate ReadFrom(rec: Record, k: int, advances: bool)
      reads rec
    {
      0 <= RowRead(k, advances) < |rows| && Describes(rec, collection.schema.modelClass, rows[RowRead(k, advances)])
    }

    /** Each record of `loaded` was read from the row its counter names,
      * counting from `first`. */
    ghost predicate LoadedFrom(loaded: seq<Record>, first: int, advances: bool)
      reads set k | 0 <= k < |loaded| :: loaded[k]
    {
      forall k :: 0 <= k < |loaded| ==> ReadFrom(loaded[k], first + k, advances)
    }

    /** One iteration of compute's loop. `failed` tells that it threw. */
    method ReadNext(advances: bool, ghost ci0: int, ghost cache0: map<ObjectId, Record>, ghost target: int,
                    ghost healthy0: bool, ghost records0: seq<Record>, ghost loaded: seq<Record>)
      returns (failed: bool, ghost loaded': seq<Record>)
      requires computedIndex < target
      requires Computing(advances, ci0, cache0, target, healthy0, records0, loaded) && LoadedFrom(loaded, ci0 + 1, advances)
      modifies this, collection
      ensures |loaded| <= |loaded'| <= |loaded| + 1 && loaded'[..|loaded|] == loaded
      ensures forall k :: |loaded| <= k < |loaded'| ==> fresh(loaded'[k])
      ensures computedIndex == old(computedIndex) + 1
      ensures !failed ==> Computing(advances, ci0, cache0, target, healthy0, records0, loaded')
      ensures failed ==> Valid() && collection.Valid() && collection.cache == Cached(cache0, loaded')
      ensures LoadedFrom(loaded', ci0 + 1, advances)
      ensures failed && healthy0 ==>
                records == records0 + loaded' && |records| == computedIndex &&
                RowRead(computedIndex, advances) in broken && NoneBroken(ci0, computedIndex - 1, advances)
      ensures failed && !healthy0 ==> records == records0 && |loaded'| <= 1
      ensures collection.newRecords == old(collection.newRecords) && collection.changedRecords == old(collection.changedRecords)
      ensures collection.context == old(collection.context)
    {
      var at := RowRead(computedIndex + 1, advances);
      if at in broken {
        computedIndex := computedIndex + 1;
        return true, loaded;
      }
      failed, loaded' := ReadRow(at, advances, ci0, cache0, target, healthy0, records0, loaded);
    }

    /** The same iteration when the row deserialises: the record is cached,
      * then appended, which throws once an earlier row has thrown. */
    method ReadRow(at: int, advances: bool, ghost ci0: int, ghost cache0: map<ObjectId, Record>, ghost target: int,
                   ghost healthy0: bool, ghost records0: seq<Record>, ghost loaded: seq<Record>)
      returns (failed: bool, ghost loaded': seq<Record>)
      requires computedIndex < target && at == RowRead(computedIndex + 1, advances) && at !in broken
      requires Computing(advances, ci0, cache0, target, healthy0, records0, loaded) && LoadedFrom(loaded, ci0 + 1, advances)
      modifies this, collection
      ensures |loaded'| == |loaded| + 1 && loaded'[..|loaded|] == loaded && fresh(loaded'[|loaded|])
      ensures computedIndex == old(computedIndex) + 1
      ensures !failed ==> Computing(advances, ci0, cache0, target, healthy0, records0, loaded')
      ensures failed ==> !healthy0 && Valid() && collection.Valid() && collection.cache == Cached(cache0, loaded')
      ensures LoadedFrom(loaded', ci0 + 1, advances)
      ensures failed ==> records == records0 && |loaded'| <= 1
      ensures collection.newRecords == old(collection.newRecords) && collection.changedRecords == old(collection.changedRecords)
      ensures collection.context == old(collection.context)
    {
      ghost var records1 := records;
      var rec;
      rec, loaded' := LoadNext(at, advances, ci0, cache0, loaded);
      computedIndex := computedIndex + 1;
      if computedIndex > |records| {
        // ArrayList.add past the end of the list
        return true, loaded';
      }
      records := records + [rec];
      ComputedOneMore(advances, ci0, cache0, target, records0, loaded, rec, records1);
      failed := false;
    }

    /** Deserialises and caches the row after the counter. */
    method LoadNext(at: int, advances: bool, ghost ci0: int, ghost cache0: map<ObjectId, Record>, ghost loaded: seq<Record>)
      returns (rec: Record, ghost loaded': seq<Record>)
      requires at == RowRead(computedIndex + 1, advances) && 0 <= at < |rows| && computedIndex < |rows| - 1
      requires collection.Valid() && collection.cache == Cached(cache0, loaded)
      requires |loaded| == computedIndex - ci0 && LoadedFrom(loaded, ci0 + 1, advances)
      modifies collection
      ensures loaded' == loaded + [rec] && fresh(rec) && loaded'[..|loaded|] == loaded
      ensures collection.Valid() && collection.cache == Cached(cache0, loaded')
      ensures LoadedFrom(loaded', ci0 + 1, advances)
      ensures collection.newRecords == old(collection.newRecords) && collection.changedRecords == old(collection.changedRecords)
      ensures collection.context == old(collection.context)
    {
      rec := LoadRow(at, cache0, loaded);
      LoadedFromStep(loaded, rec, ci0 + 1, advances, at);
      loaded' := loaded + [rec];
    }

    /** After a row deserialises and its record is appended to a list that
      * had one record per computed row, compute still stands as Computing
      * says, with the new record loaded. */
    lemma ComputedOneMore(advances: bool, ci0: int, cache0: map<ObjectId, Record>, target: int,
                          records0: seq<Record>, loaded: seq<Record>, rec: Record, records1: seq<Record>)
      requires Valid() && collection.Valid() && collection.cache == Cached(cache0, loaded + [rec])
      requires ci0 < computedIndex <= target && (target == ci0 || target <= |rows| - 1)
      requires |loaded| + 1 == computedIndex - ci0 && |records0| == ci0 + 1
      requires records1 == records0 + loaded && records == records1 + [rec]
      requires NoneBroken(ci0, computedIndex - 1, advances) && RowRead(computedIndex, advances) !in broken
      ensures Computing(advances, ci0, cache0, target, true, records0, loaded + [rec])
    {
      assert records0 + loaded + [rec] == records0 + (loaded + [rec]);
    }

    /** Deserialises one row and caches the record. */
    method LoadRow(at: int, ghost cache0: map<ObjectId, Record>, ghost loaded: seq<Record>) returns (rec: Record)
      requires 0 <= at < |rows| && collection.Valid() && collection.cache == Cached(cache0, loaded)
      modifies collection
      ensures fresh(rec) && Describes(rec, collection.schema.modelClass, rows[at])
      ensures collection.Valid() && collection.cache == Cached(cache0, loaded + [rec])
      ensures collection.newRecords == old(collection.newRecords) && collection.changedRecords == old(collection.changedRecords)
      ensures collection.context == old(collection.context)
    {
      rec := collection.DeserializeRow(rows[at]);
      collection.CacheRecord(rec);
      CachedStep(cache0, loaded, rec);
    }

    lemma LoadedFromStep(loaded: seq<Record>, rec: Record, first: int, advances: bool, at: int)
      requires LoadedFrom(loaded, first, advances)
      requires at == RowRead(first + |loaded|, advances) && 0 <= at < |rows|
      requires Describes(rec, collection.schema.modelClass, rows[at])
      ensures LoadedFrom(loaded + [rec], first, advances) && (loaded + [rec])[..|loaded|] == loaded
    {
      var l := loaded + [rec];
      assert ReadFrom(rec, first + |loaded|, advances);
      assert forall k :: 0 <= k < |loaded| ==> l[k] == loaded[k];
    }

    /**
     * compute(i), reading rows as `advances` says: deserialises rows one
     * at a time until the counter reaches i or the last row, caching each
     * new record in the collection and appending it to the list, then
     * returns the i-th record. A row that throws ends it with a
     * RuntimeException; so does appending once an earlier row has thrown,
     * after the record was already cached. Asking for a position past the
     * computed records fails on the list lookup. `loaded` lists the records
     * deserialised, in order.
     */
    method ComputeReading(i: int, advances: bool) returns (r: Result<Record>, ghost loaded: seq<Record>)
      requires Valid() && collection.Valid()
      modifies this, collection
      ensures Valid() && collection.Valid()
      ensures old(computedIndex) <= computedIndex
      ensures records == old(records) + loaded || (!old(Healthy()) && records == old(records) && |loaded| <= 1)
      ensures forall k :: 0 <= k < |loaded| ==> fresh(loaded[k])
      ensures LoadedFrom(loaded, old(computedIndex) + 1, advances)
      ensures collection.cache == Cached(old(collection.cache), loaded)
      ensures r.Ok? <==> 0 <= i < |records|
      ensures r.Ok? ==> r.value == records[i]
      ensures r.Err? ==> r.error == IndexOutOfBounds(i) || r.error == RowFailure
      ensures old(Healthy()) && NoneBroken(old(computedIndex), old(Target(i)), advances) ==>
                Healthy() && computedIndex == old(Target(i)) && (r.Err? ==> r.error == IndexOutOfBounds(i))
      ensures old(Healthy()) && !NoneBroken(old(computedIndex), old(Target(i)), advances) ==>
                r == Err(RowFailure) && |records| == computedIndex && RowRead(computedIndex, advances) in broken
      ensures collection.newRecords == old(collection.newRecords) && collection.changedRecords == old(collection.changedRecords)
      ensures collection.context == old(collection.context)
    {
      var failed;
      failed, loaded := ReadUpTo(i, advances);
      if failed {
        return Err(RowFailure), loaded;
      }
      if 0 <= i < |records| {
        return Ok(records[i]), loaded;
      }
      return Err(IndexOutOfBounds(i)), loaded;
    }

    /** compute's loop: reads rows until the counter reaches i or the last
      * row, or one iteration throws (`failed`). */
    method ReadUpTo(i: int, advances: bool) returns (failed: bool, ghost loaded: seq<Record>)
      requires Valid() && collection.Valid()
      modifies this, collection
      ensures Valid() && collection.Valid()
      ensures old(computedIndex) <= computedIndex
      ensures records == old(records) + loaded || (!old(Healthy()) && records == old(records) && |loaded| <= 1)
      ensures forall k :: 0 <= k < |loaded| ==> fresh(loaded[k])
      ensures LoadedFrom(loaded, old(computedIndex) + 1, advances)
      ensures collection.cache == Cached(old(collection.cache), loaded)
      ensures failed ==> |records| <= i
      ensures !failed ==> computedIndex == old(Target(i)) && (old(Healthy()) ==> records == old(records) + loaded && Healthy())
      ensures old(Healthy()) ==> (failed <==> !NoneBroken(old(computedIndex), old(Target(i)), advances))
      ensures failed && old(Healthy()) ==> |records| == computedIndex && RowRead(computedIndex, advances) in broken
      ensures collection.newRecords == old(collection.newRecords) && collection.changedRecords == old(collection.changedRecords)
      ensures collection.context == old(collection.context)
    {
      ghost var ci0, cache0, target, records0 := computedIndex, collection.cache, Target(i), records;
      ghost var healthy0 := Healthy();
      loaded := [];
      while computedIndex < i && computedIndex < |rows| - 1
        invariant Computing(advances, ci0, cache0, target, healthy0, records0, loaded) && LoadedFrom(loaded, ci0 + 1, advances)
        invariant forall k :: 0 <= k < |loaded| ==> fresh(loaded[k])
        invariant collection.newRecords == old(collection.newRecords) && collection.changedRecords == old(collection.changedRecords)
        invariant collection.context == old(collection.context)
      {
        failed, loaded := ReadNext(advances, ci0, cache0, target, healthy0, records0, loaded);
        if failed {
          return;
        }
      }
      failed := false;
    }

    /**
     * compute(i) as documented: the k-th record is read from the k-th row.
     * When no row has thrown before and none of the rows it reads throws,
     * the counter ends at min(i, size-1) (or stays, if already past i) and
     * every new record describes its own row.
     */
    method Compute(i: int) returns (r: Result<Record>, ghost loaded: seq<Record>)
      requires Valid() && collection.Valid()
      modifies this, collection
      ensures Valid() && collection.Valid()
      ensures old(computedIndex) <= computedIndex && |old(records)| <= |records| && records[..|old(records)|] == old(records)
      ensures r.Ok? <==> 0 <= i < |records|
      ensures r.Ok? ==> r.value == records[i]
      ensures r.Err? ==> r.error == IndexOutOfBounds(i) || r.error == RowFailure
      ensures old(Healthy()) && NoneBroken(old(computedIndex), old(Target(i)), true) ==>
                Healthy() && computedIndex == old(Target(i)) && (r.Err? ==> r.error == IndexOutOfBounds(i)) &&
                records == old(records) + loaded &&
                forall k :: |old(records)| <= k < |records| ==>
                  fresh(records[k]) && Describes(records[k], collection.schema.modelClass, rows[k])
      ensures old(Healthy()) && !NoneBroken(old(computedIndex), old(Target(i)), true) ==> r == Err(RowFailure)
      ensures collection.cache == Cached(old(collection.cache), loaded)
      ensures collection.newRecords == old(collection.newRecords) && collection.changedRecords == old(collection.changedRecords)
      ensures collection.context == old(collection.context)
    {
      ghost var records0, ci0 := records, computedIndex;
      ghost var whole := Healthy() && NoneBroken(computedIndex, Target(i), true);
      r, loaded := ComputeReading(i, true);
      if whole {
        LoadedInPlace(records0, loaded);
      }
    }

    /** Records read with a moving cursor and appended after one record per
      * computed row each describe the row at their own position. */
    lemma LoadedInPlace(records0: seq<Record>, loaded: seq<Record>)
      requires LoadedFrom(loaded, |records0|, true)
      ensures forall k :: |records0| <= k < |records0| + |loaded| ==>
                Describes((records0 + loaded)[k], collection.schema.modelClass, rows[k])
    {
      forall k | |records0| <= k < |records0| + |loaded|
        ensures Describes((records0 + loaded)[k], collection.schema.modelClass, rows[k])
      {
        assert (records0 + loaded)[k] == loaded[k - |records0|];
        assert ReadFrom(loaded[k - |records0|], k, true);
      }
    }

    /**
     * compute(i) as written: the cursor never moves off the first row, so
     * every record it deserialises describes row 0, and the second record
     * of a set whose first two rows differ is not the second row's.
     */
    method ComputeAsWritten(i: int) returns (r: Result<Record>, ghost loaded: seq<Record>)
      requires Valid() && collection.Valid()
      modifies this, collection
      ensures Valid() && collection.Valid()
      ensures r.Ok? <==> 0 <= i < |records|
      ensures r.Ok? ==> r.value == records[i]
      ensures forall k :: 0 <= k < |loaded| ==>
                fresh(loaded[k]) && |rows| > 0 && Describes(loaded[k], collection.schema.modelClass, rows[0])
      ensures old(Healthy()) && NoneBroken(old(computedIndex), old(Target(i)), false) ==>
                records == old(records) + loaded && computedIndex == old(Target(i))
      ensures old(records) == [] && old(Healthy()) && 0 !in broken && i >= 1 && |rows| >= 2 && Loaded(rows[0]) != Loaded(rows[1]) ==>
                |records| >= 2 && !Describes(records[1], collection.schema.modelClass, rows[1])
      ensures collection.cache == Cached(old(collection.cache), loaded)
    {
      r, loaded := ComputeReading(i, false);
    }

    /** first(): compute(0). */
    method First() returns (r: Result<Record>, ghost loaded: seq<Record>)
      requires Valid() && collection.Valid()
      modifies this, collection
      ensures Valid() && collection.Valid()
      ensures r.Ok? <==> |records| > 0
      ensures r.Ok? ==> r.value == records[0]
      ensures old(Healthy()) && NoneBroken(old(computedIndex), old(Target(0)), true) ==>
                (r.Ok? <==> |rows| > 0) && (r.Err? ==> r.error == IndexOutOfBounds(0)) &&
                (r.Ok? && old(records) == [] ==> fresh(r.value) && Describes(r.value, collection.schema.modelClass, rows[0]))
      ensures collection.cache == Cached(old(collection.cache), loaded)
    {
      r, loaded := Compute(0);
    }

    /** next(): compute(computedIndex + 1), so successive calls on a set
      * with no failing row return successive rows' records. */
    method Next() returns (r: Result<Record>, ghost loaded: seq<Record>)
      requires Valid() && collection.Valid()
      modifies this, collection
      ensures Valid() && collection.Valid()
      ensures old(Healthy()) && NoneBroken(old(computedIndex), old(Target(computedIndex + 1)), true) ==>
                Healthy() &&
                (r.Ok? <==> old(computedIndex) + 1 < |rows|) &&
                (r.Ok? ==> computedIndex == old(computedIndex) + 1 && r.value == records[computedIndex] &&
                           fresh(r.value) && Describes(r.value, collection.schema.modelClass, rows[computedIndex])) &&
                (r.Err? ==> r.error == IndexOutOfBounds(old(computedIndex) + 1) && computedIndex == old(computedIndex))
      ensures old(Healthy()) && old(computedIndex) + 1 < |rows| && old(computedIndex) + 1 in broken ==> r == Err(RowFailure)
      ensures collection.cache == Cached(old(collection.cache), loaded)
      ensures collection.newRecords == old(collection.newRecords) && collection.changedRecords == old(collection.changedRecords)
      ensures collection.context == old(collection.context)
    {
      if computedIndex + 1 < |rows| && computedIndex + 1 in broken {
        assert RowRead(computedIndex + 1, true) == Target(computedIndex + 1);
      }
      r, loaded := Compute(computedIndex + 1);
    }

    /** toArray(): computes every row, then copies the records into an
      * array of size() elements. A failure of compute passes through: a
      * row that does not deserialise, or the last row's record missing
      * because an earlier read of it already failed. */
    method ToArray() returns (r: Result<array<Record?>>, ghost loaded: seq<Record>)
      requires Valid() && collection.Valid()
      modifies this, collection
      ensures Valid() && collection.Valid()
      ensures r.Err? ==> r.error == RowFailure || r.error == IndexOutOfBounds(|rows| - 1)
      ensures r.Ok? ==> fresh(r.value) && r.value.Length == |rows| == |records| &&
                        forall k :: 0 <= k < |rows| ==> r.value[k] == records[k]
      ensures old(Healthy()) && NoneBroken(old(computedIndex), old(Target(|rows| - 1)), true) ==>
                r.Ok? && Healthy() &&
                forall k :: old(|records|) <= k < |rows| ==> Describes(records[k], collection.schema.modelClass, rows[k])
      ensures collection.cache == Cached(old(collection.cache), loaded)
    {
      var a := new Record?[|rows|];
      loaded := [];
      if |rows| > 0 {
        var c;
        c, loaded := Compute(|rows| - 1);
        if c.Err? {
          return Err(c.error), loaded;
        }
      }
      assert |records| == |rows|;
      for k := 0 to a.Length
        modifies a
        invariant forall j :: 0 <= j < k ==> a[j] == records[j]
      {
        a[k] := records[k];
      }
      return Ok(a), loaded;
    }
  }

  /**
   * DbSet.Iterator. As written, hasNext() is true only once the position
   * has passed the last row, and next() moves before it computes, so the
   * first record is skipped. The documented iteration visits records 0 to
   * size()-1 in order; both readings are modelled.
   */
  class RowIterator {
    const results: ResultSet
    var index: int

    constructor (results: ResultSet)
      ensures this.results == results && index == 0
    {
      this.results := results;
      index := 0;
    }

    /** hasNext() as written. */
    predicate HasNextAsWritten()
      reads this
    {
      index > results.Size() - 1
    }

    /** hasNext() as intended: a record is left. */
    predicate HasNext()
      reads this
      ensures HasNext() <==> 0 <= index < results.Size()
    {
      0 <= index < results.Size()
    }

    /** next() as written: moves, then computes at the new position. */
    method NextAsWritten() returns (r: Result<Record>, ghost loaded: seq<Record>)
      requires results.Valid() && results.collection.Valid()
      modifies this, results, results.collection
      ensures index == old(index) + 1
      ensures r.Ok? <==> 0 <= index < |results.records|
      ensures r.Ok? ==> r.value == results.records[old(index) + 1]
    {
      index := index + 1;
      r, loaded := results.Compute(index);
    }

    /** next() as intended: computes at the position, then moves. */
    method Next() returns (r: Result<Record>, ghost loaded: seq<Record>)
      requires results.Valid() && results.collection.Valid()
      modifies this, results, results.collection
      ensures index == old(index) + 1
      ensures r.Ok? <==> 0 <= old(index) < |results.records|
      ensures r.Ok? ==> r.value == results.records[old(index)]
    {
      r, loaded := results.Compute(index);
      index := index + 1;
    }
  }

  /** A fresh iterator over a non-empty set reports no next record, and
    * over an empty one reports a next record that is not there; the
    * intended hasNext says the opposite in both cases. */
  lemma HasNextInverted(it: RowIterator)
    requires it.index == 0
    ensures it.results.Size() > 0 ==> !it.HasNextAsWritten() && it.HasNext()
    ensures it.results.Size() == 0 ==> it.HasNextAsWritten() && !it.HasNext()
  {
  }

  // ---- DbContext

  /** The union of several save results, merged in order into an empty one. */
  function MergeAll(vs: seq<SaveView<Record>>): SaveView<Record>
    decreases |vs|
  {
    if vs == [] then EmptyView() else Merge(MergeAll(vs[..|vs| - 1]), vs[|vs| - 1])
  }

  /** A record is in a set of the merged result exactly when it is in that
    * set of one of the results merged. */
  lemma {:induction false} MergeAllMembers(vs: seq<SaveView<Record>>)
    ensures forall x :: x in MergeAll(vs).inserted <==> exists k :: 0 <= k < |vs| && x in vs[k].inserted
    ensures forall x :: x in MergeAll(vs).updated <==> exists k :: 0 <= k < |vs| && x in vs[k].updated
    ensures forall x :: x in MergeAll(vs).errored <==> exists k :: 0 <= k < |vs| && x in vs[k].errored
    decreases |vs|
  {
    if vs != [] {
      var init := vs[..|vs| - 1];
      MergeAllMembers(init);
      assert forall k :: 0 <= k < |init| ==> init[k] == vs[k];
    }
  }

  lemma MergeAllStep(vs: seq<SaveView<Record>>, v: SaveView<Record>)
    ensures MergeAll(vs + [v]) == Merge(MergeAll(vs), v)
  {
    assert (vs + [v])[..|vs|] == vs;
  }

  /** The records queued in a list of collections. */
  function Queued(cs: seq<Collection>): set<Record>
    reads set k | 0 <= k < |cs| :: cs[k]
    decreases |cs|
  {
    if cs == [] then {}
    else Queued(cs[..|cs| - 1]) + cs[|cs| - 1].newRecords + cs[|cs| - 1].changedRecords
  }

  lemma {:induction false} QueuedHas(cs: seq<Collection>)
    ensures forall k :: 0 <= k < |cs| ==> cs[k].newRecords <= Queued(cs) && cs[k].changedRecords <= Queued(cs)
    decreases |cs|
  {
    if cs != [] {
      var init := cs[..|cs| - 1];
      QueuedHas(init);
      assert forall k :: 0 <= k < |init| ==> init[k] == cs[k];
    }
  }

  /** The insert queue of each collection, in list order. */
  function NewQueues(cs: seq<Collection>): (r: seq<set<Record>>)
    reads set k | 0 <= k < |cs| :: cs[k]
    ensures |r| == |cs| && forall k :: 0 <= k < |cs| ==> r[k] == cs[k].newRecords
    decreases |cs|
  {
    if cs == [] then [] else NewQueues(cs[..|cs| - 1]) + [cs[|cs| - 1].newRecords]
  }

  /** The update queue of each collection, in list order. */
  function ChangedQueues(cs: seq<Collection>): (r: seq<set<Record>>)
    reads set k | 0 <= k < |cs| :: cs[k]
    ensures |r| == |cs| && forall k :: 0 <= k < |cs| ==> r[k] == cs[k].changedRecords
    decreases |cs|
  {
    if cs == [] then [] else ChangedQueues(cs[..|cs| - 1]) + [cs[|cs| - 1].changedRecords]
  }

  /** All the records of the queues `news` and `changes`. */
  function Union(news: seq<set<Record>>, changes: seq<set<Record>>): set<Record>
    requires |news| == |changes|
    decreases |news|
  {
    if news == [] then {}
    else Union(news[..|news| - 1], changes[..|news| - 1]) + news[|news| - 1] + changes[|news| - 1]
  }

  /** A record is in the union exactly when one of the queues holds it. */
  lemma {:induction false} UnionMembers(news: seq<set<Record>>, changes: seq<set<Record>>)
    requires |news| == |changes|
    ensures forall x :: x in Union(news, changes) <==> exists k :: 0 <= k < |news| && (x in news[k] || x in changes[k])
    ensures forall k :: 0 <= k < |news| ==> news[k] + changes[k] <= Union(news, changes)
    decreases |news|
  {
    if news != [] {
      var n := |news| - 1;
      UnionMembers(news[..n], changes[..n]);
      assert forall k :: 0 <= k < n ==> news[..n][k] == news[k] && changes[..n][k] == changes[k];
    }
  }

  /** The records queued in the collections are the union of their queues. */
  lemma {:induction false} QueuedIsUnion(cs: seq<Collection>)
    ensures Queued(cs) == Union(NewQueues(cs), ChangedQueues(cs))
    decreases |cs|
  {
    if cs != [] {
      var init := cs[..|cs| - 1];
      QueuedIsUnion(init);
      assert NewQueues(cs)[..|cs| - 1] == NewQueues(init);
      assert ChangedQueues(cs)[..|cs| - 1] == ChangedQueues(init);
    }
  }

  /** When each result only holds records from its collection's queues, a
    * record in the merged result was queued in one of the collections. */
  lemma {:induction false} MergedFromQueues(parts: seq<SaveView<Record>>, news: seq<set<Record>>, changes: seq<set<Record>>)
    requires |parts| == |news| == |changes|
    requires forall k :: 0 <= k < |parts| ==> QueuedIn(parts[k], news[k], changes[k])
    ensures forall x :: x in MergeAll(parts).inserted ==> exists k :: 0 <= k < |news| && x in news[k]
    ensures forall x :: x in MergeAll(parts).updated ==> exists k :: 0 <= k < |changes| && x in changes[k]
    decreases |parts|
  {
    if parts != [] {
      var n := |parts| - 1;
      MergedFromQueues(parts[..n], news[..n], changes[..n]);
      forall x | x in MergeAll(parts).inserted
        ensures exists k :: 0 <= k < |news| && x in news[k]
      {
        if x in parts[n].inserted {
          assert x in news[n];
        } else {
          var k :| 0 <= k < n && x in news[..n][k];
          assert x in news[k];
        }
      }
      forall x | x in MergeAll(parts).updated
        ensures exists k :: 0 <= k < |changes| && x in changes[k]
      {
        if x in parts[n].updated {
          assert x in changes[n];
        } else {
          var k :| 0 <= k < n && x in changes[..n][k];
          assert x in changes[k];
        }
      }
    }
  }

  /** Every record queued in a list of collections is queued in one of
    * them. */
  lemma {:induction false} QueuedFrom(cs: seq<Collection>)
    ensures forall x :: x in Queued(cs) ==>
              exists k :: 0 <= k < |cs| && (x in cs[k].newRecords || x in cs[k].changedRecords)
    decreases |cs|
  {
    if cs != [] {
      var init := cs[..|cs| - 1];
      QueuedFrom(init);
      assert forall k :: 0 <= k < |init| ==> init[k] == cs[k];
    }
  }

  /** When each result only holds records its collection queued, and the
    * queues lie within `s`, so does everything the merged result reports. */
  lemma {:induction false} MergedWithin(parts: seq<SaveView<Record>>, news: seq<set<Record>>,
                                        changes: seq<set<Record>>, s: set<Record>)
    requires |parts| == |news| == |changes|
    requires forall k :: 0 <= k < |parts| ==> QueuedIn(parts[k], news[k], changes[k]) && news[k] + changes[k] <= s
    ensures Reported(MergeAll(parts)) <= s
    decreases |parts|
  {
    if parts != [] {
      var n := |parts| - 1;
      MergedWithin(parts[..n], news[..n], changes[..n], s);
    }
  }

  /** The statement destroySchema sends for each collection's table. */
  function DropTable(tableName: string): string {
    "DROP TABLE IF EXISTS " + tableName
  }

  /** Once every table is gone, updateSchema sends at least one CREATE
    * TABLE for a non-empty list of collections, and afterwards every
    * collection's table exists. */
  lemma RecreateAfterDrop(cs: seq<Collection>, tables: set<string>)
    requires forall k :: 0 <= k < |cs| ==> cs[k].tableName !in tables
    ensures forall k :: 0 <= k < |cs| ==> cs[k].tableName in SchemaUpdate(cs, tables).0
    ensures cs != [] ==> |SchemaUpdate(cs, tables).1| >= 1
  {
    SchemaUpdateMeaning(cs, tables);
    if cs != [] {
      var t := tables + {cs[0].tableName};
      assert SchemaUpdate(cs, tables).1 == [CreateTable(cs[0].tableName, ColumnDefs(cs[0].schema))] + SchemaUpdate(cs[1..], t).1;
    }
  }

  function CreateTable(tableName: string, columnDefs: seq<string>): string {
    "CREATE TABLE " + tableName + "(" + Join(", ", columnDefs) + ")"
  }

  /** What updateSchema does to the set of existing tables, visiting the
    * collections in order: a missing table is created (and exists from then
    * on), an existing one is left alone. Returns the new set and the
    * statements sent. */
  function SchemaUpdate(cs: seq<Collection>, tables: set<string>): (r: (set<string>, seq<string>))
    decreases |cs|
  {
    if cs == [] then (tables, [])
    else
      var t := cs[0].tableName;
      if t in tables then SchemaUpdate(cs[1..], tables)
      else
        var rest := SchemaUpdate(cs[1..], tables + {t});
        (rest.0, [CreateTable(t, ColumnDefs(cs[0].schema))] + rest.1)
  }

  /** updateSchema only ever adds tables, and afterwards every collection's
    * table exists; a table that was already there causes no statement, and
    * at most one statement is sent per collection. */
  lemma {:induction false} SchemaUpdateMeaning(cs: seq<Collection>, tables: set<string>)
    ensures tables <= SchemaUpdate(cs, tables).0
    ensures forall k :: 0 <= k < |cs| ==> cs[k].tableName in SchemaUpdate(cs, tables).0
    ensures forall t :: t in SchemaUpdate(cs, tables).0 ==>
              t in tables || exists k :: 0 <= k < |cs| && cs[k].tableName == t
    ensures |SchemaUpdate(cs, tables).1| <= |cs|
    ensures (forall k :: 0 <= k < |cs| ==> cs[k].tableName in tables) ==> SchemaUpdate(cs, tables) == (tables, [])
    decreases |cs|
  {
    if cs != [] {
      var t := cs[0].tableName;
      var next := if t in tables then tables else tables + {t};
      SchemaUpdateMeaning(cs[1..], next);
      assert forall k :: 1 <= k < |cs| ==> cs[1..][k - 1] == cs[k];
    }
  }

  /** The first collection of a list whose table name equals `name`
    * ignoring case: the one getCollection(String) answers with. */
  function CollectionNamed(cs: seq<Collection>, name: string): (k: int)
    ensures k < 0 <==> forall j :: 0 <= j < |cs| ==> !EqualsIgnoreCase(cs[j].tableName, name)
    ensures k >= 0 ==> k < |cs| && EqualsIgnoreCase(cs[k].tableName, name)
    ensures k >= 0 ==> forall j :: 0 <= j < k ==> !EqualsIgnoreCase(cs[j].tableName, name)
  {
    FirstIndex(cs, (c: Collection) => EqualsIgnoreCase(c.tableName, name))
  }

  /** The first collection of a list for exactly that model class: the one
    * getCollection(Class) answers with. */
  function CollectionFor(cs: seq<Collection>, modelClass: string): (k: int)
    ensures k < 0 <==> forall j :: 0 <= j < |cs| ==> cs[j].schema.modelClass != modelClass
    ensures k >= 0 ==> k < |cs| && cs[k].schema.modelClass == modelClass
    ensures k >= 0 ==> forall j :: 0 <= j < k ==> cs[j].schema.modelClass != modelClass
  {
    FirstIndex(cs, (c: Collection) => c.schema.modelClass == modelClass)
  }

  /** The errors of each record of `s`. */
  ghost function ErrorsOf(s: set<Record>): map<Record, seq<RecordError>>
    reads s
  {
    map x | x in s :: x.errors
  }

  lemma ErrorsOfMeaning(s: set<Record>)
    ensures ErrorsOf(s).Keys == s && forall x :: x in s ==> ErrorsOf(s)[x] == x.errors
  {
  }

  /** The errors `errs` records for `x`, none when it records nothing. */
  function ErrorsBefore(errs: map<Record, seq<RecordError>>, x: Record): seq<RecordError> {
    if x in errs then errs[x] else []
  }

  /** A collection's save reports only records it had queued: inserted
    * ones from its new records, updated ones from its changed records. */
  predicate QueuedIn(v: SaveView<Record>, newRecords: set<Record>, changedRecords: set<Record>) {
    v.inserted <= newRecords && v.updated <= changedRecords && v.errored <= newRecords + changedRecords
  }

  /** A result in which each queued record that is not inserted or
    * updated is errored reports exactly the queues. */
  lemma ReportsQueues(v: SaveView<Record>, newRecords: set<Record>, changedRecords: set<Record>)
    requires v.inserted <= newRecords && v.updated <= changedRecords
    requires forall x :: x in v.errored <==>
               (x in newRecords && x !in v.inserted) || (x in changedRecords && x !in v.updated)
    ensures QueuedIn(v, newRecords, changedRecords) && Reported(v) == newRecords + changedRecords
  {
  }

  /** The records a result reports, in any of its three sets. */
  function Reported(v: SaveView<Record>): set<Record> {
    v.inserted + v.updated + v.errored
  }

  class Context {
    /** The database name: the context subclass's simple name. */
    const name: string
    /** The subclass's public DbCollection fields, in the order reflection
      * lists them. */
    const fields: seq<Collection>
    var collections: seq<Collection>
    var initialized: bool
    /** The open handles, as serial numbers of the helper's openings. */
    var readableDb: Option<nat>
    var writableDb: Option<nat>
    var openCount: nat

    /** The collection list is empty until initialize fills it. */
    predicate Valid()
      reads this
    {
      (initialized ==> collections == fields) && (!initialized ==> collections == [])
    }

    constructor (name: string, fields: seq<Collection>)
      ensures this.name == name && this.fields == fields
      ensures collections == [] && !initialized && readableDb == None && writableDb == None && openCount == 0
      ensures Valid()
    {
      this.name := name;
      this.fields := fields;
      collections := [];
      initialized := false;
      readableDb, writableDb := None, None;
      openCount := 0;
    }

    /** initialize: the first call lists the collection fields in order and
      * sets each one's context to this one; later calls do nothing. */
    method Initialize()
      requires Valid()
      modifies this, fields
      ensures Valid() && initialized && collections == fields
      ensures old(initialized) ==> forall k :: 0 <= k < |fields| ==> fields[k].context == old(fields[k].context)
      ensures !old(initialized) ==> forall k :: 0 <= k < |fields| ==> fields[k].context == this
      ensures forall k :: 0 <= k < |fields| ==>
                fields[k].newRecords == old(fields[k].newRecords) &&
                fields[k].changedRecords == old(fields[k].changedRecords) && fields[k].cache == old(fields[k].cache)
      ensures readableDb == old(readableDb) && writableDb == old(writableDb) && openCount == old(openCount)
      ensures forall k :: 0 <= k < |fields| ==> old(fields[k].Valid()) ==> fields[k].Valid()
    {
      if initialized {
        return;
      }
      ElementsMeaning(fields);
      var i := 0;
      while i < |fields|
        invariant 0 <= i <= |fields| && collections == fields[..i] && !initialized
        invariant forall k :: 0 <= k < i ==> fields[k].context == this
        invariant forall k :: 0 <= k < |fields| ==>
                    fields[k].newRecords == old(fields[k].newRecords) &&
                    fields[k].changedRecords == old(fields[k].changedRecords) && fields[k].cache == old(fields[k].cache)
        invariant readableDb == old(readableDb) && writableDb == old(writableDb) && openCount == old(openCount)
      {
        fields[i].SetContext(this);
        assert fields[..i + 1] == fields[..i] + [fields[i]];
        collections := collections + [fields[i]];
        i := i + 1;
      }
      assert fields[..i] == fields;
      initialized := true;
    }

    /** getCollection(String): initializes, then returns the first
      * collection whose table name equals `tableName` ignoring case. */
    method GetCollectionByName(tableName: string) returns (r: Result<Collection>)
      requires Valid()
      modifies this, fields
      ensures Valid() && initialized && collections == fields
      ensures var k := CollectionNamed(fields, tableName);
              r == if k < 0 then Err(InvalidCollection(tableName)) else Ok(fields[k])
      ensures readableDb == old(readableDb) && writableDb == old(writableDb) && openCount == old(openCount)
      ensures old(initialized) ==> forall k :: 0 <= k < |fields| ==> fields[k].context == old(fields[k].context)
      ensures !old(initialized) ==> forall k :: 0 <= k < |fields| ==> fields[k].context == this
      ensures forall k :: 0 <= k < |fields| ==>
                fields[k].newRecords == old(fields[k].newRecords) &&
                fields[k].changedRecords == old(fields[k].changedRecords) && fields[k].cache == old(fields[k].cache)
    {
      Initialize();
      var i := 0;
      while i < |collections|
        invariant 0 <= i <= |collections| && collections == fields && initialized
        invariant forall k :: 0 <= k < i ==> !EqualsIgnoreCase(collections[k].tableName, tableName)
      {
        if EqualsIgnoreCase(collections[i].tableName, tableName) {
          return Ok(collections[i]);
        }
        i := i + 1;
      }
      return Err(InvalidCollection(tableName));
    }

    /** getCollection(Class): initializes, then returns the first
      * collection of exactly that model class. */
    method GetCollectionByClass(modelClass: string) returns (r: Result<Collection>)
      requires Valid()
      modifies this, fields
      ensures Valid() && initialized && collections == fields
      ensures var k := CollectionFor(fields, modelClass);
              r == if k < 0 then Err(InvalidCollection(modelClass)) else Ok(fields[k])
      ensures readableDb == old(readableDb) && writableDb == old(writableDb) && openCount == old(openCount)
      ensures old(initialized) ==> forall k :: 0 <= k < |fields| ==> fields[k].context == old(fields[k].context)
      ensures !old(initialized) ==> forall k :: 0 <= k < |fields| ==> fields[k].context == this
      ensures forall k :: 0 <= k < |fields| ==>
                fields[k].newRecords == old(fields[k].newRecords) &&
                fields[k].changedRecords == old(fields[k].changedRecords) && fields[k].cache == old(fields[k].cache)
    {
      Initialize();
      var i := 0;
      while i < |collections|
        invariant 0 <= i <= |collections| && collections == fields && initialized
        invariant forall k :: 0 <= k < i ==> collections[k].schema.modelClass != modelClass
      {
        if collections[i].schema.modelClass == modelClass {
          return Ok(collections[i]);
        }
        i := i + 1;
      }
      return Err(InvalidCollection(modelClass));
    }

    /** getSyncOrder: the table names of the collections, in list order
      * (it does not initialize first). */
    method GetSyncOrder() returns (names: array<string>)
      ensures fresh(names) && names.Length == |collections|
      ensures forall k :: 0 <= k < |collections| ==> names[k] == collections[k].tableName
    {
      names := new string[|collections|];
      for i := 0 to |collections|
        invariant forall k :: 0 <= k < i ==> names[k] == collections[k].tableName
      {
        names[i] := collections[i].tableName;
      }
    }

    /** getReadableDatabase: opens a handle only when none is open. */
    method GetReadableDatabase() returns (h: nat)
      modifies this
      ensures old(readableDb).Some? ==> h == old(readableDb).value && openCount == old(openCount)
      ensures old(readableDb).None? ==> h == old(openCount) && openCount == old(openCount) + 1
      ensures readableDb == Some(h) && writableDb == old(writableDb)
      ensures collections == old(collections) && initialized == old(initialized)
    {
      if readableDb.None? {
        readableDb := Some(openCount);
        openCount := openCount + 1;
      }
      h := readableDb.value;
    }

    /** getWritableDatabase: the same, for the writable handle. */
    method GetWritableDatabase() returns (h: nat)
      modifies this
      ensures old(writableDb).Some? ==> h == old(writableDb).value && openCount == old(openCount)
      ensures old(writableDb).None? ==> h == old(openCount) && openCount == old(openCount) + 1
      ensures writableDb == Some(h) && readableDb == old(readableDb)
      ensures collections == old(collections) && initialized == old(initialized)
      ensures unchanged(fields)
    {
      if writableDb.None? {
        writableDb := Some(openCount);
        openCount := openCount + 1;
      }
      h := writableDb.value;
    }

    /** close: whatever is open is closed; nothing open is fine too. */
    method Close()
      modifies this
      ensures readableDb == None && writableDb == None
      ensures openCount == old(openCount) && collections == old(collections) && initialized == old(initialized)
    {
      if readableDb.Some? {
        readableDb := None;
      }
      if writableDb.Some? {
        writableDb := None;
      }
    }

    /** touch: opens the writable handle if it is not open yet. */
    method Touch()
      modifies this
      ensures old(writableDb).None? ==> writableDb == Some(old(openCount)) && openCount == old(openCount) + 1
      ensures old(writableDb).Some? ==> writableDb == old(writableDb) && openCount == old(openCount)
      ensures readableDb == old(readableDb) && collections == old(collections) && initialized == old(initialized)
    {
      var h := GetWritableDatabase();
    }

    /** destroySchema, over the set of tables the database holds:
      * initializes, opens the writable handle and drops the table of every
      * collection, in list order. Returns the tables left and the
      * statements sent. */
    method DestroySchema(tables: set<string>) returns (tables': set<string>, statements: seq<string>)
      requires Valid()
      modifies this, fields
      ensures Valid() && initialized && collections == fields && writableDb.Some?
      ensures tables' <= tables
      ensures forall t :: t in tables && t !in tables' ==> exists k :: 0 <= k < |fields| && fields[k].tableName == t
      ensures forall k :: 0 <= k < |fields| ==> fields[k].tableName !in tables'
      ensures |statements| == |fields|
      ensures forall k :: 0 <= k < |fields| ==> statements[k] == DropTable(fields[k].tableName)
      ensures forall k :: 0 <= k < |fields| ==>
                fields[k].newRecords == old(fields[k].newRecords) &&
                fields[k].changedRecords == old(fields[k].changedRecords) && fields[k].cache == old(fields[k].cache)
    {
      Initialize();
      var db := GetWritableDatabase();
      tables', statements := tables, [];
      var i := 0;
      while i < |collections|
        invariant 0 <= i <= |collections| && collections == fields && |statements| == i
        invariant forall k :: 0 <= k < i ==> statements[k] == DropTable(fields[k].tableName)
        invariant tables' <= tables
        invariant forall t :: t in tables && t !in tables' ==> exists k :: 0 <= k < i && fields[k].tableName == t
        invariant forall k :: 0 <= k < i ==> fields[k].tableName !in tables'
      {
        statements := statements + [DropTable(collections[i].tableName)];
        tables' := tables' - {collections[i].tableName};
        i := i + 1;
      }
    }

    /**
     * updateSchema, over the set of tables the database holds: each
     * collection whose table is missing gets a CREATE TABLE with its column
     * definitions. Returns the new set of tables and the statements sent.
     */
    method UpdateSchema(tables: set<string>) returns (tables': set<string>, statements: seq<string>)
      ensures (tables', statements) == SchemaUpdate(collections, tables)
    {
      tables', statements := tables, [];
      var i := 0;
      assert collections[0..] == collections;
      while i < |collections|
        invariant 0 <= i <= |collections|
        invariant SchemaUpdate(collections, tables).0 == SchemaUpdate(collections[i..], tables').0
        invariant SchemaUpdate(collections, tables).1 == statements + SchemaUpdate(collections[i..], tables').1
      {
        var c := collections[i];
        assert collections[i..][0] == c && collections[i..][1..] == collections[i + 1..];
        if c.tableName !in tables' {
          var defs := c.GetColumnDefs();
          ghost var rest := SchemaUpdate(collections[i + 1..], tables' + {c.tableName}).1;
          assert statements + ([CreateTable(c.tableName, defs)] + rest) == statements + [CreateTable(c.tableName, defs)] + rest;
          statements := statements + [CreateTable(c.tableName, defs)];
          tables' := tables' + {c.tableName};
        }
        i := i + 1;
      }
      assert collections[i..] == [];
      assert statements + [] == statements;
    }

    /**
     * save: initializes, opens the writable handle, saves each collection
     * in list order (store outcomes from `ins` and `upd`) and merges each
     * result into a new one. `parts` are the collections' own results.
     */
    method Save(now: DateTime, ins: map<Record, Attempt>, upd: map<Record, Attempt>)
      returns (result: SaveResult<Record>, ghost parts: seq<SaveView<Record>>)
      requires Valid() && forall k :: 0 <= k < |fields| ==> fields[k].Valid()
      modifies this, fields, Queued(fields)
      ensures Valid() && initialized && fresh(result) && |parts| == |fields|
      ensures result.View() == MergeAll(parts)
      ensures forall k :: 0 <= k < |fields| ==> QueuedIn(parts[k], old(fields[k].newRecords), old(fields[k].changedRecords))
      ensures forall x :: x in result.inserted ==> exists k :: 0 <= k < |fields| && x in old(fields[k].newRecords)
      ensures forall x :: x in result.updated ==> exists k :: 0 <= k < |fields| && x in old(fields[k].changedRecords)
      ensures Reported(result.View()) == old(Queued(fields))
      ensures writableDb.Some?
      ensures forall k :: 0 <= k < |fields| ==> fields[k].Valid()
    {
      ghost var queued := Queued(fields);
      ghost var news, changes := NewQueues(fields), ChangedQueues(fields);
      QueuedIsUnion(fields);
      ElementsMeaning(fields);
      var db;
      result, db := Open(queued);
      parts := SaveEach(now, ins, upd, result, queued, news, changes);
    }

    /** The first steps of save: initialize, create the empty result, then
      * open the writable handle. The collections keep their queues and the
      * records in `queued` are not touched. */
    method Open(ghost queued: set<Record>) returns (result: SaveResult<Record>, db: nat)
      requires Valid() && forall k :: 0 <= k < |fields| ==> fields[k].Valid()
      modifies this, fields
      ensures Valid() && initialized && writableDb == Some(db) && collections == fields
      ensures forall k :: 0 <= k < |fields| ==>
                fields[k].Valid() && fields[k].newRecords == old(fields[k].newRecords) &&
                fields[k].changedRecords == old(fields[k].changedRecords)
      ensures fresh(result) && result.View() == EmptyView()
      ensures unchanged(queued)
    {
      Initialize();
      result := new SaveResult<Record>();
      db := GetWritableDatabase();
    }

    /** Save's loop: each collection in turn saves its records, and its
      * result is merged into `result`. */
    method SaveEach(now: DateTime, ins: map<Record, Attempt>, upd: map<Record, Attempt>, result: SaveResult<Record>,
                    ghost queued: set<Record>, ghost news: seq<set<Record>>, ghost changes: seq<set<Record>>)
      returns (ghost parts: seq<SaveView<Record>>)
      requires Valid() && initialized && writableDb.Some? && collections == fields
      requires result.View() == EmptyView() && |news| == |changes| == |fields|
      requires forall k :: 0 <= k < |fields| ==>
                 fields[k].Valid() && fields[k].newRecords == news[k] && fields[k].changedRecords == changes[k]
      requires queued == Union(news, changes)
      modifies fields, queued, result
      ensures Valid() && initialized && writableDb.Some?
      ensures |parts| == |fields| && result.View() == MergeAll(parts)
      ensures forall k :: 0 <= k < |fields| ==> fields[k].Valid()
      ensures forall k :: 0 <= k < |fields| ==> QueuedIn(parts[k], news[k], changes[k])
      ensures forall x :: x in result.inserted ==> exists k :: 0 <= k < |fields| && x in news[k]
      ensures forall x :: x in result.updated ==> exists k :: 0 <= k < |fields| && x in changes[k]
      ensures Reported(result.View()) == queued
    {
      UnionMembers(news, changes);
      assert Pending(0, queued, {});
      parts := [];
      var i := 0;
      while i < |collections|
        invariant 0 <= i <= |collections| && collections == fields && Valid() && initialized && writableDb.Some?
        invariant |parts| == i && result.View() == MergeAll(parts)
        invariant forall k :: 0 <= k < |fields| ==>
                    fields[k].Valid() && fields[k].newRecords <= queued && fields[k].changedRecords <= queued
        invariant forall k :: 0 <= k < |fields| ==>
                    fields[k].newRecords <= news[k] && fields[k].changedRecords <= changes[k]
        invariant forall k :: 0 <= k < i ==> QueuedIn(parts[k], news[k], changes[k])
        invariant Pending(i, queued, Reported(result.View()))
      {
        parts := SaveStep(i, now, ins, upd, result, parts, queued, news, changes);
        i := i + 1;
      }
      MergedFromQueues(parts, news, changes);
      MergedWithin(parts, news, changes, queued);
    }

    /** Each record of `queued` is reported already or still queued in a
      * collection that save has yet to visit, from the `i`-th on. */
    ghost predicate Pending(i: int, queued: set<Record>, reported: set<Record>)
      reads fields
    {
      forall x :: x in queued ==>
        x in reported || exists k :: 0 <= i <= k < |fields| && (x in fields[k].newRecords || x in fields[k].changedRecords)
    }

    /** Collection `i` saves its records. */
    method SaveOne(i: nat, now: DateTime, ins: map<Record, Attempt>, upd: map<Record, Attempt>)
      returns (r: SaveResult<Record>)
      requires i < |fields| && fields[i].Valid()
      modifies fields[i], fields[i].newRecords, fields[i].changedRecords
      ensures fresh(r) && fields[i].Valid()
      ensures QueuedIn(r.View(), old(fields[i].newRecords), old(fields[i].changedRecords))
      ensures Reported(r.View()) == old(fields[i].newRecords) + old(fields[i].changedRecords)
      ensures fields[i].newRecords <= old(fields[i].newRecords) && fields[i].changedRecords <= old(fields[i].changedRecords)
    {
      ghost var n0, c0 := fields[i].newRecords, fields[i].changedRecords;
      ghost var s1, s2;
      r, s1, s2 := fields[i].Save(now, ins, upd);
      ReportsQueues(r.View(), n0, c0);
    }

    /** One pass of save's loop: collection `i` saves its records and its
      * result is merged into `result`. */
    method SaveStep(i: nat, now: DateTime, ins: map<Record, Attempt>, upd: map<Record, Attempt>,
                    result: SaveResult<Record>, ghost parts: seq<SaveView<Record>>, ghost queued: set<Record>,
                    ghost news: seq<set<Record>>, ghost changes: seq<set<Record>>)
      returns (ghost parts': seq<SaveView<Record>>)
      requires i < |fields| && |parts| == i && result.View() == MergeAll(parts)
      requires |news| == |changes| == |fields|
      requires forall k :: 0 <= k < |fields| ==>
                 fields[k].Valid() && fields[k].newRecords <= queued && fields[k].changedRecords <= queued
      requires forall k :: 0 <= k < |fields| ==>
                 fields[k].newRecords <= news[k] && fields[k].changedRecords <= changes[k]
      requires forall k :: 0 <= k < i ==> QueuedIn(parts[k], news[k], changes[k])
      requires Pending(i, queued, Reported(result.View()))
      modifies fields[i], fields[i].newRecords, fields[i].changedRecords, result
      ensures |parts'| == i + 1 && parts'[..i] == parts && result.View() == MergeAll(parts')
      ensures QueuedIn(parts'[i], old(fields[i].newRecords), old(fields[i].changedRecords))
      ensures forall k :: 0 <= k < i + 1 ==> QueuedIn(parts'[k], news[k], changes[k])
      ensures forall k :: 0 <= k < |fields| ==>
                fields[k].Valid() && fields[k].newRecords <= queued && fields[k].changedRecords <= queued
      ensures forall k :: 0 <= k < |fields| ==>
                fields[k].newRecords <= news[k] && fields[k].changedRecords <= changes[k]
      ensures Pending(i + 1, queued, Reported(result.View()))
    {
      ghost var n0, c0 := fields[i].newRecords, fields[i].changedRecords;
      ghost var reported0 := Reported(result.View());
      var r := SaveOne(i, now, ins, upd);
      MergeAllStep(parts, r.View());
      parts' := parts + [r.View()];
      result.MergeFrom(r);
      forall k | 0 <= k < |fields|
        ensures fields[k].Valid() && fields[k].newRecords <= queued && fields[k].changedRecords <= queued
        ensures fields[k].newRecords <= news[k] && fields[k].changedRecords <= changes[k]
      {
        if fields[k] != fields[i] {
          assert fields[k].newRecords == old(fields[k].newRecords) && fields[k].changedRecords == old(fields[k].changedRecords);
        }
      }
      forall x | x in queued
        ensures x in Reported(result.View()) ||
                exists k :: 0 <= i + 1 <= k < |fields| && (x in fields[k].newRecords || x in fields[k].changedRecords)
      {
        if x !in reported0 {
          var k :| 0 <= i <= k < |fields| && (x in old(fields[k].newRecords) || x in old(fields[k].changedRecords));
          if fields[k] == fields[i] {
            assert x in Reported(r.View());
          } else {
            assert k != i;
          }
        }
      }
    }
  }
}
