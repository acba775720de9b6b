// Synchronisation with the server: a sync entity per model (its name and
// the created and updated rows as JSON), the syncer that turns a server
// response into queued records and a save, and a request into the local
// rows waiting to be sent; plus the JSON rules for enums and association
// fields.

module Sync {
  import opened Common
  import opened Values
  import opened Records
  import opened SaveResults
  import opened Queries
  import opened Persist
  import opened Db
  import Slots

  // ---- the local rows in one sync state

  /** The rows of a table in state `st`, in table order. */
  function InState(table: seq<Row>, st: SyncState): seq<Row>
    decreases |table|
  {
    if table == [] then []
    else (if table[0].syncState == st then [table[0]] else []) + InState(table[1..], st)
  }

  /** A row is kept exactly when it is in the state. */
  lemma {:induction false} InStateMembers(table: seq<Row>, st: SyncState)
    ensures forall x :: x in InState(table, st) <==> x in table && x.syncState == st
    decreases |table|
  {
    if table != [] {
      InStateMembers(table[1..], st);
      assert table == [table[0]] + table[1..];
    }
  }

  /** Every row is in exactly one state, so the four selections share the
    * table's rows out between them. */
  lemma {:induction false} InStatePartition(table: seq<Row>)
    ensures |InState(table, Created)| + |InState(table, Synced)| + |InState(table, Updated)| + |InState(table, Deleted)| == |table|
    decreases |table|
  {
    if table != [] {
      InStatePartition(table[1..]);
    }
  }

  /** A row matches sync_state = st exactly when it is in state st: the
    * cell holds the stored name of the row's state. */
  lemma MatchesState(row: Row, st: SyncState, dateText: DateTime -> string)
    ensures Matches(row, [Equality("sync_state", Sym(SyncStateName(st)))], dateText) <==> row.syncState == st
  {
    var crit := [Equality("sync_state", Sym(SyncStateName(st)))];
    assert CellValue(row, crit[0].column) == Some(Sym(SyncStateName(row.syncState)));
    SyncStateNameInjective(row.syncState, st);
  }

  /** The selection where("sync_state", st) picks the rows in that state. */
  lemma {:induction false} SelectInState(table: seq<Row>, st: SyncState, dateText: DateTime -> string)
    ensures Select(table, [Equality("sync_state", Sym(SyncStateName(st)))], dateText) == InState(table, st)
    decreases |table|
  {
    if table != [] {
      SelectInState(table[1..], st, dateText);
      MatchesState(table[0], st, dateText);
    }
  }

  /** The fields of a record, as a row. */
  function RowOf(rec: Record): (row: Row)
    reads rec
    ensures row.id == rec.id && row.syncState == rec.syncState && row.values == rec.values
    ensures row.createdAt == rec.createdAt && row.updatedAt == rec.updatedAt
  {
    Row(rec.id, rec.createdAt, rec.updatedAt, rec.syncState, rec.values)
  }

  /** Each row as the JSON object Gson makes of the record read from it. */
  function Encoded(rows: seq<Row>, encode: Row -> JsonRow): (js: seq<JsonRow>)
    ensures |js| == |rows| && forall k :: 0 <= k < |rows| ==> js[k] == encode(Loaded(rows[k]))
  {
    seq(|rows|, k requires 0 <= k < |rows| => encode(Loaded(rows[k])))
  }

  /** The rows of the store's table of that name (none when it has none). */
  function TableRows(tables: map<string, seq<Row>>, tableName: string): seq<Row> {
    if tableName in tables then tables[tableName] else []
  }

  /** SyncRequest: the watermark and one entity per model. Either is null
    * when the JSON it was read from has no such key. */
  datatype SyncRequest = SyncRequest(lastSynced: Option<DateTime>, entities: Option<seq<SyncEntity>>)

  class SyncEntity {
    var name: string
    /** The created and updated arrays; null until filled. */
    var created: Option<seq<JsonRow>>
    var updated: Option<seq<JsonRow>>

    /** An entity as Gson reads it from a response. */
    constructor (name: string, created: Option<seq<JsonRow>>, updated: Option<seq<JsonRow>>)
      ensures this.name == name && this.created == created && this.updated == updated
    {
      this.name := name;
      this.created := created;
      this.updated := updated;
    }

    method SetName(name: string)
      modifies this
      ensures this.name == name && created == old(created) && updated == old(updated)
    {
      this.name := name;
    }

    /**
     * parseArray: a null array gives no records; otherwise records[i] is
     * a new record of the collection's class decoded from objects[i]
     * (`fromJson` is Gson's reflection), its persisted flag set to
     * `isPersisted`.
     */
    static method ParseArray(collection: Collection, objects: Option<seq<JsonRow>>, isPersisted: bool,
                             fromJson: JsonRow -> Row)
      returns (records: seq<Record>)
      ensures objects.None? ==> records == []
      ensures objects.Some? ==> |records| == |objects.value|
      ensures forall i :: 0 <= i < |records| ==>
                fresh(records[i]) && records[i].modelClass == collection.schema.modelClass &&
                RowOf(records[i]) == fromJson(objects.value[i]) &&
                records[i].persisted == isPersisted && records[i].errors == [] &&
                records[i].customErrors == collection.customErrors
      ensures forall i, j :: 0 <= i < j < |records| ==> records[i] != records[j]
    {
      if objects.None? {
        return [];
      }
      var objs := objects.value;
      records := [];
      for i := 0 to |objs|
        invariant |records| == i
        invariant forall k :: 0 <= k < i ==>
                    fresh(records[k]) && records[k].modelClass == collection.schema.modelClass &&
                    RowOf(records[k]) == fromJson(objs[k]) &&
                    records[k].persisted == isPersisted && records[k].errors == [] &&
                    records[k].customErrors == collection.customErrors
        invariant forall k, j :: 0 <= k < j < i ==> records[k] != records[j]
      {
        var rec := new Record.FromJson(collection.schema.modelClass, fromJson(objs[i]), collection.customErrors);
        rec.SetIsPersisted(isPersisted);
        records := records + [rec];
      }
    }

    /** parseCreated: the created rows, as records that are not persisted. */
    method ParseCreated(collection: Collection, fromJson: JsonRow -> Row) returns (records: seq<Record>)
      ensures |records| == if created.Some? then |created.value| else 0
      ensures forall i :: 0 <= i < |records| ==>
                fresh(records[i]) && RowOf(records[i]) == fromJson(created.value[i]) && !records[i].persisted
      ensures forall i, j :: 0 <= i < j < |records| ==> records[i] != records[j]
    {
      records := ParseArray(collection, created, false, fromJson);
    }

    /** parseUpdated: the updated rows, as records that are persisted. */
    method ParseUpdated(collection: Collection, fromJson: JsonRow -> Row) returns (records: seq<Record>)
      ensures |records| == if updated.Some? then |updated.value| else 0
      ensures forall i :: 0 <= i < |records| ==>
                fresh(records[i]) && RowOf(records[i]) == fromJson(updated.value[i]) && records[i].persisted
      ensures forall i, j :: 0 <= i < j < |records| ==> records[i] != records[j]
    {
      records := ParseArray(collection, updated, true, fromJson);
    }

    /**
     * One half of populate: where("sync_state", st) is run on the
     * collection's table (`table`) and each row of the result is read
     * with next() and turned into JSON (`encode` is Gson's reflection).
     * Without a context the query cannot run; a selected row in
     * `unreadable` (one whose deserialisation throws) makes next() throw
     * a RuntimeException.
     */
    static method Fetch(collection: Collection, st: SyncState, table: seq<Row>, unreadable: set<Row>,
                        encode: Row -> JsonRow, dateText: DateTime -> string)
      returns (r: Result<seq<JsonRow>>)
      requires collection.Valid()
      modifies collection
      ensures collection.Valid()
      ensures r.Err? <==> collection.context == null || !Readable(InState(table, st), unreadable)
      ensures r.Err? ==> r.error == if collection.context == null then NullPointer else RowFailure
      ensures r.Ok? ==> r.value == Encoded(InState(table, st), encode)
      ensures collection.newRecords == old(collection.newRecords) && collection.changedRecords == old(collection.changedRecords)
      ensures collection.context == old(collection.context)
    {
      var q := collection.Where("sync_state", Sym(SyncStateName(st)));
      SelectInState(table, st, dateText);
      BaseColumnsKnown(collection.schema, q.criteria, q.orderBys);
      var run := collection.RunQuery(q, table, Unreadable(InState(table, st), unreadable), dateText);
      if run.Err? {
        return Err(run.error);
      }
      r := EncodeAll(run.value, encode);
    }

    /** The loop of populate: an array of size() objects, the i-th the
      * JSON of the i-th next(); the first row that fails to deserialise
      * ends it with a RuntimeException. */
    static method EncodeAll(rs: ResultSet, encode: Row -> JsonRow) returns (r: Result<seq<JsonRow>>)
      requires rs.Valid() && rs.Healthy() && rs.computedIndex == -1 && rs.collection.Valid()
      modifies rs, rs.collection
      ensures r.Err? <==> exists k :: 0 <= k < |rs.rows| && k in rs.broken
      ensures r.Err? ==> r.error == RowFailure
      ensures r.Ok? ==> r.value == Encoded(rs.rows, encode)
      ensures rs.collection.Valid()
      ensures rs.collection.newRecords == old(rs.collection.newRecords) &&
              rs.collection.changedRecords == old(rs.collection.changedRecords) &&
              rs.collection.context == old(rs.collection.context)
    {
      var a := new JsonRow[rs.Size()];
      for i := 0 to a.Length
        invariant rs.Valid() && rs.Healthy() && rs.computedIndex == i - 1 && rs.collection.Valid()
        invariant forall k :: 0 <= k < i ==> k !in rs.broken && a[k] == encode(Loaded(rs.rows[k]))
        invariant rs.collection.newRecords == old(rs.collection.newRecords) &&
                  rs.collection.changedRecords == old(rs.collection.changedRecords) &&
                  rs.collection.context == old(rs.collection.context)
      {
        ghost var loaded: seq<Record>;
        var rec;
        rec, loaded := rs.Next();
        if rec.Err? {
          return Err(rec.error);
        }
        a[i] := encode(RowOf(rec.value));
      }
      return Ok(a[..]);
    }

    /**
     * populate: `created` becomes the collection's rows in state created
     * and `updated` those in state updated, as JSON, replacing whatever
     * the entity held; `lastSynced` plays no part. A row of either state
     * in `unreadable` throws a RuntimeException.
     */
    method Populate(collection: Collection, lastSynced: DateTime, table: seq<Row>, unreadable: set<Row>,
                    encode: Row -> JsonRow, dateText: DateTime -> string)
      returns (r: Result<()>)
      requires collection.Valid()
      modifies this, collection
      ensures collection.Valid() && name == old(name)
      ensures r.Err? <==> collection.context == null || !Readable(InState(table, Created), unreadable) ||
                          !Readable(InState(table, Updated), unreadable)
      ensures r.Err? ==> r.error == if collection.context == null then NullPointer else RowFailure
      ensures r.Ok? ==> created == Some(Encoded(InState(table, Created), encode)) &&
                        updated == Some(Encoded(InState(table, Updated), encode))
      ensures collection.newRecords == old(collection.newRecords) && collection.changedRecords == old(collection.changedRecords)
      ensures collection.context == old(collection.context)
    {
      var c := Fetch(collection, Created, table, unreadable, encode, dateText);
      if c.Err? {
        return Err(c.error);
      }
      created := Some(c.value);
      var u := Fetch(collection, Updated, table, unreadable, encode, dateText);
      if u.Err? {
        return Err(u.error);
      }
      updated := Some(u.value);
      return Ok(());
    }
  }

  /** The rows of a result, none of which fails to deserialise. */
  predicate Readable(rows: seq<Row>, unreadable: set<Row>) {
    forall k :: 0 <= k < |rows| ==> rows[k] !in unreadable
  }

  /** The positions of a result's rows that fail to deserialise. */
  function Unreadable(rows: seq<Row>, unreadable: set<Row>): (b: set<int>)
    ensures forall k :: k in b <==> 0 <= k < |rows| && rows[k] in unreadable
  {
    set k | 0 <= k < |rows| && rows[k] in unreadable
  }

  /** The records of a list whose persisted flag is `flag`. */
  function Flagged(records: seq<Record>, flag: bool): set<Record>
    reads set k | 0 <= k < |records| :: records[k]
  {
    set r | r in records && r.persisted == flag
  }

  lemma FlaggedStep(records: seq<Record>, x: Record, flag: bool)
    ensures Flagged(records + [x], flag) == Flagged(records, flag) + (if x.persisted == flag then {x} else {})
  {
  }

  /** When every record has the flag, all of them are flagged so, and none
    * the other way. */
  lemma {:induction false} FlaggedAll(records: seq<Record>, flag: bool)
    requires forall i :: 0 <= i < |records| ==> records[i].persisted == flag
    ensures Flagged(records, flag) == Elements(records) && Flagged(records, !flag) == {}
    decreases |records|
  {
    if records != [] {
      var init, last := records[..|records| - 1], records[|records| - 1];
      FlaggedAll(init, flag);
      assert records == init + [last];
      FlaggedStep(init, last, flag);
      FlaggedStep(init, last, !flag);
    }
  }

  /** addAll: add for each record in turn; a persisted record is queued as
    * changed, any other as new. */
  method AddAll(collection: Collection, records: seq<Record>)
    modifies collection
    ensures collection.newRecords == old(collection.newRecords) + Flagged(records, false)
    ensures collection.changedRecords == old(collection.changedRecords) + Flagged(records, true)
    ensures collection.cache == old(collection.cache) && collection.context == old(collection.context)
  {
    for i := 0 to |records|
      invariant collection.newRecords == old(collection.newRecords) + Flagged(records[..i], false)
      invariant collection.changedRecords == old(collection.changedRecords) + Flagged(records[..i], true)
      invariant collection.cache == old(collection.cache) && collection.context == old(collection.context)
    {
      assert records[..i + 1] == records[..i] + [records[i]];
      FlaggedStep(records[..i], records[i], false);
      FlaggedStep(records[..i], records[i], true);
      collection.Add(records[i]);
    }
    assert records[..|records|] == records;
  }

  /** addAll of records that all have the persisted flag `flag`: they all
    * join the one queue the flag selects. */
  method AddAllFlagged(collection: Collection, records: seq<Record>, ghost flag: bool)
    requires forall i :: 0 <= i < |records| ==> records[i].persisted == flag
    modifies collection
    ensures collection.newRecords == old(collection.newRecords) + (if flag then {} else Elements(records))
    ensures collection.changedRecords == old(collection.changedRecords) + (if flag then Elements(records) else {})
    ensures collection.cache == old(collection.cache) && collection.context == old(collection.context)
  {
    FlaggedAll(records, flag);
    AddAll(collection, records);
  }

  /** collection.addAll(parseCreated(collection)), then the same for the
    * updated rows: the created records are queued as new, the updated ones
    * as changed. */
  method QueueParsed(collection: Collection, e: SyncEntity, fromJson: JsonRow -> Row)
    returns (created: seq<Record>, updated: seq<Record>)
    modifies collection
    ensures Decoded(created, e.created, false, fromJson) && Decoded(updated, e.updated, true, fromJson)
    ensures forall i :: 0 <= i < |created| ==> fresh(created[i])
    ensures forall i :: 0 <= i < |updated| ==> fresh(updated[i])
    ensures collection.newRecords == old(collection.newRecords) + Elements(created)
    ensures collection.changedRecords == old(collection.changedRecords) + Elements(updated)
    ensures collection.cache == old(collection.cache) && collection.context == old(collection.context)
  {
    created := e.ParseCreated(collection, fromJson);
    AddAllFlagged(collection, created, false);
    updated := e.ParseUpdated(collection, fromJson);
    AddAllFlagged(collection, updated, true);
  }

  // ---- the enum adapter Gson uses for every enum

  /** write: the constant's toString(), or JSON null for a null value. */
  function EnumToJson(v: Option<string>): (j: Json)
    ensures v.None? <==> j == JNull
    ensures v.Some? ==> j == JString(v.value)
  {
    if v.None? then JNull else JString(v.value)
  }

  /** The first constant (by its name) equal to `s` ignoring case. */
  function FirstConstant(constants: seq<string>, s: string): (r: Option<string>)
    ensures r.Some? ==> r.value in constants && EqualsIgnoreCase(r.value, s)
    ensures r.None? <==> forall i :: 0 <= i < |constants| ==> !EqualsIgnoreCase(constants[i], s)
  {
    var k := FirstIndex(constants, (c: string) => EqualsIgnoreCase(c, s));
    if k < 0 then None else Some(constants[k])
  }

  /**
   * read: JSON null gives null; otherwise the token is read as a string
   * (a number by its decimal text; any other token makes the reader
   * throw) and the first constant whose name it equals ignoring case is
   * returned, or null when none does.
   */
  function EnumFromJson(constants: seq<string>, j: Json): (r: Result<Option<string>>)
    ensures j.JNull? ==> r == Ok(None)
    ensures r.Err? <==> j.JBool? || j.JObject?
    ensures j.JString? ==> r == Ok(FirstConstant(constants, j.s))
  {
    match j
    case JNull => Ok(None)
    case JString(s) => Ok(FirstConstant(constants, s))
    case JNumber(n) => Ok(FirstConstant(constants, IntToDecimal(n)))
    case JBool(_) => Err(IllegalState("Expected a string but was BOOLEAN"))
    case JObject(_) => Err(IllegalState("Expected a string but was BEGIN_OBJECT"))
  }

  /** Written and read back, a constant is found again when no earlier
    * constant differs from it only in case; null stays null. */
  lemma EnumJsonRoundTrip(constants: seq<string>, i: nat)
    requires i < |constants|
    requires forall k :: 0 <= k < i ==> !EqualsIgnoreCase(constants[k], constants[i])
    ensures EnumFromJson(constants, EnumToJson(Some(constants[i]))) == Ok(Some(constants[i]))
    ensures EnumFromJson(constants, EnumToJson(None)) == Ok(None)
  {
    assert EqualsIgnoreCase(constants[i], constants[i]);
  }

  /** Reading does not depend on the case the server used. */
  lemma EnumFromJsonIgnoresCase(constants: seq<string>, s: string, t: string)
    requires EqualsIgnoreCase(s, t)
    ensures EnumFromJson(constants, JString(s)) == EnumFromJson(constants, JString(t))
  {
    EqualsIgnoreCaseIsLowerEquality(s, t);
    forall c | c in constants
      ensures EqualsIgnoreCase(c, s) <==> EqualsIgnoreCase(c, t)
    {
      EqualsIgnoreCaseIsLowerEquality(c, s);
      EqualsIgnoreCaseIsLowerEquality(c, t);
    }
  }

  /** A name matching no constant reads as null rather than failing. */
  lemma UnknownConstantReadsNull(constants: seq<string>, s: string)
    requires forall i :: 0 <= i < |constants| ==> !EqualsIgnoreCase(constants[i], s)
    ensures EnumFromJson(constants, JString(s)) == Ok(None)
  {
  }

  // ---- the exclusion strategy

  /**
   * shouldSkipField: a field is left out of JSON when its declared class
   * is assignable from DbHasMany or from DbBelongsTo, that is when it is
   * one of those two or Object (both extend Object directly).
   */
  predicate ShouldSkipField(t: FieldType)
    ensures ShouldSkipField(t) <==> t.HasManyType? || t.BelongsToType? || t.ObjectType?
  {
    t.HasManyType? || t.BelongsToType? || t.ObjectType?
  }

  /** shouldSkipClass: no class is skipped. */
  predicate ShouldSkipClass(className: string)
    ensures !ShouldSkipClass(className)
  {
    false
  }

  /** The association slots never reach the JSON, while every column type
    * a collection can store does. */
  lemma AssociationsAreSkipped(target: string, t: FieldType)
    requires !t.HasManyType? && !t.BelongsToType? && !t.ObjectType?
    ensures ShouldSkipField(HasManyType(target)) && ShouldSkipField(BelongsToType(target))
    ensures !ShouldSkipField(t)
  {
  }

  // ---- the syncer

  /** The preferences key of the watermark, and the value read when none
    * is stored. */
  const LastSyncedKey := "tinysync_last_synced"
  const DefaultLastSynced := "2000-01-01T01:00:00-0000"

  /** The text getLastSynced parses. */
  function StoredWatermark(prefs: map<string, string>): (s: string)
    ensures LastSyncedKey !in prefs ==> s == DefaultLastSynced
    ensures LastSyncedKey in prefs ==> s == prefs[LastSyncedKey]
  {
    if LastSyncedKey in prefs then prefs[LastSyncedKey] else DefaultLastSynced
  }

  /** Every entity names a collection of the list, ignoring case. */
  predicate EntitiesKnown(cs: seq<Collection>, entities: seq<SyncEntity>)
    reads set j | 0 <= j < |entities| :: entities[j]
  {
    forall j :: 0 <= j < |entities| ==> CollectionNamed(cs, entities[j].name) >= 0
  }

  /** The first `i` entities, by their names in `arrays`, each name a
    * collection of the list. */
  predicate NamesKnown(cs: seq<Collection>, arrays: seq<(string, Option<seq<JsonRow>>, Option<seq<JsonRow>>)>, i: int) {
    forall j :: 0 <= j < i && j < |arrays| ==> CollectionNamed(cs, arrays[j].0) >= 0
  }

  lemma NamesKnownStep(cs: seq<Collection>, arrays: seq<(string, Option<seq<JsonRow>>, Option<seq<JsonRow>>)>, i: int)
    requires NamesKnown(cs, arrays, i) && 0 <= i < |arrays| && CollectionNamed(cs, arrays[i].0) >= 0
    ensures NamesKnown(cs, arrays, i + 1)
  {
  }

  lemma UnknownEntity(cs: seq<Collection>, entities: seq<SyncEntity>, i: int)
    requires 0 <= i < |entities| && CollectionNamed(cs, entities[i].name) < 0
    ensures !EntitiesKnown(cs, entities)
  {
  }

  class Syncer {
    const context: Context
    /** The "tinysync" shared preferences. */
    var prefs: map<string, string>

    constructor (context: Context, prefs: map<string, string>)
      ensures this.context == context && this.prefs == prefs
    {
      this.context := context;
      this.prefs := prefs;
    }

    /** getLastSynced: the stored watermark, or the default, parsed by
      * Joda (`parse`). */
    function GetLastSynced(parse: string -> DateTime): (t: DateTime)
      reads this
      ensures t == parse(StoredWatermark(prefs))
    {
      parse(StoredWatermark(prefs))
    }

    /** setLastSynced: stores the watermark's toString() (`text`) and
      * touches no other preference. */
    method SetLastSynced(lastSynced: DateTime, text: DateTime -> string)
      modifies this
      ensures prefs == old(prefs)[LastSyncedKey := text(lastSynced)]
    {
      prefs := prefs[LastSyncedKey := text(lastSynced)];
    }

    /**
     * processResponse: every entity, in response order, is resolved with
     * getCollection(name); its created rows are added as new records and
     * then its updated rows as persisted ones. A null entity array or an
     * unknown name throws before the watermark is written and before
     * anything is saved. Then the watermark becomes the response's (a null
     * one throws) and the context saves everything, the outcome of each
     * write coming from `ins` and `upd`. `creates[j]` and `updates[j]` are
     * the records parsed from the j-th entity, and `parsed` all of them.
     */
    method ProcessResponse(response: SyncRequest, fromJson: JsonRow -> Row, text: DateTime -> string,
                           now: DateTime, ins: map<Record, Attempt>, upd: map<Record, Attempt>)
      returns (r: Result<SaveResult<Record>>, ghost parts: seq<SaveView<Record>>, ghost parsed: set<Record>,
               ghost creates: seq<seq<Record>>, ghost updates: seq<seq<Record>>)
      requires context.Valid() && Slots.CollectionsValid(context)
      modifies this, context, context.fields, Queued(context.fields)
      ensures context.Valid() && Slots.CollectionsValid(context)
      ensures r.Ok? <==> response.lastSynced.Some? && response.entities.Some? &&
                         old(EntitiesKnown(context.fields, response.entities.value))
      ensures response.entities.None? ==> r == Err(NullPointer) && unchanged(context.fields)
      ensures r.Err? ==> prefs == old(prefs)
      ensures r.Ok? ==> ParsedFrom(parsed, creates, updates) && |creates| == |response.entities.value| &&
                        forall j :: 0 <= j < |creates| ==>
                          |creates[j]| == Count(old(response.entities.value[j].created)) &&
                          |updates[j]| == Count(old(response.entities.value[j].updated))
      ensures r.Ok? ==> prefs == old(prefs)[LastSyncedKey := text(response.lastSynced.value)] &&
                        fresh(r.value) && |parts| == |context.fields| && r.value.View() == MergeAll(parts)
      ensures r.Ok? ==> (forall x :: x in parsed ==> fresh(x)) &&
                        Reported(r.value.View()) == old(Queued(context.fields)) + parsed
    {
      ghost var queued := Queued(context.fields);
      QueuedHas(context.fields);
      QueuedFrom(context.fields);
      assert QueuesWithin(context.fields, queued);
      if response.entities.None? {
        return Err(NullPointer), [], {}, [], [];
      }
      var entities := response.entities.value;
      ghost var known := EntitiesKnown(context.fields, entities);
      var added;
      added, creates, updates := QueueEntities(entities, fromJson, queued);
      assert added.Ok? <==> known;
      if added.Err? {
        return Err(added.error), [], {}, creates, updates;
      }
      QueuedExactly(context.fields, queued + added.value);
      r, parts := StoreAndSave(response.lastSynced, text, now, ins, upd);
      parsed := added.value;
    }

    /** The end of processResponse: the watermark becomes `lastSynced` (a
      * null one throws before anything is written) and the context saves
      * everything it has queued. */
    method StoreAndSave(lastSynced: Option<DateTime>, text: DateTime -> string,
                        now: DateTime, ins: map<Record, Attempt>, upd: map<Record, Attempt>)
      returns (r: Result<SaveResult<Record>>, ghost parts: seq<SaveView<Record>>)
      requires context.Valid() && Slots.CollectionsValid(context)
      modifies this, context, context.fields, Queued(context.fields)
      ensures context.Valid() && Slots.CollectionsValid(context)
      ensures r.Ok? <==> lastSynced.Some?
      ensures r.Err? ==> r.error == NullPointer && prefs == old(prefs) && unchanged(context.fields)
      ensures r.Ok? ==> prefs == old(prefs)[LastSyncedKey := text(lastSynced.value)] &&
                        fresh(r.value) && |parts| == |context.fields| && r.value.View() == MergeAll(parts) &&
                        Reported(r.value.View()) == old(Queued(context.fields))
    {
      if lastSynced.None? {
        return Err(NullPointer), [];
      }
      SetLastSynced(lastSynced.value, text);
      var result;
      result, parts := context.Save(now, ins, upd);
      r := Ok(result);
    }

    /** The loop of processResponse: `creates[j]` and `updates[j]` are
      * what parseCreated and parseUpdated made of the j-th entity, and the
      * records added are all of them, new objects; every queue holds only
      * what it held (in `queued`) or what was added. */
    method QueueEntities(entities: seq<SyncEntity>, fromJson: JsonRow -> Row, ghost queued: set<Record>)
      returns (r: Result<set<Record>>, ghost creates: seq<seq<Record>>, ghost updates: seq<seq<Record>>)
      requires context.Valid() && Slots.CollectionsValid(context)
      requires QueuesWithin(context.fields, queued) && QueuesCover(context.fields, queued)
      modifies context, context.fields
      ensures context.Valid() && Slots.CollectionsValid(context)
      ensures r.Ok? <==> EntitiesKnown(context.fields, entities)
      ensures r.Err? ==> exists j :: 0 <= j < |entities| && r.error == InvalidCollection(entities[j].name)
      ensures r.Ok? ==> (forall x :: x in r.value ==> fresh(x)) &&
                        QueuesWithin(context.fields, queued + r.value) && QueuesCover(context.fields, queued + r.value)
      ensures r.Ok? ==> |creates| == |entities| && ParsedFrom(r.value, creates, updates) &&
                        forall j :: 0 <= j < |entities| ==>
                          Decoded(creates[j], old(entities[j].created), false, fromJson) &&
                          Decoded(updates[j], old(entities[j].updated), true, fromJson)
    {
      ghost var arrays;
      r, creates, updates, arrays := QueueAll(entities, fromJson, queued);
      if r.Ok? {
        ProgressDone(queued, r.value, creates, updates, arrays, fromJson);
        assert EntitiesKnown(context.fields, entities);
      }
    }

    /** The loop of processResponse itself, for the entities whose names,
      * created and updated arrays are `arrays`; it stops at the first
      * unknown name. */
    method QueueAll(entities: seq<SyncEntity>, fromJson: JsonRow -> Row, ghost queued: set<Record>)
      returns (r: Result<set<Record>>, ghost creates: seq<seq<Record>>, ghost updates: seq<seq<Record>>,
               ghost arrays: seq<(string, Option<seq<JsonRow>>, Option<seq<JsonRow>>)>)
      requires context.Valid() && Slots.CollectionsValid(context)
      requires QueuesWithin(context.fields, queued) && QueuesCover(context.fields, queued)
      modifies context, context.fields
      ensures arrays == old(Arrays(entities))
      ensures r.Err? ==> context.Valid() && Slots.CollectionsValid(context) && !EntitiesKnown(context.fields, entities) &&
                         exists j :: 0 <= j < |entities| && r.error == InvalidCollection(entities[j].name)
      ensures r.Ok? ==> fresh(r.value) && |creates| == |entities| &&
                        Progress(queued, r.value, creates, updates, arrays, fromJson)
    {
      var added: set<Record> := {};
      creates, updates := [], [];
      arrays := Arrays(entities);
      for i := 0 to |entities|
        invariant |creates| == i && Progress(queued, added, creates, updates, arrays, fromJson)
        invariant fresh(added)
      {
        var q, parsed := QueueNext(entities, i, fromJson, queued, added, creates, updates, arrays);
        if q.Err? {
          return Err(q.error), creates, updates, arrays;
        }
        added := added + parsed;
        creates, updates := creates + [q.value.0], updates + [q.value.1];
      }
      return Ok(added), creates, updates, arrays;
    }

    /** The state of processResponse's loop after the entities whose
      * lists are `creates` and `updates`: their names are collections,
      * `added` holds their records, and every queue holds what it held
      * (in `queued`) or what was added, and each of those. */
    ghost predicate Progress(queued: set<Record>, added: set<Record>,
                             creates: seq<seq<Record>>, updates: seq<seq<Record>>,
                             arrays: seq<(string, Option<seq<JsonRow>>, Option<seq<JsonRow>>)>, fromJson: JsonRow -> Row)
      reads this, context, context.fields, added
    {
      context.Valid() && Slots.CollectionsValid(context) &&
      QueuesWithin(context.fields, queued + added) && QueuesCover(context.fields, queued + added) &&
      NamesKnown(context.fields, arrays, |creates|) &&
      ParsedFrom(added, creates, updates) && DecodedAll(creates, updates, arrays, fromJson)
    }

    /** What the loop of processResponse has made once it has passed
      * every entity. */
    lemma ProgressDone(queued: set<Record>, added: set<Record>,
                       creates: seq<seq<Record>>, updates: seq<seq<Record>>,
                       arrays: seq<(string, Option<seq<JsonRow>>, Option<seq<JsonRow>>)>, fromJson: JsonRow -> Row)
      requires Progress(queued, added, creates, updates, arrays, fromJson) && |creates| == |arrays|
      ensures context.Valid() && Slots.CollectionsValid(context)
      ensures QueuesWithin(context.fields, queued + added) && QueuesCover(context.fields, queued + added)
      ensures NamesKnown(context.fields, arrays, |arrays|) && ParsedFrom(added, creates, updates)
      ensures forall j :: 0 <= j < |arrays| ==>
                Decoded(creates[j], arrays[j].1, false, fromJson) && Decoded(updates[j], arrays[j].2, true, fromJson)
    {
      DecodedEach(creates, updates, arrays, fromJson);
    }

    /** One pass of processResponse's loop, for the entity after those
      * whose lists are `creates` and `updates`: the lists grow by the
      * entity's, and `added` by their records. */
    method QueueNext(entities: seq<SyncEntity>, i: int, fromJson: JsonRow -> Row,
                     ghost queued: set<Record>, ghost added: set<Record>,
                     ghost creates: seq<seq<Record>>, ghost updates: seq<seq<Record>>,
                     ghost arrays: seq<(string, Option<seq<JsonRow>>, Option<seq<JsonRow>>)>)
      returns (q: Result<(seq<Record>, seq<Record>)>, parsed: set<Record>)
      requires Progress(queued, added, creates, updates, arrays, fromJson)
      requires 0 <= i < |entities| && i == |creates| < |arrays|
      requires arrays[i] == (entities[i].name, entities[i].created, entities[i].updated)
      modifies context, context.fields
      ensures context.Valid() && Slots.CollectionsValid(context)
      ensures q.Err? ==> q.error == InvalidCollection(entities[i].name) && !EntitiesKnown(context.fields, entities)
      ensures q.Ok? ==> fresh(parsed) &&
                        Progress(queued, added + parsed, creates + [q.value.0], updates + [q.value.1], arrays, fromJson)
    {
      q, parsed := QueueEntity(entities[i], fromJson, queued + added);
      if q.Err? {
        UnknownEntity(context.fields, entities, i);
      } else {
        NamesKnownStep(context.fields, arrays, |creates|);
        ParsedStep(added, creates, updates, q.value.0, q.value.1);
        DecodedStep(creates, updates, q.value.0, q.value.1, arrays, fromJson);
        assert queued + added + parsed == queued + (added + parsed);
      }
    }

    /**
     * One pass of processResponse's loop: the entity's collection is the
     * one getCollection(name) finds; its created rows become new records
     * queued as new, its updated rows persisted records queued as
     * changed. Returns the two lists of records.
     */
    method QueueEntity(e: SyncEntity, fromJson: JsonRow -> Row, ghost s: set<Record>)
      returns (r: Result<(seq<Record>, seq<Record>)>, parsed: set<Record>)
      requires context.Valid() && Slots.CollectionsValid(context)
      requires QueuesWithin(context.fields, s) && QueuesCover(context.fields, s)
      modifies context, context.fields
      ensures context.Valid() && Slots.CollectionsValid(context)
      ensures r.Ok? <==> CollectionNamed(context.fields, e.name) >= 0
      ensures r.Err? ==> r.error == InvalidCollection(e.name)
      ensures r.Ok? ==>
                var k, created, updated := CollectionNamed(context.fields, e.name), r.value.0, r.value.1;
                Decoded(created, e.created, false, fromJson) && Decoded(updated, e.updated, true, fromJson) &&
                parsed == Elements(created) + Elements(updated) &&
                context.fields[k].newRecords == old(context.fields[k].newRecords) + Elements(created) &&
                context.fields[k].changedRecords == old(context.fields[k].changedRecords) + Elements(updated)
      ensures r.Ok? ==> forall x :: x in parsed ==> fresh(x)
      ensures r.Ok? ==> QueuesWithin(context.fields, s + parsed) && QueuesCover(context.fields, s + parsed)
    {
      var c := context.GetCollectionByName(e.name);
      if c.Err? {
        return Err(c.error), {};
      }
      ghost var k := CollectionNamed(context.fields, e.name);
      var created, updated := QueueInto(c.value, k, e, fromJson, s);
      return Ok((created, updated)), Elements(created) + Elements(updated);
    }

    /** The additions of one pass of processResponse's loop, into the k-th
      * collection: the created records join its new queue, the updated
      * ones its changed queue, and no other queue changes. */
    method QueueInto(collection: Collection, ghost k: int, e: SyncEntity, fromJson: JsonRow -> Row, ghost s: set<Record>)
      returns (created: seq<Record>, updated: seq<Record>)
      requires context.Valid() && Slots.CollectionsValid(context)
      requires 0 <= k < |context.fields| && collection == context.fields[k]
      requires QueuesWithin(context.fields, s) && QueuesCover(context.fields, s)
      modifies collection
      ensures context.Valid() && Slots.CollectionsValid(context)
      ensures Decoded(created, e.created, false, fromJson) && Decoded(updated, e.updated, true, fromJson)
      ensures collection.newRecords == old(collection.newRecords) + Elements(created)
      ensures collection.changedRecords == old(collection.changedRecords) + Elements(updated)
      ensures forall x :: x in Elements(created) + Elements(updated) ==> fresh(x)
      ensures var parsed := Elements(created) + Elements(updated);
              QueuesWithin(context.fields, s + parsed) && QueuesCover(context.fields, s + parsed)
    {
      ghost var news, changes := NewQueues(context.fields), ChangedQueues(context.fields);
      ElementsMeaning(context.fields);
      created, updated := QueueParsed(collection, e, fromJson);
      ElementsMeaning(created);
      ElementsMeaning(updated);
      QueuesGrown(context.fields, news, changes, s, Elements(created) + Elements(updated), k);
    }

    /**
     * generateRequest: one new entity per name of getSyncOrder(), in that
     * order, each populated from its collection's table in `tables`; the
     * request's watermark stays null. getSyncOrder does not initialize the
     * context, so before anything else has, the request has no entities.
     */
    method GenerateRequest(tables: map<string, seq<Row>>, unreadable: set<Row>, parse: string -> DateTime,
                           encode: Row -> JsonRow, dateText: DateTime -> string)
      returns (r: Result<SyncRequest>)
      requires context.Valid() && Slots.CollectionsValid(context)
      modifies context, context.fields
      ensures context.Valid() && Slots.CollectionsValid(context)
      ensures !old(context.initialized) ==> r == Ok(SyncRequest(None, Some([])))
      ensures old(context.initialized) ==>
                (r.Err? <==> exists j :: 0 <= j < |old(context.collections)| &&
                               PopulateFails(old(context.collections)[j].tableName, tables, unreadable,
                                             old(Unbound(context.fields))))
      ensures r.Err? ==> r.error == NullPointer || r.error == RowFailure
      ensures r.Ok? ==> r.value.lastSynced.None? && r.value.entities.Some? &&
                        |r.value.entities.value| == |old(context.collections)|
      ensures r.Ok? ==> forall i :: 0 <= i < |r.value.entities.value| ==>
                Populated(r.value.entities.value[i], old(context.collections)[i].tableName, tables, encode)
    {
      var lastSynced := GetLastSynced(parse);
      var order := context.GetSyncOrder();
      var entities := PopulateAll(order[..], tables, unreadable, lastSynced, encode, dateText);
      if entities.Err? {
        return Err(entities.error);
      }
      return Ok(SyncRequest(None, Some(entities.value)));
    }

    /** The loop of generateRequest over the names of getSyncOrder(). */
    method PopulateAll(names: seq<string>, tables: map<string, seq<Row>>, unreadable: set<Row>, lastSynced: DateTime,
                       encode: Row -> JsonRow, dateText: DateTime -> string)
      returns (r: Result<seq<SyncEntity>>)
      requires context.Valid() && Slots.CollectionsValid(context)
      requires |names| == |context.collections|
      requires forall j :: 0 <= j < |names| ==> names[j] == context.collections[j].tableName
      modifies context, context.fields
      ensures context.Valid() && Slots.CollectionsValid(context)
      ensures context.collections == old(context.collections)
      ensures Unbound(context.fields) == old(Unbound(context.fields))
      ensures r.Err? <==> SomeFails(names, tables, unreadable, old(Unbound(context.fields)))
      ensures r.Err? ==> r.error == NullPointer || r.error == RowFailure
      ensures names == [] ==> r == Ok([])
      ensures r.Ok? ==> |r.value| == |names| &&
                        forall j :: 0 <= j < |names| ==> Populated(r.value[j], names[j], tables, encode)
    {
      TableNamesFound(context.fields, names);
      ghost var unbound := Unbound(context.fields);
      var entities: seq<SyncEntity> := [];
      for i := 0 to |names|
        invariant context.Valid() && Slots.CollectionsValid(context)
        invariant context.collections == old(context.collections)
        invariant Unbound(context.fields) == unbound
        invariant NoneFails(names, i, tables, unreadable, unbound)
        invariant |entities| == i && AllPopulated(entities, names, tables, encode)
      {
        var next := PopulateNext(entities, names, tables, unreadable, lastSynced, encode, dateText);
        if next.Err? {
          return Err(next.error);
        }
        entities := entities + [next.value];
      }
      NoneFailsAll(names, tables, unreadable, unbound);
      return Ok(entities);
    }

    /** The entities made so far each hold what generateRequest puts in
      * the entity of its name. */
    ghost predicate AllPopulated(entities: seq<SyncEntity>, names: seq<string>, tables: map<string, seq<Row>>,
                                 encode: Row -> JsonRow)
      reads set j | 0 <= j < |entities| :: entities[j]
    {
      |entities| <= |names| && forall j :: 0 <= j < |entities| ==> Populated(entities[j], names[j], tables, encode)
    }

    lemma AllPopulatedStep(entities: seq<SyncEntity>, e: SyncEntity, names: seq<string>,
                           tables: map<string, seq<Row>>, encode: Row -> JsonRow)
      requires |entities| < |names| && AllPopulated(entities, names, tables, encode)
      requires Populated(e, names[|entities|], tables, encode)
      ensures AllPopulated(entities + [e], names, tables, encode)
    {
      assert forall j :: 0 <= j < |entities| ==> (entities + [e])[j] == entities[j];
    }

    /** One pass of the loop of generateRequest: the entity of the next
      * name, to be appended to those made so far. */
    method PopulateNext(entities: seq<SyncEntity>, names: seq<string>, tables: map<string, seq<Row>>,
                        unreadable: set<Row>, lastSynced: DateTime, encode: Row -> JsonRow, dateText: DateTime -> string)
      returns (r: Result<SyncEntity>)
      requires context.Valid() && Slots.CollectionsValid(context)
      requires |entities| < |names| && AllPopulated(entities, names, tables, encode)
      requires forall j :: 0 <= j < |names| ==> CollectionNamed(context.fields, names[j]) >= 0
      requires |context.collections| > 0
      requires NoneFails(names, |entities|, tables, unreadable, Unbound(context.fields))
      modifies context, context.fields
      ensures context.Valid() && Slots.CollectionsValid(context)
      ensures context.collections == old(context.collections)
      ensures Unbound(context.fields) == old(Unbound(context.fields))
      ensures r.Err? <==> PopulateFails(names[|entities|], tables, unreadable, Unbound(context.fields))
      ensures r.Err? ==> SomeFails(names, tables, unreadable, Unbound(context.fields))
      ensures r.Ok? ==> NoneFails(names, |entities| + 1, tables, unreadable, Unbound(context.fields))
      ensures r.Err? ==> r.error == NullPointer || r.error == RowFailure
      ensures r.Ok? ==> fresh(r.value) && AllPopulated(entities + [r.value], names, tables, encode)
    {
      ghost var unbound := Unbound(context.fields);
      var p := PopulateEntity(names[|entities|], tables, unreadable, lastSynced, encode, dateText);
      if p.Err? {
        FailsAt(names, |entities|, tables, unreadable, unbound);
        return Err(p.error);
      }
      r := p;
      NoneFailsStep(names, |entities|, tables, unreadable, unbound);
      AllPopulatedStep(entities, p.value, names, tables, encode);
    }

    /** The entity of generateRequest for the table `name`: named so, its
      * created and updated arrays the JSON of that collection's rows in
      * those states. */
    ghost predicate Populated(e: SyncEntity, name: string, tables: map<string, seq<Row>>, encode: Row -> JsonRow)
      reads e
    {
      0 <= CollectionNamed(context.fields, name) && EntityContents(e) == Expected(name, tables, encode)
    }

    /** What an entity holds: its name and its two arrays. */
    ghost function EntityContents(e: SyncEntity): (string, Option<seq<JsonRow>>, Option<seq<JsonRow>>)
      reads e
    {
      (e.name, e.created, e.updated)
    }

    /** What populating the entity named `name` puts in it, when some
      * collection has that table name. */
    ghost function Expected(name: string, tables: map<string, seq<Row>>, encode: Row -> JsonRow)
      : (string, Option<seq<JsonRow>>, Option<seq<JsonRow>>)
    {
      var k := CollectionNamed(context.fields, name);
      if k < 0 then (name, None, None)
      else
        var table := TableRows(tables, context.fields[k].tableName);
        (name, Some(Encoded(InState(table, Created), encode)), Some(Encoded(InState(table, Updated), encode)))
    }

    /** Populating the entity named `name` fails: its collection (when
      * one has that table name) is one of the `unbound` positions, which
      * have no context, or a row it selects as created or as updated
      * cannot be deserialised. */
    ghost predicate PopulateFails(name: string, tables: map<string, seq<Row>>, unreadable: set<Row>, unbound: set<int>) {
      var k := CollectionNamed(context.fields, name);
      k >= 0 &&
      var table := TableRows(tables, context.fields[k].tableName);
      (k in unbound || !Readable(InState(table, Created), unreadable) || !Readable(InState(table, Updated), unreadable))
    }

    /** Populating none of the first `i` names fails. */
    ghost predicate NoneFails(names: seq<string>, i: int, tables: map<string, seq<Row>>, unreadable: set<Row>,
                              unbound: set<int>) {
      forall j :: 0 <= j < i && j < |names| ==> !PopulateFails(names[j], tables, unreadable, unbound)
    }

    lemma NoneFailsStep(names: seq<string>, i: int, tables: map<string, seq<Row>>, unreadable: set<Row>,
                        unbound: set<int>)
      requires 0 <= i < |names| && NoneFails(names, i, tables, unreadable, unbound)
      requires !PopulateFails(names[i], tables, unreadable, unbound)
      ensures NoneFails(names, i + 1, tables, unreadable, unbound)
    {
    }

    lemma NoneFailsAll(names: seq<string>, tables: map<string, seq<Row>>, unreadable: set<Row>, unbound: set<int>)
      requires NoneFails(names, |names|, tables, unreadable, unbound)
      ensures !SomeFails(names, tables, unreadable, unbound)
    {
    }

    /** Populating some name of the list fails. */
    ghost predicate SomeFails(names: seq<string>, tables: map<string, seq<Row>>, unreadable: set<Row>, unbound: set<int>) {
      exists j :: 0 <= j < |names| && PopulateFails(names[j], tables, unreadable, unbound)
    }

    lemma FailsAt(names: seq<string>, i: int, tables: map<string, seq<Row>>, unreadable: set<Row>, unbound: set<int>)
      requires 0 <= i < |names| && PopulateFails(names[i], tables, unreadable, unbound)
      ensures SomeFails(names, tables, unreadable, unbound)
    {
    }

    /** One pass of generateRequest's loop: a new entity named `name`,
      * populated from getCollection(name). */
    method PopulateEntity(name: string, tables: map<string, seq<Row>>, unreadable: set<Row>, lastSynced: DateTime,
                          encode: Row -> JsonRow, dateText: DateTime -> string)
      returns (r: Result<SyncEntity>)
      requires context.Valid() && Slots.CollectionsValid(context)
      modifies context, context.fields
      ensures context.Valid() && Slots.CollectionsValid(context) && context.collections == context.fields
      ensures CollectionNamed(context.fields, name) < 0 ==> r == Err(InvalidCollection(name))
      ensures CollectionNamed(context.fields, name) >= 0 && r.Err? ==> r.error == NullPointer || r.error == RowFailure
      ensures var k := CollectionNamed(context.fields, name);
              k >= 0 && r == Err(RowFailure) ==>
                var table := TableRows(tables, context.fields[k].tableName);
                !Readable(InState(table, Created), unreadable) || !Readable(InState(table, Updated), unreadable)
      ensures old(context.initialized) ==> context.collections == old(context.collections)
      ensures old(context.initialized) ==> Unbound(context.fields) == old(Unbound(context.fields))
      ensures CollectionNamed(context.fields, name) >= 0 ==>
                (r.Err? <==> PopulateFails(name, tables, unreadable, Unbound(context.fields)))
      ensures r.Ok? ==> fresh(r.value) && Populated(r.value, name, tables, encode)
    {
      var entity := new SyncEntity(name, None, None);
      ElementsMeaning(context.fields);
      var c := context.GetCollectionByName(name);
      if c.Err? {
        return Err(c.error);
      }
      var p := entity.Populate(c.value, lastSynced, TableRows(tables, c.value.tableName), unreadable, encode, dateText);
      if p.Err? {
        return Err(p.error);
      }
      return Ok(entity);
    }
  }

  /** The positions of the collections that have no context. */
  ghost function Unbound(cs: seq<Collection>): (u: set<int>)
    reads cs
    ensures forall k :: k in u <==> 0 <= k < |cs| && cs[k].context == null
  {
    set k | 0 <= k < |cs| && cs[k].context == null
  }

  /** Each collection's own table name finds a collection. */
  lemma TableNamesFound(cs: seq<Collection>, names: seq<string>)
    requires |names| <= |cs| && forall j :: 0 <= j < |names| ==> names[j] == cs[j].tableName
    ensures forall j :: 0 <= j < |names| ==> CollectionNamed(cs, names[j]) >= 0
  {
    forall j | 0 <= j < |names|
      ensures CollectionNamed(cs, names[j]) >= 0
    {
      assert EqualsIgnoreCase(cs[j].tableName, names[j]);
    }
  }

  /** The records the collections queue, new or changed, all lie in `s`. */
  predicate QueuesWithin(cs: seq<Collection>, s: set<Record>)
    reads set k | 0 <= k < |cs| :: cs[k]
  {
    forall k :: 0 <= k < |cs| ==> cs[k].newRecords <= s && cs[k].changedRecords <= s
  }

  /** Every record of `s` is queued, new or changed, in one of the
    * collections. */
  ghost predicate QueuesCover(cs: seq<Collection>, s: set<Record>)
    reads set k | 0 <= k < |cs| :: cs[k]
  {
    forall x :: x in s ==> exists k :: 0 <= k < |cs| && (x in cs[k].newRecords || x in cs[k].changedRecords)
  }

  /** Queues that held `news` and `changes`, within and covering `s`, and
    * grew only by `extra`, which the `k`-th collection now queues, lie within
    * and cover `s` and `extra` together. */
  lemma QueuesGrown(cs: seq<Collection>, news: seq<set<Record>>, changes: seq<set<Record>>,
                    s: set<Record>, extra: set<Record>, k: int)
    requires |news| == |changes| == |cs| && 0 <= k < |cs|
    requires forall j :: 0 <= j < |cs| ==> news[j] <= s && changes[j] <= s
    requires forall x :: x in s ==> exists j :: 0 <= j < |cs| && (x in news[j] || x in changes[j])
    requires forall j :: 0 <= j < |cs| ==>
               news[j] <= cs[j].newRecords <= news[j] + extra && changes[j] <= cs[j].changedRecords <= changes[j] + extra
    requires extra <= cs[k].newRecords + cs[k].changedRecords
    ensures QueuesWithin(cs, s + extra) && QueuesCover(cs, s + extra)
  {
    forall x | x in s + extra
      ensures exists j :: 0 <= j < |cs| && (x in cs[j].newRecords || x in cs[j].changedRecords)
    {
      if x !in extra {
        var j :| 0 <= j < |cs| && (x in news[j] || x in changes[j]);
      }
    }
  }

  /** Queues that cover `s` and lie within it queue exactly `s`. */
  lemma QueuedExactly(cs: seq<Collection>, s: set<Record>)
    requires QueuesWithin(cs, s) && QueuesCover(cs, s)
    ensures Queued(cs) == s
  {
    QueuedWithin(cs, s);
    QueuedHas(cs);
  }

  /** The number of objects of a JSON array; a missing one has none. */
  function Count(objects: Option<seq<JsonRow>>): nat {
    if objects.Some? then |objects.value| else 0
  }

  /** What each entity of a response holds: its name and its two arrays. */
  ghost function Arrays(entities: seq<SyncEntity>): (a: seq<(string, Option<seq<JsonRow>>, Option<seq<JsonRow>>)>)
    reads set j | 0 <= j < |entities| :: entities[j]
    ensures |a| == |entities| &&
            forall j :: 0 <= j < |entities| ==> a[j] == (entities[j].name, entities[j].created, entities[j].updated)
  {
    seq(|entities|, j reads set j | 0 <= j < |entities| :: entities[j] requires 0 <= j < |entities| =>
      (entities[j].name, entities[j].created, entities[j].updated))
  }

  /** The records of the lists `creates` and `updates`, one pair per
    * entity. */
  function AllParsed(creates: seq<seq<Record>>, updates: seq<seq<Record>>): set<Record>
    requires |creates| == |updates|
    decreases |creates|
  {
    if creates == [] then {}
    else
      var n := |creates| - 1;
      AllParsed(creates[..n], updates[..n]) + (Elements(creates[n]) + Elements(updates[n]))
  }

  /** A record is parsed exactly when one of the lists holds it. */
  lemma {:induction false} AllParsedMembers(creates: seq<seq<Record>>, updates: seq<seq<Record>>)
    requires |creates| == |updates|
    ensures forall x :: x in AllParsed(creates, updates) <==>
              exists j :: 0 <= j < |creates| && (x in creates[j] || x in updates[j])
    decreases |creates|
  {
    if creates != [] {
      var n := |creates| - 1;
      var cs, us := creates[..n], updates[..n];
      AllParsedMembers(cs, us);
      ElementsMeaning(creates[n]);
      ElementsMeaning(updates[n]);
      forall x | exists j :: 0 <= j < |creates| && (x in creates[j] || x in updates[j])
        ensures x in AllParsed(creates, updates)
      {
        var j :| 0 <= j < |creates| && (x in creates[j] || x in updates[j]);
        if j < n {
          assert cs[j] == creates[j] && us[j] == updates[j];
        }
      }
      assert forall j :: 0 <= j < n ==> cs[j] == creates[j] && us[j] == updates[j];
    }
  }

  /** `parsed` holds exactly the records of the lists `creates` and
    * `updates`, one pair per entity. */
  predicate ParsedFrom(parsed: set<Record>, creates: seq<seq<Record>>, updates: seq<seq<Record>>) {
    |creates| == |updates| && parsed == AllParsed(creates, updates)
  }

  lemma ParsedStep(parsed: set<Record>, creates: seq<seq<Record>>, updates: seq<seq<Record>>,
                   created: seq<Record>, updated: seq<Record>)
    requires ParsedFrom(parsed, creates, updates)
    ensures ParsedFrom(parsed + (Elements(created) + Elements(updated)), creates + [created], updates + [updated])
  {
    var cs, us := creates + [created], updates + [updated];
    assert cs[..|creates|] == creates && us[..|creates|] == updates;
  }

  /** The j-th lists are what parseArray made of the j-th entity's created
    * and updated arrays, for each pair of lists. */
  ghost predicate DecodedAll(creates: seq<seq<Record>>, updates: seq<seq<Record>>,
                             arrays: seq<(string, Option<seq<JsonRow>>, Option<seq<JsonRow>>)>, fromJson: JsonRow -> Row)
    requires |creates| == |updates|
    reads AllParsed(creates, updates)
    decreases |creates|
  {
    |creates| <= |arrays| &&
    (creates != [] ==>
      var n := |creates| - 1;
      ElementsMeaning(creates[n]);
      ElementsMeaning(updates[n]);
      DecodedAll(creates[..n], updates[..n], arrays, fromJson) &&
      Decoded(creates[n], arrays[n].1, false, fromJson) && Decoded(updates[n], arrays[n].2, true, fromJson))
  }

  lemma DecodedStep(creates: seq<seq<Record>>, updates: seq<seq<Record>>, created: seq<Record>, updated: seq<Record>,
                    arrays: seq<(string, Option<seq<JsonRow>>, Option<seq<JsonRow>>)>, fromJson: JsonRow -> Row)
    requires |creates| == |updates| && DecodedAll(creates, updates, arrays, fromJson) && |creates| < |arrays|
    requires Decoded(created, arrays[|creates|].1, false, fromJson) && Decoded(updated, arrays[|creates|].2, true, fromJson)
    ensures DecodedAll(creates + [created], updates + [updated], arrays, fromJson)
  {
    var cs, us := creates + [created], updates + [updated];
    assert cs[..|creates|] == creates && us[..|creates|] == updates;
  }

  /** Each pair of lists is what parseArray made of its entity's arrays. */
  lemma {:induction false} DecodedEach(creates: seq<seq<Record>>, updates: seq<seq<Record>>,
                                       arrays: seq<(string, Option<seq<JsonRow>>, Option<seq<JsonRow>>)>,
                                       fromJson: JsonRow -> Row)
    requires |creates| == |updates| && DecodedAll(creates, updates, arrays, fromJson)
    ensures forall j :: 0 <= j < |creates| ==>
              Decoded(creates[j], arrays[j].1, false, fromJson) && Decoded(updates[j], arrays[j].2, true, fromJson)
    decreases |creates|
  {
    if creates != [] {
      var n := |creates| - 1;
      DecodedEach(creates[..n], updates[..n], arrays, fromJson);
      assert forall j :: 0 <= j < n ==> creates[..n][j] == creates[j] && updates[..n][j] == updates[j];
    }
  }

  /** `records` are what parseArray makes of `objects`. */
  ghost predicate Decoded(records: seq<Record>, objects: Option<seq<JsonRow>>, isPersisted: bool,
                          fromJson: JsonRow -> Row)
    reads set k | 0 <= k < |records| :: records[k]
  {
    |records| == Count(objects) &&
    forall i :: 0 <= i < |records| ==>
      RowOf(records[i]) == fromJson(objects.value[i]) && records[i].persisted == isPersisted
  }

  /** A list of collections whose queues all lie within `s` queues
    * nothing outside it. */
  lemma {:induction false} QueuedWithin(cs: seq<Collection>, s: set<Record>)
    requires QueuesWithin(cs, s)
    ensures Queued(cs) <= s
    decreases |cs|
  {
    if cs != [] {
      QueuedWithin(cs[..|cs| - 1], s);
    }
  }
}
