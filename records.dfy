// Records (DbModel): the base of every model object. A record carries an
// id, timestamps, a sync state, a persisted flag and the list of errors
// collected while validating or saving it.

module Records {
  import opened Common
  import opened Values
  import opened Codecs

  /** DbModel.SyncState of the Lib copy. */
  datatype SyncState = Created | Synced | Updated | Deleted

  /** The constant's name, as toString() gives it and as the enum column
    * stores it. */
  function SyncStateName(s: SyncState): string {
    match s
    case Created => "created"
    case Synced => "synced"
    case Updated => "updated"
    case Deleted => "deleted"
  }

  /** Distinct states have distinct names, so a state is found again from
    * its stored name. */
  lemma SyncStateNameInjective(a: SyncState, b: SyncState)
    ensures SyncStateName(a) == SyncStateName(b) <==> a == b
  {
    if a != b {
      assert SyncStateName(a)[0] != SyncStateName(b)[0];
    }
  }

  /** DbModel.SyncState of the TinySyncLib copy. */
  datatype LegacySyncState = Infant | Alive | Dead

  /** RecordError: the property it concerns (null for a whole-record error),
    * its message, and whether it wraps an exception. */
  datatype RecordError = RecordError(property: Option<string>, message: string, fromException: bool)

  /** A row of a model's table as the store hands it back, or a JSON row as
    * Gson fills it in: the id, the base columns and the declared fields. */
  datatype Row = Row(
    id: ObjectId,
    createdAt: Option<DateTime>,
    updatedAt: Option<DateTime>,
    syncState: SyncState,
    values: map<string, Value>)

  // ---- what deserializeRow leaves in a record

  /** A DateTime column read back by the DateTime serializer: an instant
    * at or before the epoch, like a NULL cell, leaves the field null. */
  function StoredInstant(d: Option<DateTime>): (r: Option<DateTime>)
    ensures r.Some? <==> d.Some? && d.value.millis > 0
    ensures r.Some? ==> r == d
  {
    DateTimeFromCell(CellLong(DateTimeToCell(d)))
  }

  /** A declared field read back: a DateTime goes through the same codec;
    * every other value is read as it was stored. */
  function StoredValue(v: Value): Value {
    match v
    case Time(dt) => if dt.millis > 0 then v else Null
    case _ => v
  }

  function StoredValues(vs: map<string, Value>): (r: map<string, Value>)
    ensures r.Keys == vs.Keys && forall f :: f in vs ==> r[f] == StoredValue(vs[f])
  {
    map f | f in vs :: StoredValue(vs[f])
  }

  /** The fields of a record deserializeRow fills from `row`. */
  function Loaded(row: Row): (r: Row)
    ensures r.id == row.id && r.syncState == row.syncState
    ensures r.createdAt == StoredInstant(row.createdAt) && r.updatedAt == StoredInstant(row.updatedAt)
    ensures r.values == StoredValues(row.values)
  {
    Row(row.id, StoredInstant(row.createdAt), StoredInstant(row.updatedAt), row.syncState, StoredValues(row.values))
  }

  /** No instant in the row lies at or before the epoch. */
  predicate AfterEpoch(row: Row) {
    (row.createdAt.Some? ==> row.createdAt.value.millis > 0) &&
    (row.updatedAt.Some? ==> row.updatedAt.value.millis > 0) &&
    forall f :: f in row.values && row.values[f].Time? ==> row.values[f].dt.millis > 0
  }

  /** A row survives being read exactly when none of its instants lies at
    * or before the epoch, and what is read survives a second read. */
  lemma LoadedKeepsRow(row: Row)
    ensures Loaded(row) == row <==> AfterEpoch(row)
    ensures AfterEpoch(Loaded(row)) && Loaded(Loaded(row)) == Loaded(row)
  {
    var l := Loaded(row);
    if AfterEpoch(row) {
      assert l.values == row.values;
    }
    if l == row {
      forall f | f in row.values && row.values[f].Time?
        ensures row.values[f].dt.millis > 0
      {
        assert l.values[f] == row.values[f];
      }
    }
    assert StoredValues(l.values) == l.values;
  }

  class Record {
    /** The model class (its simple name); fixed for the object's life. */
    const modelClass: string
    const id: ObjectId
    var createdAt: Option<DateTime>
    var updatedAt: Option<DateTime>
    var syncState: SyncState
    var persisted: bool
    var errors: seq<RecordError>
    /** The declared fields of the model subclass, by field name. */
    var values: map<string, Value>
    /** The errors the subclass's onValidate adds each time it runs; the
      * default onValidate adds none. */
    const customErrors: seq<RecordError>

    /** DbModel(): a new record gets an id and createdAt, is in state
      * Created, is not persisted and has no errors. The id and the clock
      * reading are parameters. */
    constructor (modelClass: string, id: ObjectId, now: DateTime, values: map<string, Value>,
                 customErrors: seq<RecordError>)
      ensures this.modelClass == modelClass && this.id == id
      ensures createdAt == Some(now) && updatedAt == None
      ensures syncState == Created && !persisted && errors == []
      ensures this.values == values && this.customErrors == customErrors
    {
      this.modelClass := modelClass;
      this.id := id;
      createdAt := Some(now);
      updatedAt := None;
      syncState := Created;
      persisted := false;
      errors := [];
      this.values := values;
      this.customErrors := customErrors;
    }

    /** A record Gson builds from a JSON object (`row` is what it decodes):
      * every field takes the decoded value, and the flag is false.
      * `customErrors` is the model class's onValidate. */
    constructor FromJson(modelClass: string, row: Row, customErrors: seq<RecordError>)
      ensures this.modelClass == modelClass && id == row.id
      ensures createdAt == row.createdAt && updatedAt == row.updatedAt
      ensures syncState == row.syncState && values == row.values
      ensures !persisted && errors == [] && this.customErrors == customErrors
    {
      this.modelClass := modelClass;
      id := row.id;
      createdAt := row.createdAt;
      updatedAt := row.updatedAt;
      syncState := row.syncState;
      values := row.values;
      persisted := false;
      errors := [];
      this.customErrors := customErrors;
    }

    /** A record created by reflection and filled from a row, each column
      * by its serializer (see Loaded), and the flag is still false.
      * `customErrors` is the model class's onValidate. */
    constructor Load(modelClass: string, row: Row, customErrors: seq<RecordError>)
      ensures this.modelClass == modelClass && id == row.id
      ensures createdAt == StoredInstant(row.createdAt) && updatedAt == StoredInstant(row.updatedAt)
      ensures syncState == row.syncState && values == StoredValues(row.values)
      ensures !persisted && errors == [] && this.customErrors == customErrors
    {
      this.modelClass := modelClass;
      id := row.id;
      createdAt := StoredInstant(row.createdAt);
      updatedAt := StoredInstant(row.updatedAt);
      syncState := row.syncState;
      values := StoredValues(row.values);
      persisted := false;
      errors := [];
      this.customErrors := customErrors;
    }

    predicate IsPersisted()
      reads this
      ensures IsPersisted() <==> persisted
    {
      persisted
    }

    /** setIsPersisted: sets the flag either way and nothing else. */
    method SetIsPersisted(b: bool)
      modifies this
      ensures persisted == b
      ensures errors == old(errors) && values == old(values) && syncState == old(syncState)
      ensures createdAt == old(createdAt) && updatedAt == old(updatedAt)
    {
      persisted := b;
    }

    /** The TinySyncLib collection writes this field directly. */
    method Touch(now: DateTime)
      modifies this
      ensures updatedAt == Some(now)
      ensures errors == old(errors) && values == old(values) && syncState == old(syncState)
      ensures createdAt == old(createdAt) && persisted == old(persisted)
    {
      updatedAt := Some(now);
    }

    /** addError(RecordError): appends exactly one error. */
    method AddError(e: RecordError)
      modifies this
      ensures errors == old(errors) + [e]
      ensures persisted == old(persisted) && values == old(values) && syncState == old(syncState)
      ensures createdAt == old(createdAt) && updatedAt == old(updatedAt)
    {
      errors := errors + [e];
    }

    /** addError(propertyName, message). */
    method AddErrorMessage(property: string, message: string)
      modifies this
      ensures errors == old(errors) + [RecordError(Some(property), message, false)]
      ensures persisted == old(persisted) && values == old(values) && syncState == old(syncState)
      ensures createdAt == old(createdAt) && updatedAt == old(updatedAt)
    {
      errors := errors + [RecordError(Some(property), message, false)];
    }

    /** addError(propertyName, exception): the message is the exception's. */
    method AddErrorException(property: Option<string>, exceptionMessage: string)
      modifies this
      ensures errors == old(errors) + [RecordError(property, exceptionMessage, true)]
      ensures persisted == old(persisted) && values == old(values) && syncState == old(syncState)
      ensures createdAt == old(createdAt) && updatedAt == old(updatedAt)
    {
      errors := errors + [RecordError(property, exceptionMessage, true)];
    }

    predicate HasErrors()
      reads this
      ensures HasErrors() <==> errors != []
    {
      |errors| > 0
    }

    method ClearErrors()
      modifies this
      ensures errors == [] && !HasErrors()
      ensures persisted == old(persisted) && values == old(values) && syncState == old(syncState)
      ensures createdAt == old(createdAt) && updatedAt == old(updatedAt)
    {
      errors := [];
    }

    /** onValidate: the subclass hook; with the default hook nothing changes. */
    method OnValidate()
      modifies this
      ensures errors == old(errors) + customErrors
      ensures customErrors == [] ==> errors == old(errors)
      ensures persisted == old(persisted) && values == old(values) && syncState == old(syncState)
      ensures createdAt == old(createdAt) && updatedAt == old(updatedAt)
    {
      errors := errors + customErrors;
    }
  }

  /**
   * DbModel of the TinySyncLib copy, the record its older collection
   * (LegacyDb.LegacySet) queues and inserts. It has no setIsPersisted: the
   * flag is package-private, and only the collection's save sets it.
   */
  class LegacyRecord {
    const modelClass: string
    const id: ObjectId
    var createdAt: Option<DateTime>
    var updatedAt: Option<DateTime>
    var syncState: LegacySyncState
    var persisted: bool
    var errors: seq<RecordError>
    var values: map<string, Value>

    /** DbModel(): a new record gets an id and createdAt, starts as Infant,
      * is not persisted and has no errors. */
    constructor (modelClass: string, id: ObjectId, now: DateTime, values: map<string, Value>)
      ensures this.modelClass == modelClass && this.id == id
      ensures createdAt == Some(now) && updatedAt == None
      ensures syncState == Infant && !persisted && errors == []
      ensures this.values == values
    {
      this.modelClass := modelClass;
      this.id := id;
      createdAt := Some(now);
      updatedAt := None;
      syncState := Infant;
      persisted := false;
      errors := [];
      this.values := values;
    }

    predicate IsPersisted()
      reads this
      ensures IsPersisted() <==> persisted
    {
      persisted
    }

    /** addError(RecordError): appends exactly one error. */
    method AddError(e: RecordError)
      modifies this
      ensures errors == old(errors) + [e]
      ensures persisted == old(persisted) && values == old(values) && syncState == old(syncState)
      ensures createdAt == old(createdAt) && updatedAt == old(updatedAt)
    {
      errors := errors + [e];
    }

    /** addError(propertyName, message). */
    method AddErrorMessage(property: string, message: string)
      modifies this
      ensures errors == old(errors) + [RecordError(Some(property), message, false)]
      ensures persisted == old(persisted) && values == old(values) && syncState == old(syncState)
      ensures createdAt == old(createdAt) && updatedAt == old(updatedAt)
    {
      errors := errors + [RecordError(Some(property), message, false)];
    }

    /** addError(propertyName, exception): the message is the exception's. */
    method AddErrorException(property: Option<string>, exceptionMessage: string)
      modifies this
      ensures errors == old(errors) + [RecordError(property, exceptionMessage, true)]
      ensures persisted == old(persisted) && values == old(values) && syncState == old(syncState)
      ensures createdAt == old(createdAt) && updatedAt == old(updatedAt)
    {
      errors := errors + [RecordError(property, exceptionMessage, true)];
    }

    predicate HasErrors()
      reads this
      ensures HasErrors() <==> errors != []
    {
      |errors| > 0
    }

    method ClearErrors()
      modifies this
      ensures errors == [] && !HasErrors()
      ensures persisted == old(persisted) && values == old(values) && syncState == old(syncState)
      ensures createdAt == old(createdAt) && updatedAt == old(updatedAt)
    {
      errors := [];
    }

    /** onValidate: the default hook changes nothing. */
    method OnValidate()
      ensures unchanged(this)
    {
    }
  }
}
