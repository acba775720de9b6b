// The association slots a model declares as public fields: a belongs-to
// slot holding the key of the record it points at (the TinySyncLib copy
// also remembers the record once looked up) and a has-many slot holding
// the lazily run query of the records that point back.

module Slots {
  import opened Common
  import opened Values
  import opened Records
  import opened Schema
  import opened Queries
  import opened Db

  /** Every collection of the context keeps its cache keyed by id. */
  ghost predicate CollectionsValid(context: Context)
    reads context.fields
  {
    forall k :: 0 <= k < |context.fields| ==> context.fields[k].Valid()
  }

  /** DbBelongsTo of the TinySyncLib copy: the key and, once looked up or
    * assigned, the record itself. */
  class CachedBelongsTo {
    const owner: Record
    const modelClass: string
    var key: Option<ObjectId>
    var cachedValue: Option<Record>

    /** A new slot has neither a key nor a cached record. */
    constructor (owner: Record, modelClass: string)
      ensures this.owner == owner && this.modelClass == modelClass
      ensures key == None && cachedValue == None
    {
      this.owner := owner;
      this.modelClass := modelClass;
      key := None;
      cachedValue := None;
    }

    function GetKey(): (k: Option<ObjectId>)
      reads this
      ensures k == key
    {
      key
    }

    /** setKey: only the key changes; a cached record stays. */
    method SetKey(k: Option<ObjectId>)
      modifies this
      ensures GetKey() == k && cachedValue == old(cachedValue)
    {
      key := k;
    }

    /** getCachedValue: what the last lookup or assignment left, without
      * looking anything up. */
    function GetCachedValue(): (v: Option<Record>)
      reads this
      ensures v == cachedValue
    {
      cachedValue
    }

    /** setValue: caches the record and takes its id as the key. */
    method SetValue(v: Record)
      modifies this
      ensures cachedValue == Some(v) && key == Some(v.id)
    {
      cachedValue := Some(v);
      key := Some(v.id);
    }

    /**
     * getValue: a cached record is returned without any lookup; otherwise
     * the target collection finds the key in its table (`table`) and the
     * answer is cached, so a miss (null) is looked up again next time.
     * A record found is new.
     */
    method GetValue(context: Context, table: seq<Row>) returns (r: Result<Option<Record>>)
      requires context.Valid() && CollectionsValid(context)
      modifies this, context, context.fields
      ensures context.Valid() && CollectionsValid(context) && key == old(key)
      ensures old(cachedValue).None? && r.Ok? && r.value.Some? ==> fresh(r.value.value)
      ensures old(cachedValue).Some? ==>
                r == Ok(old(cachedValue)) && cachedValue == old(cachedValue) &&
                unchanged(context) && unchanged(context.fields)
      ensures old(cachedValue).None? ==>
                cachedValue == (if r.Ok? then r.value else None) && FoundBy(context, modelClass, key, table, r)
    {
      if cachedValue.Some? {
        return Ok(cachedValue);
      }
      r := FindTarget(context, modelClass, key, table);
      if r.Ok? {
        cachedValue := r.value;
      }
    }
  }

  /** What looking `key` up in the table of the collection for
    * `modelClass` answers: it fails exactly when there is no such
    * collection (InvalidCollection), or the key is null or the collection
    * has no context (NullPointer); otherwise a record is found exactly
    * when a row has the key, and it carries that key. */
  ghost predicate FoundBy(context: Context, modelClass: string, key: Option<ObjectId>, table: seq<Row>,
                          r: Result<Option<Record>>)
    reads context.fields
  {
    var k := CollectionFor(context.fields, modelClass);
    (r.Err? <==> k < 0 || key.None? || context.fields[k].context == null) &&
    (k < 0 ==> r == Err(InvalidCollection(modelClass))) &&
    (k >= 0 && r.Err? ==> r.error == NullPointer) &&
    (r.Ok? ==> (r.value.Some? <==> exists j :: 0 <= j < |table| && table[j].id == key.value)) &&
    (r.Ok? && r.value.Some? ==> r.value.value.id == key.value)
  }

  /** The lookup the TinySyncLib getValue makes when nothing is cached:
    * getCollection(Class), then find. */
  method FindTarget(context: Context, modelClass: string, key: Option<ObjectId>, table: seq<Row>)
    returns (r: Result<Option<Record>>)
    requires context.Valid() && CollectionsValid(context)
    modifies context, context.fields
    ensures context.Valid() && CollectionsValid(context)
    ensures FoundBy(context, modelClass, key, table, r)
    ensures r.Ok? && r.value.Some? ==> fresh(r.value.value)
  {
    ElementsMeaning(context.fields);
    var c := context.GetCollectionByClass(modelClass);
    if c.Err? {
      return Err(c.error);
    }
    r := c.value.Find(key, table);
  }

  /** DbBelongsTo of the Lib copy: only the key; every lookup goes through
    * the target collection's identity cache. */
  class BelongsTo {
    const owner: Record
    const modelClass: string
    var key: Option<ObjectId>

    constructor (owner: Record, modelClass: string)
      ensures this.owner == owner && this.modelClass == modelClass && key == None
    {
      this.owner := owner;
      this.modelClass := modelClass;
      key := None;
    }

    /** getModelClass: the class given at construction. */
    function GetModelClass(): (c: string)
      ensures c == modelClass
    {
      modelClass
    }

    function GetKey(): (k: Option<ObjectId>)
      reads this
      ensures k == key
    {
      key
    }

    method SetKey(k: Option<ObjectId>)
      modifies this
      ensures GetKey() == k
    {
      key := k;
    }

    /** setValue: only the record's id is kept. */
    method SetValue(v: Record)
      modifies this
      ensures key == Some(v.id)
    {
      key := Some(v.id);
    }

    /**
     * getValue: cachedFind of the key in the target collection. A record
     * the collection has cached under the key is returned as it is;
     * otherwise the table is searched. The slot itself does not change.
     */
    method GetValue(context: Context, table: seq<Row>) returns (r: Result<Option<Record>>)
      requires context.Valid() && CollectionsValid(context)
      modifies context, context.fields
      ensures context.Valid() && CollectionsValid(context)
      ensures CollectionFor(context.fields, modelClass) < 0 ==> r == Err(InvalidCollection(modelClass))
      ensures var k := CollectionFor(context.fields, modelClass);
              k >= 0 && key.Some? && key.value in old(context.fields[k].cache) ==>
                r == Ok(Some(old(context.fields[k].cache)[key.value]))
      ensures var k := CollectionFor(context.fields, modelClass);
              k >= 0 && !(key.Some? && key.value in old(context.fields[k].cache)) ==>
                (r.Err? <==> key.None? || context.fields[k].context == null) &&
                (r.Ok? ==> key.Some? && (r.value.Some? <==> exists j :: 0 <= j < |table| && table[j].id == key.value))
      ensures r.Ok? && r.value.Some? ==> key.Some? && r.value.value.id == key.value
      ensures r.Err? ==> r.error == InvalidCollection(modelClass) || r.error == NullPointer
    {
      ElementsMeaning(context.fields);
      var c := context.GetCollectionByClass(modelClass);
      if c.Err? {
        return Err(c.error);
      }
      r := c.value.CachedFind(key, table);
    }
  }

  /** DbHasMany: the records of another model whose foreign key holds the
    * owner's id, queried once and then kept. */
  class HasMany {
    const owner: Record
    const manyClass: string
    var cachedValues: ResultSet?

    /** The owner's class is the class of the record the slot was made
      * for; nothing is cached yet. */
    constructor (owner: Record, manyClass: string)
      ensures this.owner == owner && this.manyClass == manyClass && cachedValues == null
    {
      this.owner := owner;
      this.manyClass := manyClass;
      cachedValues := null;
    }

    /** getModelClass: the many side's class. */
    function GetModelClass(): (c: string)
      ensures c == manyClass
    {
      manyClass
    }

    /** getCachedValues: never queries; null until getValues has run. */
    function GetCachedValues(): (v: ResultSet?)
      reads this
      ensures v == cachedValues
    {
      cachedValues
    }

    /**
     * getValues: the cached set when there is one; otherwise
     * where(fk, owner.id) on the many side's collection is run over its
     * table (`table`, of which `broken` marks the rows that fail to
     * deserialise) and kept, where fk is the foreign key the owner's
     * collection declares for the many class. A key that is not a
     * column of that table makes the query fail.
     */
    method GetValues(context: Context, table: seq<Row>, broken: set<int>, dateText: DateTime -> string)
      returns (r: Result<ResultSet>)
      requires context.Valid()
      modifies this, context, context.fields
      ensures old(cachedValues) != null ==>
                r.Ok? && r.value == old(cachedValues) && cachedValues == old(cachedValues) &&
                unchanged(context) && unchanged(context.fields)
      ensures old(cachedValues) == null ==>
                (r.Ok? <==> AssociationRuns(context, owner, manyClass)) &&
                (r.Ok? ==> cachedValues == r.value && fresh(r.value) && Associated(context, owner, manyClass, table, dateText, r.value)) &&
                (CollectionFor(context.fields, manyClass) < 0 ==> r == Err(InvalidCollection(manyClass))) &&
                (forall column :: ForeignKeyMissing(context, owner, manyClass, column) ==> r.Err?)
      ensures r.Err? && r.error.NoSuchColumn? ==> ForeignKeyMissing(context, owner, manyClass, r.error.name)
      ensures r.Err? ==> cachedValues == null
    {
      if cachedValues != null {
        var kept: ResultSet := cachedValues;
        return Ok(kept);
      }
      r := QueryAssociated(context, owner, manyClass, table, broken, dateText);
      if r.Ok? {
        cachedValues := r.value;
      }
    }
  }

  /** The records of `manyClass` that belong to `owner`: a result set over
    * the rows of the many side's table whose foreign key, as the owner's
    * collection declares it for the many class, holds the owner's id. */
  ghost predicate Associated(context: Context, owner: Record, manyClass: string, table: seq<Row>,
                             dateText: DateTime -> string, rs: ResultSet)
    reads rs
  {
    var many, one := CollectionFor(context.fields, manyClass), CollectionFor(context.fields, owner.modelClass);
    many >= 0 && one >= 0 && rs.collection == context.fields[many] &&
    var meta := GetHasManyMeta(context.fields[one].schema, manyClass);
    meta.Ok? &&
    rs.rows == Select(table, [Equality(meta.value.foreignKey, Id(owner.id))], dateText) &&
    rs.records == [] && rs.computedIndex == -1
  }

  /** The foreign key `column` that the owner's collection declares for
    * the many class is not a column of the many side's table. */
  ghost predicate ForeignKeyMissing(context: Context, owner: Record, manyClass: string, column: string)
    reads context
  {
    var many, one := CollectionFor(context.fields, manyClass), CollectionFor(context.fields, owner.modelClass);
    many >= 0 && one >= 0 &&
    var meta := GetHasManyMeta(context.fields[one].schema, manyClass);
    meta.Ok? && meta.value.foreignKey == column && !HasColumn(context.fields[many].schema, column)
  }

  /** The query getValues makes can run: both collections exist, the
    * owner's collection declares a has-many of the many class, its
    * foreign key is a column of the many side's table, and the many side's
    * collection has a context to read through. */
  ghost predicate AssociationRuns(context: Context, owner: Record, manyClass: string)
    reads context.fields
  {
    var many, one := CollectionFor(context.fields, manyClass), CollectionFor(context.fields, owner.modelClass);
    many >= 0 && one >= 0 &&
    var meta := GetHasManyMeta(context.fields[one].schema, manyClass);
    meta.Ok? && HasColumn(context.fields[many].schema, meta.value.foreignKey) && context.fields[many].context != null
  }

  /** The query getValues runs when nothing is cached. */
  method QueryAssociated(context: Context, owner: Record, manyClass: string, table: seq<Row>,
                         broken: set<int>, dateText: DateTime -> string)
    returns (r: Result<ResultSet>)
    requires context.Valid()
    modifies context, context.fields
    ensures r.Ok? <==> AssociationRuns(context, owner, manyClass)
    ensures r.Ok? ==> fresh(r.value) && Associated(context, owner, manyClass, table, dateText, r.value)
    ensures CollectionFor(context.fields, manyClass) < 0 ==> r == Err(InvalidCollection(manyClass))
    ensures r.Err? ==> r.error in {InvalidCollection(manyClass), InvalidCollection(owner.modelClass),
                                   InvalidAssociation("has-many", manyClass), NullPointer} ||
                       (r.error.NoSuchColumn? && ForeignKeyMissing(context, owner, manyClass, r.error.name))
    ensures forall column :: ForeignKeyMissing(context, owner, manyClass, column) ==> r.Err?
  {
    ElementsMeaning(context.fields);
    var many := context.GetCollectionByClass(manyClass);
    if many.Err? {
      return Err(many.error);
    }
    var one := context.GetCollectionByClass(owner.modelClass);
    if one.Err? {
      return Err(one.error);
    }
    var meta := GetHasManyMeta(one.value.schema, manyClass);
    if meta.Err? {
      return Err(meta.error);
    }
    var q := many.value.Where(meta.value.foreignKey, Id(owner.id));
    KeyQueryColumns(many.value.schema, meta.value.foreignKey, Id(owner.id));
    r := many.value.RunQuery(q, table, broken, dateText);
  }

  /** where(fk, v) with a non-null v renders its one argument, and names
    * no unknown column exactly when fk is a column of the table. */
  lemma KeyQueryColumns(schema: CollectionSchema, column: string, v: Value)
    requires !v.Null?
    ensures forall dateText: DateTime -> string :: SelectionArgs([Equality(column, v)], dateText).Ok?
    ensures FirstUnknown(schema, QueryColumns([Equality(column, v)], [])).None? <==> HasColumn(schema, column)
  {
    assert QueryColumns([Equality(column, v)], [])[0] == column;
  }
}
