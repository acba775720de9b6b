// Mapping metadata of one model class: its columns (DbColumnMap), its
// belongs-to and has-many associations (DbBelongsToMeta, DbHasManyMeta),
// and the read-only lookups a collection performs over them.

module Schema {
  import opened Common
  import opened Values
  import opened Naming
  import opened Codecs

  // ---- DbColumnMap

  /** A declared field mapped to a column, with the serializer for its type. */
  datatype ColumnMap = ColumnMap(fieldName: string, fieldType: FieldType, columnName: string, serializer: Serializer)

  /** The DbColumnMap constructor: the column name comes from the
    * annotation's name() or from the field name, and the serializer from
    * the factory's type dispatch, which rejects an unsupported type. */
  function NewColumnMap(annotationName: string, fieldName: string, fieldType: FieldType): (r: Result<ColumnMap>)
    ensures r.Ok? <==> Supported(fieldType)
    ensures r.Err? ==> r.error == InvalidType(TypeName(fieldType))
    ensures r.Ok? ==> r.value.fieldName == fieldName && r.value.fieldType == fieldType
    ensures r.Ok? ==> r.value.columnName == ColumnName(annotationName, fieldName)
    ensures r.Ok? ==> TypeName(fieldType) in Serves(r.value.serializer)
  {
    match SerializerFor(fieldType)
    case Err(e) => Err(e)
    case Ok(s) => Ok(ColumnMap(fieldName, fieldType, ColumnName(annotationName, fieldName), s))
  }

  /** getColumnDef: the column's CREATE TABLE definition. */
  function ColumnDef(c: ColumnMap): string {
    c.columnName + " " + ColumnTypeName(ColumnType(c.serializer))
  }

  /** A column definition is the column's name, a space, and the SQL type
    * of its serializer: INTEGER for int and DateTime fields, TEXT for
    * strings, ids and enums. */
  lemma ColumnDefNamesColumnAndType(c: ColumnMap)
    ensures |ColumnDef(c)| > |c.columnName| + 1
    ensures ColumnDef(c)[..|c.columnName|] == c.columnName && ColumnDef(c)[|c.columnName|] == ' '
    ensures ColumnDef(c)[|c.columnName| + 1..] == "INTEGER" <==>
              c.serializer.IntSerializer? || c.serializer.DateTimeSerializer?
    ensures ColumnDef(c)[|c.columnName| + 1..] == "TEXT" <==>
              c.serializer.StringSerializer? || c.serializer.ObjectIdSerializer? || c.serializer.EnumSerializer?
  {
    var d := ColumnDef(c);
    assert d[|c.columnName| + 1..] == ColumnTypeName(ColumnType(c.serializer));
  }

  /** The fixture's `createdAt` column, declared without a name. */
  lemma CreatedAtColumnDef()
    ensures NewColumnMap("", "createdAt", DateTimeType).Ok?
    ensures ColumnDef(NewColumnMap("", "createdAt", DateTimeType).value) == "created_at INTEGER"
  {
    CreatedAtColumnName();
  }

  // ---- DbBelongsToMeta

  datatype BelongsToMeta = BelongsToMeta(fieldName: string, targetClass: string, columnName: string)

  /**
   * The DbBelongsToMeta constructor. `templateTarget` is the model class of
   * the slot held by the field of a template instance, or none when the
   * slot cannot be read (a null field), which is rethrown as a
   * RuntimeException. The column name follows the corrected rule (see
   * Naming.BelongsToColumnName).
   */
  function NewBelongsToMeta(fieldName: string, templateTarget: Option<string>, annotation: Option<string>)
    : (r: Result<BelongsToMeta>)
    ensures r.Err? <==> templateTarget.None?
    ensures r.Err? ==> r.error == Runtime("Error getting BelongsTo meta data for " + fieldName)
    ensures r.Ok? ==> r.value.fieldName == fieldName && r.value.targetClass == templateTarget.value
    ensures r.Ok? ==> |r.value.columnName| > 0
    ensures r.Ok? && annotation.None? ==> r.value.columnName == LowerUnderscore(fieldName) + "_id"
    ensures r.Ok? && annotation.Some? && annotation.value != "" ==> r.value.columnName == annotation.value
  {
    match templateTarget
    case None => Err(Runtime("Error getting BelongsTo meta data for " + fieldName))
    case Some(target) =>
      BelongsToColumnNameNonEmpty(annotation, fieldName);
      Ok(BelongsToMeta(fieldName, target, BelongsToColumnName(annotation, fieldName)))
  }

  /** getColumnDef: a belongs-to key is always a TEXT column. */
  function BelongsToDef(b: BelongsToMeta): string {
    b.columnName + " TEXT"
  }

  /** assignContentValue writes String.valueOf(key): an unset key is the
    * four-letter text "null". */
  function KeyText(key: Option<ObjectId>): string {
    match key
    case None => "null"
    case Some(k) => k.hex
  }

  /** deserializeColumn: the slot's key is the id built from the cell's text. */
  function KeyFromText(text: string): ObjectId {
    ObjectId(text)
  }

  /** A set key survives the column; an unset key comes back as the id whose
    * text is "null" rather than as no key. */
  lemma KeyRoundTrip(key: Option<ObjectId>)
    ensures key.Some? ==> KeyFromText(KeyText(key)) == key.value
    ensures key.None? ==> KeyFromText(KeyText(key)) == ObjectId("null")
  {
  }

  // ---- DbHasManyMeta

  datatype HasManyMeta = HasManyMeta(fieldName: string, targetClass: string, foreignKey: string)

  /** The DbHasManyMeta constructor: the @DbForeignKey value verbatim, or the
    * declaring class's table-style name followed by "_id". */
  function NewHasManyMeta(fieldName: string, declaringClass: string, templateTarget: Option<string>,
                          foreignKey: Option<string>)
    : (r: Result<HasManyMeta>)
    ensures r.Err? <==> templateTarget.None?
    ensures r.Err? ==> r.error == Runtime("Error getting HasMany meta data for " + fieldName)
    ensures r.Ok? ==> r.value.fieldName == fieldName && r.value.targetClass == templateTarget.value
    ensures r.Ok? ==> r.value.foreignKey == HasManyForeignKey(foreignKey, declaringClass)
  {
    match templateTarget
    case None => Err(Runtime("Error getting HasMany meta data for " + fieldName))
    case Some(target) => Ok(HasManyMeta(fieldName, target, HasManyForeignKey(foreignKey, declaringClass)))
  }

  /** The derived foreign key depends on the owning class only: two has-many
    * fields of one class share it, whatever they are called. */
  lemma HasManyKeyIgnoresFieldName(f1: string, f2: string, declaringClass: string, t1: string, t2: string)
    ensures NewHasManyMeta(f1, declaringClass, Some(t1), None).value.foreignKey
            == NewHasManyMeta(f2, declaringClass, Some(t2), None).value.foreignKey
            == TableName(declaringClass) + "_id"
  {
  }

  // ---- the metadata a collection holds

  /**
   * What a collection parses from its model class: the values of its three
   * HashMaps (column maps keyed by column name, belongs-tos and has-manies
   * keyed by field name), each in the map's iteration order.
   */
  datatype CollectionSchema = CollectionSchema(
    modelClass: string,
    columns: seq<ColumnMap>,
    belongsTos: seq<BelongsToMeta>,
    hasManies: seq<HasManyMeta>)

  /** The values of a map have distinct keys. */
  predicate WellFormed(s: CollectionSchema) {
    (forall i, j :: 0 <= i < j < |s.columns| ==> s.columns[i].columnName != s.columns[j].columnName) &&
    (forall i, j :: 0 <= i < j < |s.belongsTos| ==> s.belongsTos[i].fieldName != s.belongsTos[j].fieldName) &&
    (forall i, j :: 0 <= i < j < |s.hasManies| ==> s.hasManies[i].fieldName != s.hasManies[j].fieldName)
  }

  /** The column names of the column maps, in order. */
  function MapColumnNames(cols: seq<ColumnMap>): (names: seq<string>)
    ensures |names| == |cols|
  {
    if cols == [] then [] else [cols[0].columnName] + MapColumnNames(cols[1..])
  }

  /** The key columns of the belongs-tos, in order. */
  function KeyColumnNames(bs: seq<BelongsToMeta>): (names: seq<string>)
    ensures |names| == |bs|
  {
    if bs == [] then [] else [bs[0].columnName] + KeyColumnNames(bs[1..])
  }

  /** Every column of the table: the mapped columns, then the belongs-to keys. */
  function ColumnNames(s: CollectionSchema): (names: seq<string>)
    ensures |names| == |s.columns| + |s.belongsTos|
  {
    MapColumnNames(s.columns) + KeyColumnNames(s.belongsTos)
  }

  lemma {:induction false} MapColumnNamesIndex(cols: seq<ColumnMap>)
    ensures forall i :: 0 <= i < |cols| ==> MapColumnNames(cols)[i] == cols[i].columnName
  {
    if cols != [] {
      MapColumnNamesIndex(cols[1..]);
    }
  }

  lemma {:induction false} KeyColumnNamesIndex(bs: seq<BelongsToMeta>)
    ensures forall j :: 0 <= j < |bs| ==> KeyColumnNames(bs)[j] == bs[j].columnName
  {
    if bs != [] {
      KeyColumnNamesIndex(bs[1..]);
    }
  }

  /** The i-th name is the i-th column map's column, then the j-th
    * belongs-to's key column. */
  lemma ColumnNamesIndex(s: CollectionSchema)
    ensures forall i :: 0 <= i < |s.columns| ==> ColumnNames(s)[i] == s.columns[i].columnName
    ensures forall j :: 0 <= j < |s.belongsTos| ==> ColumnNames(s)[|s.columns| + j] == s.belongsTos[j].columnName
  {
    MapColumnNamesIndex(s.columns);
    KeyColumnNamesIndex(s.belongsTos);
  }

  /** What getColumnDefs returns: one definition per column map, then one
    * per belongs-to. */
  function ColumnDefs(s: CollectionSchema): seq<string> {
    seq(|s.columns|, i requires 0 <= i < |s.columns| => ColumnDef(s.columns[i])) +
    seq(|s.belongsTos|, j requires 0 <= j < |s.belongsTos| => BelongsToDef(s.belongsTos[j]))
  }

  /** The definitions are exactly one per column of the table, each opening
    * with that column's name and a space, in the same order. */
  lemma ColumnDefsDefineEveryColumn(s: CollectionSchema)
    ensures |ColumnDefs(s)| == |ColumnNames(s)|
    ensures forall i :: 0 <= i < |ColumnDefs(s)| ==>
              |ColumnDefs(s)[i]| > |ColumnNames(s)[i]| &&
              ColumnDefs(s)[i][..|ColumnNames(s)[i]|] == ColumnNames(s)[i] &&
              ColumnDefs(s)[i][|ColumnNames(s)[i]|] == ' '
  {
    var defs, names := ColumnDefs(s), ColumnNames(s);
    ColumnNamesIndex(s);
    forall i | 0 <= i < |defs|
      ensures |defs[i]| > |names[i]| && defs[i][..|names[i]|] == names[i] && defs[i][|names[i]|] == ' '
    {
      if i < |s.columns| {
        ColumnDefNamesColumnAndType(s.columns[i]);
      } else {
        var b := s.belongsTos[i - |s.columns|];
        assert defs[i] == b.columnName + " TEXT";
      }
    }
  }

  // ---- lookups

  /**
   * fieldToColumnName: the column of the first column map declared for the
   * field; failing that, a name equal to a belongs-to key column is its own
   * column; anything else is an invalid field.
   */
  function FieldToColumnName(s: CollectionSchema, fieldName: string): (r: Result<string>)
    ensures r.Ok? <==>
              (exists i :: 0 <= i < |s.columns| && s.columns[i].fieldName == fieldName) ||
              (exists j :: 0 <= j < |s.belongsTos| && s.belongsTos[j].columnName == fieldName)
    ensures r.Err? ==> r.error == InvalidField(fieldName)
    ensures r.Ok? ==> r.value in ColumnNames(s)
    ensures forall i :: 0 <= i < |s.columns| && s.columns[i].fieldName == fieldName &&
                        (forall k :: 0 <= k < i ==> s.columns[k].fieldName != fieldName) ==>
                        r == Ok(s.columns[i].columnName)
    ensures (forall i :: 0 <= i < |s.columns| ==> s.columns[i].fieldName != fieldName) && r.Ok? ==>
              r.value == fieldName
  {
    ColumnNamesIndex(s);
    var i := FirstIndex(s.columns, (c: ColumnMap) => c.fieldName == fieldName);
    if i >= 0 then
      assert ColumnNames(s)[i] == s.columns[i].columnName;
      Ok(s.columns[i].columnName)
    else
      var j := FirstIndex(s.belongsTos, (b: BelongsToMeta) => b.columnName == fieldName);
      if j >= 0 then
        assert ColumnNames(s)[|s.columns| + j] == fieldName;
        Ok(fieldName)
      else Err(InvalidField(fieldName))
  }

  /** getHasMany: the has-many declared on the field, or InvalidAssociationException. */
  function GetHasMany(s: CollectionSchema, name: string): (r: Result<HasManyMeta>)
    ensures r.Ok? <==> exists i :: 0 <= i < |s.hasManies| && s.hasManies[i].fieldName == name
    ensures r.Ok? ==> r.value in s.hasManies && r.value.fieldName == name
    ensures r.Err? ==> r.error == InvalidAssociation("has-many", name)
  {
    var i := FirstIndex(s.hasManies, (m: HasManyMeta) => m.fieldName == name);
    if i >= 0 then Ok(s.hasManies[i]) else Err(InvalidAssociation("has-many", name))
  }

  /** getBelongsTo: the belongs-to declared on the field, or InvalidAssociationException. */
  function GetBelongsTo(s: CollectionSchema, name: string): (r: Result<BelongsToMeta>)
    ensures r.Ok? <==> exists i :: 0 <= i < |s.belongsTos| && s.belongsTos[i].fieldName == name
    ensures r.Ok? ==> r.value in s.belongsTos && r.value.fieldName == name
    ensures r.Err? ==> r.error == InvalidAssociation("belongs-to", name)
  {
    var i := FirstIndex(s.belongsTos, (m: BelongsToMeta) => m.fieldName == name);
    if i >= 0 then Ok(s.belongsTos[i]) else Err(InvalidAssociation("belongs-to", name))
  }

  /** A well-formed schema has at most one association per field name, so a
    * successful lookup is determined by the name. */
  lemma LookupByNameIsUnique(s: CollectionSchema, name: string, i: int, j: int)
    requires WellFormed(s)
    ensures 0 <= i < |s.hasManies| && s.hasManies[i].fieldName == name ==> GetHasMany(s, name) == Ok(s.hasManies[i])
    ensures 0 <= j < |s.belongsTos| && s.belongsTos[j].fieldName == name ==> GetBelongsTo(s, name) == Ok(s.belongsTos[j])
  {
    if 0 <= i < |s.hasManies| && s.hasManies[i].fieldName == name {
      var m := GetHasMany(s, name).value;
      var k :| 0 <= k < |s.hasManies| && s.hasManies[k] == m;
      assert k == i;
    }
    if 0 <= j < |s.belongsTos| && s.belongsTos[j].fieldName == name {
      var m := GetBelongsTo(s, name).value;
      var k :| 0 <= k < |s.belongsTos| && s.belongsTos[k] == m;
      assert k == j;
    }
  }

  /** getHasManyMeta: the first has-many whose target is the given class. */
  function GetHasManyMeta(s: CollectionSchema, targetClass: string): (r: Result<HasManyMeta>)
    ensures r.Ok? <==> exists i :: 0 <= i < |s.hasManies| && s.hasManies[i].targetClass == targetClass
    ensures r.Ok? ==> r.value in s.hasManies && r.value.targetClass == targetClass
    ensures r.Err? ==> r.error == InvalidAssociation("has-many", targetClass)
  {
    var i := FirstIndex(s.hasManies, (m: HasManyMeta) => m.targetClass == targetClass);
    if i >= 0 then Ok(s.hasManies[i]) else Err(InvalidAssociation("has-many", targetClass))
  }

  /** getBelongsToMeta: the first belongs-to whose target is the given class. */
  function GetBelongsToMeta(s: CollectionSchema, targetClass: string): (r: Result<BelongsToMeta>)
    ensures r.Ok? <==> exists i :: 0 <= i < |s.belongsTos| && s.belongsTos[i].targetClass == targetClass
    ensures r.Ok? ==> r.value in s.belongsTos && r.value.targetClass == targetClass
    ensures r.Err? ==> r.error == InvalidAssociation("belongs-to", targetClass)
  {
    var i := FirstIndex(s.belongsTos, (m: BelongsToMeta) => m.targetClass == targetClass);
    if i >= 0 then Ok(s.belongsTos[i]) else Err(InvalidAssociation("belongs-to", targetClass))
  }

  /** getBelongsToByColumn: the belongs-to whose key lives in the column. */
  function BelongsToByColumn(s: CollectionSchema, columnName: string): (r: Option<BelongsToMeta>)
    ensures r.Some? <==> exists j :: 0 <= j < |s.belongsTos| && s.belongsTos[j].columnName == columnName
    ensures r.Some? ==> r.value in s.belongsTos && r.value.columnName == columnName
  {
    var j := FirstIndex(s.belongsTos, (m: BelongsToMeta) => m.columnName == columnName);
    if j >= 0 then Some(s.belongsTos[j]) else None
  }

  /** AssociationInclude.Direction */
  datatype Direction = BelongsTo | HasMany

  /** getAssociationDirection: belongs-to is checked first. */
  function GetAssociationDirection(s: CollectionSchema, name: string): (r: Result<Direction>)
    ensures r == Ok(BelongsTo) <==> GetBelongsTo(s, name).Ok?
    ensures r == Ok(HasMany) <==> GetBelongsTo(s, name).Err? && GetHasMany(s, name).Ok?
    ensures r.Err? <==> GetBelongsTo(s, name).Err? && GetHasMany(s, name).Err?
    ensures r.Err? ==> r.error == InvalidAssociation("has-many or belongs-to", name)
  {
    if exists j :: 0 <= j < |s.belongsTos| && s.belongsTos[j].fieldName == name then Ok(BelongsTo)
    else if exists i :: 0 <= i < |s.hasManies| && s.hasManies[i].fieldName == name then Ok(HasMany)
    else Err(InvalidAssociation("has-many or belongs-to", name))
  }
}
