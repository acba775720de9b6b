// The serializers package: column-type codes and names, the choice of a
// serializer for a field type, the memoising factory, and the two cell
// codecs with real rules (epoch-millisecond DateTime and Enum).

module Codecs {
  import opened Common
  import opened Values

  // Android's Cursor.FIELD_TYPE_* codes.
  const FieldTypeNull := 0
  const FieldTypeInteger := 1
  const FieldTypeFloat := 2
  const FieldTypeString := 3
  const FieldTypeBlob := 4

  /** DbSerializer.columnTypeName: the SQL type written in a column
    * definition for a column-type code. */
  function ColumnTypeName(code: int): (r: string)
    ensures r == "INTEGER" <==> code == FieldTypeInteger
    ensures r == "FLOAT" <==> code == FieldTypeFloat
    ensures r == "BLOB" <==> code == FieldTypeBlob
    ensures r == "TEXT" <==> code !in {FieldTypeInteger, FieldTypeFloat, FieldTypeBlob}
  {
    if code == FieldTypeInteger then "INTEGER"
    else if code == FieldTypeFloat then "FLOAT"
    else if code == FieldTypeBlob then "BLOB"
    else "TEXT"
  }

  /** The serializer kinds the factory can create. */
  datatype Serializer =
    | StringSerializer
    | IntSerializer
    | ObjectIdSerializer
    | DateTimeSerializer
    | EnumSerializer(enumClass: string, constants: seq<string>)

  /** Each serializer's getColumnType(). */
  function ColumnType(s: Serializer): int {
    match s
    case StringSerializer => FieldTypeString
    case IntSerializer => FieldTypeInteger
    case ObjectIdSerializer => FieldTypeString
    case DateTimeSerializer => FieldTypeInteger
    case EnumSerializer(_, _) => FieldTypeString
  }

  /** The type names a serializer is created for. */
  function Serves(s: Serializer): set<string> {
    match s
    case StringSerializer => {"java.lang.String"}
    case IntSerializer => {"int", "java.lang.Integer"}
    case ObjectIdSerializer => {ObjectIdClassName}
    case DateTimeSerializer => {DateTimeClassName}
    case EnumSerializer(name, _) => {name}
  }

  predicate Supported(t: FieldType) {
    t.StringType? || t.IntType? || t.IntegerType? || t.ObjectIdType? || t.DateTimeType? || t.EnumType?
  }

  /** The type dispatch of DbSerializer.factory, without the memo: String,
    * int/Integer, ObjectId, DateTime and enums have a serializer; any other
    * type is rejected with InvalidTypeException. */
  function SerializerFor(t: FieldType): (r: Result<Serializer>)
    ensures r.Ok? <==> Supported(t)
    ensures r.Ok? ==> TypeName(t) in Serves(r.value)
    ensures r.Err? ==> r.error == InvalidType(TypeName(t))
  {
    match t
    case StringType => Ok(StringSerializer)
    case IntType => Ok(IntSerializer)
    case IntegerType => Ok(IntSerializer)
    case ObjectIdType => Ok(ObjectIdSerializer)
    case DateTimeType => Ok(DateTimeSerializer)
    case EnumType(name, constants) => Ok(EnumSerializer(name, constants))
    case _ => Err(InvalidType(TypeName(t)))
  }

  /** Floating-point fields have no codec, although a FloatSerializer exists
    * (the fixture's Post.averageRating is such a field). */
  lemma FloatingPointIsRejected()
    ensures SerializerFor(FloatType) == Err(InvalidType("float"))
    ensures SerializerFor(DoubleType) == Err(InvalidType("double"))
  {
  }

  /**
   * DbSerializer.factory with its static `_instances` map: the first
   * successful lookup of a type name stores the serializer, later lookups
   * of that name return the stored one, and a failure stores nothing.
   */
  class SerializerRegistry {
    var instances: map<string, Serializer>

    /** Every stored serializer was created for its key. */
    ghost predicate Valid()
      reads this
    {
      forall name :: name in instances ==> name in Serves(instances[name])
    }

    constructor ()
      ensures Valid() && instances == map[]
    {
      instances := map[];
    }

    method Factory(t: FieldType) returns (r: Result<Serializer>)
      requires Valid()
      modifies this
      ensures Valid()
      ensures TypeName(t) in old(instances) ==>
                r == Ok(old(instances)[TypeName(t)]) && instances == old(instances)
      ensures TypeName(t) !in old(instances) ==> r == SerializerFor(t)
      ensures TypeName(t) !in old(instances) && r.Ok? ==>
                instances == old(instances)[TypeName(t) := r.value]
      ensures r.Err? ==> instances == old(instances)
      ensures r.Ok? ==> TypeName(t) in instances && instances[TypeName(t)] == r.value
    {
      var name := TypeName(t);
      if name in instances {
        return Ok(instances[name]);
      }
      r := SerializerFor(t);
      if r.Ok? {
        instances := instances[name := r.value];
      }
    }
  }

  // ---- epoch-millisecond DateTime codec (Lib DateTimeSerializer)

  /** The INTEGER cell written for a DateTime field: its millis, or SQL
    * NULL for a null field. */
  function DateTimeToCell(v: Option<DateTime>): (cell: Option<int>)
    ensures cell.None? <==> v.None?
    ensures v.Some? ==> cell.value == v.value.millis
  {
    match v
    case None => None
    case Some(d) => Some(d.millis)
  }

  /** Cursor.getLong on an INTEGER cell: SQL NULL reads as 0. */
  function CellLong(cell: Option<int>): int {
    match cell
    case None => 0
    case Some(n) => n
  }

  /** Reading a column: a positive long is an instant, anything else
    * (including the 0 a NULL cell reads as) leaves the field null. */
  function DateTimeFromCell(longValue: int): (v: Option<DateTime>)
    ensures v.Some? <==> longValue > 0
    ensures v.Some? ==> v.value.millis == longValue
  {
    if longValue > 0 then Some(DateTime(longValue)) else None
  }

  /** A DateTime survives a write and a read exactly when it is null or
    * lies after the epoch. */
  lemma DateTimeRoundTrip(v: Option<DateTime>)
    ensures DateTimeFromCell(CellLong(DateTimeToCell(v))) == v <==> (v.None? || v.value.millis > 0)
  {
  }

  /** The string form: the decimal millis; a null field throws. */
  function DateTimeText(v: Option<DateTime>): (r: Result<string>)
    ensures r.Err? <==> v.None?
    ensures r.Err? ==> r.error == NullPointer
    ensures r.Ok? ==> ParseDecimal(r.value) == Some(v.value.millis)
  {
    match v
    case None => Err(NullPointer)
    case Some(d) =>
      DecimalRoundTrip(d.millis);
      Ok(IntToDecimal(d.millis))
  }

  // ---- Enum codec (EnumSerializer); a constant is its name

  /** The TEXT cell written for an enum field: the constant's toString(),
    * or SQL NULL for a null field. */
  function EnumToCell(v: Option<string>): (cell: Option<string>)
    ensures cell == v
  {
    match v
    case None => None
    case Some(name) => Some(name)
  }

  /** The string form: toString(); a null field throws. */
  function EnumText(v: Option<string>): (r: Result<string>)
    ensures r.Err? <==> v.None?
    ensures r.Ok? ==> r.value == v.value
  {
    match v
    case None => Err(NullPointer)
    case Some(name) => Ok(name)
  }

  /**
   * Reading a column as written: Enum.valueOf(class, cell) is computed and
   * thrown away, so the field keeps `current`. valueOf throws on a null
   * cell and on a name that is not exactly (case included) a constant.
   */
  function EnumFromCellAsWritten(constants: seq<string>, cell: Option<string>, current: Option<string>)
    : (r: Result<Option<string>>)
    ensures r.Ok? <==> cell.Some? && cell.value in constants
    ensures r.Ok? ==> r.value == current
  {
    match cell
    case None => Err(NullPointer)
    case Some(name) => if name in constants then Ok(current) else Err(IllegalArgument(name))
  }

  /** As written, a stored constant never reaches the field. */
  lemma EnumReadDiscardsValue()
    ensures EnumFromCellAsWritten(["junior", "senior"], EnumToCell(Some("senior")), None) == Ok(None)
  {
  }

  /** Reading a column with the looked-up constant stored in the field; a
    * NULL cell gives a null field, like the other codecs. */
  function EnumFromCell(constants: seq<string>, cell: Option<string>): (r: Result<Option<string>>)
    ensures r.Ok? <==> cell.None? || cell.value in constants
    ensures r.Ok? ==> r.value == cell
  {
    match cell
    case None => Ok(None)
    case Some(name) => if name in constants then Ok(Some(name)) else Err(IllegalArgument(name))
  }

  /** With the read corrected, every enum field value survives the column. */
  lemma EnumRoundTrip(constants: seq<string>, v: Option<string>)
    requires v.None? || v.value in constants
    ensures EnumFromCell(constants, EnumToCell(v)) == Ok(v)
  {
  }
}
