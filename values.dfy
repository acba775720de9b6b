// The values that flow through the library: record ids, instants, field
// values, JSON values, the declared types of model fields, and the decimal
// text Java prints for a long.

module Values {
  import opened Common

  /** A record id. Its hex form is what toString prints; the id class
    * itself is not part of this model. */
  datatype ObjectId = ObjectId(hex: string)

  /** A Joda DateTime, as its instant in epoch milliseconds. */
  datatype DateTime = DateTime(millis: int)

  /** The value held by a declared field of a model. `Sym` is an enum
    * constant, given by its name. */
  datatype Value =
    | Null
    | Str(s: string)
    | Int(i: int)
    | Bool(b: bool)
    | Id(oid: ObjectId)
    | Time(dt: DateTime)
    | Sym(name: string)

  /** A JSON value (numbers are integers here). */
  datatype Json =
    | JNull
    | JBool(b: bool)
    | JNumber(n: int)
    | JString(s: string)
    | JObject(members: map<string, Json>)

  /** One JSON object describing one record. */
  type JsonRow = map<string, Json>

  /** The declared Java type of a model field. */
  datatype FieldType =
    | StringType
    | IntType                                          // int
    | IntegerType                                      // java.lang.Integer
    | ObjectIdType
    | DateTimeType
    | EnumType(className: string, constants: seq<string>)
    | FloatType
    | DoubleType
    | ObjectType                                       // java.lang.Object
    | BelongsToType(target: string)                    // DbBelongsTo<T>
    | HasManyType(target: string)                      // DbHasMany<T>
    | OtherType(className: string)

  const ObjectIdClassName := "com.tinymission.tinysync.db.ObjectId"
  const DateTimeClassName := "org.joda.time.DateTime"

  /** Class.getName() of the type. */
  function TypeName(t: FieldType): string {
    match t
    case StringType => "java.lang.String"
    case IntType => "int"
    case IntegerType => "java.lang.Integer"
    case ObjectIdType => ObjectIdClassName
    case DateTimeType => DateTimeClassName
    case EnumType(name, _) => name
    case FloatType => "float"
    case DoubleType => "double"
    case ObjectType => "java.lang.Object"
    case BelongsToType(_) => "com.tinymission.tinysync.db.DbBelongsTo"
    case HasManyType(_) => "com.tinymission.tinysync.db.DbHasMany"
    case OtherType(name) => name
  }

  // ---- decimal text (Long.toString / Integer.toString)

  predicate IsDigit(c: char) { '0' <= c <= '9' }

  function DigitChar(d: nat): (c: char)
    requires d < 10
    ensures IsDigit(c)
  {
    ('0' as int + d) as char
  }

  function NatToDecimal(n: nat): (s: string)
    ensures |s| > 0 && forall i :: 0 <= i < |s| ==> IsDigit(s[i])
    decreases n
  {
    if n < 10 then [DigitChar(n)] else NatToDecimal(n / 10) + [DigitChar(n % 10)]
  }

  function IntToDecimal(n: int): string {
    if n < 0 then "-" + NatToDecimal(-n) else NatToDecimal(n)
  }

  function DigitsValue(s: string): nat
    requires forall i :: 0 <= i < |s| ==> IsDigit(s[i])
    decreases |s|
  {
    if s == [] then 0
    else
      assert IsDigit(s[|s| - 1]);
      DigitsValue(s[..|s| - 1]) * 10 + (s[|s| - 1] as int - '0' as int)
  }

  /** Long.parseLong for the text Long.toString prints: an optional '-'
    * followed by one or more digits. */
  function ParseDecimal(s: string): Option<int> {
    if |s| > 0 && s[0] == '-' then
      var d := s[1..];
      if |d| > 0 && forall i :: 0 <= i < |d| ==> IsDigit(d[i]) then Some(0 - DigitsValue(d) as int) else None
    else if |s| > 0 && forall i :: 0 <= i < |s| ==> IsDigit(s[i]) then Some(DigitsValue(s))
    else None
  }

  lemma {:induction false} DigitsOfNat(n: nat)
    ensures DigitsValue(NatToDecimal(n)) == n
    decreases n
  {
    var s := NatToDecimal(n);
    if n >= 10 {
      DigitsOfNat(n / 10);
      assert s[..|s| - 1] == NatToDecimal(n / 10);
    }
  }

  /** The decimal text of a number reads back as that number. */
  lemma DecimalRoundTrip(n: int)
    ensures ParseDecimal(IntToDecimal(n)) == Some(n)
  {
    if n < 0 {
      NegativeRoundTrip(-n);
    } else {
      DigitsOfNat(n);
      assert NatToDecimal(n)[0] != '-' by { assert IsDigit(NatToDecimal(n)[0]); }
    }
  }

  lemma NegativeRoundTrip(m: nat)
    requires m > 0
    ensures ParseDecimal("-" + NatToDecimal(m)) == Some(0 - m)
  {
    var d := NatToDecimal(m);
    var s := "-" + d;
    assert s[0] == '-' && s[1..] == d;
    DigitsOfNat(m);
  }
}
