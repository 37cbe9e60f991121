/**
  * The target type system: the Spark SQL data types the converters produce, as tags
  * (no value of these types is ever computed here), and a schema field.
  */
module SparkTypes {

  datatype SparkType =
    | ShortType
    | IntegerType
    | LongType
    | FloatType
    | DoubleType
    | DecimalType(precision: int, scale: int)
    | StringType
    | BinaryType
    | DateType
    | TimestampType
    | BooleanType

  /** The class of a type, what `type(t)` gives in Python: a decimal of any precision and scale. */
  datatype TypeClass = ShortClass | IntegerClass | LongClass | FloatClass | DoubleClass | DecimalClass
                     | StringClass | BinaryClass | DateClass | TimestampClass | BooleanClass

  function ClassOf(t: SparkType): (c: TypeClass)
    ensures c == DecimalClass <==> t.DecimalType?
  {
    match t
    case ShortType => ShortClass
    case IntegerType => IntegerClass
    case LongType => LongClass
    case FloatType => FloatClass
    case DoubleType => DoubleClass
    case DecimalType(_, _) => DecimalClass
    case StringType => StringClass
    case BinaryType => BinaryClass
    case DateType => DateClass
    case TimestampType => TimestampClass
    case BooleanType => BooleanClass
  }

  /** `StructField(name, dataType, nullable)`; a schema is a sequence of them. */
  datatype StructField = StructField(name: string, dataType: SparkType, nullable: bool)

  /**
    * The loop every schema builder runs: one field per definition, in order, each made by
    * `field` from its own definition.
    */
  method BuildFields<T>(definitions: seq<T>, field: T -> StructField) returns (schema: seq<StructField>)
    ensures |schema| == |definitions|
    ensures forall i :: 0 <= i < |definitions| ==> schema[i] == field(definitions[i])
  {
    schema := [];
    var i := 0;
    while i < |definitions|
      invariant 0 <= i <= |definitions|
      invariant |schema| == i
      invariant forall j :: 0 <= j < i ==> schema[j] == field(definitions[j])
    {
      schema := schema + [field(definitions[i])];
      i := i + 1;
    }
  }
}
