/**
  * The unified type mapper: one entry point that sends a type definition to the VSAM
  * (COBOL picture) converter or the DB2 converter, schema building from field lists, and
  * the VSAM/DB2 compatibility test.
  *
  * The mapper's constructor arguments (the default EBCDIC encoding and the default CCSID)
  * do not influence any conversion, so the mapper is a set of functions here.
  */
module TypeMapper {
  import opened Wrappers
  import opened SparkTypes
  import VsamTypes
  import Db2Types

  /** The mainframe source systems; only VSAM and DB2 have a converter. */
  datatype SourceType = Vsam | Db2 | Ims | Sequential

  datatype MapperError = UnsupportedSource(source: SourceType)

  /** `convert`: dispatch on the source system; any other source is a ValueError. */
  function Convert(typeDef: string, source: SourceType): (r: Result<SparkType, MapperError>)
    ensures r.Err? <==> source != Vsam && source != Db2
    ensures r.Err? ==> r.error == UnsupportedSource(source)
    ensures source == Vsam ==> r == Ok(VsamTypes.Convert(typeDef))
    ensures source == Db2 ==> r == Ok(Db2Types.Convert(typeDef))
  {
    match source
    case Vsam => Ok(VsamTypes.Convert(typeDef))
    case Db2 => Ok(Db2Types.Convert(typeDef))
    case _ => Err(UnsupportedSource(source))
  }

  /** The schema field of one VSAM definition: named as defined, typed by the picture, nullable. */
  function VsamField(definition: (string, string)): StructField {
    StructField(definition.0, VsamTypes.Convert(definition.1), true)
  }

  /** The schema field of one DB2 column: typed by its declaration, with its own nullability. */
  function Db2Field(column: (string, string, bool)): StructField {
    StructField(column.0, Db2Types.Convert(column.1), column.2)
  }

  /**
    * `build_schema_from_vsam`: one field per `(name, picture)` definition, in order, named as
    * defined, typed by the VSAM converter, and nullable.
    */
  method BuildSchemaFromVsam(definitions: seq<(string, string)>) returns (schema: seq<StructField>)
    ensures |schema| == |definitions|
    ensures forall i :: 0 <= i < |definitions| ==>
      schema[i] == StructField(definitions[i].0, VsamTypes.Convert(definitions[i].1), true)
  {
    schema := BuildFields(definitions, VsamField);
  }

  /**
    * `build_schema_from_db2`: one field per `(name, type, nullable)` column, in order, typed
    * by the DB2 converter, with the column's own nullability.
    */
  method BuildSchemaFromDb2(columns: seq<(string, string, bool)>) returns (schema: seq<StructField>)
    ensures |schema| == |columns|
    ensures forall i :: 0 <= i < |columns| ==>
      schema[i] == StructField(columns[i].0, Db2Types.Convert(columns[i].1), columns[i].2)
  {
    schema := BuildFields(columns, Db2Field);
  }

  /** `_is_numeric`: the integer, floating and decimal types. */
  predicate IsNumeric(t: SparkType) {
    t.ShortType? || t.IntegerType? || t.LongType? || t.FloatType? || t.DoubleType? || t.DecimalType?
  }

  /** `_is_string`. */
  predicate IsString(t: SparkType) { t == StringType }

  /** The compatibility test of `get_compatible_types`: equal, both numeric, or both strings. */
  predicate Compatible(a: SparkType, b: SparkType) {
    a == b || (IsNumeric(a) && IsNumeric(b)) || (IsString(a) && IsString(b))
  }

  /**
    * The types fall into classes: all numeric types, and every other type on its own. Two
    * types are compatible exactly when they are in the same class, so compatibility is an
    * equivalence relation.
    */
  lemma CompatibleClasses(a: SparkType, b: SparkType)
    ensures Compatible(a, b) <==> (if IsNumeric(a) then IsNumeric(b) else a == b)
    ensures Compatible(a, a)
    ensures Compatible(a, b) == Compatible(b, a)
    ensures forall c :: Compatible(a, b) && Compatible(b, c) ==> Compatible(a, c)
  {
  }

  /**
    * `get_compatible_types`: both converters' results, unchanged, and whether they are
    * compatible. Two different decimals are compatible, and a string is compatible with
    * nothing but itself.
    */
  function GetCompatibleTypes(vsamType: string, db2Type: string): (r: (SparkType, SparkType, bool))
    ensures r.0 == VsamTypes.Convert(vsamType) && r.1 == Db2Types.Convert(db2Type)
    ensures r.2 <==> Compatible(r.0, r.1)
    ensures r.0.DecimalType? && r.1.DecimalType? ==> r.2
    ensures r.0 == StringType ==> (r.2 <==> r.1 == StringType)
  {
    var v := VsamTypes.Convert(vsamType);
    var d := Db2Types.Convert(db2Type);
    (v, d, v == d || (IsNumeric(v) && IsNumeric(d)) || (IsString(v) && IsString(d)))
  }
}
