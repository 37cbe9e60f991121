/**
  * The schema validator: whether data in a source schema can be written to a target
  * schema, field by field, under a type-promotion matrix and decimal widening; checks of
  * one schema against required fields and expected type classes; and the target schema a
  * source schema turns into under renaming and retyping maps.
  */
module SchemaValidator {
  import opened SparkTypes
  import Strings

  /** `SchemaValidator(allow_missing_in_target, allow_type_promotion, strict_mode)`. */
  datatype Settings = Settings(allowMissingInTarget: bool, allowTypePromotion: bool, strictMode: bool)

  /** The settings a validator has when none are given. */
  const DefaultSettings := Settings(false, true, false)

  // ---------------------------------------------------------------------------
  // _check_type_compatibility
  // ---------------------------------------------------------------------------

  /**
    * `COMPATIBLE_TYPES`: the type classes a value of class `source` may be written to.
    * Every class lists itself and the string class.
    */
  function CompatibleTargets(source: TypeClass): (targets: seq<TypeClass>)
    ensures source in targets && StringClass in targets
  {
    match source
    case ShortClass => [ShortClass, IntegerClass, LongClass, DecimalClass, FloatClass, DoubleClass, StringClass]
    case IntegerClass => [IntegerClass, LongClass, DecimalClass, FloatClass, DoubleClass, StringClass]
    case LongClass => [LongClass, DecimalClass, DoubleClass, StringClass]
    case FloatClass => [FloatClass, DoubleClass, StringClass]
    case DoubleClass => [DoubleClass, StringClass]
    case DecimalClass => [DecimalClass, DoubleClass, StringClass]
    case StringClass => [StringClass]
    case DateClass => [DateClass, TimestampClass, StringClass]
    case TimestampClass => [TimestampClass, StringClass]
    case BinaryClass => [BinaryClass, StringClass]
    case BooleanClass => [BooleanClass, StringClass, IntegerClass]
  }

  /**
    * `_check_type_compatibility`: (compatible, exact) for writing a `source` value to a
    * `target` column. Equal types are an exact match; a decimal fits a decimal with no less
    * precision and no less scale, exactly when both are equal; other types are compatible,
    * never exact, when the matrix lists the target's class and promotion is allowed.
    */
  function CheckTypeCompatibility(settings: Settings, source: SparkType, target: SparkType): (r: (bool, bool))
    ensures r.1 ==> r.0
    ensures source == target ==> r == (true, true)
    ensures source.DecimalType? && target.DecimalType? ==>
      && (r.0 <==> target.precision >= source.precision && target.scale >= source.scale)
      && (r.1 <==> target.precision == source.precision && target.scale == source.scale)
    ensures source != target && !(source.DecimalType? && target.DecimalType?) ==>
      !r.1 && (r.0 <==> settings.allowTypePromotion && ClassOf(target) in CompatibleTargets(ClassOf(source)))
  {
    if source == target then (true, true)
    else if source.DecimalType? && target.DecimalType? then
      (target.precision >= source.precision && target.scale >= source.scale,
       target.precision == source.precision && target.scale == source.scale)
    else
      var sourceBase, targetBase := ClassOf(source), ClassOf(target);
      if targetBase in CompatibleTargets(sourceBase) then
        if settings.allowTypePromotion then (true, false)
        else (sourceBase == targetBase, sourceBase == targetBase)
      else (false, false)
  }

  /** Without promotion only equal types and widened decimals are compatible. */
  lemma NoPromotion(settings: Settings, source: SparkType, target: SparkType)
    requires !settings.allowTypePromotion
    ensures CheckTypeCompatibility(settings, source, target).0 <==>
      source == target || (source.DecimalType? && target.DecimalType? && target.precision >= source.precision && target.scale >= source.scale)
  {
  }

  /** Under promotion every type can be written to a string column. */
  lemma IntoString(settings: Settings, source: SparkType)
    requires settings.allowTypePromotion
    ensures CheckTypeCompatibility(settings, source, StringType).0
    ensures CheckTypeCompatibility(settings, source, StringType).1 <==> source == StringType
  {
  }

  /** Compatibility only ever widens: two different types are never compatible both ways. */
  lemma Antisymmetric(settings: Settings, a: SparkType, b: SparkType)
    requires a != b
    ensures !(CheckTypeCompatibility(settings, a, b).0 && CheckTypeCompatibility(settings, b, a).0)
  {
    if !(a.DecimalType? && b.DecimalType?) {
      ClassesDiffer(a, b);
      MatrixAntisymmetric(ClassOf(a), ClassOf(b));
    }
  }

  /** The position of a class in the widening order of the matrix (strings are widest). */
  function Rank(c: TypeClass): nat {
    match c
    case BooleanClass => 0
    case BinaryClass => 0
    case DateClass => 0
    case ShortClass => 1
    case TimestampClass => 1
    case IntegerClass => 2
    case LongClass => 3
    case DecimalClass => 4
    case FloatClass => 4
    case DoubleClass => 5
    case StringClass => 6
  }

  /** Every class the matrix lists for another class is ranked above it. */
  lemma Widening(x: TypeClass, y: TypeClass)
    requires y in CompatibleTargets(x) && y != x
    ensures Rank(x) < Rank(y)
  {
    match x
    case ShortClass =>
    case IntegerClass =>
    case LongClass =>
    case FloatClass =>
    case DoubleClass =>
    case DecimalClass =>
    case StringClass =>
    case DateClass =>
    case TimestampClass =>
    case BinaryClass =>
    case BooleanClass =>
  }

  /** The matrix only widens: two different classes never list each other. */
  lemma MatrixAntisymmetric(x: TypeClass, y: TypeClass)
    requires x != y
    ensures !(y in CompatibleTargets(x) && x in CompatibleTargets(y))
  {
    if y in CompatibleTargets(x) && x in CompatibleTargets(y) {
      Widening(x, y);
      Widening(y, x);
    }
  }

  /** Apart from decimals, each type is the only one of its class. */
  lemma ClassesDiffer(a: SparkType, b: SparkType)
    requires a != b && !(a.DecimalType? && b.DecimalType?)
    ensures ClassOf(a) != ClassOf(b)
  {
  }

  // ---------------------------------------------------------------------------
  // compare_schemas
  // ---------------------------------------------------------------------------

  /** `[f.name for f in fields]`. */
  function Names(fields: seq<StructField>): (names: seq<string>)
    ensures |names| == |fields| && forall i :: 0 <= i < |fields| ==> names[i] == fields[i].name
  {
    if fields == [] then [] else Names(fields[..|fields| - 1]) + [fields[|fields| - 1].name]
  }

  /** `set(names)`. */
  function NameSet(fields: seq<StructField>): set<string> {
    set i | 0 <= i < |fields| :: fields[i].name
  }

  /** `{f.name: f for f in fields}`: each name to its last field. */
  function FieldMap(fields: seq<StructField>): (m: map<string, StructField>)
    ensures m.Keys == NameSet(fields)
  {
    if fields == [] then map[]
    else
      var init := fields[..|fields| - 1];
      var last := fields[|fields| - 1];
      assert NameSet(fields) == NameSet(init) + {last.name} by {
        forall n | n in NameSet(fields) ensures n in NameSet(init) + {last.name} {
          var i :| 0 <= i < |fields| && fields[i].name == n;
          if i < |init| {
            assert init[i] == fields[i];
          }
        }
        forall n | n in NameSet(init) ensures n in NameSet(fields) {
          var i :| 0 <= i < |init| && init[i].name == n;
          assert fields[i] == init[i];
        }
      }
      FieldMap(init)[last.name := last]
  }

  /** `fields[i]` is the last field named `n`. */
  predicate LastNamed(fields: seq<StructField>, i: int, n: string) {
    0 <= i < |fields| && fields[i].name == n && forall j :: i < j < |fields| ==> fields[j].name != n
  }

  /** The field a name maps to is the last field of that name: none after it has the name. */
  lemma {:induction false} FieldMapLast(fields: seq<StructField>, n: string)
    requires n in FieldMap(fields)
    ensures exists i :: LastNamed(fields, i, n) && fields[i] == FieldMap(fields)[n]
  {
    var init := fields[..|fields| - 1];
    var last := fields[|fields| - 1];
    if last.name == n {
      assert LastNamed(fields, |fields| - 1, n) && fields[|fields| - 1] == FieldMap(fields)[n];
    } else {
      FieldMapLast(init, n);
      var i :| LastNamed(init, i, n) && init[i] == FieldMap(init)[n];
      LastNamedEarlier(fields, i, n);
      assert FieldMap(fields)[n] == FieldMap(init)[n];
    }
  }

  /** The last field of a name before the final field stays the last when the final field has another name. */
  lemma LastNamedEarlier(fields: seq<StructField>, i: int, n: string)
    requires fields != [] && fields[|fields| - 1].name != n && LastNamed(fields[..|fields| - 1], i, n)
    ensures LastNamed(fields, i, n) && fields[i] == fields[..|fields| - 1][i]
  {
    var init := fields[..|fields| - 1];
    forall j | i < j < |fields| ensures fields[j].name != n {
      if j < |init| {
        assert fields[j] == init[j];
      }
    }
  }

  /** The verdict for one matching field: its source and target types and whether they are compatible and exact. */
  function Verdict(settings: Settings, source: map<string, StructField>, target: map<string, StructField>, n: string): (bool, bool)
    requires n in source && n in target
  {
    CheckTypeCompatibility(settings, source[n].dataType, target[n].dataType)
  }

  /** The fields among `names` whose types are incompatible, with their source and target types. */
  function Mismatches(settings: Settings, source: map<string, StructField>, target: map<string, StructField>, names: set<string>): map<string, (SparkType, SparkType)>
    requires names <= source.Keys && names <= target.Keys
  {
    map n | n in names && !Verdict(settings, source, target, n).0 :: (source[n].dataType, target[n].dataType)
  }

  /** The fields among `names` whose types are compatible but not equal, with their source and target types. */
  function Changes(settings: Settings, source: map<string, StructField>, target: map<string, StructField>, names: set<string>): map<string, (SparkType, SparkType)>
    requires names <= source.Keys && names <= target.Keys
  {
    map n | n in names && Verdict(settings, source, target, n).0 && !Verdict(settings, source, target, n).1
      :: (source[n].dataType, target[n].dataType)
  }

  /** Only the names examined appear in the two maps, and none in both. */
  lemma VerdictMaps(settings: Settings, source: map<string, StructField>, target: map<string, StructField>, names: set<string>)
    requires names <= source.Keys && names <= target.Keys
    ensures Mismatches(settings, source, target, names).Keys <= names
    ensures Changes(settings, source, target, names).Keys <= names
    ensures Mismatches(settings, source, target, names).Keys !! Changes(settings, source, target, names).Keys
  {
  }

  /** Examining one more name adds it to the map its verdict selects, if any. */
  lemma VerdictStep(settings: Settings, source: map<string, StructField>, target: map<string, StructField>, done: set<string>, n: string)
    requires done <= source.Keys && done <= target.Keys && n in source && n in target && n !in done
    ensures Mismatches(settings, source, target, done + {n}) ==
      (if !Verdict(settings, source, target, n).0
       then Mismatches(settings, source, target, done)[n := (source[n].dataType, target[n].dataType)]
       else Mismatches(settings, source, target, done))
    ensures Changes(settings, source, target, done + {n}) ==
      (if Verdict(settings, source, target, n).0 && !Verdict(settings, source, target, n).1
       then Changes(settings, source, target, done)[n := (source[n].dataType, target[n].dataType)]
       else Changes(settings, source, target, done))
  {
  }

  /** `SchemaComparisonResult`, with the mismatch maps holding the two types of each field. */
  datatype ComparisonResult = ComparisonResult(
    isCompatible: bool,
    sourceFields: seq<string>,
    targetFields: seq<string>,
    matchingFields: set<string>,
    missingInTarget: set<string>,
    missingInSource: set<string>,
    typeMismatches: map<string, (SparkType, SparkType)>,
    compatibleChanges: map<string, (SparkType, SparkType)>)

  /** Taking one name out of those remaining adds it to those done. */
  lemma DoneGrows<T>(all: set<T>, remaining: set<T>, x: T)
    requires remaining <= all && x in remaining
    ensures all - (remaining - {x}) == (all - remaining) + {x}
  {
  }

  /**
    * `compare_schemas`: the matching and missing names are the intersection and the two
    * differences of the name sets; each matching field is either a mismatch, a compatible
    * change or an exact match; the schemas are compatible exactly when nothing mismatches,
    * nothing is missing in the target unless that is allowed, and, in strict mode, nothing
    * changes type.
    */
  method CompareSchemas(settings: Settings, source: seq<StructField>, target: seq<StructField>) returns (r: ComparisonResult)
    ensures r.sourceFields == Names(source) && r.targetFields == Names(target)
    ensures r.matchingFields == NameSet(source) * NameSet(target)
    ensures r.missingInTarget == NameSet(source) - NameSet(target)
    ensures r.missingInSource == NameSet(target) - NameSet(source)
    ensures r.typeMismatches == Mismatches(settings, FieldMap(source), FieldMap(target), r.matchingFields)
    ensures r.compatibleChanges == Changes(settings, FieldMap(source), FieldMap(target), r.matchingFields)
    ensures r.typeMismatches.Keys <= r.matchingFields && r.compatibleChanges.Keys <= r.matchingFields
    ensures r.typeMismatches.Keys !! r.compatibleChanges.Keys
    ensures r.isCompatible <==>
      && r.typeMismatches == map[]
      && (settings.allowMissingInTarget || r.missingInTarget == {})
      && (!settings.strictMode || r.compatibleChanges == map[])
  {
    var sourceFields, targetFields := Names(source), Names(target);
    var sourceDict, targetDict := FieldMap(source), FieldMap(target);
    var sourceSet, targetSet := NameSet(source), NameSet(target);
    var matching := sourceSet * targetSet;
    var missingInTarget := sourceSet - targetSet;
    var missingInSource := targetSet - sourceSet;

    var typeMismatches: map<string, (SparkType, SparkType)> := map[];
    var compatibleChanges: map<string, (SparkType, SparkType)> := map[];
    var remaining := matching;
    while remaining != {}
      invariant remaining <= matching
      invariant typeMismatches == Mismatches(settings, sourceDict, targetDict, matching - remaining)
      invariant compatibleChanges == Changes(settings, sourceDict, targetDict, matching - remaining)
      decreases remaining
    {
      var name :| name in remaining;
      VerdictStep(settings, sourceDict, targetDict, matching - remaining, name);
      DoneGrows(matching, remaining, name);
      var sourceField, targetField := sourceDict[name], targetDict[name];
      var (isCompatible, isExact) := CheckTypeCompatibility(settings, sourceField.dataType, targetField.dataType);
      if !isCompatible {
        typeMismatches := typeMismatches[name := (sourceField.dataType, targetField.dataType)];
      } else if !isExact {
        compatibleChanges := compatibleChanges[name := (sourceField.dataType, targetField.dataType)];
      }
      remaining := remaining - {name};
    }
    assert matching - {} == matching;
    VerdictMaps(settings, sourceDict, targetDict, matching);

    var isCompatible := typeMismatches == map[];
    if !settings.allowMissingInTarget && missingInTarget != {} {
      isCompatible := false;
    }
    if settings.strictMode && compatibleChanges != map[] {
      isCompatible := false;
    }
    r := ComparisonResult(isCompatible, sourceFields, targetFields, matching, missingInTarget, missingInSource,
                          typeMismatches, compatibleChanges);
  }

  /** A schema compared with itself is compatible under any settings, with nothing missing and nothing changed. */
  lemma SelfComparison(settings: Settings, schema: seq<StructField>)
    ensures Mismatches(settings, FieldMap(schema), FieldMap(schema), NameSet(schema)) == map[]
    ensures Changes(settings, FieldMap(schema), FieldMap(schema), NameSet(schema)) == map[]
    ensures NameSet(schema) - NameSet(schema) == {}
  {
  }

  // ---------------------------------------------------------------------------
  // validate_schema
  // ---------------------------------------------------------------------------

  /** The problems `validate_schema` reports (their message text is not modelled). */
  datatype SchemaError = RequiredFieldMissing(name: string) | TypeMismatch(name: string, expected: TypeClass, actual: TypeClass)

  /** One error per required name the schema lacks, in the order of the names. */
  function MissingErrors(required: seq<string>, present: map<string, StructField>): (errors: seq<SchemaError>)
    ensures |errors| <= |required|
    ensures forall e :: e in errors ==> e.RequiredFieldMissing? && e.name in required && e.name !in present
  {
    if required == [] then []
    else
      var init := MissingErrors(required[..|required| - 1], present);
      var n := required[|required| - 1];
      if n !in present then init + [RequiredFieldMissing(n)] else init
  }

  /** One error per expected class that a present field does not have, in the order given. */
  function TypeErrors(expected: seq<(string, TypeClass)>, present: map<string, StructField>): (errors: seq<SchemaError>)
    ensures |errors| <= |expected|
    ensures forall e :: e in errors ==>
      e.TypeMismatch? && e.name in present && e.actual == ClassOf(present[e.name].dataType) && e.actual != e.expected && (e.name, e.expected) in expected
  {
    if expected == [] then []
    else
      var init := TypeErrors(expected[..|expected| - 1], present);
      var (n, t) := expected[|expected| - 1];
      if n in present && ClassOf(present[n].dataType) != t then init + [TypeMismatch(n, t, ClassOf(present[n].dataType))]
      else init
  }

  /** Every missing required name is reported. */
  lemma {:induction false} MissingReported(required: seq<string>, present: map<string, StructField>, n: string)
    requires n in required && n !in present
    ensures RequiredFieldMissing(n) in MissingErrors(required, present)
  {
    var init := required[..|required| - 1];
    if required[|required| - 1] != n {
      assert n in init by {
        var i :| 0 <= i < |required| && required[i] == n;
        assert init[i] == n;
      }
      MissingReported(init, present, n);
    }
  }

  /** Every present field whose class is not the expected one is reported, with both classes. */
  lemma {:induction false} TypeReported(expected: seq<(string, TypeClass)>, present: map<string, StructField>, n: string, t: TypeClass)
    requires (n, t) in expected && n in present && ClassOf(present[n].dataType) != t
    ensures TypeMismatch(n, t, ClassOf(present[n].dataType)) in TypeErrors(expected, present)
  {
    var init := expected[..|expected| - 1];
    if expected[|expected| - 1] != (n, t) {
      assert (n, t) in init by {
        var i :| 0 <= i < |expected| && expected[i] == (n, t);
        assert init[i] == (n, t);
      }
      TypeReported(init, present, n, t);
    }
  }

  /** The missing-field errors of one more required name. */
  lemma MissingStep(required: seq<string>, i: nat, present: map<string, StructField>)
    requires i < |required|
    ensures MissingErrors(required[..i + 1], present) ==
      MissingErrors(required[..i], present) + (if required[i] !in present then [RequiredFieldMissing(required[i])] else [])
  {
    assert required[..i + 1][..i] == required[..i];
  }

  /** The type errors of one more expected class. */
  lemma TypeStep(expected: seq<(string, TypeClass)>, j: nat, present: map<string, StructField>)
    requires j < |expected|
    ensures TypeErrors(expected[..j + 1], present) ==
      TypeErrors(expected[..j], present) +
      (if expected[j].0 in present && ClassOf(present[expected[j].0].dataType) != expected[j].1
       then [TypeMismatch(expected[j].0, expected[j].1, ClassOf(present[expected[j].0].dataType))] else [])
  {
    assert expected[..j + 1][..j] == expected[..j];
  }

  /**
    * `validate_schema`: the required fields the schema lacks, then the present fields whose
    * type class is not the expected one; valid exactly when there is no error. No type error
    * is reported for a field that is absent.
    */
  method ValidateSchema(schema: seq<StructField>, required: seq<string>, expected: seq<(string, TypeClass)>)
    returns (valid: bool, errors: seq<SchemaError>)
    ensures errors == MissingErrors(required, FieldMap(schema)) + TypeErrors(expected, FieldMap(schema))
    ensures valid <==> errors == []
  {
    var fieldDict := FieldMap(schema);
    errors := [];
    var i := 0;
    while i < |required|
      invariant i <= |required| && errors == MissingErrors(required[..i], fieldDict)
    {
      MissingStep(required, i, fieldDict);
      if required[i] !in fieldDict {
        errors := errors + [RequiredFieldMissing(required[i])];
      }
      i := i + 1;
    }
    Strings.TakeAll(required);
    ghost var missing := errors;
    var j := 0;
    while j < |expected|
      invariant j <= |expected| && errors == missing + TypeErrors(expected[..j], fieldDict)
    {
      TypeStep(expected, j, fieldDict);
      var (name, expectedType) := expected[j];
      if name in fieldDict {
        var actualType := ClassOf(fieldDict[name].dataType);
        if actualType != expectedType {
          errors := errors + [TypeMismatch(name, expectedType, actualType)];
          Strings.Assoc(missing, TypeErrors(expected[..j], fieldDict), [TypeMismatch(name, expectedType, actualType)]);
        }
      }
      j := j + 1;
    }
    Strings.TakeAll(expected);
    valid := |errors| == 0;
  }

  // ---------------------------------------------------------------------------
  // infer_target_schema
  // ---------------------------------------------------------------------------

  /** The target field of one source field: renamed and retyped by the maps, both keyed by the source name. */
  function TargetField(field: StructField, typeMappings: map<string, SparkType>, columnMappings: map<string, string>): StructField {
    StructField(
      if field.name in columnMappings then columnMappings[field.name] else field.name,
      if field.name in typeMappings then typeMappings[field.name] else field.dataType,
      field.nullable)
  }

  /**
    * `infer_target_schema`: one target field per source field, in order, with the source
    * field's nullability, its name unless the column map renames it, and its type unless the
    * type map retypes it.
    */
  method InferTargetSchema(source: seq<StructField>, typeMappings: map<string, SparkType>, columnMappings: map<string, string>)
    returns (fields: seq<StructField>)
    ensures |fields| == |source|
    ensures forall i :: 0 <= i < |source| ==> fields[i] == TargetField(source[i], typeMappings, columnMappings)
  {
    fields := [];
    var i := 0;
    while i < |source|
      invariant i <= |source| && |fields| == i
      invariant forall k :: 0 <= k < i ==> fields[k] == TargetField(source[k], typeMappings, columnMappings)
    {
      var sourceField := source[i];
      var targetName := if sourceField.name in columnMappings then columnMappings[sourceField.name] else sourceField.name;
      var targetType := if sourceField.name in typeMappings then typeMappings[sourceField.name] else sourceField.dataType;
      fields := fields + [StructField(targetName, targetType, sourceField.nullable)];
      i := i + 1;
    }
  }

  /** A field the maps do not mention is carried over unchanged; nullability is always kept. */
  lemma TargetFieldKeeps(field: StructField, typeMappings: map<string, SparkType>, columnMappings: map<string, string>)
    ensures TargetField(field, typeMappings, columnMappings).nullable == field.nullable
    ensures field.name !in typeMappings && field.name !in columnMappings ==> TargetField(field, typeMappings, columnMappings) == field
  {
  }
}
