/**
  * The result of validating a migrated dataset, which accumulates errors and warnings, and
  * the record-count check that compares the dataset's count with the expected one.
  */
module DataValidator {
  import opened Wrappers

  /**
    * `ValidationResult`: valid until the first error, with the record counts and the
    * messages collected so far.
    */
  class ValidationResult {
    var isValid: bool
    var recordCount: int
    var expectedCount: Option<int>
    var errors: seq<string>
    var warnings: seq<string>

    /** The result is valid exactly when it holds no error. */
    predicate Consistent()
      reads this
    {
      isValid <==> errors == []
    }

    /** A new result: valid, no records counted, nothing expected, no messages. */
    constructor ()
      ensures isValid && recordCount == 0 && expectedCount == None && errors == [] && warnings == []
      ensures Consistent()
    {
      isValid := true;
      recordCount := 0;
      expectedCount := None;
      errors := [];
      warnings := [];
    }

    /** `add_error`: the message is appended and the result is no longer valid. */
    method AddError(message: string)
      modifies this
      ensures errors == old(errors) + [message] && !isValid
      ensures warnings == old(warnings) && recordCount == old(recordCount) && expectedCount == old(expectedCount)
      ensures Consistent()
    {
      errors := errors + [message];
      isValid := false;
    }

    /** `add_warning`: the message is appended; validity does not change. */
    method AddWarning(message: string)
      modifies this
      ensures warnings == old(warnings) + [message]
      ensures errors == old(errors) && isValid == old(isValid)
      ensures recordCount == old(recordCount) && expectedCount == old(expectedCount)
      ensures old(Consistent()) ==> Consistent()
    {
      warnings := warnings + [message];
    }
  }

  /**
    * The validator's count tolerance: none (an exact count is required), or the allowed
    * difference `int(expected * count_tolerance)`, which the caller computes.
    */
  datatype Tolerance = Exact | Within(bound: int)

  function Abs(x: int): nat {
    if x < 0 then -x else x
  }

  const NoRecordsMessage := "No records found in dataset"
  const MismatchMessage := "Record count mismatch"
  const OutsideToleranceMessage := "Record count outside tolerance"

  /**
    * The errors the count check adds: one when the dataset is empty, whatever else holds;
    * otherwise one exactly when the count differs from the expected one (exact tolerance)
    * or differs by more than the bound.
    */
  function CountErrors(actual: int, expected: int, tolerance: Tolerance): (errors: seq<string>)
    ensures |errors| <= 1
    ensures actual == 0 ==> errors == [NoRecordsMessage]
    ensures actual != 0 && tolerance.Exact? ==> (errors == [] <==> actual == expected)
    ensures actual != 0 && tolerance.Within? ==> (errors == [] <==> Abs(actual - expected) <= tolerance.bound)
  {
    if actual == 0 then [NoRecordsMessage]
    else match tolerance
      case Exact => if actual != expected then [MismatchMessage] else []
      case Within(bound) => if Abs(actual - expected) > bound then [OutsideToleranceMessage] else []
  }

  /** A count within a non-negative bound of the expected one passes whenever it passes exactly. */
  lemma ExactIsStrictest(actual: int, expected: int, bound: int)
    requires bound >= 0 && CountErrors(actual, expected, Exact) == []
    ensures CountErrors(actual, expected, Within(bound)) == []
  {
  }

  /** A wider bound never adds an error that a narrower one does not. */
  lemma WiderBound(actual: int, expected: int, narrow: int, wide: int)
    requires narrow <= wide && CountErrors(actual, expected, Within(narrow)) == []
    ensures CountErrors(actual, expected, Within(wide)) == []
  {
  }

  /**
    * `_validate_count`: the record count is compared with the expected one and the errors
    * of CountErrors are added to the result; a result that was consistent stays so.
    */
  method ValidateCount(result: ValidationResult, expected: int, tolerance: Tolerance)
    modifies result
    ensures result.errors == old(result.errors) + CountErrors(old(result.recordCount), expected, tolerance)
    ensures result.isValid == (old(result.isValid) && CountErrors(old(result.recordCount), expected, tolerance) == [])
    ensures result.warnings == old(result.warnings)
    ensures result.recordCount == old(result.recordCount) && result.expectedCount == old(result.expectedCount)
    ensures old(result.Consistent()) ==> result.Consistent()
  {
    var actual := result.recordCount;
    if actual == 0 {
      result.AddError(NoRecordsMessage);
      return;
    }
    match tolerance
    case Exact =>
      if actual != expected {
        result.AddError(MismatchMessage);
      }
    case Within(bound) =>
      if Abs(actual - expected) > bound {
        result.AddError(OutsideToleranceMessage);
      }
  }
}
