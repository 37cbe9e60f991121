/**
  * COBOL PIC clauses (mf_spark/converters/vsam_types.py): recognising a clause in its
  * parenthesised form `PIC S9(7)V9(2) COMP-3` or its inline form `PIC S9999V99`, deriving
  * digit counts, sign, usage and storage length, and choosing the Spark type.
  */
module VsamTypes {
  import opened Wrappers
  import opened Strings
  import opened SparkTypes
  import Encoding

  datatype PicType = Alphanumeric | Alphabetic | Numeric | SignedNumeric

  datatype Usage = Display | Comp | Comp1 | Comp2 | Comp3 | Comp4 | Comp5

  datatype ParsedPicClause = ParsedPicClause(
    picType: PicType,
    integerDigits: nat,
    decimalDigits: nat,
    usage: Usage,
    totalLength: nat,
    isSigned: bool)
  {
    function TotalDigits(): nat { integerDigits + decimalDigits }
    predicate IsAlphanumeric() { picType == Alphanumeric || picType == Alphabetic }
    predicate IsPacked() { usage == Comp3 }
    predicate IsBinary() { usage == Comp || usage == Comp4 || usage == Comp5 }
  }

  datatype PicError = ValueError(clause: string)

  // ---------------------------------------------------------------------------
  // Recognisers for PIC_PATTERN and PIC_INLINE_PATTERN (anchored at the start only)
  // ---------------------------------------------------------------------------

  /** What a recogniser extracts: sign marker, base character, digit counts and COMP usage. */
  datatype PicMatch = PicMatch(signed: bool, baseType: char, integerDigits: nat, decimalDigits: nat, comp: Option<Usage>)

  /** `PIC\s+(S)?` up to a character of `[XA9]`: whether S was present and where that character is. */
  function PicPrefix(s: string): (r: Option<(bool, nat)>)
    ensures r.Some? ==> r.value.1 < |s| && IsPicChar(s[r.value.1])
  {
    if !LitAt(s, 0, "PIC") then None
    else
      var i := SkipSpaces(s, 3);
      if i == 3 then None
      else if i + 1 < |s| && s[i] == 'S' && IsPicChar(s[i + 1]) then Some((true, i + 1))
      else if i < |s| && IsPicChar(s[i]) then Some((false, i))
      else None
  }

  /** `COMP`, `COMP-1` ... `COMP-5` as a usage. */
  function CompUsage(suffix: char): Usage
  {
    match suffix
    case '1' => Comp1
    case '2' => Comp2
    case '3' => Comp3
    case '4' => Comp4
    case '5' => Comp5
    case _ => Comp
  }

  /** `(?:\s+(COMP(?:-[1-5])?))?` at `i`. */
  function MatchComp(s: string, i: nat): Option<Usage>
    requires i <= |s|
  {
    var j := SkipSpaces(s, i);
    if j == i || !LitAt(s, j, "COMP") then None
    else if j + 5 < |s| && s[j + 4] == '-' && '1' <= s[j + 5] <= '5' then Some(CompUsage(s[j + 5]))
    else Some(Comp)
  }

  /** `\((\d+)\)` at `i`: the number and where the match ends. */
  function Parenthesised(s: string, i: nat): (r: Option<(nat, nat)>)
    requires i <= |s|
    ensures r.Some? ==> i < r.value.1 <= |s|
  {
    if !CharAt(s, i, '(') then None
    else
      var d := Span(s, i + 1, Digit);
      SpanAll(s, i + 1, Digit);
      if d > i + 1 && CharAt(s, d, ')') then Some((NatOf(s[i + 1..d]), d + 1)) else None
  }

  /**
    * `(?:V(?:9\((\d+)\)|(\d+)))?` at `i`: the decimal digit count and where the match ends.
    * The second alternative reads the digits after V as a number.
    */
  function MatchParenDecimals(s: string, i: nat): (r: (nat, nat))
    requires i <= |s|
    ensures i <= r.1 <= |s|
  {
    if !CharAt(s, i, 'V') then (0, i)
    else
      var paren := if CharAt(s, i + 1, '9') then Parenthesised(s, i + 2) else None;
      match paren
      case Some(r) => r
      case None =>
        match Number(s, i + 1)
        case Some(r) => r
        case None => (0, i)
  }

  /** `PIC_PATTERN`: `PIC\s+(S)?([XA9])\((\d+)\)` then optional decimals, COMP and OCCURS. */
  function MatchStandard(s: string): (r: Option<PicMatch>)
    ensures r.Some? ==> PicPrefix(s).Some? && r.value.signed == PicPrefix(s).value.0
  {
    match PicPrefix(s)
    case None => None
    case Some((signed, i)) =>
      match Parenthesised(s, i + 1)
      case None => None
      case Some((n, j)) =>
        var (dec, k) := MatchParenDecimals(s, j);
        Some(PicMatch(signed, s[i], n, dec, MatchComp(s, k)))
  }

  /** `PIC_INLINE_PATTERN`: `PIC\s+(S)?([XA9]+)(?:V([9]+))?(?:\s+(COMP(?:-[1-5])?))?`. */
  function MatchInline(s: string): (r: Option<PicMatch>)
    ensures r.Some? <==> PicPrefix(s).Some?
    ensures r.Some? ==> r.value.signed == PicPrefix(s).value.0 && r.value.integerDigits >= 1
  {
    match PicPrefix(s)
    case None => None
    case Some((signed, i)) =>
      var j := Span(s, i, PicChar);
      var d := if CharAt(s, j, 'V') then Span(s, j + 1, Only('9')) else j;
      var (dec, k) := if d > j + 1 then (d - j - 1, d) else (0, j);
      Some(PicMatch(signed, s[i], j - i, dec, MatchComp(s, k)))
  }

  // ---------------------------------------------------------------------------
  // parse_pic_clause
  // ---------------------------------------------------------------------------

  /** The storage length for a usage and a digit count. */
  function StorageLength(usage: Usage, totalDigits: nat): nat
  {
    match usage
    case Display => totalDigits
    case Comp3 => (totalDigits + 1) / 2 + 1
    case Comp1 => 4
    case Comp2 => 8
    case _ => if totalDigits <= 4 then 2 else if totalDigits <= 9 then 4 else 8
  }

  function PicTypeOf(baseType: char, signed: bool): PicType
  {
    if baseType == 'X' then Alphanumeric
    else if baseType == 'A' then Alphabetic
    else if signed then SignedNumeric
    else Numeric
  }

  /**
    * The parsed clause from what a recogniser extracted: signed exactly when S was written,
    * SignedNumeric exactly for a signed numeric picture, and the storage length of its usage.
    */
  function Build(m: PicMatch): (p: ParsedPicClause)
    ensures p.isSigned == m.signed
    ensures p.picType == SignedNumeric <==> p.isSigned && !p.IsAlphanumeric()
    ensures p.totalLength == StorageLength(p.usage, p.TotalDigits())
  {
    var usage := m.comp.GetOr(Display);
    ParsedPicClause(
      PicTypeOf(m.baseType, m.signed), m.integerDigits, m.decimalDigits, usage,
      StorageLength(usage, m.integerDigits + m.decimalDigits), m.signed)
  }

  /** The clause as the recognisers see it: stripped and upper-cased. */
  function Normalize(clause: string): string { Upper(Strip(clause)) }

  /**
    * `parse_pic_clause` after normalising: the parenthesised pattern first, then the inline
    * one, else ValueError. It fails exactly when the text does not begin with `PIC`, blanks,
    * an optional S and one of X, A, 9; the result is signed exactly when S is written.
    */
  function ParseNormalized(s: string): (r: Result<ParsedPicClause, PicError>)
    ensures r.Err? <==> PicPrefix(s).None?
    ensures r.Ok? ==> r.value.isSigned == PicPrefix(s).value.0
    ensures r.Ok? ==> (r.value.picType == SignedNumeric <==> r.value.isSigned && !r.value.IsAlphanumeric())
    ensures r.Ok? ==> r.value.totalLength == StorageLength(r.value.usage, r.value.TotalDigits())
  {
    match MatchStandard(s)
    case Some(m) => Ok(Build(m))
    case None =>
      match MatchInline(s)
      case Some(m) => Ok(Build(m))
      case None => Err(ValueError(s))
  }

  /** `parse_pic_clause`. */
  function ParsePicClause(clause: string): (r: Result<ParsedPicClause, PicError>)
    ensures r.Err? <==> PicPrefix(Normalize(clause)).None?
    ensures r.Ok? ==> r.value.isSigned == PicPrefix(Normalize(clause)).value.0
    ensures r.Ok? ==> r.value.totalLength == StorageLength(r.value.usage, r.value.TotalDigits())
  {
    ParseNormalized(Normalize(clause))
  }

  /** `get_storage_bytes`: the storage length, or the parse error. */
  function GetStorageBytes(clause: string): (r: Result<nat, PicError>)
    ensures r.Err? <==> ParsePicClause(clause).Err?
    ensures r.Ok? ==> r.value == ParsePicClause(clause).value.totalLength
  {
    match ParsePicClause(clause)
    case Ok(p) => Ok(p.totalLength)
    case Err(e) => Err(e)
  }

  // ---------------------------------------------------------------------------
  // Mapping to Spark types
  // ---------------------------------------------------------------------------

  /** `_get_binary_type` and `_get_integer_type`, which are the same choice. */
  function IntegerTypeFor(digits: nat): (t: SparkType)
    ensures t == ShortType || t == IntegerType || t == LongType
  {
    if digits <= 4 then ShortType else if digits <= 9 then IntegerType else LongType
  }

  /** The largest value of a Spark integer type. */
  function MaxValue(t: SparkType): int
  {
    match t
    case ShortType => 0x7FFF
    case IntegerType => 0x7FFF_FFFF
    case LongType => 0x7FFF_FFFF_FFFF_FFFF
    case _ => 0
  }

  function Pow10(n: nat): (p: nat)
    ensures p >= 1
  {
    if n == 0 then 1 else 10 * Pow10(n - 1)
  }

  lemma {:induction false} Pow10Monotone(a: nat, b: nat)
    requires a <= b
    ensures Pow10(a) <= Pow10(b)
    decreases b
  {
    if a < b {
      Pow10Monotone(a, b - 1);
    }
  }

  /**
    * The chosen integer type holds every value of the field's digit count (up to 18
    * digits), and more digits never choose a narrower type.
    */
  lemma IntegerTypeHoldsDigits(digits: nat, more: nat)
    requires digits <= more
    ensures digits <= 18 ==> Pow10(digits) - 1 <= MaxValue(IntegerTypeFor(digits))
    ensures MaxValue(IntegerTypeFor(digits)) <= MaxValue(IntegerTypeFor(more))
  {
    assert Pow10(4) == 10000;
    assert Pow10(9) == 1000000000 by { assert Pow10(8) == 100000000; assert Pow10(7) == 10000000; assert Pow10(6) == 1000000; assert Pow10(5) == 100000; }
    assert Pow10(18) == 1000000000000000000 by {
      assert Pow10(13) == 10000000000000 by { assert Pow10(12) == 1000000000000; assert Pow10(11) == 100000000000; assert Pow10(10) == 10000000000; }
      assert Pow10(17) == 100000000000000000 by { assert Pow10(16) == 10000000000000000; assert Pow10(15) == 1000000000000000; assert Pow10(14) == 100000000000000; }
    }
    if digits <= 4 {
      Pow10Monotone(digits, 4);
    } else if digits <= 9 {
      Pow10Monotone(digits, 9);
    } else if digits <= 18 {
      Pow10Monotone(digits, 18);
    }
  }

  /** `_map_to_spark_type`. */
  function MapToSparkType(p: ParsedPicClause): (t: SparkType)
    ensures p.IsAlphanumeric() ==> t == StringType
    ensures t.DecimalType? ==> t.precision == p.TotalDigits() && t.scale == p.decimalDigits && 0 <= t.scale <= t.precision
    ensures t.DecimalType? <==>
      !p.IsAlphanumeric() && p.usage != Comp1 && p.usage != Comp2 && (p.IsPacked() || p.decimalDigits > 0)
    ensures t == FloatType <==> !p.IsAlphanumeric() && p.usage == Comp1
    ensures t == DoubleType <==> !p.IsAlphanumeric() && p.usage == Comp2
    ensures t == StringType <==> p.IsAlphanumeric()
    ensures !p.IsAlphanumeric() && p.usage != Comp1 && p.usage != Comp2 && !p.IsPacked() && p.decimalDigits == 0 ==>
      t == IntegerTypeFor(p.TotalDigits())
  {
    if p.IsAlphanumeric() then StringType
    else if p.usage == Comp1 then FloatType
    else if p.usage == Comp2 then DoubleType
    else if p.IsPacked() || p.decimalDigits > 0 then DecimalType(p.TotalDigits(), p.decimalDigits)
    else if p.IsBinary() then IntegerTypeFor(p.TotalDigits())
    else IntegerTypeFor(p.TotalDigits())
  }

  /** `convert`: an unparseable clause falls back to StringType. */
  function Convert(clause: string): (t: SparkType)
    ensures ParsePicClause(clause).Err? ==> t == StringType
    ensures ParsePicClause(clause).Ok? ==> t == MapToSparkType(ParsePicClause(clause).value)
  {
    match ParsePicClause(clause)
    case Ok(p) => MapToSparkType(p)
    case Err(_) => StringType
  }

  // ---------------------------------------------------------------------------
  // What the recognisers accept
  // ---------------------------------------------------------------------------

  function Repeat(c: char, n: nat): (s: string)
    ensures |s| == n && forall k :: 0 <= k < n ==> s[k] == c
  {
    seq(n, k => c)
  }

  /** A clause with no lower-case letters and no surrounding spaces is taken as it is. */
  lemma NormalizeIdentity(s: string)
    requires s != [] && !IsSpace(s[0]) && !IsSpace(s[|s| - 1])
    requires forall k :: 0 <= k < |s| ==> !('a' <= s[k] <= 'z')
    ensures Normalize(s) == s
  {
    StripIdentity(s);
    UpperIdentity(s);
  }

  /** The sign marker, as the clause spells it. */
  function SignText(signed: bool): string { if signed then "S" else "" }

  /** `(ds)`, the parenthesised count of a picture. */
  function Paren(ds: string): string { "(" + ds + ")" }

  /** `PIC `, the sign marker and a type character at `p` are recognised as the prefix. */
  lemma PrefixOf(s: string, signed: bool, base: char, p: nat)
    requires IsPicChar(base) && p == 4 + |SignText(signed)|
    requires LitAt(s, 0, "PIC ") && LitAt(s, 4, SignText(signed)) && LitAt(s, p, [base])
    ensures PicPrefix(s) == Some((signed, p)) && s[p] == base
  {
    assert s[..4] == "PIC ";
    assert s[..3] == "PIC" && s[3] == ' ';
    assert s[p] == s[p..p + 1][0];
    if signed {
      assert s[4] == s[4..5][0] == 'S';
    }
    assert !IsSpace(s[4]);
    SpanExact(s, 3, 4, Space);
  }

  /** A digit run at `i` followed by a non-digit is scanned as exactly that run. */
  lemma DigitsAt(s: string, i: nat, ds: string)
    requires AllDigits(ds)
    requires LitAt(s, i, ds) && i + |ds| < |s| && !IsDigit(s[i + |ds|])
    ensures Span(s, i, Digit) == i + |ds|
  {
    var e := i + |ds|;
    forall k | i <= k < e ensures IsDigit(s[k]) {
      assert s[k] == s[i..e][k - i];
    }
    SpanExact(s, i, e, Digit);
  }

  /** The pieces of `(ds)` found at `i`. */
  lemma ParenPieces(s: string, i: nat, ds: string)
    requires LitAt(s, i, Paren(ds))
    ensures i + 2 + |ds| <= |s|
    ensures s[i] == '(' && LitAt(s, i + 1, ds) && s[i + 1 + |ds|] == ')'
  {
    var w0 := "(" + ds;
    var w := w0 + ")";
    var t := s[i..i + |w|];
    assert t == w;
    assert s[i] == t[0];
    assert s[i + 1 + |ds|] == t[1 + |ds|];
    forall k | 0 <= k < |ds| ensures s[i + 1 + k] == ds[k] {
      assert s[i + 1 + k] == t[1 + k] == w0[1 + k];
    }
    assert s[i + 1..i + 1 + |ds|] == ds;
  }

  /** `(ds)` at `i` is read as the number ds. */
  lemma ParenthesisedAt(s: string, i: nat, ds: string)
    requires ds != [] && AllDigits(ds) && LitAt(s, i, Paren(ds))
    ensures Parenthesised(s, i) == Some((NatOf(ds), i + 2 + |ds|))
  {
    ParenPieces(s, i, ds);
    DigitsAt(s, i + 1, ds);
    ParenthesisedNumber(s, i, ds);
  }

  lemma ParenthesisedNumber(s: string, i: nat, ds: string)
    requires ds != [] && i + 1 + |ds| < |s| && s[i] == '(' && Span(s, i + 1, Digit) == i + 1 + |ds|
    requires s[i + 1 + |ds|] == ')' && AllDigits(ds) && LitAt(s, i + 1, ds)
    ensures Parenthesised(s, i) == Some((NatOf(ds), i + 2 + |ds|))
  {
    var d := i + 1 + |ds|;
    ParenthesisedOf(s, i, d);
    assert s[i + 1..d] == ds;
  }

  lemma ParenthesisedOf(s: string, i: nat, d: nat)
    requires i + 1 < d < |s| && s[i] == '(' && Span(s, i + 1, Digit) == d && s[d] == ')'
    ensures AllDigits(s[i + 1..d])
    ensures Parenthesised(s, i) == Some((NatOf(s[i + 1..d]), d + 1))
  {
    SpanAll(s, i + 1, Digit);
  }

  lemma TwoChars(s: string, i: nat, w: string)
    requires |w| == 2 && LitAt(s, i, w)
    ensures s[i] == w[0] && s[i + 1] == w[1]
  {
    assert s[i] == s[i..i + 2][0] && s[i + 1] == s[i..i + 2][1];
  }

  /** `V9` followed by a parenthesised count gives that count of decimal digits. */
  lemma DecimalsAt(s: string, i: nat, n: nat, e: nat)
    requires i + 2 <= |s| && s[i] == 'V' && s[i + 1] == '9'
    requires Parenthesised(s, i + 2) == Some((n, e))
    ensures MatchParenDecimals(s, i) == (n, e)
  {
  }

  /** A clause the parenthesised pattern matches is parsed from that match. */
  lemma StandardParse(s: string, m: PicMatch)
    requires MatchStandard(s) == Some(m)
    ensures ParseNormalized(s) == Ok(Build(m))
  {
  }

  /** Nothing follows the end of the text, so no COMP usage is found there. */
  lemma NoCompAtEnd(s: string)
    ensures MatchComp(s, |s|) == None
  {
    assert SkipSpaces(s, |s|) == |s|;
  }

  /** The parenthesised pattern assembled from the matches of its parts. */
  lemma StandardOf(s: string, signed: bool, i: nat, n: nat, j: nat, dec: nat)
    requires PicPrefix(s) == Some((signed, i)) && i + 1 <= |s|
    requires Parenthesised(s, i + 1) == Some((n, j)) && j <= |s|
    requires MatchParenDecimals(s, j) == (dec, |s|)
    ensures MatchStandard(s) == Some(PicMatch(signed, s[i], n, dec, None))
  {
    NoCompAtEnd(s);
  }

  /** The usage as it is written after a picture: nothing for DISPLAY, ` COMP` or ` COMP-k` otherwise. */
  function UsageText(u: Usage): (t: string)
    ensures t == [] <==> u == Display
    ensures t != [] ==> |t| >= 5 && t[0] == ' ' && t[1..5] == "COMP"
  {
    match u
    case Display => ""
    case Comp => " COMP"
    case Comp1 => " COMP-1"
    case Comp2 => " COMP-2"
    case Comp3 => " COMP-3"
    case Comp4 => " COMP-4"
    case Comp5 => " COMP-5"
  }

  /** ` OCCURS n`, when a repeat count is written. */
  function OccursText(oc: Option<string>): string
  {
    match oc
    case None => ""
    case Some(n) => " OCCURS " + n
  }

  /** `V9(m)`, when decimal places are written in the parenthesised form. */
  function DecimalPart(dm: Option<string>): string
  {
    match dm
    case None => ""
    case Some(m) => "V9" + Paren(m)
  }

  /** The number of decimal places `DecimalPart` writes. */
  function DecimalCount(dm: Option<string>): nat
    requires DigitsOpt(dm)
  {
    match dm
    case None => 0
    case Some(m) => NatOf(m)
  }

  /** A count, when one is written, is a non-empty run of digits. */
  predicate DigitsOpt(d: Option<string>) { d.Some? ==> d.value != [] && AllDigits(d.value) }

  /** What the recognisers record for a usage: no COMP group for DISPLAY. */
  function CompOf(u: Usage): Option<Usage> { if u == Display then None else Some(u) }

  /** Text that stands in `s` is also found there as a slice. */
  lemma WrittenLit(s: string, i: nat, w: string)
    requires WrittenAt(s, i, w)
    ensures LitAt(s, i, w)
  {
    WrittenSlice(s, i, w, i + |w|);
  }

  /** A single blank before a non-blank is skipped as one character. */
  lemma OneBlank(s: string, k: nat)
    requires k + 1 < |s| && s[k] == ' ' && !IsSpace(s[k + 1])
    ensures SkipSpaces(s, k) == k + 1
  {
    SpanExact(s, k, k + 1, Space);
  }

  /** ` COMP` or ` COMP-k` at `k`, followed by a blank or the end, is read as its usage. */
  lemma CompRead(s: string, k: nat, u: Usage)
    requires u != Display && WrittenAt(s, k, UsageText(u))
    requires k + |UsageText(u)| == |s| || s[k + |UsageText(u)|] == ' '
    ensures MatchComp(s, k) == Some(u)
  {
    var t := UsageText(u);
    assert s[k] == t[0] && s[k + 1] == t[1] == 'C';
    OneBlank(s, k);
    assert LitAt(s, k + 1, "COMP") by {
      assert forall j :: k + 1 <= j < k + 5 ==> s[j] == t[j - k];
      assert s[k + 1..k + 5] == t[1..5];
    }
    if u != Comp {
      assert s[k + 5] == t[5] == '-' && s[k + 6] == t[6];
    }
  }

  /** Blank and `O` (of OCCURS), or the end, at `k`: no COMP usage is read there. */
  lemma NoCompRead(s: string, k: nat)
    requires k <= |s|
    requires k == |s| || (k + 1 < |s| && s[k] == ' ' && s[k + 1] == 'O')
    ensures MatchComp(s, k) == None
  {
    if k < |s| {
      OneBlank(s, k);
    } else {
      NoCompAtEnd(s);
    }
  }

  /** The usage and the optional OCCURS count that end the text, read at `k`. */
  lemma UsageRead(s: string, k: nat, u: Usage, oc: Option<string>)
    requires WrittenAt(s, k, UsageText(u) + OccursText(oc)) && |s| == k + |UsageText(u) + OccursText(oc)|
    ensures MatchComp(s, k) == CompOf(u)
  {
    var e := k + |UsageText(u)|;
    WrittenSplit(s, k, UsageText(u), OccursText(oc), e);
    if u == Display {
      if oc.Some? {
        assert s[k] == ' ' && s[k + 1] == 'O';
      }
      NoCompRead(s, k);
    } else {
      if oc.Some? {
        assert s[e] == ' ';
      }
      CompRead(s, k, u);
    }
  }

  /** The usage and OCCURS text is empty or begins with a blank. */
  lemma TailBlank(u: Usage, oc: Option<string>)
    ensures var t := UsageText(u) + OccursText(oc); t == [] || t[0] == ' '
  {
  }

  /** `PIC `, the sign marker and a type character, standing at the start of `s`. */
  lemma PrefixRead(s: string, signed: bool, base: char, i: nat)
    requires IsPicChar(base) && WrittenAt(s, 0, "PIC " + SignText(signed) + [base])
    requires i == |"PIC " + SignText(signed)|
    ensures PicPrefix(s) == Some((signed, i)) && i < |s| && s[i] == base
  {
    var head := "PIC " + SignText(signed);
    WrittenSplit(s, 0, head, [base], i);
    WrittenSplit(s, 0, "PIC ", SignText(signed), 4);
    WrittenLit(s, 0, "PIC ");
    WrittenLit(s, 4, SignText(signed));
    WrittenLit(s, |head|, [base]);
    PrefixOf(s, signed, base, |head|);
  }

  /** The optional `V9(m)` at `b`, followed by a blank or the end, gives its decimal places. */
  lemma DecimalPartRead(s: string, b: nat, dm: Option<string>, c: nat)
    requires DigitsOpt(dm) && WrittenAt(s, b, DecimalPart(dm)) && c == b + |DecimalPart(dm)|
    requires c == |s| || s[c] == ' '
    ensures MatchParenDecimals(s, b) == (DecimalCount(dm), c)
  {
    if dm.Some? {
      var m := dm.value;
      WrittenSplit(s, b, "V9", Paren(m), b + 2);
      WrittenLit(s, b + 2, Paren(m));
      assert s[b] == 'V' && s[b + 1] == '9';
      ParenthesisedAt(s, b + 2, m);
      DecimalsAt(s, b, NatOf(m), c);
    }
  }

  /** The parenthesised pattern assembled from the matches of its parts, up to the usage at `k`. */
  lemma StandardFrom(s: string, signed: bool, i: nat, a: nat, n: nat, j: nat, dec: nat, k: nat)
    requires PicPrefix(s) == Some((signed, i)) && a == i + 1 <= |s|
    requires Parenthesised(s, a) == Some((n, j)) && j <= |s|
    requires MatchParenDecimals(s, j) == (dec, k)
    ensures MatchStandard(s) == Some(PicMatch(signed, s[i], n, dec, MatchComp(s, k)))
  {
  }

  /** The parenthesised clause text `PIC [S]T(n)[V9(m)][ COMP[-k]][ OCCURS c]`. */
  function ParenthesisedText(signed: bool, base: char, dn: string, dm: Option<string>, u: Usage, oc: Option<string>): string
  {
    "PIC " + SignText(signed) + [base] + Paren(dn) + DecimalPart(dm) + (UsageText(u) + OccursText(oc))
  }

  lemma {:induction false} ParenthesisedTextMatch(signed: bool, base: char, dn: string, dm: Option<string>, u: Usage, oc: Option<string>)
    requires IsPicChar(base) && dn != [] && AllDigits(dn) && DigitsOpt(dm)
    ensures MatchStandard(ParenthesisedText(signed, base, dn, dm, u, oc))
      == Some(PicMatch(signed, base, NatOf(dn), DecimalCount(dm), CompOf(u)))
  {
    var s := ParenthesisedText(signed, base, dn, dm, u, oc);
    var a, b, c := WrittenFour("PIC " + SignText(signed) + [base], Paren(dn), DecimalPart(dm), UsageText(u) + OccursText(oc));
    ParenthesisedLayout(s, signed, base, dn, dm, u, oc, |"PIC " + SignText(signed)|, a, b, c);
  }

  /** `PIC [S]T(n)[V9(m)][ COMP[-k]][ OCCURS c]` laid out in `s`: `(n)` at a, the V part at b, the rest at c. */
  lemma ParenthesisedLayout(s: string, signed: bool, base: char, dn: string, dm: Option<string>, u: Usage, oc: Option<string>, i: nat, a: nat, b: nat, c: nat)
    requires IsPicChar(base) && dn != [] && AllDigits(dn) && DigitsOpt(dm)
    requires WrittenAt(s, 0, "PIC " + SignText(signed) + [base]) && i == |"PIC " + SignText(signed)| && a == i + 1
    requires WrittenAt(s, a, Paren(dn)) && b == a + |Paren(dn)|
    requires WrittenAt(s, b, DecimalPart(dm)) && c == b + |DecimalPart(dm)|
    requires WrittenAt(s, c, UsageText(u) + OccursText(oc)) && |s| == c + |UsageText(u) + OccursText(oc)|
    ensures MatchStandard(s) == Some(PicMatch(signed, base, NatOf(dn), DecimalCount(dm), CompOf(u)))
  {
    ParenthesisedHead(s, signed, base, dn, i, a, b);
    DecimalsAndUsage(s, dm, u, oc, b, c);
    StandardFrom(s, signed, i, a, NatOf(dn), b, DecimalCount(dm), c);
  }

  /** The prefix and the parenthesised count of `PIC [S]T(n)`. */
  lemma ParenthesisedHead(s: string, signed: bool, base: char, dn: string, i: nat, a: nat, b: nat)
    requires IsPicChar(base) && dn != [] && AllDigits(dn)
    requires WrittenAt(s, 0, "PIC " + SignText(signed) + [base]) && i == |"PIC " + SignText(signed)| && a == i + 1
    requires WrittenAt(s, a, Paren(dn)) && b == a + |Paren(dn)|
    ensures PicPrefix(s) == Some((signed, i)) && s[i] == base && a <= |s|
    ensures Parenthesised(s, a) == Some((NatOf(dn), b))
  {
    PrefixRead(s, signed, base, i);
    WrittenLit(s, a, Paren(dn));
    ParenthesisedAt(s, a, dn);
  }

  /** The optional V part at b, then the usage and OCCURS text at c that ends `s`. */
  lemma DecimalsAndUsage(s: string, dm: Option<string>, u: Usage, oc: Option<string>, b: nat, c: nat)
    requires DigitsOpt(dm)
    requires WrittenAt(s, b, DecimalPart(dm)) && c == b + |DecimalPart(dm)|
    requires WrittenAt(s, c, UsageText(u) + OccursText(oc)) && |s| == c + |UsageText(u) + OccursText(oc)|
    ensures MatchParenDecimals(s, b) == (DecimalCount(dm), c)
    ensures MatchComp(s, c) == CompOf(u)
  {
    TailBlank(u, oc);
    DecimalPartRead(s, b, dm, c);
    UsageRead(s, c, u, oc);
  }

  /**
    * The parenthesised form `PIC [S]T(n)[V9(m)][ COMP[-k]][ OCCURS c]`, for any digit texts:
    * n integer digits, m decimal digits (none without a V part), the usage written (DISPLAY
    * when none is), the storage length of that usage, and signed exactly when S is written;
    * an OCCURS count changes nothing.
    */
  lemma {:induction false} ParenthesisedForm(signed: bool, base: char, dn: string, dm: Option<string>, u: Usage, oc: Option<string>)
    requires IsPicChar(base) && dn != [] && AllDigits(dn) && DigitsOpt(dm)
    ensures var r := ParseNormalized(ParenthesisedText(signed, base, dn, dm, u, oc));
      && r.Ok? && r.value.picType == PicTypeOf(base, signed) && r.value.isSigned == signed
      && r.value.integerDigits == NatOf(dn) && r.value.decimalDigits == DecimalCount(dm)
      && r.value.usage == u && r.value.totalLength == StorageLength(u, r.value.TotalDigits())
  {
    ParenthesisedTextMatch(signed, base, dn, dm, u, oc);
    StandardBuilt(ParenthesisedText(signed, base, dn, dm, u, oc), PicMatch(signed, base, NatOf(dn), DecimalCount(dm), CompOf(u)), u);
  }

  /** What a match with the COMP group of a usage builds. */
  lemma BuildOf(m: PicMatch, u: Usage)
    requires m.comp == CompOf(u)
    ensures Build(m) == ParsedPicClause(PicTypeOf(m.baseType, m.signed), m.integerDigits, m.decimalDigits, u,
      StorageLength(u, m.integerDigits + m.decimalDigits), m.signed)
  {
  }

  /** A clause the parenthesised pattern matches, with the COMP group of a usage, parses to that usage. */
  lemma StandardBuilt(s: string, m: PicMatch, u: Usage)
    requires MatchStandard(s) == Some(m) && m.comp == CompOf(u)
    ensures ParseNormalized(s) == Ok(ParsedPicClause(PicTypeOf(m.baseType, m.signed), m.integerDigits, m.decimalDigits, u,
      StorageLength(u, m.integerDigits + m.decimalDigits), m.signed))
  {
    StandardParse(s, m);
    BuildOf(m, u);
  }

  /** A clause only the inline pattern matches, with the COMP group of a usage, parses to that usage. */
  lemma InlineBuilt(s: string, m: PicMatch, u: Usage)
    requires MatchStandard(s) == None && MatchInline(s) == Some(m) && m.comp == CompOf(u)
    ensures ParseNormalized(s) == Ok(ParsedPicClause(PicTypeOf(m.baseType, m.signed), m.integerDigits, m.decimalDigits, u,
      StorageLength(u, m.integerDigits + m.decimalDigits), m.signed))
  {
    BuildOf(m, u);
  }

  /** A run of n copies of `c` at `i` ends at `i + n`. */
  lemma RunAt(s: string, i: nat, c: char, n: nat, cls: CharClass)
    requires LitAt(s, i, Repeat(c, n)) && InClass(c, cls)
    requires i + n == |s| || !InClass(s[i + n], cls)
    ensures Span(s, i, cls) == i + n
    ensures forall k :: i <= k < i + n ==> s[k] == c
  {
    forall k | i <= k < i + n ensures s[k] == c {
      assert s[k] == s[i..i + n][k - i];
    }
    SpanExact(s, i, i + n, cls);
  }

  /** `V` and m nines, when m is not zero: the decimal part of the inline form. */
  function InlineDecimals(m: nat): string
  {
    if m == 0 then "" else "V" + Repeat('9', m)
  }

  /** A run of picture characters at `i`, followed by V, a blank or the end, is scanned as that run. */
  lemma PictureRunRead(s: string, i: nat, run: string)
    requires WrittenAt(s, i, run) && forall k :: 0 <= k < |run| ==> IsPicChar(run[k])
    requires i + |run| == |s| || s[i + |run|] == 'V' || s[i + |run|] == ' '
    ensures Span(s, i, PicChar) == i + |run|
  {
    SpanExact(s, i, i + |run|, PicChar);
  }

  /** The optional `V9...9` at `b`, followed by a blank or the end, gives its count of nines. */
  lemma InlineDecimalsRead(s: string, b: nat, m: nat, c: nat)
    requires WrittenAt(s, b, InlineDecimals(m)) && c == b + |InlineDecimals(m)|
    requires c == |s| || s[c] == ' '
    ensures CharAt(s, b, 'V') <==> m > 0
    ensures m > 0 ==> Span(s, b + 1, Only('9')) == c && c > b + 1
  {
    if m > 0 {
      WrittenSplit(s, b, "V", Repeat('9', m), b + 1);
      WrittenLit(s, b + 1, Repeat('9', m));
      RunAt(s, b + 1, '9', m, Only('9'));
    }
  }

  /** The inline pattern assembled from the matches of its parts, up to the usage at `k`. */
  lemma InlineFrom(s: string, signed: bool, i: nat, j: nat, m: nat, k: nat)
    requires PicPrefix(s) == Some((signed, i)) && i < j <= k <= |s|
    requires Span(s, i, PicChar) == j && (CharAt(s, j, 'V') <==> m > 0)
    requires m > 0 ==> Span(s, j + 1, Only('9')) == k && k == j + 1 + m
    requires m == 0 ==> k == j
    ensures MatchInline(s) == Some(PicMatch(signed, s[i], j - i, m, MatchComp(s, k)))
  {
  }

  /** The inline clause text `PIC [S]T...T[V9...9][ COMP[-k]]`. */
  function InlineText(signed: bool, run: string, m: nat, u: Usage): string
  {
    "PIC " + SignText(signed) + run + InlineDecimals(m) + UsageText(u)
  }

  lemma {:induction false} InlineTextMatch(signed: bool, run: string, m: nat, u: Usage)
    requires run != [] && forall k :: 0 <= k < |run| ==> IsPicChar(run[k])
    ensures MatchStandard(InlineText(signed, run, m, u)) == None
    ensures MatchInline(InlineText(signed, run, m, u)) == Some(PicMatch(signed, run[0], |run|, m, CompOf(u)))
  {
    var s := InlineText(signed, run, m, u);
    var a, b, c := WrittenFour("PIC " + SignText(signed), run, InlineDecimals(m), UsageText(u));
    InlinePrefix(s, signed, run, a);
    assert c == |s| || s[c] == ' ';
    assert b == |s| || s[b] == 'V' || s[b] == ' ';
    PictureRunRead(s, a, run);
    InlineDecimalsRead(s, b, m, c);
    assert !CharAt(s, a + 1, '(');
    AppendNone(UsageText(u));
    UsageRead(s, c, u, None);
    InlineFrom(s, signed, a, b, m, c);
  }

  /** The prefix of the inline form: `PIC `, the sign marker and the first character of the run at `a`. */
  lemma InlinePrefix(s: string, signed: bool, run: string, a: nat)
    requires run != [] && IsPicChar(run[0]) && a == |"PIC " + SignText(signed)|
    requires WrittenAt(s, 0, "PIC " + SignText(signed)) && WrittenAt(s, a, run)
    ensures PicPrefix(s) == Some((signed, a)) && s[a] == run[0]
  {
    WrittenJoin(s, 0, "PIC " + SignText(signed), [run[0]], a);
    PrefixRead(s, signed, run[0], a);
  }

  /**
    * The inline form `PIC [S]T...T[V9...9][ COMP[-k]]` for any run of X, A and 9: as many
    * integer digits as the run is long, as many decimal digits as nines follow V (none
    * without a V part), the type of the run's first character, the usage written (DISPLAY
    * when none is), the storage length of that usage, and signed exactly when S is written.
    */
  lemma {:induction false} InlineForm(signed: bool, run: string, m: nat, u: Usage)
    requires run != [] && forall k :: 0 <= k < |run| ==> IsPicChar(run[k])
    ensures var r := ParseNormalized(InlineText(signed, run, m, u));
      && r.Ok? && r.value.picType == PicTypeOf(run[0], signed) && r.value.isSigned == signed
      && r.value.integerDigits == |run| && r.value.decimalDigits == m
      && r.value.usage == u && r.value.totalLength == StorageLength(u, r.value.TotalDigits())
  {
    InlineTextMatch(signed, run, m, u);
    InlineBuilt(InlineText(signed, run, m, u), PicMatch(signed, run[0], |run|, m, CompOf(u)), u);
  }

  /** A digit run that ends the text is read as its number. */
  lemma NumberToEnd(s: string, i: nat, ds: string)
    requires ds != [] && AllDigits(ds) && LitAt(s, i, ds) && i + |ds| == |s|
    ensures Number(s, i) == Some((NatOf(ds), |s|))
  {
    forall k | i <= k < |s| ensures IsDigit(s[k]) {
      assert s[k] == s[i..i + |ds|][k - i];
    }
    SpanExact(s, i, |s|, Digit);
  }

  /** `V` and the digits dv ending the text: dv is read as a number (there is no `9(` to take). */
  lemma DigitDecimalsAt(s: string, j: nat, dv: string)
    requires dv != [] && AllDigits(dv) && LitAt(s, j, "V") && LitAt(s, j + 1, dv) && j + 1 + |dv| == |s|
    ensures MatchParenDecimals(s, j) == (NatOf(dv), |s|)
  {
    assert s[j] == s[j..j + 1][0];
    assert IsDigit(s[j + 1]) by { assert s[j + 1] == s[j + 1..j + 1 + |dv|][0]; }
    if j + 2 < |s| {
      assert IsDigit(s[j + 2]) by { assert s[j + 2] == s[j + 1..j + 1 + |dv|][1]; }
    }
    NumberToEnd(s, j + 1, dv);
  }

  /**
    * `PIC [S]T(dn)V` followed by the digits dv, laid out in `s`: the type character at p0,
    * `(dn)` at p1, `V` at p2 and dv at p3, which end the text.
    */
  lemma DigitDecimalsLayout(s: string, signed: bool, base: char, dn: string, dv: string, p0: nat, p1: nat, p2: nat, p3: nat)
    requires IsPicChar(base) && dn != [] && dv != [] && AllDigits(dn) && AllDigits(dv)
    requires p0 == 4 + |SignText(signed)| && p1 == p0 + 1 && p2 == p1 + 2 + |dn| && p3 == p2 + 1 && |s| == p3 + |dv|
    requires LitAt(s, 0, "PIC ") && LitAt(s, 4, SignText(signed)) && LitAt(s, p0, [base])
    requires LitAt(s, p1, Paren(dn)) && LitAt(s, p2, "V") && LitAt(s, p3, dv)
    ensures MatchStandard(s) == Some(PicMatch(signed, base, NatOf(dn), NatOf(dv), None))
  {
    PrefixOf(s, signed, base, p0);
    ParenthesisedAt(s, p1, dn);
    DigitDecimalsAt(s, p2, dv);
    StandardOf(s, signed, p0, NatOf(dn), p2, NatOf(dv));
  }

  /** The clause text `PIC [S]T(dn)V` followed by the digits dv. */
  function DigitDecimalsText(signed: bool, base: char, dn: string, dv: string): string
  {
    "PIC " + SignText(signed) + [base] + Paren(dn) + "V" + dv
  }

  /** Where the pieces of `PIC [S]T(dn)V` and dv stand in their text. */
  lemma DigitDecimalsTextPieces(signed: bool, base: char, dn: string, dv: string)
    ensures var s := DigitDecimalsText(signed, base, dn, dv);
      var p0 := 4 + |SignText(signed)|;
      var p2 := p0 + 3 + |dn|;
      && |s| == p2 + 1 + |dv|
      && LitAt(s, 0, "PIC ") && LitAt(s, 4, SignText(signed)) && LitAt(s, p0, [base])
      && LitAt(s, p0 + 1, Paren(dn)) && LitAt(s, p2, "V") && LitAt(s, p2 + 1, dv)
  {
    var x0 := "PIC " + SignText(signed);
    var x1 := x0 + [base];
    var x2 := x1 + Paren(dn);
    var x3 := x2 + "V";
    LitAtStart("PIC ", SignText(signed));
    LitAtEnd("PIC ", SignText(signed));
    LitAtStart(x0, [base]);
    LitAtExtend(x0, 4, SignText(signed), [base]);
    LitAtEnd(x0, [base]);
    LitAtExtends(x1, Paren(dn), "V", dv, 0, "PIC ");
    LitAtExtends(x1, Paren(dn), "V", dv, 4, SignText(signed));
    LitAtExtends(x1, Paren(dn), "V", dv, |x0|, [base]);
    LitAtEnd(x1, Paren(dn));
    LitAtExtend(x2, |x1|, Paren(dn), "V");
    LitAtExtend(x3, |x1|, Paren(dn), dv);
    LitAtEnd(x2, "V");
    LitAtExtend(x3, |x2|, "V", dv);
    LitAtEnd(x3, dv);
  }

  lemma DigitDecimalsTextMatch(signed: bool, base: char, dn: string, dv: string)
    requires IsPicChar(base) && dn != [] && dv != [] && AllDigits(dn) && AllDigits(dv)
    ensures MatchStandard(DigitDecimalsText(signed, base, dn, dv)) == Some(PicMatch(signed, base, NatOf(dn), NatOf(dv), None))
  {
    DigitDecimalsTextPieces(signed, base, dn, dv);
    var p0 := 4 + |SignText(signed)|;
    var p2 := p0 + 3 + |dn|;
    DigitDecimalsLayout(DigitDecimalsText(signed, base, dn, dv), signed, base, dn, dv, p0, p0 + 1, p2, p2 + 1);
  }

  /**
    * `V` followed by digits other than `9(` is read as the number those digits spell, not as
    * a count of positions: `PIC [S]9(dn)Vdv` has NatOf(dv) decimal digits and maps to a decimal
    * of scale NatOf(dv) when that is positive.
    */
  lemma DigitDecimalsReadAsNumber(signed: bool, dn: string, dv: string)
    requires dn != [] && dv != [] && AllDigits(dn) && AllDigits(dv)
    ensures var r := ParseNormalized(DigitDecimalsText(signed, '9', dn, dv));
      && r.Ok? && r.value.integerDigits == NatOf(dn) && r.value.decimalDigits == NatOf(dv)
      && (NatOf(dv) > 0 ==> MapToSparkType(r.value) == DecimalType(NatOf(dn) + NatOf(dv), NatOf(dv)))
  {
    DigitDecimalsTextMatch(signed, '9', dn, dv);
  }

  /**
    * The clause `PIC S9(7)V99` has 99 decimal digits, not 2, and maps to a decimal of precision
    * 106 and scale 99.
    */
  lemma DigitDecimalsExample()
    ensures var r := ParseNormalized(DigitDecimalsText(true, '9', "7", "99"));
      && r.Ok? && r.value.decimalDigits == 99 && MapToSparkType(r.value) == DecimalType(106, 99)
  {
    assert NatOf("7") == 7;
    assert NatOf("99") == 99 by { assert "99"[..1] == "9"; }
    DigitDecimalsReadAsNumber(true, "7", "99");
  }

  /**
    * The packed length `(n+1) div 2 + 1` is the true size of n digits and a sign nibble,
    * `n div 2 + 1`, for even n and one byte more for odd n.
    */
  lemma PackedStorageVersusNibbles(n: nat)
    ensures StorageLength(Comp3, n) == PackedBytes(n) + n % 2
  {
  }

  /**
    * The bytes `digits` packed digits and a sign nibble take: the fewest whose nibbles hold
    * them all.
    */
  function PackedBytes(digits: nat): (b: nat)
    ensures 2 * b >= digits + 1 && 2 * (b - 1) < digits + 1
  {
    digits / 2 + 1
  }

  /** The packing that carries every digit once takes exactly that many bytes. */
  lemma FixedPackingFitsStorage(v: Encoding.Decimal, precision: int, scale: int)
    ensures |Encoding.PackedEncodingFixed(v, precision, scale)| == PackedBytes(|Encoding.EncodeDigits(v, precision, scale)|)
  {
    var t := Encoding.OddDigits(v, precision, scale);
    assert |t| == |Encoding.EncodeDigits(v, precision, scale)| + (if |Encoding.EncodeDigits(v, precision, scale)| % 2 == 1 then 0 else 1);
  }

  /**
    * The decimal digits counted as positions, as the clause syntax means them: `V9(m)` gives
    * m and `V` followed by a run of nines gives the length of the run.
    */
  function CountedDecimals(s: string, i: nat): (r: (nat, nat))
    requires i <= |s|
    ensures i <= r.1 <= |s|
  {
    if !CharAt(s, i, 'V') then (0, i)
    else
      var paren := if CharAt(s, i + 1, '9') then Parenthesised(s, i + 2) else None;
      match paren
      case Some(r) => r
      case None =>
        var d := Span(s, i + 1, Only('9'));
        if d > i + 1 then (d - i - 1, d) else (0, i)
  }

  /** `PIC_PATTERN` with the decimal digits counted as positions. */
  function MatchStandardCounted(s: string): (r: Option<PicMatch>)
    ensures r.Some? ==> PicPrefix(s).Some? && r.value.signed == PicPrefix(s).value.0
  {
    match PicPrefix(s)
    case None => None
    case Some((signed, i)) =>
      match Parenthesised(s, i + 1)
      case None => None
      case Some((n, j)) =>
        var (dec, k) := CountedDecimals(s, j);
        Some(PicMatch(signed, s[i], n, dec, MatchComp(s, k)))
  }

  /** `V` and m nines that end the text are m decimal positions. */
  lemma NinesCounted(s: string, i: nat, m: nat)
    requires m >= 1 && i + 1 + m == |s| && CharAt(s, i, 'V')
    requires forall k :: i < k < |s| ==> s[k] == '9'
    ensures CountedDecimals(s, i) == (m, |s|)
  {
    if m >= 2 {
      assert s[i + 2] == '9';
    }
    SpanExact(s, i + 1, |s|, Only('9'));
  }

  /** `PIC [S]9(dn)V` and m nines laid out in `s`, as DigitDecimalsLayout places them. */
  lemma CountedLayout(s: string, signed: bool, dn: string, m: nat, p0: nat, p2: nat)
    requires dn != [] && AllDigits(dn) && m >= 1
    requires p0 == 4 + |SignText(signed)| && p2 == p0 + 3 + |dn| && |s| == p2 + 1 + m
    requires LitAt(s, 0, "PIC ") && LitAt(s, 4, SignText(signed)) && LitAt(s, p0, "9")
    requires LitAt(s, p0 + 1, Paren(dn)) && LitAt(s, p2, "V") && LitAt(s, p2 + 1, Repeat('9', m))
    ensures MatchStandardCounted(s) == Some(PicMatch(signed, '9', NatOf(dn), m, None))
  {
    PrefixOf(s, signed, '9', p0);
    ParenthesisedAt(s, p0 + 1, dn);
    assert s[p2] == s[p2..p2 + 1][0];
    forall k | p2 < k < |s| ensures s[k] == '9' {
      assert s[k] == s[p2 + 1..p2 + 1 + m][k - p2 - 1];
    }
    NinesCounted(s, p2, m);
    NoCompAtEnd(s);
  }

  /**
    * With the decimals counted, `PIC [S]9(dn)V` followed by m nines has m decimal digits
    * and maps to a decimal of precision NatOf(dn) + m and scale m.
    */
  lemma NinesAreDecimalPositions(signed: bool, dn: string, m: nat)
    requires dn != [] && AllDigits(dn) && m >= 1
    ensures var r := MatchStandardCounted(DigitDecimalsText(signed, '9', dn, Repeat('9', m)));
      && r == Some(PicMatch(signed, '9', NatOf(dn), m, None))
      && MapToSparkType(Build(r.value)) == DecimalType(NatOf(dn) + m, m)
  {
    DigitDecimalsTextPieces(signed, '9', dn, Repeat('9', m));
    var p0 := 4 + |SignText(signed)|;
    CountedLayout(DigitDecimalsText(signed, '9', dn, Repeat('9', m)), signed, dn, m, p0, p0 + 3 + |dn|);
  }

  /** With the decimals counted, `PIC S9(7)V99` maps to a decimal of precision 9 and scale 2. */
  lemma CountedDecimalsExample()
    ensures var r := MatchStandardCounted(DigitDecimalsText(true, '9', "7", "99"));
      r.Some? && r.value.decimalDigits == 2 && MapToSparkType(Build(r.value)) == DecimalType(9, 2)
  {
    assert Repeat('9', 2) == "99";
    assert NatOf("7") == 7;
    NinesAreDecimalPositions(true, "7", 2);
  }
}
