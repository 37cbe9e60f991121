/**
  * DB2 column types (mf_spark/converters/db2_types.py): the ordered rules that read a declared
  * type such as `DECIMAL(15,2)`, `VARCHAR(100) FOR BIT DATA` or `TIMESTAMP(6) WITH TIME ZONE`
  * into a parsed type, the mapping of a parsed type to a Spark type, and the codec lookup.
  */
module Db2Types {
  import opened Wrappers
  import opened Strings
  import opened SparkTypes
  import Encoding

  datatype Category = NumericInteger | NumericDecimal | NumericFloat | Character | Graphic | Binary | DateTime | Special

  /** `ParsedDB2Type`; the optional fields are None unless a rule sets them. */
  datatype ParsedDb2Type = ParsedDb2Type(
    baseType: string,
    category: Category,
    precision: Option<int>,
    scale: Option<int>,
    length: Option<int>,
    isNullable: bool,
    ccsid: Option<int>,
    isForBitData: bool)

  // ---------------------------------------------------------------------------
  // Recognisers for the type patterns (anchored at the start only)
  // ---------------------------------------------------------------------------

  /** One alternative of a keyword group: a plain word, or `LONG\s+` followed by a word. */
  datatype Keyword = Exactly(w: string) | Long(w: string)

  /** Where an alternative ends when it begins the text. */
  function KeywordEnd(s: string, k: Keyword): (r: Option<nat>)
    ensures r.Some? ==> r.value <= |s|
    ensures k.Exactly? ==> (r.Some? <==> StartsWith(s, k.w))
  {
    match k
    case Exactly(w) => if LitAt(s, 0, w) then Some(|w|) else None
    case Long(w) =>
      if !LitAt(s, 0, "LONG") then None
      else
        var j := Span(s, 4, Space);
        if j > 4 && LitAt(s, j, w) then Some(j + |w|) else None
  }

  /** `\s*\(\s*(\d+)\s*\)` at `i`: the number and where the match ends. */
  function ParenCount(s: string, i: nat): (r: Option<(nat, nat)>)
    requires i <= |s|
    ensures r.Some? ==> i < r.value.1 <= |s|
  {
    var a := SkipSpaces(s, i);
    if !CharAt(s, a, '(') then None
    else
      match Number(s, SkipSpaces(s, a + 1))
      case None => None
      case Some((n, e)) =>
        var f := SkipSpaces(s, e);
        if CharAt(s, f, ')') then Some((n, f + 1)) else None
  }

  /** `(?:,\s*(\d+))?` at `f`: the optional number and where the group ends. */
  function OptionalSecond(s: string, f: nat): (r: (Option<nat>, nat))
    requires f <= |s|
    ensures f <= r.1 <= |s|
  {
    if !CharAt(s, f, ',') then (None, f)
    else
      match Number(s, SkipSpaces(s, f + 1))
      case Some((q, h)) => (Some(q), h)
      case None => (None, f)
  }

  /** `\s*\(\s*(\d+)\s*(?:,\s*(\d+))?\s*\)` at `i`: the first number and the optional second. */
  function ParenPair(s: string, i: nat): (r: Option<(nat, Option<nat>)>)
    requires i <= |s|
  {
    var a := SkipSpaces(s, i);
    if !CharAt(s, a, '(') then None
    else
      match Number(s, SkipSpaces(s, a + 1))
      case None => None
      case Some((p, e)) =>
        var (q, g) := OptionalSecond(s, SkipSpaces(s, e));
        if CharAt(s, SkipSpaces(s, g), ')') then Some((p, q)) else None
  }

  /** What follows the keyword: one parenthesised number, or a number and an optional second. */
  datatype Arguments = OneNumber | NumberPair

  function ArgumentsAt(s: string, i: nat, form: Arguments): (r: Option<(nat, Option<nat>)>)
    requires i <= |s|
    ensures form == OneNumber && r.Some? ==> r.value.1 == None
  {
    match form
    case OneNumber => (match ParenCount(s, i) case Some((n, _)) => Some((n, None)) case None => None)
    case NumberPair => ParenPair(s, i)
  }

  /** A keyword group's match: which alternative, where it ends, and the numbers after it. */
  datatype KeywordMatch = KeywordMatch(alt: nat, end: nat, first: nat, second: Option<nat>)

  /** One alternative followed by its arguments. */
  function Alternative(s: string, k: Keyword, form: Arguments): (r: Option<(nat, nat, Option<nat>)>)
    ensures r.Some? ==> KeywordEnd(s, k) == Some(r.value.0)
  {
    match KeywordEnd(s, k)
    case None => None
    case Some(e) =>
      match ArgumentsAt(s, e, form)
      case None => None
      case Some((a, b)) => Some((e, a, b))
  }

  /**
    * `(K1|K2|...)` followed by the arguments: the alternatives are tried in order and the
    * first one whose arguments also match is taken.
    */
  function MatchKeyword(s: string, ks: seq<Keyword>, form: Arguments, from: nat): (r: Option<KeywordMatch>)
    requires from <= |ks|
    ensures r.Some? ==>
      (from <= r.value.alt < |ks| && Alternative(s, ks[r.value.alt], form) == Some((r.value.end, r.value.first, r.value.second)))
    ensures forall k :: from <= k < |ks| && (r.Some? ==> k < r.value.alt) ==> Alternative(s, ks[k], form).None?
    decreases |ks| - from
  {
    if from == |ks| then None
    else
      match Alternative(s, ks[from], form)
      case Some((e, a, b)) => Some(KeywordMatch(from, e, a, b))
      case None => MatchKeyword(s, ks, form, from + 1)
  }

  const DecimalKeywords: seq<Keyword> := [Exactly("DECIMAL"), Exactly("DEC"), Exactly("NUMERIC")]
  const DecfloatKeywords: seq<Keyword> := [Exactly("DECFLOAT")]
  const CharKeywords: seq<Keyword> := [Exactly("CHAR"), Exactly("CHARACTER"), Exactly("VARCHAR"), Long("VARCHAR")]
  const GraphicKeywords: seq<Keyword> := [Exactly("GRAPHIC"), Exactly("VARGRAPHIC"), Long("VARGRAPHIC")]
  const BinaryKeywords: seq<Keyword> := [Exactly("BINARY"), Exactly("VARBINARY")]

  function IsSizeUnit(c: char): bool { c == 'K' || c == 'M' || c == 'G' }

  /** `\s*(?:\(\s*(\d+)\s*([KMG])?\s*\))?` at `i`: the optional size and its optional unit. */
  function LobSize(s: string, i: nat): (r: (Option<nat>, Option<char>))
    requires i <= |s|
    ensures r.1.Some? ==> r.0.Some? && IsSizeUnit(r.1.value)
  {
    var a := SkipSpaces(s, i);
    if !CharAt(s, a, '(') then (None, None)
    else
      match Number(s, SkipSpaces(s, a + 1))
      case None => (None, None)
      case Some((n, e)) =>
        var f := SkipSpaces(s, e);
        var (unit, g) := if f < |s| && IsSizeUnit(s[f]) then (Some(s[f]), f + 1) else (None, f);
        if CharAt(s, SkipSpaces(s, g), ')') then (Some(n), unit) else (None, None)
  }

  /** `LOB_PATTERN`: the LOB keyword, and the size and unit that may follow it. */
  function MatchLob(s: string): (r: Option<(string, Option<nat>, Option<char>)>)
    ensures r.Some? ==> r.value.0 in {"BLOB", "CLOB", "DBCLOB"} && StartsWith(s, r.value.0)
  {
    var base := if LitAt(s, 0, "BLOB") then "BLOB" else if LitAt(s, 0, "CLOB") then "CLOB"
                else if LitAt(s, 0, "DBCLOB") then "DBCLOB" else "";
    if base == "" then None
    else
      var (size, unit) := LobSize(s, |base|);
      Some((base, size, unit))
  }

  /** `WITH\s+TIME\s+ZONE` at `i`. */
  predicate WithTimeZone(s: string, i: nat)
    requires i <= |s|
  {
    LitAt(s, i, "WITH") &&
      var j := Span(s, i + 4, Space);
      j > i + 4 && LitAt(s, j, "TIME") &&
        var k := Span(s, j + 4, Space);
        k > j + 4 && LitAt(s, k, "ZONE")
  }

  /** `TIMESTAMP_PATTERN`: the optional precision and whether the time zone clause follows. */
  function MatchTimestamp(s: string): (r: Option<(Option<nat>, bool)>)
    ensures r.Some? <==> StartsWith(s, "TIMESTAMP")
  {
    if !LitAt(s, 0, "TIMESTAMP") then None
    else
      var (precision, b) := match ParenCount(s, 9) case Some((n, e)) => (Some(n), e) case None => (None, 9);
      Some((precision, WithTimeZone(s, SkipSpaces(s, b))))
  }

  // ---------------------------------------------------------------------------
  // SIMPLE_TYPES and the category of a simple type
  // ---------------------------------------------------------------------------

  /** `SIMPLE_TYPES`, in its declaration order. */
  const SimpleTypes: seq<(string, SparkType)> := [
    ("SMALLINT", ShortType), ("INTEGER", IntegerType), ("INT", IntegerType), ("BIGINT", LongType),
    ("REAL", FloatType), ("FLOAT", DoubleType), ("DOUBLE", DoubleType), ("DOUBLE PRECISION", DoubleType),
    ("DATE", DateType), ("TIME", StringType), ("BOOLEAN", BooleanType), ("XML", StringType), ("ROWID", StringType)
  ]

  /** The keys of `SIMPLE_TYPES`, in the same order. */
  const SimpleNames: seq<string> := [
    "SMALLINT", "INTEGER", "INT", "BIGINT", "REAL", "FLOAT", "DOUBLE", "DOUBLE PRECISION",
    "DATE", "TIME", "BOOLEAN", "XML", "ROWID"
  ]

  lemma SimpleNamesAreKeys()
    ensures |SimpleNames| == |SimpleTypes|
    ensures forall j :: 0 <= j < |SimpleTypes| ==> SimpleTypes[j].0 == SimpleNames[j]
  {
  }

  /** The first simple type at or after `from`, in table order, that begins the text. */
  function FirstPrefix(s: string, from: nat): (r: Option<nat>)
    requires from <= |SimpleTypes|
    ensures r.Some? ==> from <= r.value < |SimpleTypes| && StartsWith(s, SimpleTypes[r.value].0)
    ensures forall k :: from <= k < |SimpleTypes| && (r.Some? ==> k < r.value) ==> !StartsWith(s, SimpleTypes[k].0)
    decreases |SimpleTypes| - from
  {
    if from == |SimpleTypes| then None
    else if StartsWith(s, SimpleTypes[from].0) then Some(from)
    else FirstPrefix(s, from + 1)
  }

  /** The loop over `SIMPLE_TYPES` in `parse_type`: the first keyword, in table order, the text starts with. */
  method FindSimpleType(s: string) returns (r: Option<nat>)
    ensures r.Some? ==> r.value < |SimpleTypes| && StartsWith(s, SimpleTypes[r.value].0)
    ensures forall k :: 0 <= k < |SimpleTypes| && (r.Some? ==> k < r.value) ==> !StartsWith(s, SimpleTypes[k].0)
    ensures r == FirstPrefix(s, 0)
  {
    var i := 0;
    while i < |SimpleTypes|
      invariant 0 <= i <= |SimpleTypes|
      invariant forall k :: 0 <= k < i ==> !StartsWith(s, SimpleTypes[k].0)
      invariant FirstPrefix(s, 0) == FirstPrefix(s, i)
    {
      if StartsWith(s, SimpleTypes[i].0) {
        return Some(i);
      }
      i := i + 1;
    }
    return None;
  }

  /** The type a simple-type name maps to: a dictionary lookup by the exact name. */
  function SimpleLookup(name: string, from: nat): (r: Option<SparkType>)
    requires from <= |SimpleTypes|
    ensures r.Some? <==> exists k :: from <= k < |SimpleTypes| && SimpleTypes[k].0 == name
    ensures r.Some? ==> exists k :: from <= k < |SimpleTypes| && SimpleTypes[k] == (name, r.value)
    decreases |SimpleTypes| - from
  {
    if from == |SimpleTypes| then None
    else if SimpleTypes[from].0 == name then Some(SimpleTypes[from].1)
    else SimpleLookup(name, from + 1)
  }

  /** `_get_category`. */
  function CategoryOf(baseType: string): Category
  {
    if baseType in {"SMALLINT", "INTEGER", "INT", "BIGINT"} then NumericInteger
    else if baseType in {"REAL", "FLOAT", "DOUBLE", "DOUBLE PRECISION"} then NumericFloat
    else if baseType in {"DATE", "TIME"} then DateTime
    else if baseType in {"BOOLEAN", "XML", "ROWID"} then Special
    else Character
  }

  // ---------------------------------------------------------------------------
  // parse_type
  // ---------------------------------------------------------------------------

  /** The text the rules see, with the two modifiers found and taken out. */
  datatype Prepared = Prepared(text: string, isNullable: bool, isForBitData: bool)

  /**
    * The start of `parse_type`: strip and upper-case, take out every `FOR BIT DATA` when there
    * is one, note whether `NOT NULL` is present, take out every `NOT NULL`, strip again.
    */
  function Prepare(declared: string): (p: Prepared)
    ensures p.isForBitData <==> Contains(Upper(Strip(declared)), "FOR BIT DATA")
    ensures !p.isForBitData ==> (p.isNullable <==> !Contains(Upper(Strip(declared)), "NOT NULL"))
    ensures p.isForBitData ==>
      (p.isNullable <==> !Contains(Strip(ReplaceAll(Upper(Strip(declared)), "FOR BIT DATA", "")), "NOT NULL"))
    ensures Strip(p.text) == p.text && Upper(p.text) == p.text
  {
    var u := Upper(Strip(declared));
    var bit := Contains(u, "FOR BIT DATA");
    var v := if bit then Strip(ReplaceAll(u, "FOR BIT DATA", "")) else u;
    PreparedText(u, v, bit);
    Prepared(Strip(ReplaceAll(v, "NOT NULL", "")), !Contains(v, "NOT NULL"), bit)
  }

  /** What is left once the modifiers are taken out is stripped and upper-case. */
  lemma PreparedText(u: string, v: string, bit: bool)
    requires NoLower(u)
    requires v == if bit then Strip(ReplaceAll(u, "FOR BIT DATA", "")) else u
    ensures var t := Strip(ReplaceAll(v, "NOT NULL", ""));
      Strip(t) == t && Upper(t) == t
  {
    if bit {
      ReplaceAllNoLower(u, "FOR BIT DATA", "");
      StripNoLower(ReplaceAll(u, "FOR BIT DATA", ""));
    }
    ReplaceAllNoLower(v, "NOT NULL", "");
    StripNoLower(ReplaceAll(v, "NOT NULL", ""));
    StripTwice(ReplaceAll(v, "NOT NULL", ""));
    UpperIdentity(Strip(ReplaceAll(v, "NOT NULL", "")));
  }

  /** A keyword group's matched text, upper-cased, with its blanks turned into underscores. */
  function BaseName(s: string, end: nat): string
    requires end <= |s|
  {
    ReplaceAll(Upper(s[..end]), " ", "_")
  }

  /** The LOB size multiplier of a unit: `{"K": 1024, "M": 1024**2, "G": 1024**3}.get(unit, 1)`. */
  function Multiplier(unit: Option<char>): (m: nat)
    ensures m >= 1
  {
    match unit
    case Some('K') => 1024
    case Some('M') => 1024 * 1024
    case Some('G') => 1024 * 1024 * 1024
    case _ => 1
  }

  /** The rules of `parse_type` on the prepared text, in order; the first that matches decides. */
  function ParseRules(s: string, nullable: bool, forBitData: bool): (r: ParsedDb2Type)
    ensures r.isNullable == nullable
    ensures r.ccsid == None
    ensures r.isForBitData ==> forBitData && r.category == Binary
    ensures r.category == NumericDecimal ==> r.precision.Some? && r.scale.Some? && r.length.None?
  {
    match MatchKeyword(s, DecimalKeywords, NumberPair, 0)
    case Some(m) => ParsedDb2Type("DECIMAL", NumericDecimal, Some(m.first), Some(m.second.GetOr(0)), None, nullable, None, false)
    case None =>
    match MatchKeyword(s, DecfloatKeywords, OneNumber, 0)
    case Some(m) => ParsedDb2Type("DECFLOAT", NumericDecimal, Some(m.first), Some(0), None, nullable, None, false)
    case None =>
    match MatchKeyword(s, CharKeywords, OneNumber, 0)
    case Some(m) =>
      ParsedDb2Type(BaseName(s, m.end), if forBitData then Binary else Character, None, None, Some(m.first), nullable, None, forBitData)
    case None =>
    match MatchKeyword(s, GraphicKeywords, OneNumber, 0)
    case Some(m) => ParsedDb2Type(BaseName(s, m.end), Graphic, None, None, Some(m.first), nullable, None, false)
    case None =>
    match MatchKeyword(s, BinaryKeywords, OneNumber, 0)
    case Some(m) => ParsedDb2Type(Upper(s[..m.end]), Binary, None, None, Some(m.first), nullable, None, false)
    case None =>
    match MatchLob(s)
    case Some((base, size, unit)) =>
      ParsedDb2Type(base, if base == "BLOB" then Binary else Character, None, None, Some(size.GetOr(0) * Multiplier(unit)), nullable, None, false)
    case None =>
    match MatchTimestamp(s)
    case Some((precision, tz)) =>
      ParsedDb2Type(if tz then "TIMESTAMP_WITH_TZ" else "TIMESTAMP", DateTime, Some(precision.GetOr(6)), None, None, nullable, None, false)
    case None =>
    match FirstPrefix(s, 0)
    case Some(k) => ParsedDb2Type(SimpleTypes[k].0, CategoryOf(SimpleTypes[k].0), None, None, None, nullable, None, false)
    case None => ParsedDb2Type("UNKNOWN", Character, None, None, None, nullable, None, false)
  }

  /** `parse_type`: never fails; an unrecognised type is UNKNOWN of the character category. */
  function ParseType(declared: string): (r: ParsedDb2Type)
    ensures r.isNullable == Prepare(declared).isNullable
    ensures r.isForBitData ==> Contains(Upper(Strip(declared)), "FOR BIT DATA")
  {
    var p := Prepare(declared);
    ParseRules(p.text, p.isNullable, p.isForBitData)
  }

  // ---------------------------------------------------------------------------
  // Mapping to Spark types, convert and get_codec
  // ---------------------------------------------------------------------------

  /** Python's `value or default` on an optional integer: None and 0 both give the default. */
  function OrDefault(value: Option<int>, default: int): (r: int)
    ensures value.Some? && value.value != 0 ==> r == value.value
    ensures value.None? || value.value == 0 ==> r == default
  {
    if value.None? || value.value == 0 then default else value.value
  }

  /** `_map_to_spark_type`: the simple-type table first, then by category. */
  function MapToSparkType(p: ParsedDb2Type): (t: SparkType)
    ensures t.DecimalType? ==> p.category == NumericDecimal && t.precision != 0
  {
    match SimpleLookup(p.baseType, 0)
    case Some(t) => t
    case None =>
      if p.category == NumericDecimal then DecimalType(OrDefault(p.precision, 18), OrDefault(p.scale, 0))
      else if p.category == NumericFloat then DoubleType
      else if p.category == Binary then BinaryType
      else if p.category == DateTime then
        if p.baseType == "DATE" then DateType
        else if p.baseType in {"TIMESTAMP", "TIMESTAMP_WITH_TZ"} then TimestampType
        else StringType
      else if p.category == Special then
        if p.baseType == "BOOLEAN" then BooleanType else StringType
      else if p.isForBitData then BinaryType
      else StringType
  }

  /** `convert`. */
  function Convert(declared: string): (t: SparkType)
    ensures t.DecimalType? ==> ParseType(declared).category == NumericDecimal && t.precision != 0
  {
    MapToSparkType(ParseType(declared))
  }

  /** The converter's own `CCSID_CODECS`, in its declaration order. */
  const Db2CcsidCodecs: seq<(int, string)> := [
    (37, "cp037"), (500, "cp500"), (1047, "cp1047"), (1140, "cp1140"),
    (1200, "utf-16"), (1208, "utf-8"),
    (930, "cp930"), (935, "cp935"), (937, "cp937")
  ]

  /** `get_codec`: a missing or zero CCSID takes the converter's default; an unknown one gives cp037. */
  function GetCodec(defaultCcsid: int, ccsid: Option<int>): (codec: string)
    ensures var c := OrDefault(ccsid, defaultCcsid);
      (forall k :: 0 <= k < |Db2CcsidCodecs| ==> Db2CcsidCodecs[k].0 != c) ==> codec == "cp037"
  {
    Encoding.LookupKey(Db2CcsidCodecs, OrDefault(ccsid, defaultCcsid)).GetOr("cp037")
  }

  // ---------------------------------------------------------------------------
  // What the rules accept
  // ---------------------------------------------------------------------------

  /** `,q)` at p2: the second number q, ending where the `)` is. */
  lemma SecondAt(s: string, dq: string, p2: nat, p3: nat, p4: nat)
    requires dq != [] && AllDigits(dq) && p3 == p2 + 1 && p4 == p3 + |dq|
    requires CharAt(s, p2, ',') && LitAt(s, p3, dq) && CharAt(s, p4, ')')
    ensures OptionalSecond(s, p2) == (Some(NatOf(dq)), p4)
  {
    assert s[p3] == s[p3..p4][0];
    NoSpaceAt(s, p3);
    NumberAt(s, p3, dq);
  }

  /** A number `dp` directly after the `(` at `a`, with no blank after it. */
  lemma FirstNumberAt(s: string, a: nat, dp: string, p1: nat, p2: nat)
    requires dp != [] && AllDigits(dp) && p1 == a + 1 && p2 == p1 + |dp|
    requires CharAt(s, a, '(') && LitAt(s, p1, dp) && p2 < |s| && !IsDigit(s[p2]) && !IsSpace(s[p2])
    ensures SkipSpaces(s, a) == a && Number(s, SkipSpaces(s, a + 1)) == Some((NatOf(dp), p2)) && SkipSpaces(s, p2) == p2
  {
    NoSpaceAt(s, a);
    assert s[p1] == s[p1..p2][0];
    NoSpaceAt(s, p1);
    NumberAt(s, p1, dp);
    NoSpaceAt(s, p2);
  }

  /** How `ParenPair` reads once its pieces are known. */
  lemma ParenPairOf(s: string, a: nat, p: nat, e: nat, q: Option<nat>, g: nat)
    requires a < |s| && s[a] == '(' && SkipSpaces(s, a) == a
    requires Number(s, SkipSpaces(s, a + 1)) == Some((p, e)) && SkipSpaces(s, e) == e
    requires OptionalSecond(s, e) == (q, g) && g < |s| && s[g] == ')' && SkipSpaces(s, g) == g
    ensures ParenPair(s, a) == Some((p, q))
  {
  }

  /** `(p,q)` at `a` is read as the pair p, q. */
  lemma PairAt(s: string, a: nat, dp: string, dq: string, p1: nat, p2: nat, p3: nat, p4: nat)
    requires dp != [] && AllDigits(dp) && dq != [] && AllDigits(dq)
    requires p1 == a + 1 && p2 == p1 + |dp| && p3 == p2 + 1 && p4 == p3 + |dq|
    requires CharAt(s, a, '(') && LitAt(s, p1, dp) && CharAt(s, p2, ',') && LitAt(s, p3, dq) && CharAt(s, p4, ')')
    ensures ParenPair(s, a) == Some((NatOf(dp), Some(NatOf(dq))))
  {
    FirstNumberAt(s, a, dp, p1, p2);
    SecondAt(s, dq, p2, p3, p4);
    NoSpaceAt(s, p4);
    ParenPairOf(s, a, NatOf(dp), p2, Some(NatOf(dq)), p4);
  }

  /** `(p)` at `a` is read as the number p, both where one number and where a pair may follow. */
  lemma SingleAt(s: string, a: nat, dp: string, p1: nat, p2: nat)
    requires dp != [] && AllDigits(dp) && p1 == a + 1 && p2 == p1 + |dp|
    requires CharAt(s, a, '(') && LitAt(s, p1, dp) && CharAt(s, p2, ')')
    ensures ParenPair(s, a) == Some((NatOf(dp), None))
    ensures ParenCount(s, a) == Some((NatOf(dp), p2 + 1))
  {
    FirstNumberAt(s, a, dp, p1, p2);
    ParenPairOf(s, a, NatOf(dp), p2, None, p2);
  }

  // Keyword groups

  /** An alternative that begins the text and is followed by its arguments. */
  lemma AlternativeAt(s: string, k: Keyword, form: Arguments, args: (nat, Option<nat>))
    requires k.Exactly? && LitAt(s, 0, k.w) && ArgumentsAt(s, |k.w|, form) == Some(args)
    ensures Alternative(s, k, form) == Some((|k.w|, args.0, args.1))
  {
  }

  /** Text whose i-th character differs from the word's does not begin with the word. */
  lemma NotLitAt(s: string, w: string, i: nat)
    requires i < |w| && i < |s| && s[i] != w[i]
    ensures !LitAt(s, 0, w)
  {
  }

  /** An alternative fails when the text differs from its word, or does not begin with LONG. */
  lemma KeywordMismatch(s: string, k: Keyword, form: Arguments, i: nat)
    requires i < |s| && (if k.Exactly? then i < |k.w| && s[i] != k.w[i] else i < 4 && s[i] != "LONG"[i])
    ensures Alternative(s, k, form) == None
  {
    if k.Exactly? {
      NotLitAt(s, k.w, i);
    } else {
      NotLitAt(s, "LONG", i);
    }
  }

  /** An alternative whose word is followed by neither a blank nor `(` has no arguments. */
  lemma KeywordWithoutArguments(s: string, k: Keyword, form: Arguments)
    requires k.Exactly? && LitAt(s, 0, k.w) && |k.w| < |s| && !IsSpace(s[|k.w|]) && s[|k.w|] != '('
    ensures Alternative(s, k, form) == None
  {
    NoSpaceAt(s, |k.w|);
  }

  /** The alternative at `from`, when it matches, is the one taken. */
  lemma TakeKeyword(s: string, ks: seq<Keyword>, form: Arguments, from: nat, m: (nat, nat, Option<nat>))
    requires from < |ks| && Alternative(s, ks[from], form) == Some(m)
    ensures MatchKeyword(s, ks, form, from) == Some(KeywordMatch(from, m.0, m.1, m.2))
  {
  }

  /** An alternative that fails is passed over. */
  lemma SkipKeyword(s: string, ks: seq<Keyword>, form: Arguments, from: nat)
    requires from < |ks| && Alternative(s, ks[from], form).None?
    ensures MatchKeyword(s, ks, form, from) == MatchKeyword(s, ks, form, from + 1)
  {
  }

  // Which rule decides

  lemma RuleDecimal(s: string, nullable: bool, forBitData: bool, m: KeywordMatch)
    requires MatchKeyword(s, DecimalKeywords, NumberPair, 0) == Some(m)
    ensures ParseRules(s, nullable, forBitData)
      == ParsedDb2Type("DECIMAL", NumericDecimal, Some(m.first), Some(m.second.GetOr(0)), None, nullable, None, false)
  {
  }

  /** Text that begins with neither D nor N is no decimal. */
  lemma NotDecimal(s: string)
    requires |s| > 1 && (s[0] != 'D' || s[1] != 'E') && s[0] != 'N'
    ensures MatchKeyword(s, DecimalKeywords, NumberPair, 0) == None
    ensures MatchKeyword(s, DecfloatKeywords, OneNumber, 0) == None
  {
    var i := if s[0] == 'D' then 1 else 0;
    KeywordMismatch(s, DecimalKeywords[0], NumberPair, i);
    SkipKeyword(s, DecimalKeywords, NumberPair, 0);
    KeywordMismatch(s, DecimalKeywords[1], NumberPair, i);
    SkipKeyword(s, DecimalKeywords, NumberPair, 1);
    KeywordMismatch(s, DecimalKeywords[2], NumberPair, 0);
    SkipKeyword(s, DecimalKeywords, NumberPair, 2);
    KeywordMismatch(s, DecfloatKeywords[0], OneNumber, i);
    SkipKeyword(s, DecfloatKeywords, OneNumber, 0);
  }

  lemma RuleChar(s: string, nullable: bool, forBitData: bool, m: KeywordMatch)
    requires MatchKeyword(s, DecimalKeywords, NumberPair, 0) == None
    requires MatchKeyword(s, DecfloatKeywords, OneNumber, 0) == None
    requires MatchKeyword(s, CharKeywords, OneNumber, 0) == Some(m)
    ensures ParseRules(s, nullable, forBitData) == ParsedDb2Type(BaseName(s, m.end),
      if forBitData then Binary else Character, None, None, Some(m.first), nullable, None, forBitData)
  {
  }

  // Decimal declarations

  /** `w(p,q)`: a keyword and a parenthesised pair of numbers. */
  function WithPair(w: string, dp: string, dq: string): string {
    w + "(" + dp + "," + dq + ")"
  }

  /** `w(n)`: a keyword and one parenthesised number. */
  function WithCount(w: string, dn: string): string {
    w + "(" + dn + ")"
  }

  lemma WithPairLayout(w: string, dp: string, dq: string)
    ensures var s := WithPair(w, dp, dq);
      && LitAt(s, 0, w) && CharAt(s, |w|, '(') && LitAt(s, |w| + 1, dp)
      && CharAt(s, |w| + 1 + |dp|, ',') && LitAt(s, |w| + 2 + |dp|, dq) && CharAt(s, |w| + 2 + |dp| + |dq|, ')')
  {
    var x0 := w + "(";
    var x1 := x0 + dp;
    var x2 := x1 + ",";
    var x3 := x2 + dq;
    LitAtStart(w, "(");
    LitAtExtends(x0, dp, ",", dq, 0, w);
    LitAtExtend(x3, 0, w, ")");
    CharAtEnd(w, '(');
    CharAtExtend(x0, |w|, '(', dp);
    CharAtExtend(x1, |w|, '(', ",");
    CharAtExtend(x2, |w|, '(', dq);
    CharAtExtend(x3, |w|, '(', ")");
    LitAtEnd(x0, dp);
    LitAtExtends(x1, ",", dq, ")", |x0|, dp);
    CharAtEnd(x1, ',');
    CharAtExtend(x2, |x1|, ',', dq);
    CharAtExtend(x3, |x1|, ',', ")");
    LitAtEnd(x2, dq);
    LitAtExtend(x3, |x2|, dq, ")");
    CharAtEnd(x3, ')');
  }

  lemma WithCountLayout(w: string, dn: string)
    ensures var s := WithCount(w, dn);
      && LitAt(s, 0, w) && CharAt(s, |w|, '(') && LitAt(s, |w| + 1, dn) && CharAt(s, |w| + 1 + |dn|, ')')
      && |s| == |w| + 2 + |dn|
  {
    var x0 := w + "(";
    var x1 := x0 + dn;
    LitAtStart(w, "(");
    LitAtExtend(x0, 0, w, dn);
    LitAtExtend(x1, 0, w, ")");
    CharAtEnd(w, '(');
    CharAtExtend(x0, |w|, '(', dn);
    CharAtExtend(x1, |w|, '(', ")");
    LitAtEnd(x0, dn);
    LitAtExtend(x1, |x0|, dn, ")");
    CharAtEnd(x1, ')');
  }

  /** The k-th spelling of the decimal keyword, directly followed by `(` and its arguments, is taken. */
  lemma DecimalKeywordAt(s: string, k: nat, args: (nat, Option<nat>))
    requires k < |DecimalKeywords| && LitAt(s, 0, DecimalKeywords[k].w)
    requires CharAt(s, |DecimalKeywords[k].w|, '(') && ParenPair(s, |DecimalKeywords[k].w|) == Some(args)
    ensures MatchKeyword(s, DecimalKeywords, NumberPair, 0) == Some(KeywordMatch(k, |DecimalKeywords[k].w|, args.0, args.1))
  {
    var w := DecimalKeywords[k].w;
    AlternativeAt(s, DecimalKeywords[k], NumberPair, args);
    if k == 0 {
      TakeKeyword(s, DecimalKeywords, NumberPair, 0, (|w|, args.0, args.1));
    } else {
      assert s[0] == w[0] by { assert s[0] == s[..|w|][0]; }
      KeywordMismatch(s, DecimalKeywords[0], NumberPair, if k == 1 then 3 else 0);
      SkipKeyword(s, DecimalKeywords, NumberPair, 0);
      if k == 1 {
        TakeKeyword(s, DecimalKeywords, NumberPair, 1, (|w|, args.0, args.1));
      } else {
        KeywordMismatch(s, DecimalKeywords[1], NumberPair, 0);
        SkipKeyword(s, DecimalKeywords, NumberPair, 1);
        TakeKeyword(s, DecimalKeywords, NumberPair, 2, (|w|, args.0, args.1));
      }
    }
  }

  /** DECIMAL, DEC or NUMERIC `(p,q)`: precision p and scale q. */
  lemma DecimalPairForm(k: nat, dp: string, dq: string, nullable: bool, forBitData: bool)
    requires k < |DecimalKeywords| && dp != [] && AllDigits(dp) && dq != [] && AllDigits(dq)
    ensures var r := ParseRules(WithPair(DecimalKeywords[k].w, dp, dq), nullable, forBitData);
      && r.baseType == "DECIMAL" && r.category == NumericDecimal
      && r.precision == Some(NatOf(dp)) && r.scale == Some(NatOf(dq)) && !r.isForBitData
  {
    var w := DecimalKeywords[k].w;
    var s := WithPair(w, dp, dq);
    WithPairLayout(w, dp, dq);
    PairAt(s, |w|, dp, dq, |w| + 1, |w| + 1 + |dp|, |w| + 2 + |dp|, |w| + 2 + |dp| + |dq|);
    DecimalKeywordAt(s, k, (NatOf(dp), Some(NatOf(dq))));
    RuleDecimal(s, nullable, forBitData, KeywordMatch(k, |w|, NatOf(dp), Some(NatOf(dq))));
  }

  /** DECIMAL, DEC or NUMERIC `(p)`: precision p, and the scale defaults to 0. */
  lemma DecimalPrecisionForm(k: nat, dp: string, nullable: bool, forBitData: bool)
    requires k < |DecimalKeywords| && dp != [] && AllDigits(dp)
    ensures var r := ParseRules(WithCount(DecimalKeywords[k].w, dp), nullable, forBitData);
      && r.baseType == "DECIMAL" && r.category == NumericDecimal
      && r.precision == Some(NatOf(dp)) && r.scale == Some(0) && !r.isForBitData
  {
    var w := DecimalKeywords[k].w;
    var s := WithCount(w, dp);
    WithCountLayout(w, dp);
    SingleAt(s, |w|, dp, |w| + 1, |w| + 1 + |dp|);
    DecimalKeywordAt(s, k, (NatOf(dp), None));
    RuleDecimal(s, nullable, forBitData, KeywordMatch(k, |w|, NatOf(dp), None));
  }

  /** A name that is not a key of the simple-type table is looked up in vain. */
  lemma NotSimple(name: string)
    requires name !in SimpleNames
    ensures SimpleLookup(name, 0) == None
  {
    SimpleNamesAreKeys();
  }

  /**
    * A parsed decimal maps to Decimal(precision or 18, scale or 0): a precision of 0, like a
    * missing one, becomes 18.
    */
  lemma DecimalMapping(p: ParsedDb2Type)
    requires p.baseType == "DECIMAL" && p.category == NumericDecimal
    ensures MapToSparkType(p) == DecimalType(OrDefault(p.precision, 18), OrDefault(p.scale, 0))
  {
    NotSimple("DECIMAL");
  }

  // Character and graphic declarations

  /** A word of capital letters only, which is neither a simple type nor changed by upper-casing. */
  predicate PlainWord(w: string) {
    && ' ' !in w && (forall k :: 0 <= k < |w| ==> 'A' <= w[k] <= 'Z')
    && w !in SimpleNames
  }

  lemma CharWordsPlain(k: nat)
    requires k < 3
    ensures PlainWord(CharKeywords[k].w)
  {
    if k == 0 {
      PlainChar();
    } else if k == 1 {
      PlainCharacter();
    } else {
      PlainVarchar();
    }
  }

  lemma GraphicWordsPlain(k: nat)
    requires k < 2
    ensures PlainWord(GraphicKeywords[k].w)
  {
    if k == 0 {
      PlainGraphic();
    } else {
      PlainVargraphic();
    }
  }

  lemma PlainChar() ensures PlainWord("CHAR") {}
  lemma PlainCharacter() ensures PlainWord("CHARACTER") {}
  lemma PlainVarchar() ensures PlainWord("VARCHAR") {}
  lemma PlainGraphic() ensures PlainWord("GRAPHIC") {}
  lemma PlainVargraphic() ensures PlainWord("VARGRAPHIC") {}

  /** A keyword that begins the text is its upper-cased, underscored base name. */
  lemma BaseNameOf(s: string, w: string)
    requires LitAt(s, 0, w) && PlainWord(w)
    ensures BaseName(s, |w|) == w
  {
    assert s[..|w|] == w;
    UpperIdentity(w);
    NoCharInside(w, ' ');
  }

  lemma RuleGraphic(s: string, nullable: bool, forBitData: bool, m: KeywordMatch)
    requires MatchKeyword(s, DecimalKeywords, NumberPair, 0) == None
    requires MatchKeyword(s, DecfloatKeywords, OneNumber, 0) == None
    requires MatchKeyword(s, CharKeywords, OneNumber, 0) == None
    requires MatchKeyword(s, GraphicKeywords, OneNumber, 0) == Some(m)
    ensures ParseRules(s, nullable, forBitData)
      == ParsedDb2Type(BaseName(s, m.end), Graphic, None, None, Some(m.first), nullable, None, false)
  {
  }

  /** The k-th plain spelling of the character keyword, followed by `(n)`, is taken. */
  lemma CharKeywordAt(s: string, k: nat, n: nat, e: nat)
    requires k < 3 && LitAt(s, 0, CharKeywords[k].w) && CharAt(s, |CharKeywords[k].w|, '(')
    requires ParenCount(s, |CharKeywords[k].w|) == Some((n, e))
    ensures MatchKeyword(s, CharKeywords, OneNumber, 0) == Some(KeywordMatch(k, |CharKeywords[k].w|, n, None))
  {
    var w := CharKeywords[k].w;
    AlternativeAt(s, CharKeywords[k], OneNumber, (n, None));
    if k == 0 {
      TakeKeyword(s, CharKeywords, OneNumber, 0, (|w|, n, None));
    } else if k == 1 {
      assert LitAt(s, 0, "CHAR") by { assert s[..4] == s[..9][..4]; }
      assert s[4] == s[..9][4];
      KeywordWithoutArguments(s, CharKeywords[0], OneNumber);
      SkipKeyword(s, CharKeywords, OneNumber, 0);
      TakeKeyword(s, CharKeywords, OneNumber, 1, (|w|, n, None));
    } else {
      assert s[0] == s[..7][0];
      KeywordMismatch(s, CharKeywords[0], OneNumber, 0);
      SkipKeyword(s, CharKeywords, OneNumber, 0);
      KeywordMismatch(s, CharKeywords[1], OneNumber, 0);
      SkipKeyword(s, CharKeywords, OneNumber, 1);
      TakeKeyword(s, CharKeywords, OneNumber, 2, (|w|, n, None));
    }
  }

  /**
    * CHAR, CHARACTER or VARCHAR `(n)`: length n, of the binary category exactly under
    * FOR BIT DATA, and then mapped to binary rather than string.
    */
  lemma CharForm(k: nat, dn: string, nullable: bool, forBitData: bool)
    requires k < 3 && dn != [] && AllDigits(dn)
    ensures var r := ParseRules(WithCount(CharKeywords[k].w, dn), nullable, forBitData);
      && r.baseType == CharKeywords[k].w && r.length == Some(NatOf(dn))
      && r.category == (if forBitData then Binary else Character) && r.isForBitData == forBitData
  {
    var w := CharKeywords[k].w;
    var s := WithCount(w, dn);
    WithCountLayout(w, dn);
    assert s[0] == w[0] by { assert s[0] == s[..|w|][0]; }
    NotDecimal(s);
    SingleAt(s, |w|, dn, |w| + 1, |w| + 1 + |dn|);
    CharKeywordAt(s, k, NatOf(dn), |w| + 2 + |dn|);
    RuleChar(s, nullable, forBitData, KeywordMatch(k, |w|, NatOf(dn), None));
    CharWordsPlain(k);
    BaseNameOf(s, w);
  }

  lemma CharMapping(p: ParsedDb2Type, k: nat)
    requires k < 3 && p.baseType == CharKeywords[k].w
    requires p.category == (if p.isForBitData then Binary else Character)
    ensures MapToSparkType(p) == if p.isForBitData then BinaryType else StringType
  {
    CharWordsPlain(k);
    NotSimple(p.baseType);
  }

  /** Text of the graphic form is no decimal and no character type. */
  lemma NotChar(s: string)
    requires |s| > 3 && (s[0] == 'G' || (s[0] == 'V' && s[3] == 'G'))
    ensures MatchKeyword(s, CharKeywords, OneNumber, 0) == None
  {
    KeywordMismatch(s, CharKeywords[0], OneNumber, 0);
    SkipKeyword(s, CharKeywords, OneNumber, 0);
    KeywordMismatch(s, CharKeywords[1], OneNumber, 0);
    SkipKeyword(s, CharKeywords, OneNumber, 1);
    KeywordMismatch(s, CharKeywords[2], OneNumber, if s[0] == 'V' then 3 else 0);
    SkipKeyword(s, CharKeywords, OneNumber, 2);
    KeywordMismatch(s, CharKeywords[3], OneNumber, 0);
    SkipKeyword(s, CharKeywords, OneNumber, 3);
  }

  /** GRAPHIC or VARGRAPHIC `(n)`: the length is n as declared, not doubled. */
  lemma GraphicForm(k: nat, dn: string, nullable: bool, forBitData: bool)
    requires k < 2 && dn != [] && AllDigits(dn)
    ensures var r := ParseRules(WithCount(GraphicKeywords[k].w, dn), nullable, forBitData);
      && r.baseType == GraphicKeywords[k].w && r.category == Graphic && r.length == Some(NatOf(dn))
      && !r.isForBitData
  {
    var w := GraphicKeywords[k].w;
    var s := WithCount(w, dn);
    WithCountLayout(w, dn);
    assert s[0] == w[0] && s[3] == w[3] by { assert s[0] == s[..|w|][0] && s[3] == s[..|w|][3]; }
    NotDecimal(s);
    NotChar(s);
    SingleAt(s, |w|, dn, |w| + 1, |w| + 1 + |dn|);
    AlternativeAt(s, GraphicKeywords[k], OneNumber, (NatOf(dn), None));
    if k == 1 {
      KeywordMismatch(s, GraphicKeywords[0], OneNumber, 0);
      SkipKeyword(s, GraphicKeywords, OneNumber, 0);
    }
    TakeKeyword(s, GraphicKeywords, OneNumber, k, (|w|, NatOf(dn), None));
    RuleGraphic(s, nullable, forBitData, KeywordMatch(k, |w|, NatOf(dn), None));
    GraphicWordsPlain(k);
    BaseNameOf(s, w);
  }

  lemma GraphicMapping(p: ParsedDb2Type, k: nat)
    requires k < 2 && p.baseType == GraphicKeywords[k].w && p.category == Graphic && !p.isForBitData
    ensures MapToSparkType(p) == StringType
  {
    GraphicWordsPlain(k);
    NotSimple(p.baseType);
  }

  // Groups that cannot match, by the first characters of the text

  /** Text beginning with none of C, V, L is no character type. */
  lemma NotCharGroup(s: string, i: nat)
    requires i < 2 && i < |s| && s[i] != 'C' && s[i] != 'H' && s[i] != 'V' && s[i] != 'A' && s[0] != 'L'
    ensures MatchKeyword(s, CharKeywords, OneNumber, 0) == None
  {
    KeywordMismatch(s, CharKeywords[0], OneNumber, i);
    SkipKeyword(s, CharKeywords, OneNumber, 0);
    KeywordMismatch(s, CharKeywords[1], OneNumber, i);
    SkipKeyword(s, CharKeywords, OneNumber, 1);
    KeywordMismatch(s, CharKeywords[2], OneNumber, i);
    SkipKeyword(s, CharKeywords, OneNumber, 2);
    KeywordMismatch(s, CharKeywords[3], OneNumber, 0);
    SkipKeyword(s, CharKeywords, OneNumber, 3);
  }

  /** Text beginning with none of G, V, L is no graphic type. */
  lemma NotGraphicGroup(s: string)
    requires |s| > 0 && s[0] != 'G' && s[0] != 'V' && s[0] != 'L'
    ensures MatchKeyword(s, GraphicKeywords, OneNumber, 0) == None
  {
    KeywordMismatch(s, GraphicKeywords[0], OneNumber, 0);
    SkipKeyword(s, GraphicKeywords, OneNumber, 0);
    KeywordMismatch(s, GraphicKeywords[1], OneNumber, 0);
    SkipKeyword(s, GraphicKeywords, OneNumber, 1);
    KeywordMismatch(s, GraphicKeywords[2], OneNumber, 0);
    SkipKeyword(s, GraphicKeywords, OneNumber, 2);
  }

  /** Text whose i-th character rules out both BINARY and VARBINARY is no binary type. */
  lemma NotBinaryGroup(s: string, i: nat)
    requires i < 2 && i < |s| && s[i] != "BINARY"[i] && s[i] != "VARBINARY"[i]
    ensures MatchKeyword(s, BinaryKeywords, OneNumber, 0) == None
  {
    KeywordMismatch(s, BinaryKeywords[0], OneNumber, i);
    SkipKeyword(s, BinaryKeywords, OneNumber, 0);
    KeywordMismatch(s, BinaryKeywords[1], OneNumber, i);
    SkipKeyword(s, BinaryKeywords, OneNumber, 1);
  }

  // Large objects

  lemma RuleLob(s: string, nullable: bool, forBitData: bool, base: string, size: Option<nat>, unit: Option<char>)
    requires MatchKeyword(s, DecimalKeywords, NumberPair, 0) == None
    requires MatchKeyword(s, DecfloatKeywords, OneNumber, 0) == None
    requires MatchKeyword(s, CharKeywords, OneNumber, 0) == None
    requires MatchKeyword(s, GraphicKeywords, OneNumber, 0) == None
    requires MatchKeyword(s, BinaryKeywords, OneNumber, 0) == None
    requires MatchLob(s) == Some((base, size, unit))
    ensures ParseRules(s, nullable, forBitData) == ParsedDb2Type(base, if base == "BLOB" then Binary else Character,
      None, None, Some(size.GetOr(0) * Multiplier(unit)), nullable, None, false)
  {
  }

  /** The LOB keywords, in the order the pattern tries them. */
  const LobKeywords: seq<string> := ["BLOB", "CLOB", "DBCLOB"]

  /** Text beginning with a LOB keyword matches none of the groups tried before the LOB rule. */
  lemma NotBeforeLob(s: string, k: nat)
    requires k < |LobKeywords| && LitAt(s, 0, LobKeywords[k])
    ensures MatchKeyword(s, DecimalKeywords, NumberPair, 0) == None
    ensures MatchKeyword(s, DecfloatKeywords, OneNumber, 0) == None
    ensures MatchKeyword(s, CharKeywords, OneNumber, 0) == None
    ensures MatchKeyword(s, GraphicKeywords, OneNumber, 0) == None
    ensures MatchKeyword(s, BinaryKeywords, OneNumber, 0) == None
  {
    var b := LobKeywords[k];
    assert s[0] == b[0] && s[1] == b[1] by { assert s[0] == s[..|b|][0] && s[1] == s[..|b|][1]; }
    NotDecimal(s);
    NotCharGroup(s, if k == 1 then 1 else 0);
    NotGraphicGroup(s);
    NotBinaryGroup(s, if k == 0 then 1 else 0);
  }

  /** MatchLob tries BLOB, CLOB and DBCLOB in order; the text's own keyword is the one found. */
  lemma MatchLobAt(s: string, k: nat)
    requires k < |LobKeywords| && LitAt(s, 0, LobKeywords[k])
    ensures MatchLob(s) == Some((LobKeywords[k], LobSize(s, |LobKeywords[k]|).0, LobSize(s, |LobKeywords[k]|).1))
  {
    var b := LobKeywords[k];
    assert s[0] == b[0] by { assert s[0] == s[..|b|][0]; }
    if k > 0 {
      NotLitAt(s, "BLOB", 0);
    }
    if k > 1 {
      NotLitAt(s, "CLOB", 0);
    }
  }

  /** `b(n u)`: a LOB keyword with a size and its unit. */
  function WithSize(b: string, dn: string, u: char): string {
    b + "(" + dn + [u] + ")"
  }

  lemma WithSizeLayout(b: string, dn: string, u: char)
    ensures var s := WithSize(b, dn, u);
      && LitAt(s, 0, b) && CharAt(s, |b|, '(') && LitAt(s, |b| + 1, dn)
      && CharAt(s, |b| + 1 + |dn|, u) && CharAt(s, |b| + 2 + |dn|, ')')
  {
    var x0 := b + "(";
    var x1 := x0 + dn;
    var x2 := x1 + [u];
    LitAtStart(b, "(");
    LitAtExtends(x0, dn, [u], ")", 0, b);
    CharAtEnd(b, '(');
    CharAtExtend(x0, |b|, '(', dn);
    CharAtExtend(x1, |b|, '(', [u]);
    CharAtExtend(x2, |b|, '(', ")");
    LitAtEnd(x0, dn);
    LitAtExtends(x1, [u], ")", [], |x0|, dn);
    assert x1 + [u] + ")" + [] == x2 + ")";
    CharAtEnd(x1, u);
    CharAtExtend(x2, |x1|, u, ")");
    CharAtEnd(x2, ')');
  }

  /** `(n u)` at `a`: the size n and the unit u. */
  lemma LobSizeAt(s: string, a: nat, dn: string, u: char, p1: nat, p2: nat)
    requires dn != [] && AllDigits(dn) && IsSizeUnit(u) && p1 == a + 1 && p2 == p1 + |dn|
    requires CharAt(s, a, '(') && LitAt(s, p1, dn) && CharAt(s, p2, u) && CharAt(s, p2 + 1, ')')
    ensures LobSize(s, a) == (Some(NatOf(dn)), Some(u))
  {
    FirstNumberAt(s, a, dn, p1, p2);
    NoSpaceAt(s, p2 + 1);
    LobSizeOf(s, a, NatOf(dn), p2);
  }

  /** How `LobSize` reads once its pieces are known. */
  lemma LobSizeOf(s: string, a: nat, n: nat, e: nat)
    requires a < |s| && s[a] == '(' && SkipSpaces(s, a) == a
    requires Number(s, SkipSpaces(s, a + 1)) == Some((n, e)) && SkipSpaces(s, e) == e
    requires e + 1 < |s| && IsSizeUnit(s[e]) && s[e + 1] == ')' && SkipSpaces(s, e + 1) == e + 1
    ensures LobSize(s, a) == (Some(n), Some(s[e]))
  {
  }

  /**
    * BLOB, CLOB or DBCLOB `(n u)`: the length is n times 1024, 1024² or 1024³ for K, M or G;
    * a BLOB is of the binary category, the others of the character category.
    */
  lemma LobForm(k: nat, dn: string, u: char, nullable: bool, forBitData: bool)
    requires k < |LobKeywords| && dn != [] && AllDigits(dn) && IsSizeUnit(u)
    ensures var r := ParseRules(WithSize(LobKeywords[k], dn, u), nullable, forBitData);
      && r.baseType == LobKeywords[k] && r.length == Some(NatOf(dn) * Multiplier(Some(u)))
      && r.category == (if k == 0 then Binary else Character) && !r.isForBitData
  {
    var b := LobKeywords[k];
    var s := WithSize(b, dn, u);
    WithSizeLayout(b, dn, u);
    NotBeforeLob(s, k);
    LobSizeAt(s, |b|, dn, u, |b| + 1, |b| + 1 + |dn|);
    MatchLobAt(s, k);
    RuleLob(s, nullable, forBitData, b, Some(NatOf(dn)), Some(u));
  }

  /** A bare BLOB, CLOB or DBCLOB has length 0. */
  lemma LobBareForm(k: nat, nullable: bool, forBitData: bool)
    requires k < |LobKeywords|
    ensures var r := ParseRules(LobKeywords[k], nullable, forBitData);
      && r.baseType == LobKeywords[k] && r.length == Some(0) && r.category == (if k == 0 then Binary else Character)
  {
    var b := LobKeywords[k];
    assert LitAt(b, 0, b);
    NotBeforeLob(b, k);
    MatchLobAt(b, k);
    RuleLob(b, nullable, forBitData, b, None, None);
  }

  lemma LobMapping(p: ParsedDb2Type, k: nat)
    requires k < |LobKeywords| && p.baseType == LobKeywords[k]
    requires p.category == (if k == 0 then Binary else Character) && !p.isForBitData
    ensures MapToSparkType(p) == if k == 0 then BinaryType else StringType
  {
    LobNotSimple(k);
  }

  lemma LobNotSimple(k: nat)
    requires k < |LobKeywords|
    ensures SimpleLookup(LobKeywords[k], 0) == None
  {
    if k == 0 {
      NotSimple("BLOB");
    } else if k == 1 {
      NotSimple("CLOB");
    } else {
      NotSimple("DBCLOB");
    }
  }

  // Timestamps

  lemma RuleTimestamp(s: string, nullable: bool, forBitData: bool, precision: Option<nat>, tz: bool)
    requires MatchKeyword(s, DecimalKeywords, NumberPair, 0) == None
    requires MatchKeyword(s, DecfloatKeywords, OneNumber, 0) == None
    requires MatchKeyword(s, CharKeywords, OneNumber, 0) == None
    requires MatchKeyword(s, GraphicKeywords, OneNumber, 0) == None
    requires MatchKeyword(s, BinaryKeywords, OneNumber, 0) == None
    requires MatchLob(s) == None && MatchTimestamp(s) == Some((precision, tz))
    ensures ParseRules(s, nullable, forBitData) == ParsedDb2Type(if tz then "TIMESTAMP_WITH_TZ" else "TIMESTAMP",
      DateTime, Some(precision.GetOr(6)), None, None, nullable, None, false)
  {
  }

  /** Text beginning with T matches none of the rules tried before the timestamp rule. */
  lemma NotBeforeTimestamp(s: string)
    requires |s| > 1 && s[0] == 'T'
    ensures MatchKeyword(s, DecimalKeywords, NumberPair, 0) == None
    ensures MatchKeyword(s, DecfloatKeywords, OneNumber, 0) == None
    ensures MatchKeyword(s, CharKeywords, OneNumber, 0) == None
    ensures MatchKeyword(s, GraphicKeywords, OneNumber, 0) == None
    ensures MatchKeyword(s, BinaryKeywords, OneNumber, 0) == None
    ensures MatchLob(s) == None
  {
    NotDecimal(s);
    NotCharGroup(s, 0);
    NotGraphicGroup(s);
    NotBinaryGroup(s, 0);
    NotLitAt(s, "BLOB", 0);
    NotLitAt(s, "CLOB", 0);
    NotLitAt(s, "DBCLOB", 0);
  }

  /** How the timestamp rule reads the text that follows the keyword. */
  lemma TimestampOf(s: string, precision: Option<nat>, b: nat)
    requires LitAt(s, 0, "TIMESTAMP") && 9 <= b <= |s|
    requires match ParenCount(s, 9) case Some((n, e)) => precision == Some(n) && b == e case None => precision == None && b == 9
    ensures MatchTimestamp(s) == Some((precision, WithTimeZone(s, SkipSpaces(s, b))))
  {
  }

  /** A bare TIMESTAMP has the default precision 6. */
  lemma TimestampBareForm(nullable: bool, forBitData: bool)
    ensures var r := ParseRules("TIMESTAMP", nullable, forBitData);
      r.baseType == "TIMESTAMP" && r.category == DateTime && r.precision == Some(6)
  {
    var s := "TIMESTAMP";
    assert LitAt(s, 0, "TIMESTAMP");
    NotBeforeTimestamp(s);
    NoSpaceAt(s, 9);
    TimestampOf(s, None, 9);
    RuleTimestamp(s, nullable, forBitData, None, false);
  }

  /** TIMESTAMP `(p)`: precision p, and no time zone. */
  lemma TimestampPrecisionForm(dp: string, nullable: bool, forBitData: bool)
    requires dp != [] && AllDigits(dp)
    ensures var r := ParseRules(WithCount("TIMESTAMP", dp), nullable, forBitData);
      r.baseType == "TIMESTAMP" && r.category == DateTime && r.precision == Some(NatOf(dp))
  {
    var s := WithCount("TIMESTAMP", dp);
    WithCountLayout("TIMESTAMP", dp);
    assert s[0] == 'T' by { assert s[0] == s[..9][0]; }
    NotBeforeTimestamp(s);
    SingleAt(s, 9, dp, 10, 10 + |dp|);
    NoSpaceAt(s, |s|);
    TimestampOf(s, Some(NatOf(dp)), |s|);
    RuleTimestamp(s, nullable, forBitData, Some(NatOf(dp)), false);
  }

  /** `TIMESTAMP WITH TIME ZONE`: the time-zone kind, with the default precision 6. */
  lemma TimestampZoneForm(nullable: bool, forBitData: bool)
    ensures var r := ParseRules("TIMESTAMP WITH TIME ZONE", nullable, forBitData);
      r.baseType == "TIMESTAMP_WITH_TZ" && r.category == DateTime && r.precision == Some(6)
  {
    var s := "TIMESTAMP WITH TIME ZONE";
    NotBeforeTimestamp(s);
    ZoneMatch(s);
    RuleTimestamp(s, nullable, forBitData, None, true);
  }

  lemma ZoneMatch(s: string)
    requires s == "TIMESTAMP WITH TIME ZONE"
    ensures MatchTimestamp(s) == Some((None, true))
  {
    ZoneFacts(s);
    NoPrecision(s, 10);
    TimestampOf(s, None, 9);
    ZoneClause(s);
  }

  lemma ZoneFacts(s: string)
    requires s == "TIMESTAMP WITH TIME ZONE"
    ensures LitAt(s, 0, "TIMESTAMP") && SkipSpaces(s, 9) == 10 && s[10] == 'W'
  {
    assert s[..9] == "TIMESTAMP";
    SpanExact(s, 9, 10, Space);
  }

  /** No `(` after the blanks at 9: no precision. */
  lemma NoPrecision(s: string, a: nat)
    requires 9 <= |s| && SkipSpaces(s, 9) == a && !CharAt(s, a, '(')
    ensures ParenCount(s, 9) == None
  {
  }

  lemma ZoneClause(s: string)
    requires s == "TIMESTAMP WITH TIME ZONE"
    ensures WithTimeZone(s, 10)
  {
    assert LitAt(s, 10, "WITH");
    assert Span(s, 14, Space) == 15 by { SpanExact(s, 14, 15, Space); }
    assert LitAt(s, 15, "TIME");
    assert Span(s, 19, Space) == 20 by { SpanExact(s, 19, 20, Space); }
    assert LitAt(s, 20, "ZONE");
  }

  lemma TimestampMapping(p: ParsedDb2Type)
    requires p.baseType in {"TIMESTAMP", "TIMESTAMP_WITH_TZ"} && p.category == DateTime
    ensures MapToSparkType(p) == TimestampType
  {
    if p.baseType == "TIMESTAMP" {
      NotSimple("TIMESTAMP");
    } else {
      NotSimple("TIMESTAMP_WITH_TZ");
    }
  }

  // Keyword prefixes and the default

  /** None of the rules that take arguments matches the text. */
  predicate NoParameterisedRule(s: string) {
    && MatchKeyword(s, DecimalKeywords, NumberPair, 0).None?
    && MatchKeyword(s, DecfloatKeywords, OneNumber, 0).None?
    && MatchKeyword(s, CharKeywords, OneNumber, 0).None?
    && MatchKeyword(s, GraphicKeywords, OneNumber, 0).None?
    && MatchKeyword(s, BinaryKeywords, OneNumber, 0).None?
    && MatchLob(s).None? && MatchTimestamp(s).None?
  }

  lemma SimpleNamesDistinct()
    ensures forall i, j :: 0 <= i < j < |SimpleNames| ==> SimpleNames[i] != SimpleNames[j]
  {
  }

  /** The dictionary lookup of a key of `SIMPLE_TYPES` gives that key's type. */
  lemma {:induction false} SimpleLookupAt(from: nat, k: nat)
    requires from <= k < |SimpleTypes|
    ensures SimpleLookup(SimpleTypes[k].0, from) == Some(SimpleTypes[k].1)
    decreases k - from
  {
    if from < k {
      SimpleNamesAreKeys();
      SimpleNamesDistinct();
      assert SimpleTypes[from].0 != SimpleTypes[k].0;
      SimpleLookupAt(from + 1, k);
    }
  }

  /**
    * When no rule that takes arguments matches, the first simple type, in table order, that
    * begins the text decides, and the mapping gives that entry's type.
    */
  lemma SimpleForm(s: string, nullable: bool, forBitData: bool, k: nat)
    requires NoParameterisedRule(s) && FirstPrefix(s, 0) == Some(k)
    ensures var r := ParseRules(s, nullable, forBitData);
      && r.baseType == SimpleTypes[k].0 && r.category == CategoryOf(SimpleTypes[k].0)
      && MapToSparkType(r) == SimpleTypes[k].1
  {
    SimpleLookupAt(0, k);
  }

  /** Text no rule recognises is UNKNOWN, of the character category, and maps to a string. */
  lemma UnknownForm(s: string, nullable: bool, forBitData: bool)
    requires NoParameterisedRule(s) && FirstPrefix(s, 0) == None
    ensures var r := ParseRules(s, nullable, forBitData);
      && r.baseType == "UNKNOWN" && r.category == Character && !r.isForBitData
      && MapToSparkType(r) == StringType
  {
    var r := ParseRules(s, nullable, forBitData);
    assert r == ParsedDb2Type("UNKNOWN", Character, None, None, None, nullable, None, false);
    UnknownMapping(r);
  }

  lemma UnknownMapping(p: ParsedDb2Type)
    requires p.baseType == "UNKNOWN" && p.category == Character && !p.isForBitData
    ensures MapToSparkType(p) == StringType
  {
    NotSimple("UNKNOWN");
  }

  /**
    * The entry DOUBLE PRECISION is never the one found: DOUBLE comes first in the table and
    * is a prefix of it, so text beginning with DOUBLE PRECISION is read as DOUBLE.
    */
  lemma DoublePrecisionShadowed(s: string)
    ensures FirstPrefix(s, 0) != Some(7)
    ensures StartsWith(s, "DOUBLE PRECISION") ==> FirstPrefix(s, 0) == Some(6)
  {
    if StartsWith(s, "DOUBLE PRECISION") {
      assert s[..6] == s[..16][..6];
      assert StartsWith(s, "DOUBLE");
      assert s[0] == 'D' by { assert s[0] == s[..6][0]; }
      FirstPrefixFrom(s, 6);
      NotLitAt(s, "SMALLINT", 0);
      NotLitAt(s, "INTEGER", 0);
      NotLitAt(s, "INT", 0);
      NotLitAt(s, "BIGINT", 0);
      NotLitAt(s, "REAL", 0);
      NotLitAt(s, "FLOAT", 0);
    }
  }

  /** When the entries before `k` do not begin the text and entry k does, FirstPrefix finds k. */
  lemma {:induction false} FirstPrefixFrom(s: string, k: nat)
    requires k < |SimpleTypes| && StartsWith(s, SimpleTypes[k].0)
    requires forall i :: 0 <= i < k ==> !StartsWith(s, SimpleTypes[i].0)
    ensures FirstPrefix(s, 0) == Some(k)
  {
    var r := FirstPrefix(s, 0);
    assert r.Some?;
    assert !(r.value < k);
    assert !(r.value > k);
  }

  // get_codec

  /** A CCSID of the converter's table gives its codec; 0 or None stands for the default CCSID. */
  lemma GetCodecKnown(defaultCcsid: int, ccsid: Option<int>, k: nat)
    requires k < |Db2CcsidCodecs| && OrDefault(ccsid, defaultCcsid) == Db2CcsidCodecs[k].0
    ensures GetCodec(defaultCcsid, ccsid) == Db2CcsidCodecs[k].1
  {
    Encoding.LookupKeyAt(Db2CcsidCodecs, k);
  }
}
