/**
  * The COBOL copybook parser: source lines are cleaned (sequence area, comment and
  * continuation indicators, inline comments), each statement is recognised as a field
  * (level, name, PIC, OCCURS, REDEFINES, usage), and the fields are laid out in a record
  * with running offsets, a level-number parent stack and REDEFINES overlays.
  */
module CopybookParser {
  import opened Wrappers
  import opened Strings
  import opened SparkTypes
  import VsamTypes

  /**
    * `CopybookField`. `picClause` is the picture as rebuilt from the line; `length` and
    * `offset` are filled in by the layout; `parent` and `children` hold field names.
    */
  datatype CopybookField = CopybookField(
    name: string,
    level: nat,
    picClause: Option<string>,
    length: nat,
    offset: nat,
    isFiller: bool,
    isGroup: bool,
    occurs: nat,
    redefines: Option<string>,
    parent: Option<string>,
    children: seq<string>)
  {
    /** `is_elementary`: it has a picture and is not a group. */
    predicate IsElementary() { picClause.Some? && !isGroup }

    /** `total_length`: the bytes of all its occurrences. */
    function TotalLength(): nat { length * occurs }
  }

  // ---------------------------------------------------------------------------
  // Recognisers for the clause patterns (all case-insensitive)
  // ---------------------------------------------------------------------------

  /** `LEVEL_PATTERN.match`: `^\s*(\d{2})\s+([\w-]+)(.*)$`, giving level, name and the rest. */
  function MatchLevel(s: string): (r: Option<(nat, string, string)>)
    ensures r.Some? ==> r.value.0 < 100 && r.value.1 != []
  {
    var i := SkipSpaces(s, 0);
    if i + 2 < |s| && IsDigit(s[i]) && IsDigit(s[i + 1]) && IsSpace(s[i + 2]) then
      var j := SkipSpaces(s, i + 2);
      var k := Span(s, j, Name);
      if k > j then
        Some(((s[i] as int - '0' as int) * 10 + (s[i + 1] as int - '0' as int), s[j..k], s[k..]))
      else None
    else None
  }

  /** The clause patterns that are searched for in the rest of a line. */
  datatype Pattern = RedefinesClause | OccursClause | PictureClause | CompClause

  /** What a pattern captures. */
  datatype Capture =
    | Text(text: string)
    | Count(n: nat)
    | Picture(sign: string, integerPart: string, decimalPart: string)

  /** `(?:\(\d+\))?` at `e`: where the optional parenthesised count ends. */
  function ParenCountEnd(s: string, e: nat): (f: nat)
    requires e <= |s|
    ensures e <= f <= |s|
  {
    if CharAt(s, e, '(') then
      match Number(s, e + 1)
      case Some((_, g)) => if CharAt(s, g, ')') then g + 1 else e
      case None => e
    else e
  }

  /**
    * `PIC_PATTERN` at `p`: `PIC(?:TURE)?\s+(S)?([XA9]+(?:\(\d+\))?)(?:V([9]+(?:\(\d+\))?))?`.
    * The captured sign is empty or one S, and the integer part is non-empty.
    */
  function MatchPicture(s: string, p: nat): (r: Option<Capture>)
    requires p <= |s|
    ensures r.Some? ==> r.value.Picture? && |r.value.sign| <= 1 && r.value.integerPart != []
  {
    if !LitAtCI(s, p, "PIC") then None
    else PictureFrom(s, if LitAtCI(s, p + 3, "TURE") && p + 7 < |s| && IsSpace(s[p + 7]) then p + 7 else p + 3)
  }

  /** The rest of `PIC_PATTERN` once its keyword, ending at `q`, has been read. */
  function PictureFrom(s: string, q: nat): (r: Option<Capture>)
    requires q <= |s|
    ensures r.Some? ==> r.value.Picture? && |r.value.sign| <= 1 && r.value.integerPart != []
  {
    if !(q < |s| && IsSpace(s[q])) then None
    else
      var j := SkipSpaces(s, q);
      var b := SignEnd(s, j);
      if !(b < |s| && InClass(s[b], PicCharAnyCase)) then None
      else
        var e := ParenCountEnd(s, Span(s, b, PicCharAnyCase));
        var d := FractionEnd(s, e);
        Some(Picture(s[j..b], s[b..e], if d > e then s[e + 1..d] else []))
  }

  /** `(S)?` at `j`, taken only when a picture character follows: where the sign group ends. */
  function SignEnd(s: string, j: nat): (b: nat)
    requires j <= |s|
    ensures j <= b <= |s|
  {
    if j + 1 < |s| && UpperChar(s[j]) == 'S' && InClass(s[j + 1], PicCharAnyCase) then j + 1 else j
  }

  /** `(?:V([9]+(?:\(\d+\))?))?` at `e`: where the decimal group ends, `e` when there is none. */
  function FractionEnd(s: string, e: nat): (d: nat)
    requires e <= |s|
    ensures e <= d <= |s| && (d > e ==> e + 1 < d)
  {
    if e + 1 < |s| && UpperChar(s[e]) == 'V' && s[e + 1] == '9'
    then ParenCountEnd(s, Span(s, e + 1, Only('9'))) else e
  }

  /** `COMP_PATTERN` at `p`: `COMP(?:-[1-5])?`. */
  function MatchComp(s: string, p: nat): (r: Option<Capture>)
    requires p <= |s|
  {
    if !LitAtCI(s, p, "COMP") then None
    else if p + 5 < |s| && s[p + 4] == '-' && '1' <= s[p + 5] <= '5' then Some(Text(s[p..p + 6]))
    else Some(Text(s[p..p + 4]))
  }

  /** `OCCURS_PATTERN` at `p`: `OCCURS\s+(\d+)`. */
  function MatchOccurs(s: string, p: nat): (r: Option<Capture>)
    requires p <= |s|
    ensures r.Some? ==> r.value.Count?
  {
    if !LitAtCI(s, p, "OCCURS") || !(p + 6 < |s| && IsSpace(s[p + 6])) then None
    else
      match Number(s, SkipSpaces(s, p + 6))
      case Some((n, _)) => Some(Count(n))
      case None => None
  }

  /** `REDEFINES_PATTERN` at `p`: `REDEFINES\s+([\w-]+)`; the captured name is non-empty. */
  function MatchRedefines(s: string, p: nat): (r: Option<Capture>)
    requires p <= |s|
    ensures r.Some? ==> r.value.Text? && r.value.text != []
  {
    if !LitAtCI(s, p, "REDEFINES") || !(p + 9 < |s| && IsSpace(s[p + 9])) then None
    else
      var j := SkipSpaces(s, p + 9);
      var k := Span(s, j, Name);
      if k > j then Some(Text(s[j..k])) else None
  }

  function MatchAt(s: string, p: nat, pattern: Pattern): Option<Capture>
    requires p <= |s|
  {
    match pattern
    case RedefinesClause => MatchRedefines(s, p)
    case OccursClause => MatchOccurs(s, p)
    case PictureClause => MatchPicture(s, p)
    case CompClause => MatchComp(s, p)
  }

  /** `pattern.search(s)` from `from`: the capture of the match at the first position that matches. */
  function Search(s: string, pattern: Pattern, from: nat): (r: Option<Capture>)
    requires from <= |s|
    ensures r.Some? && pattern == RedefinesClause ==> r.value.Text? && r.value.text != []
    ensures r.Some? && pattern == PictureClause ==> r.value.Picture?
    decreases |s| - from
  {
    match MatchAt(s, from, pattern)
    case Some(c) => Some(c)
    case None => if from == |s| then None else Search(s, pattern, from + 1)
  }

  /** The match of `pattern` at each position of `s`; no position past the end matches. */
  function Matches(s: string, pattern: Pattern): nat -> Option<Capture> {
    (p: nat) => if p <= |s| then MatchAt(s, p, pattern) else None
  }

  /** `Search` is the scan of every position of the subject from `from` to its end. */
  lemma {:induction false} SearchIsScan(s: string, pattern: Pattern, from: nat)
    requires from <= |s|
    ensures Search(s, pattern, from) == FirstMatch(Matches(s, pattern), from, |s|)
    decreases |s| - from
  {
    if MatchAt(s, from, pattern).None? && from < |s| {
      SearchIsScan(s, pattern, from + 1);
    }
  }

  /**
    * What `search` finds is the match at the first matching position, and it finds
    * nothing exactly when no position from `from` on matches.
    */
  lemma SearchFirst(s: string, pattern: Pattern, from: nat)
    requires from <= |s|
    ensures Search(s, pattern, from).None? <==> forall p :: from <= p <= |s| ==> MatchAt(s, p, pattern).None?
    ensures Search(s, pattern, from).Some? ==>
      exists p :: from <= p <= |s| && MatchAt(s, p, pattern) == Search(s, pattern, from)
        && forall q :: from <= q < p ==> MatchAt(s, q, pattern).None?
  {
    var m := Matches(s, pattern);
    SearchIsScan(s, pattern, from);
    ScanNone(m, from, |s|);
    assert forall p :: from <= p <= |s| ==> m(p) == MatchAt(s, p, pattern);
    if Search(s, pattern, from).Some? {
      var p := ScanSome(m, from, |s|);
      assert forall q :: from <= q < p ==> MatchAt(s, q, pattern).None?;
    }
  }

  // ---------------------------------------------------------------------------
  // _parse_line
  // ---------------------------------------------------------------------------

  /** The upper-cased text of a `Text` capture, if the search found one. */
  function FoundText(c: Option<Capture>): Option<string> {
    match c
    case Some(Text(t)) => Some(Upper(t))
    case _ => None
  }

  /** The picture clause rebuilt from the PIC match and the usage found anywhere in the rest. */
  function RebuildPicture(rest: string): (pic: Option<string>)
    ensures pic.Some? ==> StartsWith(pic.value, "PIC ")
  {
    match Search(rest, PictureClause, 0)
    case Some(Picture(sign, integerPart, decimalPart)) =>
      var base := "PIC " + sign + integerPart + (if decimalPart != [] then "V" + decimalPart else []);
      var usage := match FoundText(Search(rest, CompClause, 0)) case Some(u) => " " + u case None => [];
      assert (base + usage)[..4] == "PIC ";
      Some(base + usage)
    case _ => None
  }

  /** No lower-case letter occurs in `s`. */
  predicate NoLowerCase(s: string) { forall k :: 0 <= k < |s| ==> !('a' <= s[k] <= 'z') }

  /**
    * `_parse_line`: the field a cleaned line declares, or None when the line (trailing
    * periods removed) does not begin with a two-digit level, blanks and a name, or when the
    * level is 66 or 88. The name and the REDEFINES target are upper-cased, FILLER is
    * recognised by name, OCCURS defaults to 1, and a field is a group exactly when it has
    * no picture and is not FILLER.
    */
  function ParseLine(line: string): (r: Option<CopybookField>)
    requires '\n' !in line
    ensures var m := MatchLevel(RStripChar(line, '.'));
      r.None? <==> m.None? || m.value.0 == 66 || m.value.0 == 88
    ensures r.Some? ==> var m := MatchLevel(RStripChar(line, '.')).value;
      && r.value.level == m.0 && r.value.name == Upper(m.1)
      && r.value.picClause == RebuildPicture(m.2)
      && (r.value.occurs == match Search(m.2, OccursClause, 0) case Some(Count(n)) => n case _ => 1)
    ensures r.Some? ==> var f := r.value;
      && f.name != [] && NoLowerCase(f.name) && f.level < 100
      && (f.isFiller <==> f.name == "FILLER")
      && (f.isGroup <==> f.picClause.None? && !f.isFiller)
      && (f.IsElementary() <==> f.picClause.Some?)
      && (f.redefines.Some? ==> f.redefines.value != [] && NoLowerCase(f.redefines.value))
      && f.length == 0 && f.offset == 0 && f.parent.None? && f.children == []
  {
    match MatchLevel(RStripChar(line, '.'))
    case None => None
    case Some((level, rawName, rest)) => FieldOf(level, rawName, rest)
  }

  /** The field `_parse_line` builds from the level, the name and the rest of a line. */
  function FieldOf(level: nat, rawName: string, rest: string): Option<CopybookField> {
    if level == 66 || level == 88 then None
    else
      var name := Upper(rawName);
      var isFiller := name == "FILLER";
      var pic := RebuildPicture(rest);
      var occurs := match Search(rest, OccursClause, 0) case Some(Count(n)) => n case _ => 1;
      Some(CopybookField(name, level, pic, 0, 0, isFiller, pic.None? && !isFiller, occurs,
                         FoundText(Search(rest, RedefinesClause, 0)), None, []))
  }

  // ---------------------------------------------------------------------------
  // A field line, read back from its written form
  // ---------------------------------------------------------------------------

  /** What follows `V` in a picture: a run of nines and an optional count, as in `V99` or `V9(2)`. */
  datatype Fraction = Fraction(nines: nat, count: Option<nat>)

  /**
    * A picture as written after PIC: an optional S, a run of X, A and 9 with an optional
    * count, and an optional fraction.
    */
  datatype PictureSpec = PictureSpec(signed: bool, run: string, count: Option<nat>, fraction: Option<Fraction>)

  predicate IsPictureSpec(p: PictureSpec) {
    && p.run != [] && (forall k :: 0 <= k < |p.run| ==> IsPicChar(p.run[k]))
    && (p.fraction.Some? ==> p.fraction.value.nines >= 1)
  }

  /** `(n)`, or nothing. */
  function CountText(count: Option<nat>): string {
    if count.Some? then "(" + DecimalText(count.value) + ")" else ""
  }

  /** The nines and the count of a fraction: what the decimal group of the pattern captures. */
  function FractionDigits(f: Fraction): string { VsamTypes.Repeat('9', f.nines) + CountText(f.count) }

  function FractionText(f: Option<Fraction>): string { if f.Some? then "V" + FractionDigits(f.value) else "" }

  function PictureText(p: PictureSpec): string {
    VsamTypes.SignText(p.signed) + p.run + CountText(p.count) + FractionText(p.fraction)
  }

  /** The groups the picture pattern captures from the picture `p`. */
  function PictureCapture(p: PictureSpec): Capture {
    Picture(VsamTypes.SignText(p.signed), p.run + CountText(p.count),
            if p.fraction.Some? then FractionDigits(p.fraction.value) else [])
  }

  /** ` KW value`: a clause introduced by its keyword. */
  function Clause(kw: string, value: string): string { " " + kw + " " + value }

  function PicPart(pic: Option<PictureSpec>): string { if pic.Some? then Clause("PIC", PictureText(pic.value)) else "" }

  function CompPart(comp: Option<string>): string { if comp.Some? then " " + comp.value else "" }

  function OccursPart(occurs: Option<nat>): string { if occurs.Some? then Clause("OCCURS", DecimalText(occurs.value)) else "" }

  function RedefinesPart(target: Option<string>): string { if target.Some? then Clause("REDEFINES", target.value) else "" }

  /** The clauses after the name of a field, each optional: PIC, usage, OCCURS, REDEFINES. */
  function ClausesText(pic: Option<PictureSpec>, comp: Option<string>, occurs: Option<nat>, target: Option<string>): string {
    PicPart(pic) + CompPart(comp) + OccursPart(occurs) + RedefinesPart(target)
  }

  /** A field line: a two-digit level, a blank, the name, the clauses and the closing period. */
  function LineText(hi: char, lo: char, name: string, pic: Option<PictureSpec>, comp: Option<string>,
                    occurs: Option<nat>, target: Option<string>): string
  {
    [hi, lo] + " " + name + ClausesText(pic, comp, occurs, target) + "."
  }

  /** `COMP` or `COMP-1` to `COMP-5`. */
  predicate IsCompWord(w: string) { w == "COMP" || (|w| == 6 && w[..5] == "COMP-" && '1' <= w[5] <= '5') }

  /** A `[\w-]+` name. */
  predicate IsNameText(w: string) { w != [] && forall k :: 0 <= k < |w| ==> IsNameChar(w[k]) }

  /** Upper-case letters: a keyword of the clause patterns. */
  predicate IsKeyword(w: string) { w != [] && forall k :: 0 <= k < |w| ==> 'A' <= w[k] <= 'Z' }

  /** `w` does not occur in `t`, in any case. */
  predicate Lacks(t: string, w: string) { forall k: nat :: k <= |t| ==> !LitAtCI(t, k, w) }

  /**
    * Clauses the read-back covers: a well-formed picture, a usage of COMP or COMP-1 to
    * COMP-5 and a REDEFINES target that is a name. Without a usage clause the target must
    * not contain COMP, since the usage pattern is searched for anywhere in the line.
    */
  predicate IsClauses(pic: Option<PictureSpec>, comp: Option<string>, occurs: Option<nat>, target: Option<string>) {
    && (pic.Some? ==> IsPictureSpec(pic.value))
    && (comp.Some? ==> IsCompWord(comp.value))
    && (target.Some? ==> IsNameText(target.value))
    && (comp.None? && target.Some? ==> Lacks(target.value, "COMP"))
  }

  /** The keyword each clause pattern begins with. */
  function Keyword(pattern: Pattern): (w: string)
    ensures IsKeyword(w)
  {
    match pattern
    case RedefinesClause => "REDEFINES"
    case OccursClause => "OCCURS"
    case PictureClause => "PIC"
    case CompClause => "COMP"
  }

  /** A pattern matches only where its keyword stands. */
  lemma NoKeywordNoMatch(s: string, p: nat, pattern: Pattern)
    requires p <= |s|
    ensures !LitAtCI(s, p, Keyword(pattern)) ==> MatchAt(s, p, pattern).None?
  {
  }

  /** No occurrence of `w`, in any case, starts in `s` from `x` up to `y`. */
  predicate KeywordFree(s: string, x: nat, y: nat, w: string) {
    forall q: nat :: x <= q < y ==> !LitAtCI(s, q, w)
  }

  /** A blank or the end of the text at `y`. */
  predicate Boundary(s: string, y: nat) { y == |s| || (y < |s| && IsSpace(s[y])) }

  /** Where `t` is written, `w` occurs in `s` exactly when it occurs in `t`. */
  lemma LitAtCIInside(s: string, x: nat, t: string, q: nat, w: string)
    requires WrittenAt(s, x, t) && x <= q && q + |w| <= x + |t|
    ensures LitAtCI(s, q, w) <==> LitAtCI(t, q - x, w)
  {
    if LitAtCI(s, q, w) {
      forall j | q - x <= j < q - x + |w| ensures UpperChar(t[j]) == w[j - (q - x)] {
        assert s[j + x] == t[j];
      }
    }
    if LitAtCI(t, q - x, w) {
      forall j | q <= j < q + |w| ensures UpperChar(s[j]) == w[j - q] {
        assert s[j] == t[j - x];
      }
    }
  }

  /** A word followed by a blank or the end: a keyword the word lacks starts nowhere inside it. */
  lemma TokenFree(s: string, x: nat, t: string, w: string)
    requires WrittenAt(s, x, t) && IsKeyword(w) && Lacks(t, w) && Boundary(s, x + |t|)
    ensures KeywordFree(s, x, x + |t|, w)
  {
    forall q: nat | x <= q < x + |t| ensures !LitAtCI(s, q, w) {
      if q + |w| <= x + |t| {
        LitAtCIInside(s, x, t, q, w);
      } else {
        var e := x + |t|;
        assert e < |s| ==> !IsLetter(UpperChar(s[e]));
        assert 'A' <= w[e - q] <= 'Z';
      }
    }
  }

  /** A keyword does not start at a blank. */
  lemma BlankFree(s: string, x: nat, w: string)
    requires x < |s| && IsSpace(s[x]) && IsKeyword(w)
    ensures KeywordFree(s, x, x + 1, w)
  {
    assert !IsLetter(UpperChar(s[x]));
    assert 'A' <= w[0] <= 'Z';
  }

  /** Text without the first letter of `w` lacks `w`. */
  lemma LacksFirst(t: string, w: string)
    requires IsKeyword(w) && forall k :: 0 <= k < |t| ==> UpperChar(t[k]) != w[0]
    ensures Lacks(t, w)
  {
    forall k: nat | k <= |t| ensures !LitAtCI(t, k, w) {
      if k + |w| <= |t| {
        assert UpperChar(t[k]) != w[0];
      }
    }
  }

  /** Upper-case text in which the first two letters of `w` never stand side by side lacks `w`. */
  lemma LacksPair(t: string, w: string)
    requires IsKeyword(w) && |w| >= 2 && NoLowerCase(t) && NoPair(t, w[0], w[1])
    ensures Lacks(t, w)
  {
    forall k: nat | k <= |t| ensures !LitAtCI(t, k, w) {
      if k + |w| <= |t| {
        assert !PairAt(t, k, w[0], w[1]);
        assert UpperChar(t[k]) == t[k] && UpperChar(t[k + 1]) == t[k + 1];
      }
    }
  }

  /** A clause ` KW value` followed by a blank or the end: `w` starts inside it only where one of its words has it. */
  lemma ClauseFree(s: string, x: nat, kw: string, v: string, w: string)
    requires WrittenAt(s, x, Clause(kw, v)) && IsKeyword(w) && Lacks(kw, w) && Lacks(v, w)
    requires Boundary(s, x + |Clause(kw, v)|)
    ensures KeywordFree(s, x, x + |Clause(kw, v)|, w)
  {
    var a := x + 1 + |kw|;
    WrittenSplit(s, x, " " + kw + " ", v, a + 1);
    WrittenSplit(s, x, " " + kw, " ", a);
    WrittenSplit(s, x, " ", kw, x + 1);
    BlankFree(s, x, w);
    TokenFree(s, x + 1, kw, w);
    BlankFree(s, a, w);
    TokenFree(s, a + 1, v, w);
  }

  // The characters of the written clauses

  /** The characters a written picture is made of. */
  predicate IsPictureChar(c: char) { c == 'S' || c == 'V' || c == '(' || c == ')' || IsPicChar(c) || IsDigit(c) }

  lemma CountChars(count: Option<nat>)
    ensures forall k :: 0 <= k < |CountText(count)| ==> IsPictureChar(CountText(count)[k])
  {
    if count.Some? {
      var ds := DecimalText(count.value);
      assert forall k :: 0 <= k < |ds| ==> IsDigit(ds[k]);
    }
  }

  lemma PictureChars(p: PictureSpec)
    requires IsPictureSpec(p)
    ensures forall k :: 0 <= k < |PictureText(p)| ==> IsPictureChar(PictureText(p)[k])
  {
    CountChars(p.count);
    if p.fraction.Some? {
      CountChars(p.fraction.value.count);
      var f := FractionDigits(p.fraction.value);
      assert forall k :: 0 <= k < |f| ==> IsPictureChar(f[k]);
    }
  }

  /** A picture lacks every keyword: none of their first letters is a picture character. */
  lemma PictureLacks(p: PictureSpec, w: string)
    requires IsPictureSpec(p) && IsKeyword(w) && !IsPictureChar(w[0])
    ensures Lacks(PictureText(p), w)
  {
    PictureChars(p);
    LacksFirst(PictureText(p), w);
  }

  lemma DigitsLack(n: nat, w: string)
    requires IsKeyword(w)
    ensures Lacks(DecimalText(n), w)
  {
    LacksFirst(DecimalText(n), w);
  }

  /** Which keyword starts in which clause. */
  lemma KeywordsLack()
    ensures Lacks("PIC", "COMP") && Lacks("PIC", "OCCURS") && Lacks("PIC", "REDEFINES")
    ensures Lacks("OCCURS", "PIC") && Lacks("OCCURS", "COMP") && Lacks("OCCURS", "REDEFINES")
    ensures Lacks("REDEFINES", "PIC") && Lacks("REDEFINES", "COMP") && Lacks("REDEFINES", "OCCURS")
  {
    LacksPair("OCCURS", "PIC");
    LacksPair("OCCURS", "COMP");
    LacksPair("REDEFINES", "PIC");
    LacksPair("REDEFINES", "COMP");
    LacksPair("REDEFINES", "OCCURS");
  }

  lemma CompLacks(comp: string, w: string)
    requires IsCompWord(comp) && (w == "PIC" || w == "OCCURS" || w == "REDEFINES")
    ensures Lacks(comp, w)
  {
    LacksPair(comp, w);
  }

  // Where each pattern does not match

  /** The PIC clause holds none of the other keywords. */
  lemma PicFree(s: string, pic: Option<PictureSpec>, a: nat, w: string)
    requires WrittenAt(s, 0, PicPart(pic)) && a == |PicPart(pic)| && Boundary(s, a)
    requires pic.Some? ==> IsPictureSpec(pic.value)
    requires w == "COMP" || w == "OCCURS" || w == "REDEFINES"
    ensures KeywordFree(s, 0, a, w)
  {
    if pic.Some? {
      KeywordsLack();
      PictureLacks(pic.value, w);
      ClauseFree(s, 0, "PIC", PictureText(pic.value), w);
    }
  }

  /** The usage clause holds none of the other keywords. */
  lemma CompFree(s: string, comp: Option<string>, a: nat, b: nat, w: string)
    requires WrittenAt(s, a, CompPart(comp)) && b == a + |CompPart(comp)| && Boundary(s, b)
    requires comp.Some? ==> IsCompWord(comp.value)
    requires w == "PIC" || w == "OCCURS" || w == "REDEFINES"
    ensures KeywordFree(s, a, b, w)
  {
    if comp.Some? {
      WrittenSplit(s, a, " ", comp.value, a + 1);
      BlankFree(s, a, w);
      CompLacks(comp.value, w);
      TokenFree(s, a + 1, comp.value, w);
    }
  }

  /** The OCCURS clause holds none of the other keywords. */
  lemma OccursFree(s: string, occurs: Option<nat>, b: nat, c: nat, w: string)
    requires WrittenAt(s, b, OccursPart(occurs)) && c == b + |OccursPart(occurs)| && Boundary(s, c)
    requires w == "PIC" || w == "COMP" || w == "REDEFINES"
    ensures KeywordFree(s, b, c, w)
  {
    if occurs.Some? {
      KeywordsLack();
      DigitsLack(occurs.value, w);
      ClauseFree(s, b, "OCCURS", DecimalText(occurs.value), w);
    }
  }

  /** The REDEFINES clause holds no usage keyword when its target has none. */
  lemma RedefinesFree(s: string, target: Option<string>, c: nat)
    requires WrittenAt(s, c, RedefinesPart(target)) && |s| == c + |RedefinesPart(target)|
    requires target.Some? ==> Lacks(target.value, "COMP")
    ensures KeywordFree(s, c, |s|, "COMP")
  {
    if target.Some? {
      KeywordsLack();
      ClauseFree(s, c, "REDEFINES", target.value, "COMP");
    }
  }

  /**
    * The PIC and OCCURS patterns need a blank after their keyword, and a REDEFINES clause
    * that ends the text has none after its keyword's blank, so neither matches from there on.
    */
  lemma RedefinesNoMatch(s: string, target: Option<string>, c: nat, pattern: Pattern)
    requires WrittenAt(s, c, RedefinesPart(target)) && |s| == c + |RedefinesPart(target)|
    requires target.Some? ==> IsNameText(target.value)
    requires pattern == PictureClause || pattern == OccursClause
    ensures forall q :: c <= q <= |s| ==> MatchAt(s, q, pattern).None?
  {
    if target.Some? {
      var t := target.value;
      var x := c + 11;
      var w := Keyword(pattern);
      KeywordsLack();
      WrittenSplit(s, c, " " + "REDEFINES" + " ", t, x);
      WrittenSplit(s, c, " " + "REDEFINES", " ", x - 1);
      WrittenSplit(s, c, " ", "REDEFINES", c + 1);
      BlankFree(s, c, w);
      TokenFree(s, c + 1, "REDEFINES", w);
      BlankFree(s, x - 1, w);
      FreeNoMatch(s, c, x, pattern);
      assert forall k :: x <= k < |s| ==> IsNameChar(s[k]) && !IsSpace(s[k]);
    }
  }

  /** Keyword-free positions are positions where the pattern does not match. */
  lemma FreeNoMatch(s: string, x: nat, y: nat, pattern: Pattern)
    requires y <= |s| + 1 && KeywordFree(s, x, y, Keyword(pattern))
    ensures forall q :: x <= q < y ==> MatchAt(s, q, pattern).None?
  {
    forall q | x <= q < y ensures MatchAt(s, q, pattern).None? {
      NoKeywordNoMatch(s, q, pattern);
    }
  }

  /** A pattern that matches at `p` and nowhere before is what the search finds. */
  lemma SearchAt(s: string, pattern: Pattern, p: nat)
    requires p <= |s| && MatchAt(s, p, pattern).Some?
    requires forall q :: 0 <= q < p ==> MatchAt(s, q, pattern).None?
    ensures Search(s, pattern, 0) == MatchAt(s, p, pattern)
  {
    SearchFirst(s, pattern, 0);
    var p' :| 0 <= p' <= |s| && MatchAt(s, p', pattern) == Search(s, pattern, 0)
      && forall q :: 0 <= q < p' ==> MatchAt(s, q, pattern).None?;
    assert !(p' < p) && !(p < p');
  }

  // Where each pattern matches

  /** `(n)` at `e` is the optional count; with no count, and no `(` at `e`, nothing is read. */
  lemma CountRead(s: string, e: nat, count: Option<nat>)
    requires WrittenAt(s, e, CountText(count))
    requires count.None? ==> !CharAt(s, e, '(')
    ensures ParenCountEnd(s, e) == e + |CountText(count)|
  {
    if count.Some? {
      var ds := DecimalText(count.value);
      WrittenSplit(s, e, "(" + ds, ")", e + 1 + |ds|);
      WrittenSplit(s, e, "(", ds, e + 1);
      WrittenSlice(s, e + 1, ds, e + 1 + |ds|);
      NumberAt(s, e + 1, ds);
    }
  }

  /** A run of picture characters at `b` that is not followed by another one. */
  lemma RunRead(s: string, b: nat, run: string, e: nat)
    requires WrittenAt(s, b, run) && e == b + |run| && forall k :: 0 <= k < |run| ==> IsPicChar(run[k])
    requires e == |s| || !IsPicChar(UpperChar(s[e]))
    ensures Span(s, b, PicCharAnyCase) == e
  {
    forall k | b <= k < e ensures InClass(s[k], PicCharAnyCase) {
      assert s[k] == run[k - b];
    }
    SpanExact(s, b, e, PicCharAnyCase);
  }

  /** The fraction group at `e`, given where its nines end and where its count ends. */
  lemma FractionSteps(s: string, e: nat, g: nat, d: nat)
    requires e + 1 < |s| && s[e] == 'V' && s[e + 1] == '9'
    requires Span(s, e + 1, Only('9')) == g && ParenCountEnd(s, g) == d
    ensures FractionEnd(s, e) == d
  {
  }

  /** Where the nines and the count of a fraction written at `e` stand. */
  lemma FractionLayout(s: string, e: nat, f: Fraction) returns (g: nat, d: nat)
    requires WrittenAt(s, e, "V" + FractionDigits(f)) && f.nines >= 1
    ensures e + 1 < |s| && s[e] == 'V' && s[e + 1] == '9'
    ensures LitAt(s, e + 1, VsamTypes.Repeat('9', f.nines)) && g == e + 1 + f.nines
    ensures WrittenAt(s, g, CountText(f.count)) && d == g + |CountText(f.count)|
    ensures d == e + 1 + |FractionDigits(f)| && s[e + 1..d] == FractionDigits(f)
  {
    var ns := VsamTypes.Repeat('9', f.nines);
    g, d := e + 1 + |ns|, e + 1 + |FractionDigits(f)|;
    WrittenSplit(s, e, "V", FractionDigits(f), e + 1);
    WrittenSplit(s, e + 1, ns, CountText(f.count), g);
    WrittenSlice(s, e + 1, ns, g);
    WrittenSlice(s, e + 1, FractionDigits(f), d);
    assert s[e + 1] == ns[0];
  }

  /** A fraction at `e`, followed by a blank or the end, ends where its text does. */
  lemma FractionSomeRead(s: string, e: nat, f: Fraction, d: nat)
    requires WrittenAt(s, e, "V" + FractionDigits(f)) && f.nines >= 1
    requires d == e + 1 + |FractionDigits(f)| && Boundary(s, d)
    ensures FractionEnd(s, e) == d && s[e + 1..d] == FractionDigits(f)
  {
    var g, d' := FractionLayout(s, e, f);
    assert d' == d;
    if f.count.None? {
      assert g == d;
    }
    NinesEnd(s, e, f, g);
    CountRead(s, g, f.count);
    FractionSteps(s, e, g, d');
  }

  /** The nines of a fraction written at `e` end at `g`, where its count or a boundary follows. */
  lemma NinesEnd(s: string, e: nat, f: Fraction, g: nat)
    requires e + 1 < |s| && f.nines >= 1
    requires LitAt(s, e + 1, VsamTypes.Repeat('9', f.nines)) && g == e + 1 + f.nines
    requires WrittenAt(s, g, CountText(f.count)) && (f.count.None? ==> Boundary(s, g))
    ensures Span(s, e + 1, Only('9')) == g && (f.count.None? ==> !CharAt(s, g, '('))
  {
    assert g < |s| ==> s[g] != '9' by {
      if g < |s| && f.count.Some? {
        assert s[g] == CountText(f.count)[0];
      }
    }
    VsamTypes.RunAt(s, e + 1, '9', f.nines, Only('9'));
  }

  /** The fraction at `e`, if any, followed by a blank or the end, ends where its text does. */
  lemma FractionRead(s: string, e: nat, f: Option<Fraction>)
    requires WrittenAt(s, e, FractionText(f)) && Boundary(s, e + |FractionText(f)|)
    requires f.Some? ==> f.value.nines >= 1
    ensures FractionEnd(s, e) == e + |FractionText(f)|
    ensures f.Some? ==> s[e + 1..e + |FractionText(f)|] == FractionDigits(f.value)
  {
    if f.Some? {
      FractionSomeRead(s, e, f.value, e + |FractionText(f)|);
    } else {
      assert e < |s| ==> UpperChar(s[e]) == s[e] && s[e] != 'V';
    }
  }

  /** The pieces of a picture clause at `x`, each where it stands. */
  lemma PictureLayout(s: string, x: nat, p: PictureSpec, j: nat, b: nat, e0: nat, e: nat, d: nat)
    requires WrittenAt(s, x, Clause("PIC", PictureText(p)))
    requires j == x + 5 && b == j + |VsamTypes.SignText(p.signed)| && e0 == b + |p.run|
    requires e == e0 + |CountText(p.count)| && d == e + |FractionText(p.fraction)|
    ensures WrittenAt(s, x, " PIC ") && WrittenAt(s, j, VsamTypes.SignText(p.signed)) && WrittenAt(s, b, p.run)
    ensures WrittenAt(s, e0, CountText(p.count)) && WrittenAt(s, e, FractionText(p.fraction))
    ensures d == x + |Clause("PIC", PictureText(p))|
  {
    var sg, ct := VsamTypes.SignText(p.signed), CountText(p.count);
    WrittenSplit(s, x, " " + "PIC" + " ", PictureText(p), j);
    assert " " + "PIC" + " " == " PIC ";
    WrittenSplit(s, j, sg + p.run + ct, FractionText(p.fraction), e);
    WrittenSplit(s, j, sg + p.run, ct, e0);
    WrittenSplit(s, j, sg, p.run, b);
  }

  /** The picture pattern at `x + 1`, given where each of its groups ends. */
  lemma PictureFromSteps(s: string, q: nat, j: nat, b: nat, e: nat, d: nat)
    requires q < |s| && s[q] == ' ' && SkipSpaces(s, q) == j
    requires SignEnd(s, j) == b && b < |s| && InClass(s[b], PicCharAnyCase)
    requires ParenCountEnd(s, Span(s, b, PicCharAnyCase)) == e && FractionEnd(s, e) == d
    ensures PictureFrom(s, q) == Some(Picture(s[j..b], s[b..e], if d > e then s[e + 1..d] else []))
  {
  }

  lemma PictureSteps(s: string, x: nat, j: nat, b: nat, e: nat, d: nat)
    requires x + 4 < |s| && LitAtCI(s, x + 1, "PIC") && s[x + 4] == ' ' && SkipSpaces(s, x + 4) == j
    requires SignEnd(s, j) == b && b < |s| && InClass(s[b], PicCharAnyCase)
    requires ParenCountEnd(s, Span(s, b, PicCharAnyCase)) == e && FractionEnd(s, e) == d
    ensures MatchPicture(s, x + 1) == Some(Picture(s[j..b], s[b..e], if d > e then s[e + 1..d] else []))
  {
    assert UpperChar(s[x + 4]) == ' ';
    assert !LitAtCI(s, x + 4, "TURE");
    PictureFromSteps(s, x + 4, j, b, e, d);
  }

  /** The keyword, the sign and the run of a picture clause at `x`: where each ends. */
  lemma PictureHeadRead(s: string, x: nat, p: PictureSpec, j: nat, b: nat, e0: nat)
    requires IsPictureSpec(p) && WrittenAt(s, x, " PIC ") && WrittenAt(s, j, VsamTypes.SignText(p.signed))
    requires WrittenAt(s, b, p.run)
    requires j == x + 5 && b == j + |VsamTypes.SignText(p.signed)| && e0 == b + |p.run|
    requires e0 == |s| || s[e0] == '(' || s[e0] == 'V' || IsSpace(s[e0])
    ensures x + 4 < |s| && LitAtCI(s, x + 1, "PIC") && s[x + 4] == ' ' && SkipSpaces(s, x + 4) == j
    ensures SignEnd(s, j) == b && b < |s| && InClass(s[b], PicCharAnyCase)
    ensures Span(s, b, PicCharAnyCase) == e0 && s[j..b] == VsamTypes.SignText(p.signed)
  {
    PictureRunRead(s, p, j, b, e0);
    PictureKeywordRead(s, x, j);
  }

  /** ` PIC ` at `x`, followed by a non-blank at `j`: the keyword and the blanks after it. */
  lemma PictureKeywordRead(s: string, x: nat, j: nat)
    requires WrittenAt(s, x, " PIC ") && j == x + 5 && j < |s| && !IsSpace(s[j])
    ensures x + 4 < |s| && LitAtCI(s, x + 1, "PIC") && s[x + 4] == ' ' && SkipSpaces(s, x + 4) == j
  {
    SpanExact(s, x + 4, j, Space);
  }

  /** The sign at `j` and the run at `b` of a picture, followed by its count, its fraction or a boundary at `e0`. */
  lemma PictureRunRead(s: string, p: PictureSpec, j: nat, b: nat, e0: nat)
    requires IsPictureSpec(p) && WrittenAt(s, j, VsamTypes.SignText(p.signed)) && WrittenAt(s, b, p.run)
    requires b == j + |VsamTypes.SignText(p.signed)| && e0 == b + |p.run|
    requires e0 == |s| || s[e0] == '(' || s[e0] == 'V' || IsSpace(s[e0])
    ensures j < |s| && !IsSpace(s[j])
    ensures SignEnd(s, j) == b && b < |s| && InClass(s[b], PicCharAnyCase)
    ensures Span(s, b, PicCharAnyCase) == e0 && s[j..b] == VsamTypes.SignText(p.signed)
  {
    assert s[b] == p.run[0];
    RunRead(s, b, p.run, e0);
    WrittenSlice(s, j, VsamTypes.SignText(p.signed), b);
  }

  /** The count and the fraction of a picture clause, from `e0` to the blank or the end at `d`. */
  lemma PictureTailRead(s: string, p: PictureSpec, e0: nat, e: nat, d: nat)
    requires IsPictureSpec(p) && WrittenAt(s, e0, CountText(p.count)) && WrittenAt(s, e, FractionText(p.fraction))
    requires e == e0 + |CountText(p.count)| && d == e + |FractionText(p.fraction)| && Boundary(s, d)
    ensures e0 == |s| || s[e0] == '(' || s[e0] == 'V' || IsSpace(s[e0])
    ensures ParenCountEnd(s, e0) == e && FractionEnd(s, e) == d
    ensures (d > e <==> p.fraction.Some?) && (p.fraction.Some? ==> s[e + 1..d] == FractionDigits(p.fraction.value))
  {
    assert p.count.None? ==> !CharAt(s, e0, '(');
    CountRead(s, e0, p.count);
    FractionRead(s, e, p.fraction);
  }

  /**
    * A picture clause at `x`, followed by a blank or the end: the pattern matches at its
    * keyword and captures the sign, the run with its count, and the fraction.
    */
  lemma PictureRead(s: string, x: nat, p: PictureSpec)
    requires IsPictureSpec(p) && WrittenAt(s, x, Clause("PIC", PictureText(p)))
    requires Boundary(s, x + |Clause("PIC", PictureText(p))|)
    ensures MatchPicture(s, x + 1) == Some(PictureCapture(p))
  {
    var j := x + 5;
    var b := j + |VsamTypes.SignText(p.signed)|;
    var e0 := b + |p.run|;
    var e := e0 + |CountText(p.count)|;
    var d := e + |FractionText(p.fraction)|;
    PictureLayout(s, x, p, j, b, e0, e, d);
    PictureTailRead(s, p, e0, e, d);
    PictureHeadRead(s, x, p, j, b, e0);
    WrittenJoin(s, b, p.run, CountText(p.count), e0);
    WrittenSlice(s, b, p.run + CountText(p.count), e);
    PictureSteps(s, x, j, b, e, d);
  }

  /** The usage word at `a + 1`, followed by a blank or the end, is what the usage pattern captures. */
  lemma CompRead(s: string, a: nat, comp: string)
    requires IsCompWord(comp) && WrittenAt(s, a, " " + comp) && Boundary(s, a + 1 + |comp|)
    ensures MatchComp(s, a + 1) == Some(Text(comp))
  {
    WrittenSplit(s, a, " ", comp, a + 1);
    WrittenSlice(s, a + 1, comp, a + 1 + |comp|);
    forall j | a + 1 <= j < a + 5 ensures UpperChar(s[j]) == "COMP"[j - (a + 1)] {
      assert s[j] == comp[j - (a + 1)];
    }
  }

  /** A clause ` KW v` written at `x`: its keyword at `p`, the blank after it, its value at `y`. */
  lemma ClauseValue(s: string, x: nat, kw: string, v: string) returns (p: nat, y: nat)
    requires WrittenAt(s, x, Clause(kw, v)) && IsKeyword(kw) && v != [] && !IsSpace(v[0])
    ensures p == x + 1 && y == p + |kw| + 1 && y + |v| <= |s|
    ensures LitAtCI(s, p, kw) && IsSpace(s[p + |kw|]) && SkipSpaces(s, p + |kw|) == y
    ensures LitAt(s, y, v)
  {
    p, y := x + 1, x + 2 + |kw|;
    WrittenSplit(s, x, " " + kw + " ", v, y);
    WrittenSplit(s, x, " " + kw, " ", y - 1);
    WrittenSplit(s, x, " ", kw, p);
    forall q | p <= q < p + |kw| ensures UpperChar(s[q]) == kw[q - p] {
      assert s[q] == kw[q - p];
    }
    assert s[y] == v[0];
    SpanExact(s, y - 1, y, Space);
    WrittenSlice(s, y, v, y + |v|);
  }

  lemma OccursSteps(s: string, p: nat, y: nat, n: nat)
    requires p + 6 < |s| && LitAtCI(s, p, "OCCURS") && IsSpace(s[p + 6]) && SkipSpaces(s, p + 6) == y
    requires Number(s, y).Some? && Number(s, y).value.0 == n
    ensures MatchOccurs(s, p) == Some(Count(n))
  {
  }

  /** An OCCURS clause followed by a blank or the end: the OCCURS pattern reads its count back. */
  lemma OccursRead(s: string, b: nat, n: nat)
    requires WrittenAt(s, b, Clause("OCCURS", DecimalText(n))) && Boundary(s, b + 8 + |DecimalText(n)|)
    ensures MatchOccurs(s, b + 1) == Some(Count(n))
  {
    var ds := DecimalText(n);
    assert IsKeyword("OCCURS");
    var p, y := ClauseValue(s, b, "OCCURS", ds);
    NumberAt(s, y, ds);
    OccursSteps(s, p, y, n);
    assert MatchOccurs(s, p) == MatchOccurs(s, b + 1);
  }

  /** A REDEFINES clause that ends the text gives its target. */
  lemma RedefinesSteps(s: string, p: nat, y: nat, t: string)
    requires p + 9 < |s| && LitAtCI(s, p, "REDEFINES") && IsSpace(s[p + 9]) && SkipSpaces(s, p + 9) == y
    requires t != [] && LitAt(s, y, t) && y + |t| == |s| && Span(s, y, Name) == |s|
    ensures MatchRedefines(s, p) == Some(Text(t))
  {
    assert s[y..] == t;
  }

  /** A name that runs to the end of the text is one span of name characters. */
  lemma NameToEnd(s: string, y: nat, t: string)
    requires IsNameText(t) && LitAt(s, y, t) && y + |t| == |s|
    ensures Span(s, y, Name) == |s|
  {
    forall k | y <= k < |s| ensures InClass(s[k], Name) {
      assert s[k] == s[y..y + |t|][k - y];
    }
    SpanExact(s, y, |s|, Name);
  }

  lemma RedefinesRead(s: string, c: nat, t: string)
    requires IsNameText(t) && WrittenAt(s, c, Clause("REDEFINES", t)) && |s| == c + 11 + |t|
    ensures MatchRedefines(s, c + 1) == Some(Text(t))
  {
    assert IsKeyword("REDEFINES");
    assert IsNameChar(t[0]);
    var p, y := ClauseValue(s, c, "REDEFINES", t);
    NameToEnd(s, y, t);
    RedefinesSteps(s, p, y, t);
    assert MatchRedefines(s, p) == MatchRedefines(s, c + 1);
  }

  /** The usage part of the clauses at `a`, ending at `b`: the usage pattern captures its word. */
  lemma CompPartRead(s: string, comp: Option<string>, a: nat, b: nat)
    requires comp.Some? && IsCompWord(comp.value) && WrittenAt(s, a, CompPart(comp))
    requires b == a + |CompPart(comp)| && Boundary(s, b)
    ensures a + 1 <= |s| && MatchAt(s, a + 1, CompClause) == Some(Text(comp.value))
  {
    CompRead(s, a, comp.value);
  }

  /** The OCCURS part of the clauses at `b`, ending at `c`: the OCCURS pattern captures its count. */
  lemma OccursPartRead(s: string, occurs: Option<nat>, b: nat, c: nat)
    requires occurs.Some? && WrittenAt(s, b, OccursPart(occurs)) && c == b + |OccursPart(occurs)| && Boundary(s, c)
    ensures b + 1 <= |s| && MatchAt(s, b + 1, OccursClause) == Some(Count(occurs.value))
  {
    OccursRead(s, b, occurs.value);
  }

  /** The REDEFINES part that ends the clauses at `c`: the REDEFINES pattern captures its target. */
  lemma RedefinesPartRead(s: string, target: Option<string>, c: nat)
    requires target.Some? && IsNameText(target.value)
    requires WrittenAt(s, c, RedefinesPart(target)) && |s| == c + |RedefinesPart(target)|
    ensures c + 1 <= |s| && MatchAt(s, c + 1, RedefinesClause) == Some(Text(target.value))
  {
    RedefinesRead(s, c, target.value);
  }

  // The four searches over the clauses

  /** The clauses written in `s`: each part where it stands, the last one ending the text. */
  predicate ClausesAt(s: string, pic: Option<PictureSpec>, comp: Option<string>, occurs: Option<nat>,
                      target: Option<string>, a: nat, b: nat, c: nat)
  {
    && WrittenAt(s, 0, PicPart(pic)) && a == |PicPart(pic)|
    && WrittenAt(s, a, CompPart(comp)) && b == a + |CompPart(comp)|
    && WrittenAt(s, b, OccursPart(occurs)) && c == b + |OccursPart(occurs)|
    && WrittenAt(s, c, RedefinesPart(target)) && |s| == c + |RedefinesPart(target)|
  }

  /** Where each part of the clauses stands in their text. */
  lemma PartsAt(pic: Option<PictureSpec>, comp: Option<string>, occurs: Option<nat>, target: Option<string>)
      returns (a: nat, b: nat, c: nat)
    ensures ClausesAt(ClausesText(pic, comp, occurs, target), pic, comp, occurs, target, a, b, c)
  {
    a, b, c := WrittenFour(PicPart(pic), CompPart(comp), OccursPart(occurs), RedefinesPart(target));
  }

  /** A clause begins with a blank. */
  lemma ClauseStart(s: string, x: nat, kw: string, v: string)
    requires WrittenAt(s, x, Clause(kw, v))
    ensures x < |s| && s[x] == ' '
  {
  }

  /** A part that is present begins with a blank. */
  lemma PartStart(s: string, x: nat, part: string)
    requires WrittenAt(s, x, part) && part != [] && part[0] == ' '
    ensures x < |s| && s[x] == ' ' && Boundary(s, x)
  {
  }

  /** Each part of the clauses begins with a blank, so each ends at a blank or at the end. */
  lemma Boundaries(s: string, pic: Option<PictureSpec>, comp: Option<string>, occurs: Option<nat>,
                   target: Option<string>, a: nat, b: nat, c: nat)
    requires ClausesAt(s, pic, comp, occurs, target, a, b, c)
    ensures Boundary(s, a) && Boundary(s, b) && Boundary(s, c)
    ensures pic.Some? ==> s[0] == ' '
    ensures comp.Some? ==> s[a] == ' '
    ensures occurs.Some? ==> s[b] == ' '
    ensures target.Some? ==> s[c] == ' '
  {
    if pic.Some? { PartStart(s, 0, PicPart(pic)); }
    if target.Some? { PartStart(s, c, RedefinesPart(target)); }
    if occurs.Some? { PartStart(s, b, OccursPart(occurs)); }
    if comp.Some? { PartStart(s, a, CompPart(comp)); }
  }

  /** Keyword-free stretches that meet make one keyword-free stretch. */
  lemma FreeJoin(s: string, x: nat, y: nat, z: nat, w: string)
    requires x <= y <= z && KeywordFree(s, x, y, w) && KeywordFree(s, y, z, w)
    ensures KeywordFree(s, x, z, w)
  {
  }

  /** A stretch free of `w` stays free through a blank that follows it. */
  lemma FreeThroughBlank(s: string, x: nat, y: nat, w: string)
    requires x <= y < |s| && IsSpace(s[y]) && IsKeyword(w) && KeywordFree(s, x, y, w)
    ensures KeywordFree(s, x, y + 1, w)
  {
    BlankFree(s, y, w);
    FreeJoin(s, x, y, y + 1, w);
  }

  /** A stretch free of `w` up to the end of the text stays free one position further. */
  lemma FreeThroughEnd(s: string, x: nat, w: string)
    requires x <= |s| && w != [] && KeywordFree(s, x, |s|, w)
    ensures KeywordFree(s, x, |s| + 1, w)
  {
  }

  /** The search finds the match at `p` when the pattern's keyword stands nowhere before it. */
  lemma SearchFound(s: string, pattern: Pattern, p: nat)
    requires p <= |s| && MatchAt(s, p, pattern).Some? && KeywordFree(s, 0, p, Keyword(pattern))
    ensures Search(s, pattern, 0) == MatchAt(s, p, pattern)
  {
    FreeNoMatch(s, 0, p, pattern);
    SearchAt(s, pattern, p);
  }

  /** The search finds nothing when the keyword stands nowhere before `c` and nothing matches from `c` on. */
  lemma SearchNone(s: string, pattern: Pattern, c: nat)
    requires c <= |s| + 1 && KeywordFree(s, 0, c, Keyword(pattern))
    requires forall q :: c <= q <= |s| ==> MatchAt(s, q, pattern).None?
    ensures Search(s, pattern, 0).None?
  {
    FreeNoMatch(s, 0, c, pattern);
    SearchFirst(s, pattern, 0);
  }

  /** The picture pattern matches at the PIC keyword, one past the blank that opens the clauses. */
  lemma PictureFound(s: string, pic: Option<PictureSpec>, a: nat)
    requires pic.Some? && IsPictureSpec(pic.value) && WrittenAt(s, 0, PicPart(pic))
    requires a == |PicPart(pic)| && Boundary(s, a)
    ensures 1 <= |s| && KeywordFree(s, 0, 1, "PIC") && MatchAt(s, 1, PictureClause) == Some(PictureCapture(pic.value))
  {
    PictureStart(s, pic);
    PictureMatched(s, pic, a);
  }

  lemma PictureStart(s: string, pic: Option<PictureSpec>)
    requires pic.Some? && WrittenAt(s, 0, PicPart(pic))
    ensures 1 <= |s| && KeywordFree(s, 0, 1, "PIC")
  {
    assert PicPart(pic) == Clause("PIC", PictureText(pic.value));
    ClauseStart(s, 0, "PIC", PictureText(pic.value));
    BlankFree(s, 0, "PIC");
  }

  lemma PictureMatched(s: string, pic: Option<PictureSpec>, a: nat)
    requires pic.Some? && IsPictureSpec(pic.value) && WrittenAt(s, 0, PicPart(pic))
    requires a == |PicPart(pic)| && Boundary(s, a)
    ensures 1 <= |s| && MatchAt(s, 1, PictureClause) == Some(PictureCapture(pic.value))
  {
    var p := pic.value;
    assert PicPart(pic) == Clause("PIC", PictureText(p));
    PictureRead(s, 0, p);
    assert MatchAt(s, 1, PictureClause) == MatchPicture(s, 0 + 1);
  }

  /** Without a PIC clause the keyword PIC stands only in the REDEFINES target, where the pattern cannot match. */
  lemma PictureAbsent(s: string, pic: Option<PictureSpec>, comp: Option<string>, occurs: Option<nat>,
      target: Option<string>, a: nat, b: nat, c: nat)
    requires ClausesAt(s, pic, comp, occurs, target, a, b, c) && IsClauses(pic, comp, occurs, target) && pic.None?
    ensures c <= |s| && KeywordFree(s, 0, c, "PIC") && forall q :: c <= q <= |s| ==> MatchAt(s, q, PictureClause).None?
  {
    Boundaries(s, pic, comp, occurs, target, a, b, c);
    CompFree(s, comp, a, b, "PIC");
    OccursFree(s, occurs, b, c, "PIC");
    FreeJoin(s, a, b, c, "PIC");
    RedefinesNoMatch(s, target, c, PictureClause);
  }

  /** Without a usage clause the keyword COMP stands nowhere. */
  lemma CompAbsent(s: string, pic: Option<PictureSpec>, comp: Option<string>, occurs: Option<nat>,
      target: Option<string>, a: nat, b: nat, c: nat)
    requires ClausesAt(s, pic, comp, occurs, target, a, b, c) && IsClauses(pic, comp, occurs, target) && comp.None?
    ensures KeywordFree(s, 0, |s| + 1, "COMP")
  {
    Boundaries(s, pic, comp, occurs, target, a, b, c);
    PicFree(s, pic, a, "COMP");
    OccursFree(s, occurs, b, c, "COMP");
    RedefinesFree(s, target, c);
    FreeJoin(s, 0, b, c, "COMP");
    FreeJoin(s, 0, c, |s|, "COMP");
    FreeThroughEnd(s, 0, "COMP");
  }

  /** Without an OCCURS clause the keyword stands only in the REDEFINES target, where the pattern cannot match. */
  lemma OccursAbsent(s: string, pic: Option<PictureSpec>, comp: Option<string>, occurs: Option<nat>,
      target: Option<string>, a: nat, b: nat, c: nat)
    requires ClausesAt(s, pic, comp, occurs, target, a, b, c) && IsClauses(pic, comp, occurs, target) && occurs.None?
    ensures c <= |s| && KeywordFree(s, 0, c, "OCCURS") && forall q :: c <= q <= |s| ==> MatchAt(s, q, OccursClause).None?
  {
    Boundaries(s, pic, comp, occurs, target, a, b, c);
    PicFree(s, pic, a, "OCCURS");
    CompFree(s, comp, a, b, "OCCURS");
    FreeJoin(s, 0, a, b, "OCCURS");
    RedefinesNoMatch(s, target, c, OccursClause);
  }

  /** Up to the REDEFINES clause, its keyword stands nowhere. */
  lemma RedefinesBefore(s: string, pic: Option<PictureSpec>, comp: Option<string>, occurs: Option<nat>,
      target: Option<string>, a: nat, b: nat, c: nat)
    requires ClausesAt(s, pic, comp, occurs, target, a, b, c) && IsClauses(pic, comp, occurs, target)
    ensures c <= |s| && KeywordFree(s, 0, c, "REDEFINES")
  {
    Boundaries(s, pic, comp, occurs, target, a, b, c);
    PicFree(s, pic, a, "REDEFINES");
    CompFree(s, comp, a, b, "REDEFINES");
    OccursFree(s, occurs, b, c, "REDEFINES");
    FreeJoin(s, 0, a, b, "REDEFINES");
    FreeJoin(s, 0, b, c, "REDEFINES");
  }

  // The line as a whole

  /** The picture rebuilt from its captured groups is the picture as written. */
  lemma RebuiltPicture(p: PictureSpec)
    requires IsPictureSpec(p)
    ensures var c := PictureCapture(p);
      "PIC " + c.sign + c.integerPart + (if c.decimalPart != [] then "V" + c.decimalPart else [])
        == "PIC " + PictureText(p)
  {
    var sg, ct, ft := VsamTypes.SignText(p.signed), CountText(p.count), FractionText(p.fraction);
    if p.fraction.Some? {
      assert FractionDigits(p.fraction.value) != [];
    }
    assert "PIC " + sg + (p.run + ct) + ft == "PIC " + (sg + p.run + ct + ft);
  }

  /** Neither a period nor a line break. */
  predicate Plain(s: string) { forall k :: 0 <= k < |s| ==> s[k] != '.' && s[k] != '\n' }

  /** `s` is empty or begins with a blank. */
  predicate BlankFirst(s: string) { s == [] || s[0] == ' ' }

  lemma PlainJoin(x: string, y: string)
    requires Plain(x) && Plain(y) && BlankFirst(x) && BlankFirst(y)
    ensures Plain(x + y) && BlankFirst(x + y)
  {
    assert forall k :: 0 <= k < |x + y| ==> (x + y)[k] == if k < |x| then x[k] else y[k - |x|];
  }

  lemma PicPlain(pic: Option<PictureSpec>)
    requires pic.Some? ==> IsPictureSpec(pic.value)
    ensures Plain(PicPart(pic)) && BlankFirst(PicPart(pic))
  {
    if pic.Some? {
      PictureChars(pic.value);
    }
  }

  lemma CompPlain(comp: Option<string>)
    requires comp.Some? ==> IsCompWord(comp.value)
    ensures Plain(CompPart(comp)) && BlankFirst(CompPart(comp))
  {
  }

  lemma OccursPlain(occurs: Option<nat>)
    ensures Plain(OccursPart(occurs)) && BlankFirst(OccursPart(occurs))
  {
    if occurs.Some? {
      var ds := DecimalText(occurs.value);
      assert forall k :: 0 <= k < |ds| ==> IsDigit(ds[k]);
    }
  }

  lemma RedefinesPlain(target: Option<string>)
    requires target.Some? ==> IsNameText(target.value)
    ensures Plain(RedefinesPart(target)) && BlankFirst(RedefinesPart(target))
  {
  }

  /** The clauses hold no period and no line break, and they begin with a blank. */
  lemma PlainClauses(pic: Option<PictureSpec>, comp: Option<string>, occurs: Option<nat>, target: Option<string>)
    requires IsClauses(pic, comp, occurs, target)
    ensures Plain(ClausesText(pic, comp, occurs, target)) && BlankFirst(ClausesText(pic, comp, occurs, target))
  {
    var p, u, o, r := PicPart(pic), CompPart(comp), OccursPart(occurs), RedefinesPart(target);
    PicPlain(pic);
    CompPlain(comp);
    OccursPlain(occurs);
    RedefinesPlain(target);
    PlainJoin(p, u);
    PlainJoin(p + u, o);
    PlainJoin(p + u + o, r);
  }

  /** The level number written as the two digits `hi` and `lo`. */
  function LevelOf(hi: char, lo: char): int { (hi as int - '0' as int) * 10 + (lo as int - '0' as int) }

  /** A line with a two-digit level, a blank and a name: the level pattern reads them back. */
  lemma LevelRead(s: string, hi: char, lo: char, name: string, rest: string) returns (level: nat)
    requires s == [hi, lo] + " " + name + rest && IsDigit(hi) && IsDigit(lo) && IsNameText(name)
    requires rest == [] || rest[0] == ' '
    ensures level == LevelOf(hi, lo)
    ensures MatchLevel(s) == Some((level, name, rest))
  {
    level := LevelOf(hi, lo);
    var k := 3 + |name|;
    assert s[0] == hi && s[1] == lo && s[2] == ' ' && s[3] == name[0];
    assert s[3..k] == name && s[k..] == rest;
    NoSpaceAt(s, 0);
    SpanExact(s, 2, 3, Space);
    forall i | 3 <= i < k ensures InClass(s[i], Name) {
      assert s[i] == name[i - 3];
    }
    SpanExact(s, 3, k, Name);
  }

  /** The usage pattern matches first at the usage word. */
  lemma CompFound(s: string, pic: Option<PictureSpec>, comp: Option<string>, occurs: Option<nat>,
      target: Option<string>, a: nat, b: nat, c: nat)
    requires ClausesAt(s, pic, comp, occurs, target, a, b, c) && IsClauses(pic, comp, occurs, target) && comp.Some?
    ensures a + 1 <= |s| && KeywordFree(s, 0, a + 1, "COMP") && MatchAt(s, a + 1, CompClause) == Some(Text(comp.value))
  {
    Boundaries(s, pic, comp, occurs, target, a, b, c);
    CompHead(s, pic, comp, a, b);
  }

  /** A usage clause after the picture: its keyword stands nowhere before it, and the usage pattern reads it. */
  lemma CompHead(s: string, pic: Option<PictureSpec>, comp: Option<string>, a: nat, b: nat)
    requires (pic.Some? ==> IsPictureSpec(pic.value)) && comp.Some? && IsCompWord(comp.value)
    requires WrittenAt(s, 0, PicPart(pic)) && a == |PicPart(pic)|
    requires WrittenAt(s, a, CompPart(comp)) && b == a + |CompPart(comp)| && Boundary(s, b)
    ensures a + 1 <= |s| && KeywordFree(s, 0, a + 1, "COMP") && MatchAt(s, a + 1, CompClause) == Some(Text(comp.value))
  {
    PartStart(s, a, CompPart(comp));
    PicFree(s, pic, a, "COMP");
    FreeThroughBlank(s, 0, a, "COMP");
    CompPartRead(s, comp, a, b);
  }

  /** The OCCURS pattern matches first at its keyword. */
  lemma OccursFound(s: string, pic: Option<PictureSpec>, comp: Option<string>, occurs: Option<nat>,
      target: Option<string>, a: nat, b: nat, c: nat)
    requires ClausesAt(s, pic, comp, occurs, target, a, b, c) && IsClauses(pic, comp, occurs, target) && occurs.Some?
    ensures b + 1 <= |s| && KeywordFree(s, 0, b + 1, "OCCURS") && MatchAt(s, b + 1, OccursClause) == Some(Count(occurs.value))
  {
    Boundaries(s, pic, comp, occurs, target, a, b, c);
    OccursHead(s, pic, comp, occurs, a, b, c);
  }

  /** An OCCURS clause after the picture and usage: its keyword stands nowhere before it, and the pattern reads it. */
  lemma OccursHead(s: string, pic: Option<PictureSpec>, comp: Option<string>, occurs: Option<nat>, a: nat, b: nat, c: nat)
    requires (pic.Some? ==> IsPictureSpec(pic.value)) && (comp.Some? ==> IsCompWord(comp.value)) && occurs.Some?
    requires WrittenAt(s, 0, PicPart(pic)) && a == |PicPart(pic)|
    requires WrittenAt(s, a, CompPart(comp)) && b == a + |CompPart(comp)|
    requires WrittenAt(s, b, OccursPart(occurs)) && c == b + |OccursPart(occurs)| && Boundary(s, c)
    ensures b + 1 <= |s| && KeywordFree(s, 0, b + 1, "OCCURS") && MatchAt(s, b + 1, OccursClause) == Some(Count(occurs.value))
  {
    PartStart(s, b, OccursPart(occurs));
    if comp.Some? {
      PartStart(s, a, CompPart(comp));
    }
    PicFree(s, pic, a, "OCCURS");
    CompFree(s, comp, a, b, "OCCURS");
    FreeJoin(s, 0, a, b, "OCCURS");
    FreeThroughBlank(s, 0, b, "OCCURS");
    OccursPartRead(s, occurs, b, c);
  }

  /** The REDEFINES pattern matches first at its keyword. */
  lemma RedefinesFound(s: string, pic: Option<PictureSpec>, comp: Option<string>, occurs: Option<nat>,
      target: Option<string>, a: nat, b: nat, c: nat)
    requires ClausesAt(s, pic, comp, occurs, target, a, b, c) && IsClauses(pic, comp, occurs, target) && target.Some?
    ensures c + 1 <= |s| && KeywordFree(s, 0, c + 1, "REDEFINES") && MatchAt(s, c + 1, RedefinesClause) == Some(Text(target.value))
  {
    RedefinesBefore(s, pic, comp, occurs, target, a, b, c);
    RedefinesTail(s, target, c);
  }

  /** A REDEFINES clause that ends the text, with its keyword nowhere before it. */
  lemma RedefinesTail(s: string, target: Option<string>, c: nat)
    requires target.Some? && IsNameText(target.value)
    requires WrittenAt(s, c, RedefinesPart(target)) && |s| == c + |RedefinesPart(target)|
    requires KeywordFree(s, 0, c, "REDEFINES")
    ensures c + 1 <= |s| && KeywordFree(s, 0, c + 1, "REDEFINES") && MatchAt(s, c + 1, RedefinesClause) == Some(Text(target.value))
  {
    PartStart(s, c, RedefinesPart(target));
    FreeThroughBlank(s, 0, c, "REDEFINES");
    RedefinesPartRead(s, target, c);
  }

  /** Without a REDEFINES clause its keyword stands nowhere. */
  lemma RedefinesAbsent(s: string, pic: Option<PictureSpec>, comp: Option<string>, occurs: Option<nat>,
      target: Option<string>, a: nat, b: nat, c: nat)
    requires ClausesAt(s, pic, comp, occurs, target, a, b, c) && IsClauses(pic, comp, occurs, target) && target.None?
    ensures KeywordFree(s, 0, |s| + 1, "REDEFINES")
  {
    RedefinesBefore(s, pic, comp, occurs, target, a, b, c);
    FreeThroughEnd(s, 0, "REDEFINES");
  }

  /**
    * Where the search for `pattern` stands decided: its keyword stands nowhere before `p`, and
    * either the pattern matches at `p` with `v`, or (`v` None) it matches nowhere from `p` on.
    */
  predicate Located(s: string, pattern: Pattern, p: nat, v: Option<Capture>) {
    && p <= |s| + 1 && KeywordFree(s, 0, p, Keyword(pattern))
    && (v.Some? ==> p <= |s| && MatchAt(s, p, pattern) == v)
    && (v.None? ==> forall q :: p <= q <= |s| ==> MatchAt(s, q, pattern).None?)
  }

  /** A located search finds what was located. */
  lemma LocatedSearch(s: string, pattern: Pattern, p: nat, v: Option<Capture>)
    requires Located(s, pattern, p, v)
    ensures Search(s, pattern, 0) == v
  {
    if v.Some? {
      SearchFound(s, pattern, p);
    } else {
      SearchNone(s, pattern, p);
    }
  }

  /** The picture search, located at the PIC keyword or found to match nowhere. */
  lemma PictureLocated(s: string, pic: Option<PictureSpec>, comp: Option<string>, occurs: Option<nat>,
      target: Option<string>, a: nat, b: nat, c: nat)
    requires ClausesAt(s, pic, comp, occurs, target, a, b, c) && IsClauses(pic, comp, occurs, target)
    ensures Located(s, PictureClause, if pic.Some? then 1 else c, if pic.Some? then Some(PictureCapture(pic.value)) else None)
  {
    if pic.Some? {
      Boundaries(s, pic, comp, occurs, target, a, b, c);
      PictureFound(s, pic, a);
    } else {
      PictureAbsent(s, pic, comp, occurs, target, a, b, c);
    }
  }

  /** The usage search, located at the usage word or found to match nowhere. */
  lemma CompLocated(s: string, pic: Option<PictureSpec>, comp: Option<string>, occurs: Option<nat>,
      target: Option<string>, a: nat, b: nat, c: nat)
    requires ClausesAt(s, pic, comp, occurs, target, a, b, c) && IsClauses(pic, comp, occurs, target)
    ensures Located(s, CompClause, if comp.Some? then a + 1 else |s| + 1, if comp.Some? then Some(Text(comp.value)) else None)
  {
    if comp.Some? {
      CompFound(s, pic, comp, occurs, target, a, b, c);
    } else {
      CompAbsent(s, pic, comp, occurs, target, a, b, c);
    }
  }

  /** The OCCURS search, located at its keyword or found to match nowhere. */
  lemma OccursLocated(s: string, pic: Option<PictureSpec>, comp: Option<string>, occurs: Option<nat>,
      target: Option<string>, a: nat, b: nat, c: nat)
    requires ClausesAt(s, pic, comp, occurs, target, a, b, c) && IsClauses(pic, comp, occurs, target)
    ensures Located(s, OccursClause, if occurs.Some? then b + 1 else c, if occurs.Some? then Some(Count(occurs.value)) else None)
  {
    if occurs.Some? {
      OccursFound(s, pic, comp, occurs, target, a, b, c);
    } else {
      OccursAbsent(s, pic, comp, occurs, target, a, b, c);
    }
  }

  /** The REDEFINES search, located at its keyword or found to match nowhere. */
  lemma RedefinesLocated(s: string, pic: Option<PictureSpec>, comp: Option<string>, occurs: Option<nat>,
      target: Option<string>, a: nat, b: nat, c: nat)
    requires ClausesAt(s, pic, comp, occurs, target, a, b, c) && IsClauses(pic, comp, occurs, target)
    ensures Located(s, RedefinesClause, if target.Some? then c + 1 else |s| + 1, if target.Some? then Some(Text(target.value)) else None)
  {
    if target.Some? {
      RedefinesFound(s, pic, comp, occurs, target, a, b, c);
    } else {
      RedefinesAbsent(s, pic, comp, occurs, target, a, b, c);
    }
  }

  /** The four searches over clauses written in `s`, each finding its own clause. */
  lemma SearchesAt(s: string, pic: Option<PictureSpec>, comp: Option<string>, occurs: Option<nat>,
      target: Option<string>, a: nat, b: nat, c: nat)
    requires ClausesAt(s, pic, comp, occurs, target, a, b, c)
    requires IsClauses(pic, comp, occurs, target)
    ensures Search(s, PictureClause, 0) == (if pic.Some? then Some(PictureCapture(pic.value)) else None)
    ensures Search(s, CompClause, 0) == (if comp.Some? then Some(Text(comp.value)) else None)
    ensures Search(s, OccursClause, 0) == (if occurs.Some? then Some(Count(occurs.value)) else None)
    ensures Search(s, RedefinesClause, 0) == (if target.Some? then Some(Text(target.value)) else None)
  {
    PictureLocated(s, pic, comp, occurs, target, a, b, c);
    LocatedSearch(s, PictureClause, if pic.Some? then 1 else c, if pic.Some? then Some(PictureCapture(pic.value)) else None);
    CompLocated(s, pic, comp, occurs, target, a, b, c);
    LocatedSearch(s, CompClause, if comp.Some? then a + 1 else |s| + 1, if comp.Some? then Some(Text(comp.value)) else None);
    OccursLocated(s, pic, comp, occurs, target, a, b, c);
    LocatedSearch(s, OccursClause, if occurs.Some? then b + 1 else c, if occurs.Some? then Some(Count(occurs.value)) else None);
    RedefinesLocated(s, pic, comp, occurs, target, a, b, c);
    LocatedSearch(s, RedefinesClause, if target.Some? then c + 1 else |s| + 1, if target.Some? then Some(Text(target.value)) else None);
  }

  /** Each of the four searches of `_parse_line` finds exactly the clause written for it. */
  lemma ClausesSearches(pic: Option<PictureSpec>, comp: Option<string>, occurs: Option<nat>, target: Option<string>)
    requires IsClauses(pic, comp, occurs, target)
    ensures var s := ClausesText(pic, comp, occurs, target);
      && Search(s, PictureClause, 0) == (if pic.Some? then Some(PictureCapture(pic.value)) else None)
      && Search(s, CompClause, 0) == (if comp.Some? then Some(Text(comp.value)) else None)
      && Search(s, OccursClause, 0) == (if occurs.Some? then Some(Count(occurs.value)) else None)
      && Search(s, RedefinesClause, 0) == (if target.Some? then Some(Text(target.value)) else None)
  {
    var a, b, c := PartsAt(pic, comp, occurs, target);
    SearchesAt(ClausesText(pic, comp, occurs, target), pic, comp, occurs, target, a, b, c);
  }

  lemma CompWordUpper(w: string)
    requires IsCompWord(w)
    ensures Upper(w) == w
  {
    UpperIdentity(w);
  }

  /** The picture `_parse_line` rebuilds from what the picture and usage searches found. */
  lemma PictureRebuilt(s: string, pic: Option<PictureSpec>, comp: Option<string>)
    requires pic.Some? ==> IsPictureSpec(pic.value)
    requires comp.Some? ==> IsCompWord(comp.value)
    requires Search(s, PictureClause, 0) == (if pic.Some? then Some(PictureCapture(pic.value)) else None)
    requires Search(s, CompClause, 0) == (if comp.Some? then Some(Text(comp.value)) else None)
    ensures RebuildPicture(s) == (if pic.Some? then Some("PIC " + PictureText(pic.value) + CompPart(comp)) else None)
  {
    if pic.Some? {
      RebuiltPicture(pic.value);
    }
    if comp.Some? {
      CompWordUpper(comp.value);
    }
  }

  /** The clauses of a field line, read back by the searches `_parse_line` makes. */
  lemma ClausesRead(pic: Option<PictureSpec>, comp: Option<string>, occurs: Option<nat>, target: Option<string>)
    requires IsClauses(pic, comp, occurs, target)
    ensures var s := ClausesText(pic, comp, occurs, target);
      && RebuildPicture(s) == (if pic.Some? then Some("PIC " + PictureText(pic.value) + CompPart(comp)) else None)
      && Search(s, OccursClause, 0) == (if occurs.Some? then Some(Count(occurs.value)) else None)
      && FoundText(Search(s, RedefinesClause, 0)) == (if target.Some? then Some(Upper(target.value)) else None)
  {
    var s := ClausesText(pic, comp, occurs, target);
    ClausesSearches(pic, comp, occurs, target);
    PictureRebuilt(s, pic, comp);
  }

  /** A level, a blank, a name and plain clauses make a plain line body. */
  lemma PlainBody(hi: char, lo: char, name: string, rest: string)
    requires IsDigit(hi) && IsDigit(lo) && IsNameText(name) && Plain(rest)
    ensures Plain([hi, lo] + " " + name + rest)
  {
    var body := [hi, lo] + " " + name + rest;
    forall k | 0 <= k < |body| ensures body[k] != '.' && body[k] != '\n' {
      if 3 <= k < 3 + |name| {
        assert body[k] == name[k - 3];
      } else if 3 + |name| <= k {
        assert body[k] == rest[k - 3 - |name|];
      }
    }
  }

  /** The closing period of a plain body is all that stripping periods removes. */
  lemma PeriodStripped(body: string)
    requires Plain(body)
    ensures RStripChar(body + ".", '.') == body && '\n' !in body + "."
  {
    var line := body + ".";
    assert line[..|body|] == body;
    var r := RStripChar(line, '.');
    assert r == RStripChar(body, '.');
    assert body == [] || body[|body| - 1] != '.';
  }

  /** `_parse_line` on a line whose level pattern matched: the field it builds from the rest. */
  lemma ParsedFrom(body: string, level: nat, name: string, rest: string)
    requires Plain(body) && MatchLevel(body) == Some((level, name, rest))
    ensures '\n' !in body + "."
    ensures ParseLine(body + ".") == FieldOf(level, name, rest)
  {
    PeriodStripped(body);
  }

  /** The level and name at the head of a field line, and a body free of periods and line breaks. */
  lemma LineHead(hi: char, lo: char, name: string, rest: string) returns (body: string, level: nat)
    requires IsDigit(hi) && IsDigit(lo) && IsNameText(name) && Plain(rest) && BlankFirst(rest)
    ensures body == [hi, lo] + " " + name + rest && Plain(body)
    ensures level == LevelOf(hi, lo)
    ensures MatchLevel(body) == Some((level, name, rest))
  {
    body := [hi, lo] + " " + name + rest;
    PlainBody(hi, lo, name, rest);
    level := LevelRead(body, hi, lo, name, rest);
  }

  /** A field line read back, for any clause text that holds no period or line break and starts with a blank. */
  lemma LineFrom(hi: char, lo: char, name: string, rest: string) returns (level: nat)
    requires IsDigit(hi) && IsDigit(lo) && IsNameText(name) && Plain(rest) && BlankFirst(rest)
    ensures level == LevelOf(hi, lo)
    ensures var line := [hi, lo] + " " + name + rest + ".";
      '\n' !in line && ParseLine(line) == FieldOf(level, name, rest)
  {
    var body;
    body, level := LineHead(hi, lo, name, rest);
    ParsedFrom(body, level, name, rest);
  }

  /** The field `_parse_line` builds once the searches have found the clauses of a line. */
  lemma FieldFrom(level: nat, name: string, rest: string, pic: Option<PictureSpec>, comp: Option<string>,
                  occurs: Option<nat>, target: Option<string>)
    requires RebuildPicture(rest) == (if pic.Some? then Some("PIC " + PictureText(pic.value) + CompPart(comp)) else None)
    requires Search(rest, OccursClause, 0) == (if occurs.Some? then Some(Count(occurs.value)) else None)
    requires FoundText(Search(rest, RedefinesClause, 0)) == (if target.Some? then Some(Upper(target.value)) else None)
    ensures FieldOf(level, name, rest) == if level == 66 || level == 88 then None else
      Some(CopybookField(Upper(name), level,
        if pic.Some? then Some("PIC " + PictureText(pic.value) + CompPart(comp)) else None,
        0, 0, Upper(name) == "FILLER", pic.None? && Upper(name) != "FILLER",
        if occurs.Some? then occurs.value else 1,
        if target.Some? then Some(Upper(target.value)) else None, None, []))
  {
  }

  /**
    * A field line read back: `_parse_line` gives the level, the upper-cased name, the
    * picture as written with its usage appended, the OCCURS count (1 without one) and the
    * upper-cased REDEFINES target; levels 66 and 88 give no field.
    */
  lemma LineRead(hi: char, lo: char, name: string, pic: Option<PictureSpec>, comp: Option<string>,
                 occurs: Option<nat>, target: Option<string>)
    requires IsDigit(hi) && IsDigit(lo) && IsNameText(name) && IsClauses(pic, comp, occurs, target)
    ensures var level := LevelOf(hi, lo);
      var line := LineText(hi, lo, name, pic, comp, occurs, target);
      && '\n' !in line
      && ParseLine(line) == if level == 66 || level == 88 then None else
        Some(CopybookField(Upper(name), level,
          if pic.Some? then Some("PIC " + PictureText(pic.value) + CompPart(comp)) else None,
          0, 0, Upper(name) == "FILLER", pic.None? && Upper(name) != "FILLER",
          if occurs.Some? then occurs.value else 1,
          if target.Some? then Some(Upper(target.value)) else None, None, []))
  {
    var rest := ClausesText(pic, comp, occurs, target);
    PlainClauses(pic, comp, occurs, target);
    ClausesRead(pic, comp, occurs, target);
    var level := LineFrom(hi, lo, name, rest);
    FieldFrom(level, name, rest, pic, comp, occurs, target);
  }

  function AmountPicture(): PictureSpec { PictureSpec(true, "9", Some(7), Some(Fraction(2, None))) }

  lemma AmountPictureText()
    ensures PictureText(AmountPicture()) == "S9(7)V99"
  {
    assert VsamTypes.Repeat('9', 2) == "99";
    assert CountText(Some(7)) == "(7)";
  }

  lemma AmountClausesText()
    ensures ClausesText(Some(AmountPicture()), Some("COMP-3"), None, None) == " PIC S9(7)V99 COMP-3"
    ensures "PIC " + PictureText(AmountPicture()) + CompPart(Some("COMP-3")) == "PIC S9(7)V99 COMP-3"
  {
    AmountPictureText();
    assert PicPart(Some(AmountPicture())) == " PIC S9(7)V99";
  }

  lemma AmountLineText()
    ensures LineText('0', '5', "AMOUNT", Some(AmountPicture()), Some("COMP-3"), None, None)
      == "05 AMOUNT PIC S9(7)V99 COMP-3."
  {
    AmountClausesText();
    AmountLineGlued();
  }

  lemma AmountLineGlued()
    ensures ['0', '5'] + " " + "AMOUNT" + " PIC S9(7)V99 COMP-3" + "." == "05 AMOUNT PIC S9(7)V99 COMP-3."
  {
    assert ['0', '5'] + " " + "AMOUNT" == "05 AMOUNT";
    assert " PIC S9(7)V99 COMP-3" + "." == " PIC S9(7)V99 COMP-3.";
    assert "05 AMOUNT" + " PIC S9(7)V99 COMP-3." == "05 AMOUNT PIC S9(7)V99 COMP-3.";
  }

  lemma AmountClauses()
    ensures Upper("AMOUNT") == "AMOUNT" && IsClauses(Some(AmountPicture()), Some("COMP-3"), None, None)
  {
    UpperIdentity("AMOUNT");
    assert IsCompWord("COMP-3");
  }

  lemma AmountLineRead()
    ensures ParseLine("05 AMOUNT PIC S9(7)V99 COMP-3.")
      == Some(CopybookField("AMOUNT", 5, Some("PIC S9(7)V99 COMP-3"), 0, 0, false, false, 1, None, None, []))
  {
    AmountLineText();
    AmountClausesText();
    AmountClauses();
    LineRead('0', '5', "AMOUNT", Some(AmountPicture()), Some("COMP-3"), None, None);
  }

  // ---------------------------------------------------------------------------
  // _clean_content
  // ---------------------------------------------------------------------------

  /** `s.split("*")[0]`: the text before the first `*`, all of `s` when there is none. */
  function BeforeStar(s: string): (r: string)
    ensures |r| <= |s| && r == s[..|r|] && '*' !in r
    ensures |r| == |s| || s[|r|] == '*'
  {
    if s == [] || s[0] == '*' then []
    else
      var rest := BeforeStar(s[1..]);
      assert [s[0]] + rest == s[..|rest| + 1];
      [s[0]] + rest
  }

  /** Text without a `*` is kept whole. */
  lemma BeforeStarWhole(s: string)
    requires '*' !in s
    ensures BeforeStar(s) == s
  {
    forall k | 0 <= k < |s|
      ensures s[k] != '*'
    {
      assert s[k] in s;
    }
  }

  /** The emitted statements, and the statement still waiting for its continuation or end. */
  datatype CleanState = CleanState(lines: seq<string>, pending: string)

  /** The statement text of a line: columns 8 to 72 of a line of 7 or more characters, else the whole line. */
  function StatementArea(line: string): (text: string)
  {
    if |line| > 72 then line[7..72]
    else if |line| > 7 then line[7..]
    else if |line| == 7 then []
    else line
  }

  /** The pending statement is emitted when a new statement begins. */
  function Flush(st: CleanState): (lines: seq<string>)
    ensures st.pending == [] ==> lines == st.lines
    ensures st.pending != [] ==> lines == st.lines + [st.pending]
  {
    if st.pending != [] then st.lines + [st.pending] else st.lines
  }

  /**
    * One source line of `_clean_content`: blank lines and comment lines (`*` in column 7)
    * change nothing; a continuation line (`-` in column 7) is appended to the pending
    * statement; any other line first emits the pending statement, then its statement area,
    * cut at the first `*` and stripped, is emitted if it ends with a period and otherwise
    * becomes the pending statement.
    */
  function CleanStep(st: CleanState, line: string): CleanState
  {
    if Strip(line) == [] then st
    else if |line| >= 7 && line[6] == '*' then st
    else if |line| >= 7 && line[6] == '-' then CleanState(st.lines, RStrip(st.pending) + LStrip(line[7..]))
    else StatementStep(st, Statement(line))
  }

  /** The statement a line holds: its statement area, cut at the first `*`, stripped. */
  function Statement(line: string): string {
    Strip(BeforeStar(StatementArea(line)))
  }

  /** A line that is neither blank, a comment nor a continuation, with its statement text. */
  function StatementStep(st: CleanState, statement: string): CleanState
  {
    if statement == [] then CleanState(Flush(st), [])
    else if statement[|statement| - 1] == '.' then CleanState(Flush(st) + [statement], [])
    else CleanState(Flush(st), statement)
  }

  function CleanFold(st: CleanState, lines: seq<string>): CleanState
    decreases |lines|
  {
    if lines == [] then st else CleanFold(CleanStep(st, lines[0]), lines[1..])
  }

  /** What `_clean_content` returns for `content`. */
  function CleanLines(content: string): seq<string>
  {
    Flush(CleanFold(CleanState([], []), Split(content, '\n')))
  }

  /** The body of the `_clean_content` loop: one source line. */
  method CleanLine(lines: seq<string>, current: string, line: string) returns (lines': seq<string>, current': string)
    ensures CleanState(lines', current') == CleanStep(CleanState(lines, current), line)
  {
    lines', current' := lines, current;
    ghost var before := CleanState(lines, current);
    if Strip(line) == [] {
    } else if |line| >= 7 && line[6] == '*' {
    } else if |line| >= 7 && line[6] == '-' {
      current' := RStrip(current) + LStrip(line[7..]);
    } else {
      if current' != [] {
        lines' := lines' + [current'];
        current' := [];
      }
      assert CleanState(lines', current') == CleanState(Flush(before), []);
      var text := Statement(line);
      if text != [] {
        if text[|text| - 1] == '.' {
          lines' := lines' + [text];
        } else {
          current' := text;
        }
      }
      assert CleanState(lines', current') == StatementStep(before, text);
    }
  }

  /** `_clean_content`. */
  method CleanContent(content: string) returns (lines: seq<string>)
    ensures lines == CleanLines(content)
    ensures Statements(lines)
    ensures |lines| <= |Split(content, '\n')|
  {
    var sourceLines := Split(content, '\n');
    lines := [];
    var current := [];
    var i := 0;
    while i < |sourceLines|
      invariant 0 <= i <= |sourceLines|
      invariant CleanFold(CleanState(lines, current), sourceLines[i..]) == CleanFold(CleanState([], []), sourceLines)
    {
      assert sourceLines[i..][1..] == sourceLines[i + 1..];
      lines, current := CleanLine(lines, current, sourceLines[i]);
      i := i + 1;
    }
    if current != [] {
      lines := lines + [current];
    }
    CleanLinesWellFormed(content);
  }

  /** The statements are non-empty and free of line breaks, and no more than the source lines. */
  predicate WellFormed(st: CleanState, count: nat) {
    && (forall k :: 0 <= k < |st.lines| ==> st.lines[k] != [] && '\n' !in st.lines[k])
    && '\n' !in st.pending
    && |st.lines| + (if st.pending != [] then 1 else 0) <= count
  }

  /** A character that is not in `s` is in no slice of it. */
  lemma NotInSlice(s: string, c: char, a: nat, b: nat)
    requires a <= b <= |s| && c !in s
    ensures c !in s[a..b]
  {
    assert forall k :: 0 <= k < b - a ==> s[a..b][k] == s[a + k];
  }

  /** Stripping keeps a text free of line breaks. */
  lemma StripNoBreak(s: string)
    requires '\n' !in s
    ensures '\n' !in LStrip(s) && '\n' !in RStrip(s) && '\n' !in Strip(s)
  {
    var l := LStrip(s);
    NotInSlice(s, '\n', |s| - |l|, |s|);
    NotInSlice(s, '\n', 0, |RStrip(s)|);
    NotInSlice(l, '\n', 0, |RStrip(l)|);
  }

  /** The statement of a line without line breaks has none either. */
  lemma StatementNoBreak(line: string)
    requires '\n' !in line
    ensures '\n' !in Statement(line)
  {
    var area := StatementArea(line);
    if |line| > 72 { NotInSlice(line, '\n', 7, 72); }
    else if |line| > 7 { NotInSlice(line, '\n', 7, |line|); }
    var b := BeforeStar(area);
    NotInSlice(area, '\n', 0, |b|);
    StripNoBreak(b);
  }

  lemma CleanStepWellFormed(st: CleanState, line: string, count: nat)
    requires WellFormed(st, count) && '\n' !in line
    ensures WellFormed(CleanStep(st, line), count + 1)
  {
    if Strip(line) == [] || (|line| >= 7 && line[6] == '*') {
    } else if |line| >= 7 && line[6] == '-' {
      StripNoBreak(st.pending);
      NotInSlice(line, '\n', 7, |line|);
      StripNoBreak(line[7..]);
    } else {
      StatementNoBreak(line);
      StatementStepWellFormed(st, Statement(line), count);
    }
  }

  lemma StatementStepWellFormed(st: CleanState, statement: string, count: nat)
    requires WellFormed(st, count) && '\n' !in statement
    ensures WellFormed(StatementStep(st, statement), count + 1)
  {
  }

  lemma {:induction false} CleanFoldWellFormed(st: CleanState, lines: seq<string>, count: nat)
    requires WellFormed(st, count)
    requires forall k :: 0 <= k < |lines| ==> '\n' !in lines[k]
    ensures WellFormed(CleanFold(st, lines), count + |lines|)
    decreases |lines|
  {
    if lines != [] {
      CleanStepWellFormed(st, lines[0], count);
      CleanFoldWellFormed(CleanStep(st, lines[0]), lines[1..], count + 1);
    }
  }

  /**
    * Every cleaned line is a non-empty statement without line breaks, and there are no
    * more of them than source lines.
    */
  lemma CleanLinesWellFormed(content: string)
    ensures var lines := CleanLines(content);
      && (forall k :: 0 <= k < |lines| ==> lines[k] != [] && '\n' !in lines[k])
      && |lines| <= |Split(content, '\n')|
  {
    CleanFoldWellFormed(CleanState([], []), Split(content, '\n'), 0);
  }

  /** A comment line leaves the statements as they are. */
  lemma CommentLineIgnored(st: CleanState, line: string)
    requires |line| >= 7 && line[6] == '*'
    ensures CleanStep(st, line) == st
  {
  }

  lemma TwoStatements(st: CleanState, first: string, second: string)
    requires st.pending == [] && first != [] && first[|first| - 1] != '.'
    requires second != [] && second[|second| - 1] == '.'
    ensures StatementStep(StatementStep(st, first), second) == CleanState(st.lines + [first, second], [])
  {
    assert st.lines + [first] + [second] == st.lines + [first, second];
  }

  /** A line that is neither blank, a comment nor a continuation. */
  predicate StatementLine(line: string) {
    Strip(line) != [] && !(|line| >= 7 && (line[6] == '*' || line[6] == '-'))
  }

  /**
    * A statement that does not end with a period is not joined to the statement on the
    * next line: the two come out as two statements.
    */
  lemma StatementsNotJoined(st: CleanState, first: string, second: string)
    requires st.pending == [] && StatementLine(first) && StatementLine(second)
    requires Statement(first) != [] && Statement(first)[|Statement(first)| - 1] != '.'
    requires Statement(second) != [] && Statement(second)[|Statement(second)| - 1] == '.'
    ensures CleanStep(CleanStep(st, first), second) == CleanState(st.lines + [Statement(first), Statement(second)], [])
  {
    TwoStatements(st, Statement(first), Statement(second));
  }

  /**
    * A statement line as the "multi-line statements" handling means it: a statement without
    * its closing period is held, and the next statement is joined to it with a space until
    * one ends with a period.
    */
  function StatementStepJoined(st: CleanState, statement: string): CleanState
  {
    if statement == [] then st
    else
      var joined := if st.pending == [] then statement else st.pending + " " + statement;
      if joined[|joined| - 1] == '.' then CleanState(st.lines + [joined], [])
      else CleanState(st.lines, joined)
  }

  /** With the joining step, a statement split over two lines comes out as one statement. */
  lemma StatementsJoined(st: CleanState, first: string, second: string)
    requires st.pending == [] && first != [] && first[|first| - 1] != '.'
    requires second != [] && second[|second| - 1] == '.'
    ensures StatementStepJoined(StatementStepJoined(st, first), second) == CleanState(st.lines + [first + " " + second], [])
  {
    var joined := first + " " + second;
    assert joined[|joined| - 1] == second[|second| - 1];
  }

  /** With the joining step, a statement held open is never emitted before its period. */
  lemma JoinedHeldUntilPeriod(st: CleanState, statement: string)
    requires statement != []
    ensures var next := StatementStepJoined(st, statement);
      next.pending != [] <==> next.lines == st.lines
    ensures var next := StatementStepJoined(st, statement);
      next.pending == [] ==>
        && |next.lines| == |st.lines| + 1 && next.lines[..|st.lines|] == st.lines
        && next.lines[|st.lines|] != [] && next.lines[|st.lines|][|next.lines[|st.lines|]| - 1] == '.'
  {
  }

  // ---------------------------------------------------------------------------
  // parse_content: the record layout
  // ---------------------------------------------------------------------------

  /** Cleaned lines: non-empty statements without line breaks. */
  predicate Statements(lines: seq<string>) {
    forall k :: 0 <= k < |lines| ==> lines[k] != [] && '\n' !in lines[k]
  }

  /** The fields the first `n` lines declare, in order, before they are laid out. */
  function Declared(lines: seq<string>, n: nat): (fields: seq<CopybookField>)
    requires Statements(lines) && n <= |lines|
    ensures |fields| <= n
  {
    if n == 0 then []
    else Declared(lines, n - 1) + match ParseLine(lines[n - 1]) case Some(f) => [f] case None => []
  }

  /** The bytes the elementary items among `items` occupy, occurrences included. */
  function ElementarySize(items: seq<CopybookField>): nat
  {
    if items == [] then 0
    else
      var last := items[|items| - 1];
      ElementarySize(items[..|items| - 1]) + if last.IsElementary() then last.TotalLength() else 0
  }

  /** A field with its layout (length, offset, parent and children) forgotten. */
  function Unplaced(f: CopybookField): CopybookField {
    f.(length := 0, offset := 0, parent := None, children := [])
  }

  /**
    * The offset a field gets before REDEFINES is looked at: the running offset, except that
    * a field under a parent that is neither a group nor elementary (a FILLER without a
    * picture) keeps offset 0.
    */
  function PlainOffset(f: CopybookField, running: nat): nat {
    if f.parent.Some? && !f.isGroup && !f.IsElementary() then 0 else running
  }

  /** The index of the last field named `name`. */
  function LastIndex(fields: seq<CopybookField>, name: string): (r: Option<nat>)
    ensures r.Some? ==> r.value < |fields| && fields[r.value].name == name
    ensures r.Some? ==> forall k :: r.value < k < |fields| ==> fields[k].name != name
    ensures r.None? ==> forall k :: 0 <= k < |fields| ==> fields[k].name != name
  {
    if fields == [] then None
    else if fields[|fields| - 1].name == name then Some(|fields| - 1)
    else LastIndex(fields[..|fields| - 1], name)
  }

  /** `for f in reversed(fields): if f.name == name: ... break`. */
  method LastNamed(fields: seq<CopybookField>, name: string) returns (r: Option<nat>)
    ensures r.Some? ==> r.value < |fields| && fields[r.value].name == name
    ensures r.Some? ==> forall k :: r.value < k < |fields| ==> fields[k].name != name
    ensures r.None? ==> forall k :: 0 <= k < |fields| ==> fields[k].name != name
  {
    var i := |fields|;
    while i > 0
      invariant 0 <= i <= |fields|
      invariant forall k :: i <= k < |fields| ==> fields[k].name != name
    {
      i := i - 1;
      if fields[i].name == name {
        return Some(i);
      }
    }
    return None;
  }

  /** An entry of the parent stack: a group's level, name and offset. */
  datatype StackEntry = StackEntry(level: nat, name: string, offset: nat)

  /** `while parent_stack and parent_stack[-1][0] >= level: parent_stack.pop()`. */
  method PopParents(stack: seq<StackEntry>, level: nat) returns (rest: seq<StackEntry>)
    ensures PoppedTo(stack, rest, level)
  {
    rest := stack;
    while rest != [] && rest[|rest| - 1].level >= level
      invariant |rest| <= |stack| && rest == stack[..|rest|]
      invariant forall k :: |rest| <= k < |stack| ==> stack[k].level >= level
    {
      rest := rest[..|rest| - 1];
    }
  }

  /** The fields that are kept in the output: all of them, or all but FILLER. */
  predicate Kept(f: CopybookField, ignoreFillers: bool) { !(ignoreFillers && f.isFiller) }

  /** The fields are the declared ones, in order, with a layout. */
  predicate DeclaredAs(items: seq<CopybookField>, declared: seq<CopybookField>) {
    |items| == |declared| && forall i :: 0 <= i < |items| ==> Unplaced(items[i]) == declared[i]
  }

  /**
    * The storage length of a picture, or why it cannot be computed: the parser's type
    * converter, which `parse_content` uses as `VsamTypes.GetStorageBytes`.
    */
  type StorageBytes = string -> Result<nat, VsamTypes.PicError>

  /**
    * An item's layout, given the size of the elementary items before it: an elementary item
    * has the storage length of its picture, any other item length 0, and an item that does
    * not redefine another has its plain offset.
    */
  predicate ItemLaidOut(f: CopybookField, running: nat, storage: StorageBytes) {
    && (if f.IsElementary() then storage(f.picClause.value) == Ok(f.length) else f.length == 0)
    && (f.redefines.None? ==> f.offset == PlainOffset(f, running))
  }

  predicate LaidOut(items: seq<CopybookField>, storage: StorageBytes) {
    forall i :: 0 <= i < |items| ==> ItemLaidOut(items[i], ElementarySize(items[..i]), storage)
  }

  /**
    * The output `fields` are the kept `items`, in order: `origin[k]` is the item the k-th
    * field is (apart from its children), and an item is output exactly when it is kept.
    */
  predicate Outputs(fields: seq<CopybookField>, origin: seq<nat>, items: seq<CopybookField>, ignoreFillers: bool) {
    && |origin| == |fields|
    && (forall k :: 0 <= k < |fields| ==> origin[k] < |items| && fields[k].(children := []) == items[origin[k]].(children := []))
    && (forall k, m :: 0 <= k < m < |fields| ==> origin[k] < origin[m])
    && (forall i :: 0 <= i < |items| ==> (i in origin <==> Kept(items[i], ignoreFillers)))
  }

  /**
    * Group `q` is still open when the item at `i` is declared: every item between them is
    * at a deeper level than `q`, so none of them closed it.
    */
  predicate OpenAt(items: seq<CopybookField>, q: nat, i: nat)
    requires q < i <= |items|
  {
    items[q].isGroup && forall j :: q < j < i ==> items[j].level > items[q].level
  }

  /** Group `q` encloses a field of the given level declared at `i`: still open, and shallower. */
  predicate Encloses(items: seq<CopybookField>, q: nat, i: nat, level: nat)
    requires q < i <= |items|
  {
    OpenAt(items, q, i) && items[q].level < level
  }

  /**
    * The parent link of item `i`: `p` is its parent's index, the nearest earlier group that
    * encloses it, whose name the item records; `p` is -1, and the item has no parent,
    * exactly when no earlier group encloses it.
    */
  predicate ParentLink(items: seq<CopybookField>, i: nat, p: int)
    requires i < |items|
  {
    if p < 0 then p == -1 && items[i].parent.None? && forall q :: 0 <= q < i ==> !Encloses(items, q, i, items[i].level)
    else
      && p < i && Encloses(items, p, i, items[i].level) && items[i].parent == Some(items[p].name)
      && forall q :: p < q < i ==> !Encloses(items, q, i, items[i].level)
  }

  predicate ParentLinks(items: seq<CopybookField>, parents: seq<int>) {
    |parents| == |items| && forall i :: 0 <= i < |items| ==> ParentLink(items, i, parents[i])
  }

  /**
    * The parent stack holds the level, name and offset of the groups `open` indexes, in
    * the order they were declared, with levels rising from the bottom.
    */
  predicate StackOf(stack: seq<StackEntry>, open: seq<nat>, items: seq<CopybookField>) {
    && |open| == |stack|
    && (forall k :: 0 <= k < |stack| ==>
      && open[k] < |items| && items[open[k]].isGroup
      && stack[k] == StackEntry(items[open[k]].level, items[open[k]].name, items[open[k]].offset))
    && (forall k, m :: 0 <= k < m < |stack| ==> open[k] < open[m] && stack[k].level < stack[m].level)
  }

  /** The parent stack after the items: exactly the groups still open after the last of them. */
  predicate OpenGroups(stack: seq<StackEntry>, open: seq<nat>, items: seq<CopybookField>) {
    && StackOf(stack, open, items)
    && forall g :: 0 <= g < |items| ==> (g in open <==> OpenAt(items, g, |items|))
  }

  /** The stack once popped for a field of the given level: the open groups shallower than it. */
  predicate OpenBelow(stack: seq<StackEntry>, open: seq<nat>, items: seq<CopybookField>, level: nat) {
    && StackOf(stack, open, items)
    && forall g :: 0 <= g < |items| ==> (g in open <==> Encloses(items, g, |items|, level))
  }

  /** `rest` is `stack` popped down to the entries below `level`. */
  predicate PoppedTo(stack: seq<StackEntry>, rest: seq<StackEntry>, level: nat) {
    && |rest| <= |stack| && rest == stack[..|rest|]
    && (rest == [] || rest[|rest| - 1].level < level)
    && forall k :: |rest| <= k < |stack| ==> stack[k].level >= level
  }

  /** Item `i`'s parent link is unaffected by what is declared after it. */
  lemma ParentLinkKept(items: seq<CopybookField>, f: CopybookField, i: nat, p: int)
    requires i < |items| && ParentLink(items, i, p)
    ensures ParentLink(items + [f], i, p)
  {
    var next := items + [f];
    forall q | 0 <= q < i
      ensures Encloses(next, q, i, next[i].level) == Encloses(items, q, i, items[i].level)
    {
      assert OpenAt(next, q, i) == OpenAt(items, q, i) by {
        assert forall j :: q < j < i ==> next[j] == items[j];
      }
    }
  }

  /** An item has at most one parent link: the nearest enclosing group, or none. */
  lemma ParentUnique(items: seq<CopybookField>, i: nat, p: int, p': int)
    requires i < |items| && ParentLink(items, i, p) && ParentLink(items, i, p')
    ensures p == p'
  {
  }

  /**
    * `01 A.`, `05 B.`, `10 C PIC X.` and `05 D PIC X.`: C belongs to B, the nearest open
    * group, and D to A, since D's level closes B.
    */
  lemma NestedParents(items: seq<CopybookField>, parents: seq<int>)
    requires |items| == 4 && ParentLinks(items, parents)
    requires items[0].isGroup && items[1].isGroup && !items[2].isGroup && !items[3].isGroup
    requires items[0].level == 1 && items[1].level == 5 && items[2].level == 10 && items[3].level == 5
    ensures parents == [-1, 0, 1, 0]
    ensures items[0].parent.None? && items[1].parent == Some(items[0].name)
    ensures items[2].parent == Some(items[1].name) && items[3].parent == Some(items[0].name)
  {
    assert ParentLink(items, 0, parents[0]);
    assert ParentLink(items, 1, parents[1]) && Encloses(items, 0, 1, 5);
    assert ParentLink(items, 2, parents[2]) && Encloses(items, 1, 2, 10);
    assert ParentLink(items, 3, parents[3]) && Encloses(items, 0, 3, 5);
    assert !Encloses(items, 1, 3, 5) && !Encloses(items, 2, 3, 5);
  }

  lemma ParentLinksStep(items: seq<CopybookField>, parents: seq<int>, f: CopybookField, p: int)
    requires ParentLinks(items, parents) && ParentLink(items + [f], |items|, p)
    ensures ParentLinks(items + [f], parents + [p])
  {
    forall i | 0 <= i < |items|
      ensures ParentLink(items + [f], i, parents[i])
    {
      ParentLinkKept(items, f, i, parents[i]);
    }
  }

  /** Popping the stack for a field of some level leaves exactly the open groups shallower than it. */
  lemma PoppedBelow(stack: seq<StackEntry>, open: seq<nat>, items: seq<CopybookField>, rest: seq<StackEntry>, level: nat)
    requires OpenGroups(stack, open, items) && PoppedTo(stack, rest, level)
    ensures OpenBelow(rest, open[..|rest|], items, level)
  {
    var m := |rest|;
    forall g | 0 <= g < |items|
      ensures g in open[..m] <==> Encloses(items, g, |items|, level)
    {
      if g in open[..m] {
        var k :| 0 <= k < m && open[k] == g;
        assert stack[k].level <= rest[m - 1].level;
      }
      if Encloses(items, g, |items|, level) {
        assert g in open;
        var k :| 0 <= k < |open| && open[k] == g;
        assert open[..m][k] == g;
      }
    }
  }

  /** The parent the popped stack gives is the nearest enclosing group, or none. */
  lemma TopIsParent(stack: seq<StackEntry>, open: seq<nat>, items: seq<CopybookField>, f: CopybookField)
    requires OpenBelow(stack, open, items, f.level)
    requires f.parent == if stack != [] then Some(stack[|stack| - 1].name) else None
    ensures ParentLink(items + [f], |items|, if open != [] then open[|open| - 1] else -1)
  {
    var next := items + [f];
    forall q | 0 <= q < |items|
      ensures Encloses(next, q, |items|, f.level) == Encloses(items, q, |items|, f.level)
    {
      assert OpenAt(next, q, |items|) == OpenAt(items, q, |items|) by {
        assert forall j :: q < j < |items| ==> next[j] == items[j];
      }
    }
    if open != [] {
      var p := open[|open| - 1];
      assert p in open;
      forall q | p < q < |items|
        ensures !Encloses(items, q, |items|, f.level)
      {
        assert q !in open;
      }
    } else {
      forall q | 0 <= q < |items|
        ensures !Encloses(items, q, |items|, f.level)
      {
        assert q !in open;
      }
    }
  }

  /** A group stays open past one more item exactly when that item is deeper. */
  lemma OpenAtNext(items: seq<CopybookField>, f: CopybookField, g: nat)
    requires g < |items|
    ensures OpenAt(items + [f], g, |items| + 1) == Encloses(items, g, |items|, f.level)
  {
    var next := items + [f];
    assert forall j :: g < j < |items| ==> next[j] == items[j];
    assert next[|items|] == f && next[g] == items[g];
  }

  /** The stack still describes its groups once one more item is declared. */
  lemma StackOfNext(stack: seq<StackEntry>, open: seq<nat>, items: seq<CopybookField>, f: CopybookField)
    requires StackOf(stack, open, items)
    ensures StackOf(stack, open, items + [f])
  {
    assert forall k :: 0 <= k < |stack| ==> (items + [f])[open[k]] == items[open[k]];
  }

  /** Pushing a group deeper than every open one keeps the stack describing its groups. */
  lemma StackOfPush(stack: seq<StackEntry>, open: seq<nat>, items: seq<CopybookField>, f: CopybookField)
    requires StackOf(stack, open, items + [f]) && f.isGroup
    requires forall k :: 0 <= k < |stack| ==> open[k] < |items| && stack[k].level < f.level
    ensures StackOf(stack + [StackEntry(f.level, f.name, f.offset)], open + [|items|], items + [f])
  {
  }

  /** Declaring `f` on the popped stack, and pushing it when it is a group, leaves the groups open after it. */
  lemma OpenGroupsAfter(stack: seq<StackEntry>, open: seq<nat>, items: seq<CopybookField>, f: CopybookField)
    requires OpenBelow(stack, open, items, f.level)
    ensures f.isGroup ==>
      OpenGroups(stack + [StackEntry(f.level, f.name, f.offset)], open + [|items|], items + [f])
    ensures !f.isGroup ==> OpenGroups(stack, open, items + [f])
  {
    var next := items + [f];
    var open' := if f.isGroup then open + [|items|] else open;
    StackOfNext(stack, open, items, f);
    forall g | 0 <= g < |next|
      ensures g in open' <==> OpenAt(next, g, |next|)
    {
      if g < |items| {
        OpenAtNext(items, f, g);
        assert g in open' <==> g in open;
      }
    }
    if f.isGroup {
      forall k | 0 <= k < |stack|
        ensures open[k] < |items| && stack[k].level < f.level
      {
        assert open[k] in open;
      }
      StackOfPush(stack, open, items, f);
    }
  }

  lemma DeclaredAsAppend(items: seq<CopybookField>, declared: seq<CopybookField>, f: CopybookField)
    requires DeclaredAs(items, declared)
    ensures DeclaredAs(items + [f], declared + [Unplaced(f)])
  {
  }

  lemma LaidOutStep(items: seq<CopybookField>, f: CopybookField, storage: StorageBytes)
    requires LaidOut(items, storage) && ItemLaidOut(f, ElementarySize(items), storage)
    ensures LaidOut(items + [f], storage)
    ensures ElementarySize(items + [f]) == ElementarySize(items) + if f.IsElementary() then f.TotalLength() else 0
  {
    var next := items + [f];
    assert next[..|items|] == items;
    forall i | 0 <= i < |items|
      ensures next[..i] == items[..i]
    {
    }
  }

  lemma OutputsKeep(fields: seq<CopybookField>, origin: seq<nat>, items: seq<CopybookField>, f: CopybookField, ignoreFillers: bool)
    requires Outputs(fields, origin, items, ignoreFillers) && Kept(f, ignoreFillers)
    ensures Outputs(fields + [f], origin + [|items|], items + [f], ignoreFillers)
  {
  }

  lemma OutputsDrop(fields: seq<CopybookField>, origin: seq<nat>, items: seq<CopybookField>, f: CopybookField, ignoreFillers: bool)
    requires Outputs(fields, origin, items, ignoreFillers) && !Kept(f, ignoreFillers)
    ensures Outputs(fields, origin, items + [f], ignoreFillers)
  {
  }

  lemma OutputsChild(fields: seq<CopybookField>, origin: seq<nat>, items: seq<CopybookField>, p: nat, children: seq<string>, ignoreFillers: bool)
    requires Outputs(fields, origin, items, ignoreFillers) && p < |fields|
    ensures Outputs(fields[p := fields[p].(children := children)], origin, items, ignoreFillers)
  {
  }

  /**
    * `for f in reversed(fields): if f.name == parent: f.children.append(child); break`: the
    * child is recorded with the last output field of the parent's name, if there is one.
    */
  method AppendChild(fields: seq<CopybookField>, parent: string, child: string, ignoreFillers: bool,
                     ghost items: seq<CopybookField>, ghost origin: seq<nat>) returns (fields': seq<CopybookField>)
    requires Outputs(fields, origin, items, ignoreFillers)
    ensures Outputs(fields', origin, items, ignoreFillers)
    ensures fields' == WithChild(fields, parent, child)
  {
    fields' := fields;
    var p := LastNamed(fields, parent);
    if p.Some? {
      OutputsChild(fields, origin, items, p.value, fields[p.value].children + [child], ignoreFillers);
      fields' := fields[p.value := fields[p.value].(children := fields[p.value].children + [child])];
    }
  }

  /**
    * The index of the last kept item named `name`: the item behind the output field that a
    * reversed search of the output by name finds.
    */
  function LastKept(items: seq<CopybookField>, name: string, ignoreFillers: bool): (r: Option<nat>)
    ensures r.Some? ==> r.value < |items| && Kept(items[r.value], ignoreFillers) && items[r.value].name == name
    ensures r.Some? ==> forall k :: r.value < k < |items| && Kept(items[k], ignoreFillers) ==> items[k].name != name
    ensures r.None? ==> forall k :: 0 <= k < |items| && Kept(items[k], ignoreFillers) ==> items[k].name != name
  {
    if items == [] then None
    else
      var last := items[|items| - 1];
      if Kept(last, ignoreFillers) && last.name == name then Some(|items| - 1)
      else LastKept(items[..|items| - 1], name, ignoreFillers)
  }

  /** Searching the output by name finds the field of the last kept item of that name. */
  lemma OutputLookup(fields: seq<CopybookField>, origin: seq<nat>, items: seq<CopybookField>, ignoreFillers: bool, name: string)
    requires Outputs(fields, origin, items, ignoreFillers)
    ensures LastIndex(fields, name).None? ==> LastKept(items, name, ignoreFillers).None?
    ensures LastIndex(fields, name).Some? ==> LastKept(items, name, ignoreFillers) == Some(origin[LastIndex(fields, name).value])
  {
    match LastIndex(fields, name)
    case Some(k) => OutputLookupFound(fields, origin, items, ignoreFillers, name, k);
    case None => OutputLookupMissing(fields, origin, items, ignoreFillers, name);
  }

  lemma OutputLookupMissing(fields: seq<CopybookField>, origin: seq<nat>, items: seq<CopybookField>, ignoreFillers: bool,
                            name: string)
    requires Outputs(fields, origin, items, ignoreFillers) && LastIndex(fields, name).None?
    ensures LastKept(items, name, ignoreFillers).None?
  {
    forall j | 0 <= j < |items| && Kept(items[j], ignoreFillers)
      ensures items[j].name != name
    {
      assert j in origin;
      var k :| 0 <= k < |origin| && origin[k] == j;
      assert fields[k].(children := []).name == items[j].(children := []).name;
    }
  }

  lemma OutputLookupFound(fields: seq<CopybookField>, origin: seq<nat>, items: seq<CopybookField>, ignoreFillers: bool,
                          name: string, k: nat)
    requires Outputs(fields, origin, items, ignoreFillers) && LastIndex(fields, name) == Some(k)
    ensures LastKept(items, name, ignoreFillers) == Some(origin[k])
  {
    var j := origin[k];
    assert fields[k].(children := []).name == items[j].(children := []).name;
    assert j in origin;
    forall i | j < i < |items| && Kept(items[i], ignoreFillers)
      ensures items[i].name != name
    {
      var m := OutputAfter(fields, origin, items, ignoreFillers, k, i);
    }
    LastKeptAt(items, name, ignoreFillers, j);
  }

  /** The last kept item of a name is the kept item of that name after which no kept item has it. */
  lemma LastKeptAt(items: seq<CopybookField>, name: string, ignoreFillers: bool, j: nat)
    requires j < |items| && Kept(items[j], ignoreFillers) && items[j].name == name
    requires forall i :: j < i < |items| && Kept(items[i], ignoreFillers) ==> items[i].name != name
    ensures LastKept(items, name, ignoreFillers) == Some(j)
  {
  }

  /** A kept item after the item of the k-th output field is the item of a later output field. */
  lemma OutputAfter(fields: seq<CopybookField>, origin: seq<nat>, items: seq<CopybookField>, ignoreFillers: bool,
                    k: nat, i: nat) returns (m: nat)
    requires Outputs(fields, origin, items, ignoreFillers) && k < |fields|
    requires origin[k] < i < |items| && Kept(items[i], ignoreFillers)
    ensures k < m < |fields| && fields[m].name == items[i].name
  {
    assert i in origin;
    m :| 0 <= m < |origin| && origin[m] == i;
    assert fields[m].(children := []).name == items[i].(children := []).name;
  }

  /**
    * The offset a REDEFINES item gets: that of the last kept item before it with the
    * redefined name, or its plain offset when there is none.
    */
  function OverlayOffset(prefix: seq<CopybookField>, f: CopybookField, ignoreFillers: bool): nat
    requires f.redefines.Some?
  {
    match LastKept(prefix, f.redefines.value, ignoreFillers)
    case Some(j) => prefix[j].offset
    case None => PlainOffset(f, ElementarySize(prefix))
  }

  /** Every item that redefines another is laid over it. */
  predicate Overlaid(items: seq<CopybookField>, ignoreFillers: bool) {
    forall i :: 0 <= i < |items| && items[i].redefines.Some? ==> items[i].offset == OverlayOffset(items[..i], items[i], ignoreFillers)
  }

  lemma OverlaidStep(items: seq<CopybookField>, f: CopybookField, ignoreFillers: bool)
    requires Overlaid(items, ignoreFillers)
    requires f.redefines.Some? ==> f.offset == OverlayOffset(items, f, ignoreFillers)
    ensures Overlaid(items + [f], ignoreFillers)
  {
    var next := items + [f];
    assert next[..|items|] == items;
    forall i | 0 <= i < |items|
      ensures next[..i] == items[..i] && next[i] == items[i]
    {
    }
  }

  /**
    * The names recorded as children of item `j`: in order, each later item whose parent's
    * name, looked up among the kept items before it, leads to `j`.
    */
  function Children(items: seq<CopybookField>, j: nat, ignoreFillers: bool): seq<string>
  {
    if items == [] then []
    else
      var init := items[..|items| - 1];
      var last := items[|items| - 1];
      Children(init, j, ignoreFillers)
        + if last.parent.Some? && LastKept(init, last.parent.value, ignoreFillers) == Some(j) then [last.name] else []
  }

  /** An item has no children among the items before it. */
  lemma {:induction false} NoChildrenYet(items: seq<CopybookField>, j: nat, ignoreFillers: bool)
    requires |items| <= j
    ensures Children(items, j, ignoreFillers) == []
  {
    if items != [] {
      NoChildrenYet(items[..|items| - 1], j, ignoreFillers);
    }
  }

  /** Every output field lists the children of its item. */
  predicate ChildLists(fields: seq<CopybookField>, origin: seq<nat>, items: seq<CopybookField>, ignoreFillers: bool) {
    forall k :: 0 <= k < |fields| && k < |origin| ==> fields[k].children == Children(items, origin[k], ignoreFillers)
  }

  /** The children of `j` once one more item is declared. */
  lemma ChildrenAppend(items: seq<CopybookField>, f: CopybookField, j: nat, ignoreFillers: bool)
    ensures Children(items + [f], j, ignoreFillers) == Children(items, j, ignoreFillers)
      + if f.parent.Some? && LastKept(items, f.parent.value, ignoreFillers) == Some(j) then [f.name] else []
  {
    assert (items + [f])[..|items|] == items;
  }

  /** Recording a child with the output field its parent's name finds keeps every children list. */
  lemma LinkedChildLists(fields: seq<CopybookField>, origin: seq<nat>, items: seq<CopybookField>, f: CopybookField, ignoreFillers: bool)
    requires Outputs(fields, origin, items, ignoreFillers) && ChildLists(fields, origin, items, ignoreFillers)
    ensures ChildLists(if f.parent.Some? then WithChild(fields, f.parent.value, f.name) else fields, origin, items + [f], ignoreFillers)
  {
    var linked := if f.parent.Some? then WithChild(fields, f.parent.value, f.name) else fields;
    var found := if f.parent.Some? then LastIndex(fields, f.parent.value) else None;
    if f.parent.Some? {
      OutputLookup(fields, origin, items, ignoreFillers, f.parent.value);
    }
    forall k | 0 <= k < |linked| && k < |origin|
      ensures linked[k].children == Children(items + [f], origin[k], ignoreFillers)
    {
      ChildrenAppend(items, f, origin[k], ignoreFillers);
      if found == Some(k) {
        assert linked[k].children == fields[k].children + [f.name];
      } else {
        assert linked[k] == fields[k];
        if found.Some? {
          assert origin[found.value] != origin[k];
        }
      }
    }
  }

  /**
    * One more item: it is recorded as a child of the output field of its parent's name, and
    * is output itself, with no children, when it is kept.
    */
  lemma ChildListsStep(fields: seq<CopybookField>, origin: seq<nat>, items: seq<CopybookField>, f: CopybookField, ignoreFillers: bool,
                       linked: seq<CopybookField>, fields': seq<CopybookField>, origin': seq<nat>)
    requires Outputs(fields, origin, items, ignoreFillers) && ChildLists(fields, origin, items, ignoreFillers) && f.children == []
    requires linked == if f.parent.Some? then WithChild(fields, f.parent.value, f.name) else fields
    requires fields' == (if Kept(f, ignoreFillers) then linked + [f] else linked)
    requires origin' == if Kept(f, ignoreFillers) then origin + [|items|] else origin
    ensures ChildLists(fields', origin', items + [f], ignoreFillers)
  {
    LinkedChildLists(fields, origin, items, f, ignoreFillers);
    if Kept(f, ignoreFillers) {
      NoChildrenYet(items, |items|, ignoreFillers);
      ChildrenAppend(items, f, |items|, ignoreFillers);
      forall k | 0 <= k < |fields'| && k < |origin'|
        ensures fields'[k].children == Children(items + [f], origin'[k], ignoreFillers)
      {
        if k < |linked| {
          assert fields'[k] == linked[k] && origin'[k] == origin[k];
        }
      }
    }
  }

  /** The output fields after `child` is recorded with the last field named `parent`. */
  function WithChild(fields: seq<CopybookField>, parent: string, child: string): seq<CopybookField> {
    match LastIndex(fields, parent)
    case Some(j) => fields[j := fields[j].(children := fields[j].children + [child])]
    case None => fields
  }

  /** `if not (self.ignore_fillers and field.is_filler): fields.append(field)`. */
  method Emit(fields: seq<CopybookField>, field: CopybookField, ignoreFillers: bool,
              ghost items: seq<CopybookField>, ghost origin: seq<nat>) returns (fields': seq<CopybookField>, ghost origin': seq<nat>)
    requires Outputs(fields, origin, items, ignoreFillers)
    ensures Outputs(fields', origin', items + [field], ignoreFillers)
    ensures fields' == if Kept(field, ignoreFillers) then fields + [field] else fields
    ensures origin' == if Kept(field, ignoreFillers) then origin + [|items|] else origin
  {
    if Kept(field, ignoreFillers) {
      OutputsKeep(fields, origin, items, field, ignoreFillers);
      fields', origin' := fields + [field], origin + [|items|];
    } else {
      OutputsDrop(fields, origin, items, field, ignoreFillers);
      fields', origin' := fields, origin;
    }
  }

  /**
    * The body of the `parse_content` loop for one declared field, up to the REDEFINES
    * lookup: its parent is the top of the (already popped) stack, it gets the running offset
    * unless it sits under a parent without being a group or elementary, and an elementary
    * field gets the storage length of its picture, or the error of computing it.
    */
  method Place(declared: CopybookField, top: Option<StackEntry>, running: nat, storage: StorageBytes)
    returns (r: Result<CopybookField, VsamTypes.PicError>)
    requires Unplaced(declared) == declared
    ensures r.Err? <==> declared.IsElementary() && storage(declared.picClause.value).Err?
    ensures r.Err? ==> storage(declared.picClause.value) == Err(r.error)
    ensures r.Ok? ==> Unplaced(r.value) == declared && r.value.offset == PlainOffset(r.value, running)
    ensures r.Ok? ==> ItemLaidOut(r.value, running, storage)
    ensures r.Ok? ==> r.value.parent == if top.Some? then Some(top.value.name) else None
    ensures r.Ok? ==> r.value.children == declared.children
    ensures r.Ok? ==> if declared.IsElementary()
      then storage(declared.picClause.value) == Ok(r.value.length) else r.value.length == 0
  {
    var field := declared;
    if top.Some? {
      field := field.(parent := Some(top.value.name));
      if field.isGroup {
        field := field.(offset := running);
      }
    } else {
      field := field.(offset := running);
    }
    if field.IsElementary() {
      var length := storage(field.picClause.value);
      if length.Err? {
        return Err(length.error);
      }
      field := field.(offset := running, length := length.value);
    }
    return Ok(field);
  }

  /** `for f in reversed(fields): if f.name == field.redefines: field.offset = f.offset; break`. */
  method Overlay(field: CopybookField, fields: seq<CopybookField>) returns (placed: CopybookField)
    ensures placed == field.(offset := RedefinedOffset(field, fields))
  {
    placed := field;
    if field.redefines.Some? {
      var target := LastNamed(fields, field.redefines.value);
      if target.Some? {
        placed := field.(offset := fields[target.value].offset);
      }
    }
  }

  /** A REDEFINES overlay moves only the offset of an item that redefines another. */
  lemma OverlayLaidOut(field: CopybookField, fields: seq<CopybookField>, running: nat, storage: StorageBytes)
    requires ItemLaidOut(field, running, storage)
    ensures var placed := field.(offset := RedefinedOffset(field, fields));
      Unplaced(placed) == Unplaced(field) && ItemLaidOut(placed, running, storage)
  {
  }

  /** The offset after the REDEFINES lookup: that of the last earlier field with the redefined name, if any. */
  function RedefinedOffset(field: CopybookField, fields: seq<CopybookField>): nat {
    if field.redefines.None? then field.offset
    else match LastIndex(fields, field.redefines.value)
      case Some(j) => fields[j].offset
      case None => field.offset
  }

  /** The offset the REDEFINES lookup over the output gives is the overlay offset over the items. */
  lemma OverlayFound(placed: CopybookField, fields: seq<CopybookField>, origin: seq<nat>, items: seq<CopybookField>, ignoreFillers: bool)
    requires Outputs(fields, origin, items, ignoreFillers)
    requires placed.redefines.Some? && placed.offset == PlainOffset(placed, ElementarySize(items))
    ensures var f := placed.(offset := RedefinedOffset(placed, fields));
      f.offset == OverlayOffset(items, f, ignoreFillers)
  {
    OutputLookup(fields, origin, items, ignoreFillers, placed.redefines.value);
  }

  /**
    * The running offset advances past an elementary item even when it redefines another:
    * with `A` of 4 bytes at the start, `B REDEFINES A` of 4 bytes and then `C`, the field
    * `C` starts at byte 8, not at byte 4 where the storage `A` and `B` share ends.
    */
  lemma RedefinesAdvances(items: seq<CopybookField>, storage: StorageBytes)
    requires |items| == 3 && LaidOut(items, storage)
    requires forall i :: 0 <= i < 3 ==> items[i].IsElementary() && items[i].parent.None? && items[i].occurs == 1
    requires items[0].length == 4 && items[1].length == 4
    requires items[0].redefines.None? && items[1].redefines == Some(items[0].name) && items[2].redefines.None?
    ensures items[2].offset == 8
    ensures OccupiedSize(items[..2]) == 4
  {
    assert items[..2][..1] == items[..1] && items[..1][..0] == [];
    assert items[..2][1] == items[1] && items[..1][0] == items[0];
    assert OccupiedSize(items[..1]) == 4;
    assert ItemLaidOut(items[2], ElementarySize(items[..2]), storage);
  }

  /** The bytes the elementary items occupy when an item that redefines another takes no room of its own. */
  function OccupiedSize(items: seq<CopybookField>): nat
  {
    if items == [] then 0
    else
      var last := items[|items| - 1];
      OccupiedSize(items[..|items| - 1]) + if last.IsElementary() && last.redefines.None? then last.TotalLength() else 0
  }

  /** An item that redefines another, wherever it stands, adds nothing to the occupied size. */
  lemma {:induction false} OverlayTakesNoRoom(a: seq<CopybookField>, r: CopybookField, b: seq<CopybookField>)
    requires r.redefines.Some?
    ensures OccupiedSize(a + [r] + b) == OccupiedSize(a + b)
  {
    if b == [] {
      assert a + [r] + b == a + [r] && a + b == a;
      OccupiedSnoc(a, r);
    } else {
      var init, x := b[..|b| - 1], b[|b| - 1];
      OverlayTakesNoRoom(a, r, init);
      SnocSplit(a + [r], b);
      SnocSplit(a, b);
      OccupiedSnoc(a + [r] + init, x);
      OccupiedSnoc(a + init, x);
    }
  }

  lemma SnocSplit<T>(p: seq<T>, b: seq<T>)
    requires b != []
    ensures p + b == (p + b[..|b| - 1]) + [b[|b| - 1]]
  {
    assert b == b[..|b| - 1] + [b[|b| - 1]];
  }

  lemma OccupiedSnoc(items: seq<CopybookField>, x: CopybookField)
    ensures OccupiedSize(items + [x]) == OccupiedSize(items) + if x.IsElementary() && x.redefines.None? then x.TotalLength() else 0
  {
    assert (items + [x])[..|items|] == items;
  }

  /**
    * The first half of the `parse_content` loop body: pop the groups the declared field does
    * not belong to, place it under the group left on top, and overlay it on the field it
    * redefines.
    */
  method Settle(declared: CopybookField, fields: seq<CopybookField>, stack: seq<StackEntry>, running: nat, storage: StorageBytes,
                ignoreFillers: bool, ghost items: seq<CopybookField>, ghost origin: seq<nat>, ghost open: seq<nat>)
    returns (r: Result<CopybookField, VsamTypes.PicError>, stack': seq<StackEntry>, ghost open': seq<nat>, ghost parent: int)
    requires Unplaced(declared) == declared
    requires Outputs(fields, origin, items, ignoreFillers)
    requires running == ElementarySize(items)
    requires OpenGroups(stack, open, items)
    ensures PoppedTo(stack, stack', declared.level) && OpenBelow(stack', open', items, declared.level)
    ensures parent == if open' != [] then open'[|open'| - 1] else -1
    ensures r.Err? <==> declared.IsElementary() && storage(declared.picClause.value).Err?
    ensures r.Err? ==> storage(declared.picClause.value) == Err(r.error)
    ensures r.Ok? ==> Unplaced(r.value) == declared && ItemLaidOut(r.value, running, storage) && r.value.children == []
    ensures r.Ok? && r.value.redefines.Some? ==> r.value.offset == OverlayOffset(items, r.value, ignoreFillers)
    ensures r.Ok? ==> ParentLink(items + [r.value], |items|, parent)
    ensures r.Ok? ==> r.value.parent == if stack' != [] then Some(stack'[|stack'| - 1].name) else None
  {
    stack' := PopParents(stack, declared.level);
    open' := open[..|stack'|];
    PoppedBelow(stack, open, items, stack', declared.level);
    parent := if open' != [] then open'[|open'| - 1] else -1;
    var top := if stack' != [] then Some(stack'[|stack'| - 1]) else None;
    var placed := Place(declared, top, running, storage);
    if placed.Err? {
      return Err(placed.error), stack', open', parent;
    }
    var field := Overlay(placed.value, fields);
    OverlayLaidOut(placed.value, fields, running, storage);
    if field.redefines.Some? {
      OverlayFound(placed.value, fields, origin, items, ignoreFillers);
    }
    TopIsParent(stack', open', items, field);
    r := Ok(field);
  }

  /** `parent_field.children.append(field.name)` for the group on top of the stack, if any. */
  method Link(field: CopybookField, fields: seq<CopybookField>, stack: seq<StackEntry>, ignoreFillers: bool,
              ghost items: seq<CopybookField>, ghost origin: seq<nat>) returns (fields': seq<CopybookField>)
    requires Outputs(fields, origin, items, ignoreFillers)
    requires field.parent == if stack != [] then Some(stack[|stack| - 1].name) else None
    ensures Outputs(fields', origin, items, ignoreFillers)
    ensures fields' == if field.parent.Some? then WithChild(fields, field.parent.value, field.name) else fields
  {
    fields' := fields;
    if stack != [] {
      fields' := AppendChild(fields, stack[|stack| - 1].name, field.name, ignoreFillers, items, origin);
    }
  }

  /**
    * The second half of the `parse_content` loop body: record the field among the children
    * of the group on top of the stack, open it if it is a group, advance the running offset
    * past it if it is elementary, and output it unless it is an ignored FILLER.
    */
  method Record(field: CopybookField, fields: seq<CopybookField>, stack: seq<StackEntry>, running: nat, ignoreFillers: bool,
                ghost items: seq<CopybookField>, ghost origin: seq<nat>, ghost open: seq<nat>)
    returns (fields': seq<CopybookField>, stack': seq<StackEntry>, running': nat, ghost origin': seq<nat>, ghost open': seq<nat>)
    requires Outputs(fields, origin, items, ignoreFillers) && ChildLists(fields, origin, items, ignoreFillers)
    requires OpenBelow(stack, open, items, field.level)
    requires field.children == []
    requires field.parent == if stack != [] then Some(stack[|stack| - 1].name) else None
    ensures Outputs(fields', origin', items + [field], ignoreFillers)
    ensures ChildLists(fields', origin', items + [field], ignoreFillers)
    ensures stack' == if field.isGroup then stack + [StackEntry(field.level, field.name, field.offset)] else stack
    ensures OpenGroups(stack', open', items + [field])
    ensures running' == running + if field.IsElementary() then field.TotalLength() else 0
  {
    stack', origin', open' := stack, origin, open;
    running' := running + if field.IsElementary() then field.TotalLength() else 0;
    var linked := Link(field, fields, stack, ignoreFillers, items, origin);
    OpenGroupsAfter(stack, open, items, field);
    if field.isGroup {
      stack', open' := stack + [StackEntry(field.level, field.name, field.offset)], open + [|items|];
    }
    fields', origin' := Emit(linked, field, ignoreFillers, items, origin);
    ChildListsStep(fields, origin, items, field, ignoreFillers, linked, fields', origin');
  }

  /** The body of the `parse_content` loop for one declared field. */
  method Declare(declared: CopybookField, fields: seq<CopybookField>, stack: seq<StackEntry>, running: nat, storage: StorageBytes,
                 ignoreFillers: bool, ghost items: seq<CopybookField>, ghost origin: seq<nat>, ghost open: seq<nat>)
    returns (r: Result<CopybookField, VsamTypes.PicError>, fields': seq<CopybookField>, stack': seq<StackEntry>,
             running': nat, ghost origin': seq<nat>, ghost open': seq<nat>, ghost parent: int)
    requires Unplaced(declared) == declared
    requires Outputs(fields, origin, items, ignoreFillers) && ChildLists(fields, origin, items, ignoreFillers)
    requires LaidOut(items, storage) && running == ElementarySize(items)
    requires OpenGroups(stack, open, items)
    ensures r.Err? <==> declared.IsElementary() && storage(declared.picClause.value).Err?
    ensures r.Err? ==> storage(declared.picClause.value) == Err(r.error)
    ensures r.Ok? ==> Unplaced(r.value) == declared && ParentLink(items + [r.value], |items|, parent)
    ensures r.Ok? ==> OpenGroups(stack', open', items + [r.value])
    ensures r.Ok? ==> Outputs(fields', origin', items + [r.value], ignoreFillers)
    ensures r.Ok? ==> ChildLists(fields', origin', items + [r.value], ignoreFillers)
    ensures r.Ok? ==> LaidOut(items + [r.value], storage) && running' == ElementarySize(items + [r.value])
    ensures r.Ok? && r.value.redefines.Some? ==> r.value.offset == OverlayOffset(items, r.value, ignoreFillers)
  {
    fields', origin', running' := fields, origin, running;
    r, stack', open', parent := Settle(declared, fields, stack, running, storage, ignoreFillers, items, origin, open);
    if r.Err? {
      return;
    }
    LaidOutStep(items, r.value, storage);
    fields', stack', running', origin', open' := Record(r.value, fields, stack', running, ignoreFillers, items, origin, open');
  }

  /** The n-th statement declares an elementary field whose picture has no storage length. */
  predicate FailsAt(lines: seq<string>, n: nat, storage: StorageBytes, error: VsamTypes.PicError)
    requires Statements(lines) && n < |lines|
  {
    match ParseLine(lines[n])
    case Some(f) => f.IsElementary() && storage(f.picClause.value) == Err(error)
    case None => false
  }

  /** `_parse_line` on the n-th statement: what it adds to the declared fields. */
  method ParseStatement(lines: seq<string>, n: nat, storage: StorageBytes) returns (parsed: Option<CopybookField>, next: nat)
    requires Statements(lines) && n < |lines|
    ensures next == n + 1
    ensures parsed.Some? && parsed.value.IsElementary() ==> forall e ::
      storage(parsed.value.picClause.value) == Err(e) ==> FailsAt(lines, n, storage, e)
    ensures Declared(lines, next) == Declared(lines, n) + if parsed.Some? then [parsed.value] else []
    ensures parsed.Some? ==> Unplaced(parsed.value) == parsed.value
  {
    parsed, next := ParseLine(lines[n]), n + 1;
  }

  /**
    * What the `parse_content` loop keeps after `n` statements: the items are the fields the
    * statements declared, laid out, with their parent links; the output holds the kept ones;
    * the running offset is the size of the elementary items; the stack holds open groups.
    */
  predicate Progress(lines: seq<string>, n: nat, storage: StorageBytes, ignoreFillers: bool,
                     fields: seq<CopybookField>, stack: seq<StackEntry>, running: nat,
                     items: seq<CopybookField>, origin: seq<nat>, declared: seq<CopybookField>,
                     open: seq<nat>, parents: seq<int>)
    requires Statements(lines) && n <= |lines|
  {
    && declared == Declared(lines, n) && DeclaredAs(items, declared)
    && Outputs(fields, origin, items, ignoreFillers)
    && LaidOut(items, storage) && running == ElementarySize(items)
    && OpenGroups(stack, open, items) && ParentLinks(items, parents)
    && Overlaid(items, ignoreFillers) && ChildLists(fields, origin, items, ignoreFillers)
  }

  /**
    * One iteration of the `parse_content` loop: the n-th statement declares a field or is
    * skipped. Either the field's picture has no storage length, or the declared fields,
    * the output and the layout all take in the n-th statement.
    */
  method DeclareStatement(lines: seq<string>, n: nat, fields: seq<CopybookField>, stack: seq<StackEntry>, running: nat,
                          storage: StorageBytes, ignoreFillers: bool,
                          ghost items: seq<CopybookField>, ghost origin: seq<nat>, ghost declared: seq<CopybookField>,
                          ghost open: seq<nat>, ghost parents: seq<int>)
    returns (failure: Option<VsamTypes.PicError>, fields': seq<CopybookField>, stack': seq<StackEntry>, running': nat,
             ghost items': seq<CopybookField>, ghost origin': seq<nat>, ghost declared': seq<CopybookField>,
             ghost open': seq<nat>, ghost parents': seq<int>, next: nat)
    requires Statements(lines) && n < |lines|
    requires Progress(lines, n, storage, ignoreFillers, fields, stack, running, items, origin, declared, open, parents)
    ensures next == n + 1
    ensures failure.Some? ==> FailsAt(lines, n, storage, failure.value)
    ensures failure.None? ==>
      Progress(lines, next, storage, ignoreFillers, fields', stack', running', items', origin', declared', open', parents')
  {
    failure, fields', stack', running', items', origin', declared' := None, fields, stack, running, items, origin, declared;
    open', parents' := open, parents;
    var parsed;
    parsed, next := ParseStatement(lines, n, storage);
    if parsed.None? {
      ProgressSkipped(lines, n, next, storage, ignoreFillers, fields, stack, running, items, origin, declared, open, parents);
    } else {
      var placed;
      ghost var parent;
      placed, fields', stack', running', origin', open', parent :=
        Declare(parsed.value, fields, stack, running, storage, ignoreFillers, items, origin, open);
      if placed.Err? {
        return Some(placed.error), fields', stack', running', items', origin', declared', open', parents', next;
      }
      ProgressPlaced(lines, n, next, storage, ignoreFillers, fields, stack, running, items, origin, declared, open, parents,
                     placed.value, fields', stack', running', origin', open', parent);
      items', declared', parents' := items + [placed.value], declared + [parsed.value], parents + [parent];
    }
  }

  /** A statement that declares nothing leaves everything the loop keeps as it was. */
  lemma ProgressSkipped(lines: seq<string>, n: nat, next: nat, storage: StorageBytes, ignoreFillers: bool,
                        fields: seq<CopybookField>, stack: seq<StackEntry>, running: nat,
                        items: seq<CopybookField>, origin: seq<nat>, declared: seq<CopybookField>,
                        open: seq<nat>, parents: seq<int>)
    requires Statements(lines) && n < next <= |lines|
    requires Progress(lines, n, storage, ignoreFillers, fields, stack, running, items, origin, declared, open, parents)
    requires Declared(lines, next) == Declared(lines, n)
    ensures Progress(lines, next, storage, ignoreFillers, fields, stack, running, items, origin, declared, open, parents)
  {
  }

  /** A statement that declares the field `f`, laid out and recorded, extends what the loop keeps by `f`. */
  lemma ProgressPlaced(lines: seq<string>, n: nat, next: nat, storage: StorageBytes, ignoreFillers: bool,
                       fields: seq<CopybookField>, stack: seq<StackEntry>, running: nat,
                       items: seq<CopybookField>, origin: seq<nat>, declared: seq<CopybookField>,
                       open: seq<nat>, parents: seq<int>, f: CopybookField,
                       fields': seq<CopybookField>, stack': seq<StackEntry>, running': nat,
                       origin': seq<nat>, open': seq<nat>, parent: int)
    requires Statements(lines) && n < next <= |lines|
    requires Progress(lines, n, storage, ignoreFillers, fields, stack, running, items, origin, declared, open, parents)
    requires Declared(lines, next) == Declared(lines, n) + [Unplaced(f)]
    requires ParentLink(items + [f], |items|, parent) && OpenGroups(stack', open', items + [f])
    requires Outputs(fields', origin', items + [f], ignoreFillers) && ChildLists(fields', origin', items + [f], ignoreFillers)
    requires LaidOut(items + [f], storage) && running' == ElementarySize(items + [f])
    requires f.redefines.Some? ==> f.offset == OverlayOffset(items, f, ignoreFillers)
    ensures Progress(lines, next, storage, ignoreFillers, fields', stack', running', items + [f], origin',
                     declared + [Unplaced(f)], open', parents + [parent])
  {
    OverlaidStep(items, f, ignoreFillers);
    DeclaredAsAppend(items, declared, f);
    ParentLinksStep(items, parents, f, parent);
  }

  /**
    * `parse_content`. On success, `items` are the declared fields with their layout, and
    * the output keeps them in order, all but FILLER when FILLERs are ignored (`origin[k]`
    * is the item the k-th output field is). Every elementary item has the storage length of
    * its picture, and every item that does not redefine another starts at the total size of
    * the elementary items before it, FILLERs that are not output included. It fails only
    * when the storage length of a picture cannot be computed.
    */
  method ParseContent(content: string, ignoreFillers: bool)
    returns (r: Result<seq<CopybookField>, VsamTypes.PicError>,
             ghost items: seq<CopybookField>, ghost origin: seq<nat>, ghost parents: seq<int>)
    ensures Statements(CleanLines(content))
    ensures r.Ok? ==> DeclaredAs(items, Declared(CleanLines(content), |CleanLines(content)|))
    ensures r.Ok? ==> Outputs(r.value, origin, items, ignoreFillers)
    ensures r.Ok? ==> LaidOut(items, VsamTypes.GetStorageBytes)
    ensures r.Ok? ==> ParentLinks(items, parents)
    ensures r.Ok? ==> Overlaid(items, ignoreFillers) && ChildLists(r.value, origin, items, ignoreFillers)
    ensures r.Err? ==>
      exists n :: 0 <= n < |CleanLines(content)| && FailsAt(CleanLines(content), n, VsamTypes.GetStorageBytes, r.error)
  {
    var lines := CleanContent(content);
    r, items, origin, parents := ParseLines(lines, ignoreFillers, VsamTypes.GetStorageBytes);
  }

  /** Before the first statement, nothing is declared, output or laid out. */
  lemma ProgressStart(lines: seq<string>, storage: StorageBytes, ignoreFillers: bool)
    requires Statements(lines)
    ensures Progress(lines, 0, storage, ignoreFillers, [], [], 0, [], [], [], [], [])
  {
  }

  /** The `parse_content` loop over the statements, stopping at the first failure. */
  method DeclareAll(lines: seq<string>, ignoreFillers: bool, storage: StorageBytes)
    returns (failure: Option<VsamTypes.PicError>, fields: seq<CopybookField>,
             ghost items: seq<CopybookField>, ghost origin: seq<nat>, ghost parents: seq<int>)
    requires Statements(lines)
    ensures failure.None? ==> exists stack, running, declared, open ::
      Progress(lines, |lines|, storage, ignoreFillers, fields, stack, running, items, origin, declared, open, parents)
    ensures failure.Some? ==> exists n :: 0 <= n < |lines| && FailsAt(lines, n, storage, failure.value)
  {
    fields, items, origin, parents := [], [], [], [];
    var currentOffset := 0;
    var parentStack: seq<StackEntry> := [];
    ghost var declared: seq<CopybookField> := [];
    ghost var open: seq<nat> := [];
    ProgressStart(lines, storage, ignoreFillers);
    var n := 0;
    failure := None;
    while n < |lines| && failure.None?
      invariant 0 <= n <= |lines|
      invariant failure.None? ==>
        Progress(lines, n, storage, ignoreFillers, fields, parentStack, currentOffset, items, origin, declared, open, parents)
      invariant failure.Some? ==> 0 < n && FailsAt(lines, n - 1, storage, failure.value)
    {
      var next;
      failure, fields, parentStack, currentOffset, items, origin, declared, open, parents, next :=
        DeclareStatement(lines, n, fields, parentStack, currentOffset, storage, ignoreFillers,
                         items, origin, declared, open, parents);
      n := next;
    }
    if failure.None? {
      assert n == |lines|;
    }
  }

  method ParseLines(lines: seq<string>, ignoreFillers: bool, storage: StorageBytes)
    returns (r: Result<seq<CopybookField>, VsamTypes.PicError>,
             ghost items: seq<CopybookField>, ghost origin: seq<nat>, ghost parents: seq<int>)
    requires Statements(lines)
    ensures r.Ok? ==> DeclaredAs(items, Declared(lines, |lines|))
    ensures r.Ok? ==> Outputs(r.value, origin, items, ignoreFillers)
    ensures r.Ok? ==> LaidOut(items, storage)
    ensures r.Ok? ==> ParentLinks(items, parents)
    ensures r.Ok? ==> Overlaid(items, ignoreFillers) && ChildLists(r.value, origin, items, ignoreFillers)
    ensures r.Err? ==> exists n :: 0 <= n < |lines| && FailsAt(lines, n, storage, r.error)
  {
    var failure, fields;
    failure, fields, items, origin, parents := DeclareAll(lines, ignoreFillers, storage);
    r := if failure.Some? then Err(failure.value) else Ok(fields);
  }

  // ---------------------------------------------------------------------------
  // Queries on the parsed fields
  // ---------------------------------------------------------------------------

  /** `get_elementary_fields`: the elementary fields that are not FILLER, in order. */
  function GetElementaryFields(fields: seq<CopybookField>): (r: seq<CopybookField>)
    ensures |r| <= |fields|
    ensures forall f :: f in r <==> f in fields && f.IsElementary() && !f.isFiller
  {
    if fields == [] then []
    else
      var rest := GetElementaryFields(fields[1..]);
      assert forall f :: f in fields <==> f == fields[0] || f in fields[1..];
      if fields[0].IsElementary() && !fields[0].isFiller then [fields[0]] + rest else rest
  }

  /** The filter keeps the order: the elementary fields of two runs are those of each, in turn. */
  lemma {:induction false} ElementaryFieldsAppend(a: seq<CopybookField>, b: seq<CopybookField>)
    ensures GetElementaryFields(a + b) == GetElementaryFields(a) + GetElementaryFields(b)
  {
    if a != [] {
      assert (a + b)[0] == a[0] && (a + b)[1..] == a[1..] + b;
      ElementaryFieldsAppend(a[1..], b);
      if a[0].IsElementary() && !a[0].isFiller {
        assert [a[0]] + (GetElementaryFields(a[1..]) + GetElementaryFields(b))
          == ([a[0]] + GetElementaryFields(a[1..])) + GetElementaryFields(b);
      }
    } else {
      assert a + b == b;
    }
  }

  /** Where a field's storage ends. */
  function End(f: CopybookField): nat { f.offset + f.TotalLength() }

  /**
    * `get_record_length`: the furthest end of an elementary field, or 0 when there is
    * none; group items do not count.
    */
  method GetRecordLength(fields: seq<CopybookField>) returns (length: nat)
    ensures forall f :: f in fields && f.IsElementary() ==> End(f) <= length
    ensures length == 0 || exists f :: f in fields && f.IsElementary() && End(f) == length
  {
    length := 0;
    var i := 0;
    while i < |fields|
      invariant 0 <= i <= |fields|
      invariant forall k :: 0 <= k < i && fields[k].IsElementary() ==> End(fields[k]) <= length
      invariant length == 0 || exists k :: 0 <= k < i && fields[k].IsElementary() && End(fields[k]) == length
    {
      if fields[i].IsElementary() {
        var endOffset := fields[i].offset + fields[i].TotalLength();
        if endOffset > length {
          length := endOffset;
        }
      }
      i := i + 1;
    }
  }

  /** The schema field of an elementary field: typed by its picture, nullable. */
  function SchemaField(f: CopybookField): StructField {
    StructField(f.name, VsamTypes.Convert(f.picClause.GetOr([])), true)
  }

  /**
    * `to_spark_schema`: one nullable field per elementary, non-FILLER field, in order,
    * named as the field and typed by its picture.
    */
  method ToSparkSchema(fields: seq<CopybookField>) returns (schema: seq<StructField>)
    ensures |schema| == |GetElementaryFields(fields)|
    ensures forall i :: 0 <= i < |schema| ==> var f := GetElementaryFields(fields)[i];
      f in fields && f.IsElementary() && !f.isFiller
      && schema[i] == StructField(f.name, VsamTypes.Convert(f.picClause.value), true)
  {
    var elementary := GetElementaryFields(fields);
    schema := BuildFields(elementary, SchemaField);
    assert forall i :: 0 <= i < |elementary| ==> elementary[i] in elementary;
  }
}
