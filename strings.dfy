/**
  * Text helpers shared by the parsers: the character classes of Python's `re` and `str`
  * methods (`\s`, `\d`, `\w`, `strip`, `upper`, `split`, `replace`, `startswith`, `in`),
  * and the small scanning functions the hand-written recognisers are built from.
  */
module Strings {
  import opened Wrappers

  /** Python's `str.isspace()`, which is also what `\s` and `str.strip()` use. */
  predicate IsSpace(c: char) {
    c == ' ' || ('\t' <= c <= '\r') || ('\U{1c}' <= c <= '\U{1f}') || c == '\U{85}' || c == '\U{a0}'
    || c == '\U{1680}' || ('\U{2000}' <= c <= '\U{200a}') || c == '\U{2028}' || c == '\U{2029}'
    || c == '\U{202f}' || c == '\U{205f}' || c == '\U{3000}'
  }

  predicate IsDigit(c: char) { '0' <= c <= '9' }

  predicate IsLetter(c: char) { 'A' <= c <= 'Z' || 'a' <= c <= 'z' }

  /** The `\w` class: letters, digits and underscore. */
  predicate IsWordChar(c: char) { IsLetter(c) || IsDigit(c) || c == '_' }

  /** The `[\w-]` class used for COBOL names. */
  predicate IsNameChar(c: char) { IsWordChar(c) || c == '-' }

  predicate AllDigits(s: string) { forall k :: 0 <= k < |s| ==> IsDigit(s[k]) }

  function UpperChar(c: char): (u: char)
    ensures IsLetter(c) <==> IsLetter(u)
    ensures !('a' <= u <= 'z')
  {
    if 'a' <= c <= 'z' then (c as int - 32) as char else c
  }

  /** `str.upper()` on the ASCII letters. */
  function Upper(s: string): (r: string)
    ensures |r| == |s|
    ensures forall k :: 0 <= k < |s| ==> r[k] == UpperChar(s[k])
  {
    seq(|s|, k requires 0 <= k < |s| => UpperChar(s[k]))
  }

  /** `str.lstrip()`: drops the leading whitespace, nothing else. */
  function LStrip(s: string): (r: string)
    ensures |r| <= |s| && r == s[|s| - |r|..]
    ensures forall k :: 0 <= k < |s| - |r| ==> IsSpace(s[k])
    ensures r == [] || !IsSpace(r[0])
  {
    if |s| > 0 && IsSpace(s[0]) then LStrip(s[1..]) else s
  }

  /** `str.rstrip()`: drops the trailing whitespace, nothing else. */
  function RStrip(s: string): (r: string)
    ensures |r| <= |s| && r == s[..|r|]
    ensures forall k :: |r| <= k < |s| ==> IsSpace(s[k])
    ensures r == [] || !IsSpace(r[|r| - 1])
  {
    if |s| > 0 && IsSpace(s[|s| - 1]) then RStrip(s[..|s| - 1]) else s
  }

  /** `str.strip()`. */
  function Strip(s: string): (r: string)
    ensures |r| <= |s|
    ensures r == [] || (!IsSpace(r[0]) && !IsSpace(r[|r| - 1]))
  {
    RStrip(LStrip(s))
  }

  /** Text without lower-case letters is its own upper case. */
  lemma UpperIdentity(s: string)
    requires forall k :: 0 <= k < |s| ==> !('a' <= s[k] <= 'z')
    ensures Upper(s) == s
  {
  }

  /** Text that neither begins nor ends with whitespace is its own strip. */
  lemma StripIdentity(s: string)
    requires s != [] && !IsSpace(s[0]) && !IsSpace(s[|s| - 1])
    ensures Strip(s) == s
  {
  }

  /** Stripping twice strips no more than once. */
  lemma {:induction false} StripTwice(s: string)
    ensures Strip(Strip(s)) == Strip(s)
  {
    if Strip(s) != [] {
      StripIdentity(Strip(s));
    } else {
      assert LStrip([]) == [] && RStrip([]) == [];
    }
  }

  /** Text without lower-case letters. */
  predicate NoLower(s: string) { forall k :: 0 <= k < |s| ==> !('a' <= s[k] <= 'z') }

  /** The strip of text without lower-case letters has none either. */
  lemma {:induction false} StripNoLower(s: string)
    requires NoLower(s)
    ensures NoLower(Strip(s))
  {
    var l := LStrip(s);
    forall k | 0 <= k < |l|
      ensures !('a' <= l[k] <= 'z')
    {
      assert l[k] == s[|s| - |l| + k];
    }
    var r := RStrip(l);
    forall k | 0 <= k < |r|
      ensures !('a' <= r[k] <= 'z')
    {
      assert r[k] == l[k];
    }
  }

  /** A leading blank makes no difference to the strip. */
  lemma StripBlankFront(s: string)
    requires s != [] && IsSpace(s[0])
    ensures Strip(s) == Strip(s[1..])
  {
  }

  /** `str.rstrip(c)` for a single character `c`. */
  function RStripChar(s: string, c: char): (r: string)
    ensures |r| <= |s| && r == s[..|r|]
    ensures forall k :: |r| <= k < |s| ==> s[k] == c
    ensures r == [] || r[|r| - 1] != c
  {
    if |s| > 0 && s[|s| - 1] == c then RStripChar(s[..|s| - 1], c) else s
  }

  // The character classes the recognisers scan runs of.

  /** The `[XA9]` class of COBOL picture characters. */
  predicate IsPicChar(c: char) { c == 'X' || c == 'A' || c == '9' }

  datatype CharClass = Space | Digit | Letter | Word | Name | NonSpace | PicChar | PicCharAnyCase | Only(c: char) | Except(c: char)

  predicate InClass(c: char, cls: CharClass) {
    match cls
    case Space => IsSpace(c)
    case Digit => IsDigit(c)
    case Letter => IsLetter(c)
    case Word => IsWordChar(c)
    case Name => IsNameChar(c)
    case NonSpace => !IsSpace(c)
    case PicChar => IsPicChar(c)
    case PicCharAnyCase => IsPicChar(UpperChar(c))
    case Only(d) => c == d
    case Except(d) => c != d
  }

  /** Index of the end of the longest run of `cls`-characters starting at `i`. */
  function Span(s: string, i: nat, cls: CharClass): (j: nat)
    requires i <= |s|
    ensures i <= j <= |s|
    ensures j == |s| || !InClass(s[j], cls)
    decreases |s| - i
  {
    if i < |s| && InClass(s[i], cls) then Span(s, i + 1, cls) else i
  }

  /** Every character of the run belongs to the class. */
  lemma {:induction false} SpanAll(s: string, i: nat, cls: CharClass)
    requires i <= |s|
    ensures forall k :: i <= k < Span(s, i, cls) ==> InClass(s[k], cls)
    decreases |s| - i
  {
    if i < |s| && InClass(s[i], cls) {
      SpanAll(s, i + 1, cls);
    }
  }

  function SkipSpaces(s: string, i: nat): (j: nat)
    requires i <= |s|
    ensures i <= j <= |s|
    ensures j == |s| || !IsSpace(s[j])
  {
    Span(s, i, Space)
  }

  /** `s[i:]` begins with `w`. */
  predicate LitAt(s: string, i: nat, w: string) {
    i + |w| <= |s| && s[i..i + |w|] == w
  }

  lemma LitAtStart(w: string, y: string)
    ensures LitAt(w + y, 0, w)
  {
    assert (w + y)[..|w|] == w;
  }

  lemma LitAtEnd(x: string, w: string)
    ensures LitAt(x + w, |x|, w)
  {
    assert (x + w)[|x|..|x| + |w|] == w;
  }

  /** Text found in `s` is still found there once more text follows. */
  lemma LitAtExtend(s: string, i: nat, w: string, y: string)
    requires LitAt(s, i, w)
    ensures LitAt(s + y, i, w)
  {
    assert (s + y)[i..i + |w|] == s[i..i + |w|];
  }

  lemma LitAtExtends(s: string, y1: string, y2: string, y3: string, i: nat, w: string)
    requires LitAt(s, i, w)
    ensures LitAt(s + y1 + y2 + y3, i, w)
  {
    LitAtExtend(s, i, w, y1);
    LitAtExtend(s + y1, i, w, y2);
    LitAtExtend(s + y1 + y2, i, w, y3);
  }

  /** `s[i:]` begins with the character `c`. */
  predicate CharAt(s: string, i: nat, c: char) {
    i < |s| && s[i] == c
  }

  lemma CharAtEnd(x: string, c: char)
    ensures CharAt(x + [c], |x|, c)
  {
  }

  /** A character found in `s` is still found there once more text follows. */
  lemma CharAtExtend(s: string, i: nat, c: char, y: string)
    requires CharAt(s, i, c)
    ensures CharAt(s + y, i, c)
  {
  }

  /** `s[i:]` begins with `w` when compared case-insensitively (`w` is upper case). */
  predicate LitAtCI(s: string, i: nat, w: string) {
    i + |w| <= |s| && forall j :: i <= j < i + |w| ==> UpperChar(s[j]) == w[j - i]
  }

  predicate StartsWith(s: string, p: string) { LitAt(s, 0, p) }

  /** Five pieces joined left to right are the first piece followed by the other four. */
  lemma Regroup<T>(a: seq<T>, p: seq<T>, b: seq<T>, q: seq<T>, c: seq<T>)
    ensures a + p + b + q + c == a + (p + b + q + c)
  {
  }

  /** A non-empty sequence is its front followed by its last element. */
  lemma FrontLast<T>(s: seq<T>)
    requires s != []
    ensures s == s[..|s| - 1] + [s[|s| - 1]]
  {
  }

  /** Two sequences of the same length that agree at every index are equal. */
  lemma ElementWise<T>(a: seq<T>, b: seq<T>)
    requires |a| == |b| && forall i :: 0 <= i < |a| ==> a[i] == b[i]
    ensures a == b
  {
  }

  /** A non-empty sequence is its first element followed by the rest. */
  lemma HeadTail<T>(s: seq<T>)
    requires s != []
    ensures s == [s[0]] + s[1..]
  {
  }

  /** Taking the whole length of a sequence gives the sequence. */
  lemma TakeAll<T>(s: seq<T>)
    ensures s[..|s|] == s
  {
  }

  /** Appending nothing leaves a sequence as it was. */
  lemma AppendNone<T>(s: seq<T>)
    ensures s + [] == s
  {
  }

  lemma Assoc<T>(a: seq<T>, x: seq<T>, y: seq<T>)
    ensures a + (x + y) == a + x + y
  {
  }

  /** `w` stands in `s` at `i`, character by character. */
  predicate WrittenAt(s: string, i: nat, w: string) {
    i + |w| <= |s| && forall j :: i <= j < i + |w| ==> s[j] == w[j - i]
  }

  lemma WrittenSplit(s: string, i: nat, x: string, y: string, j: nat)
    requires WrittenAt(s, i, x + y) && j == i + |x|
    ensures WrittenAt(s, i, x) && WrittenAt(s, j, y)
  {
    forall j | i <= j < i + |x| ensures s[j] == x[j - i] {
      assert (x + y)[j - i] == x[j - i];
    }
    forall j | i + |x| <= j < i + |x| + |y| ensures s[j] == y[j - i - |x|] {
      assert (x + y)[j - i] == y[j - i - |x|];
    }
  }

  lemma WrittenJoin(s: string, i: nat, x: string, y: string, j: nat)
    requires WrittenAt(s, i, x) && WrittenAt(s, j, y) && j == i + |x|
    ensures WrittenAt(s, i, x + y)
  {
  }

  lemma WrittenExtend(x: string, y: string, i: nat, w: string)
    requires WrittenAt(x, i, w)
    ensures WrittenAt(x + y, i, w)
  {
  }

  lemma WrittenConcat(x: string, y: string)
    ensures WrittenAt(x + y, 0, x) && WrittenAt(x + y, |x|, y)
  {
  }

  /** Four texts written one after another, each where it stands. */
  lemma WrittenFour(p: string, u: string, o: string, r: string) returns (a: nat, b: nat, c: nat)
    ensures var s := p + u + o + r;
      && WrittenAt(s, 0, p) && a == |p|
      && WrittenAt(s, a, u) && b == a + |u|
      && WrittenAt(s, b, o) && c == b + |o|
      && WrittenAt(s, c, r) && |s| == c + |r|
  {
    a, b, c := |p|, |p| + |u|, |p| + |u| + |o|;
    var s := p + u + o + r;
    WrittenConcat(p + u + o, r);
    WrittenSplit(s, 0, p + u, o, |p| + |u|);
    WrittenSplit(s, 0, p, u, |p|);
  }

  lemma WrittenSlice(s: string, i: nat, w: string, j: nat)
    requires WrittenAt(s, i, w) && j == i + |w|
    ensures s[i..j] == w
  {
  }

  predicate EndsWith(s: string, p: string) { |p| <= |s| && s[|s| - |p|..] == p }

  /** Position of the first occurrence of `w` in `s` at or after `from`. */
  function Find(s: string, w: string, from: nat): (r: Option<nat>)
    requires from <= |s|
    ensures r.Some? ==> from <= r.value && LitAt(s, r.value, w)
    ensures forall k :: from <= k && (r.Some? ==> k < r.value) ==> !LitAt(s, k, w)
    decreases |s| - from
  {
    if LitAt(s, from, w) then Some(from)
    else if from == |s| then None
    else Find(s, w, from + 1)
  }

  /** Python's `w in s`. */
  predicate Contains(s: string, w: string) { Find(s, w, 0).Some? }

  /** A character that does not occur is not found. */
  lemma NoCharInside(s: string, c: char)
    requires c !in s
    ensures !Contains(s, [c])
  {
    forall k | 0 <= k <= |s|
      ensures !LitAt(s, k, [c])
    {
      if k < |s| {
        assert s[k..k + 1] == [s[k]] && s[k] in s;
      }
    }
  }

  /** Python's `s.replace(w, with)`: every non-overlapping occurrence, scanning left to right. */
  function ReplaceAll(s: string, w: string, with: string): (r: string)
    requires |w| > 0
    ensures !Contains(s, w) ==> r == s
    decreases |s|
  {
    match Find(s, w, 0)
    case None => s
    case Some(i) => s[..i] + with + ReplaceAll(s[i + |w|..], w, with)
  }

  lemma NoLowerSlice(s: string, i: nat, j: nat)
    requires NoLower(s) && i <= j <= |s|
    ensures NoLower(s[i..j])
  {
    forall k | 0 <= k < j - i
      ensures !('a' <= s[i..j][k] <= 'z')
    {
      assert s[i..j][k] == s[i + k];
    }
  }

  lemma NoLowerJoin(a: string, b: string)
    requires NoLower(a) && NoLower(b)
    ensures NoLower(a + b)
  {
    forall k | 0 <= k < |a + b|
      ensures !('a' <= (a + b)[k] <= 'z')
    {
      if k >= |a| {
        assert (a + b)[k] == b[k - |a|];
      }
    }
  }

  /** Replacing every `w` in text without lower-case letters by such text leaves none. */
  lemma {:induction false} ReplaceAllNoLower(s: string, w: string, with: string)
    requires |w| > 0 && NoLower(s) && NoLower(with)
    ensures NoLower(ReplaceAll(s, w, with))
    decreases |s|
  {
    match Find(s, w, 0)
    case None =>
    case Some(i) =>
      var rest := s[i + |w|..];
      NoLowerSlice(s, i + |w|, |s|);
      assert s[i + |w|..|s|] == rest;
      ReplaceAllNoLower(rest, w, with);
      NoLowerSlice(s, 0, i);
      assert s[0..i] == s[..i];
      NoLowerJoin(s[..i], with);
      NoLowerJoin(s[..i] + with, ReplaceAll(rest, w, with));
  }

  /** Python's `s.split(sep)` for a one-character separator: keeps empty pieces. */
  function Split(s: string, sep: char): (parts: seq<string>)
    ensures |parts| >= 1
    ensures forall k :: 0 <= k < |parts| ==> sep !in parts[k]
    decreases |s|
  {
    match Find(s, [sep], 0)
    case None =>
      assert forall k :: 0 <= k < |s| ==> s[k..k + 1] == [s[k]] && !LitAt(s, k, [sep]);
      [s]
    case Some(i) =>
      assert forall k :: 0 <= k < i ==> s[k..k + 1] == [s[k]] && !LitAt(s, k, [sep]);
      [s[..i]] + Split(s[i + 1..], sep)
  }

  /** A piece of `s.split()`: non-empty, without whitespace. */
  predicate IsWord(w: string) { w != [] && forall k :: 0 <= k < |w| ==> !IsSpace(w[k]) }

  lemma WordPrefix(t: string, j: nat)
    requires 0 < j <= |t|
    requires forall k :: 0 <= k < j ==> InClass(t[k], NonSpace)
    ensures IsWord(t[..j])
  {
  }

  /** Python's `s.split()`: the maximal runs of non-whitespace. */
  function Words(s: string): (ws: seq<string>)
    ensures forall w :: w in ws ==> IsWord(w)
    decreases |s|
  {
    var t := LStrip(s);
    if t == [] then []
    else
      var j := Span(t, 0, NonSpace);
      assert InClass(t[0], NonSpace);
      SpanAll(t, 0, NonSpace);
      var rest := Words(t[j..]);
      WordPrefix(t, j);
      [t[..j]] + rest
  }

  /** Python's `" ".join(ws)`. */
  function JoinSpace(ws: seq<string>): (r: string)
    ensures ws == [] ==> r == []
  {
    if ws == [] then []
    else if |ws| == 1 then ws[0]
    else ws[0] + " " + JoinSpace(ws[1..])
  }

  /** Python's `int(s)` on a run of ASCII digits. */
  function NatOf(s: string): (n: nat)
    requires AllDigits(s)
  {
    if s == [] then 0 else NatOf(s[..|s| - 1]) * 10 + (s[|s| - 1] as int - '0' as int)
  }

  /** `\d+` at `i`: the number the longest digit run spells, and where the run ends. */
  function Number(s: string, i: nat): (r: Option<(nat, nat)>)
    requires i <= |s|
    ensures r.Some? ==> i < r.value.1 <= |s|
  {
    var e := Span(s, i, Digit);
    SpanAll(s, i, Digit);
    if e > i then Some((NatOf(s[i..e]), e)) else None
  }

  /** No blanks to skip before a character that is not whitespace, or at the end. */
  lemma NoSpaceAt(s: string, i: nat)
    requires i <= |s| && (i == |s| || !IsSpace(s[i]))
    ensures SkipSpaces(s, i) == i
  {
  }

  /** A digit run `ds` at `i` that is not followed by a digit is read as the number ds. */
  lemma NumberAt(s: string, i: nat, ds: string)
    requires ds != [] && AllDigits(ds) && LitAt(s, i, ds)
    requires i + |ds| == |s| || !IsDigit(s[i + |ds|])
    ensures Number(s, i) == Some((NatOf(ds), i + |ds|))
  {
    var e := i + |ds|;
    forall k | i <= k < e ensures IsDigit(s[k]) {
      assert s[k] == s[i..e][k - i];
    }
    assert Span(s, i, Digit) == e by { SpanExact(s, i, e, Digit); }
  }

  /** A run of `cls` from `i` to `j` that stops at `j` is what Span finds. */
  lemma {:induction false} SpanExact(s: string, i: nat, j: nat, cls: CharClass)
    requires i <= j <= |s|
    requires forall k :: i <= k < j ==> InClass(s[k], cls)
    requires j == |s| || !InClass(s[j], cls)
    ensures Span(s, i, cls) == j
    decreases j - i
  {
    if i < j {
      SpanExact(s, i + 1, j, cls);
    }
  }

  /** Python's `str(n)` for a natural number: no leading zeros, "0" for zero. */
  function DecimalText(n: nat): (s: string)
    ensures |s| >= 1 && AllDigits(s)
    ensures NatOf(s) == n
  {
    if n < 10 then [('0' as int + n) as char]
    else
      var s := DecimalText(n / 10) + [('0' as int + n % 10) as char];
      assert s[..|s| - 1] == DecimalText(n / 10);
      s
  }

  /**
    * `\s+W1\s+W2...\s+Wn` at `i`, each word compared case-insensitively (the words are
    * upper case): where the last word ends.
    */
  function SpacedWords(s: string, i: nat, words: seq<string>): (r: Option<nat>)
    requires i <= |s|
    ensures r.Some? ==> i <= r.value <= |s|
    decreases |words|
  {
    if words == [] then Some(i)
    else
      var j := SkipSpaces(s, i);
      if j > i && LitAtCI(s, j, words[0]) then SpacedWords(s, j + |words[0]|, words[1..]) else None
  }

  /**
    * A left-to-right scan of the positions `from..end` for the first one where `m` matches;
    * `re.search` is this scan with `m` the match of the pattern at one position.
    */
  function FirstMatch<T>(m: nat -> Option<T>, from: nat, end: nat): Option<T>
    decreases end - from
  {
    if end < from then None
    else match m(from)
      case Some(c) => Some(c)
      case None => if from == end then None else FirstMatch(m, from + 1, end)
  }

  /** The scan finds nothing exactly when no position in range matches. */
  lemma {:induction false} ScanNone<T>(m: nat -> Option<T>, from: nat, end: nat)
    ensures FirstMatch(m, from, end).None? <==> forall p :: from <= p <= end ==> m(p).None?
    decreases end - from
  {
    if from <= end && m(from).None? && from < end {
      ScanNone(m, from + 1, end);
    }
  }

  /** What the scan finds is what `m` gives at the first matching position. */
  lemma {:induction false} ScanSome<T>(m: nat -> Option<T>, from: nat, end: nat) returns (p: nat)
    requires FirstMatch(m, from, end).Some?
    ensures from <= p <= end && m(p) == FirstMatch(m, from, end)
    ensures forall q :: from <= q < p ==> m(q).None?
    decreases end - from
  {
    if m(from).Some? {
      p := from;
    } else {
      p := ScanSome(m, from + 1, end);
    }
  }

  /** Whatever the scan finds, `m` gives at some position in the range. */
  lemma {:induction false} ScanFound<T>(m: nat -> Option<T>, from: nat, end: nat)
    ensures FirstMatch(m, from, end).Some? ==> exists p :: from <= p <= end && m(p) == FirstMatch(m, from, end)
    decreases end - from
  {
    if from <= end && m(from).None? && from < end {
      ScanFound(m, from + 1, end);
    }
  }

  /** The character `a` at `k`, directly followed by `b`. */
  predicate PairAt(s: string, k: nat, a: char, b: char) { k + 1 < |s| && s[k] == a && s[k + 1] == b }

  /** No character `a` is directly followed by a character `b`: `a + b` does not occur. */
  predicate NoPair(s: string, a: char, b: char) {
    forall k: nat :: k < |s| ==> !PairAt(s, k, a, b)
  }

  /**
    * The text `" ".join(s.split())` produces: single spaces between non-blank words, and
    * no other whitespace.
    */
  predicate Normalized(s: string) {
    && (s != [] ==> s[0] != ' ' && s[|s| - 1] != ' ')
    && (forall k :: 0 <= k < |s| && IsSpace(s[k]) ==> s[k] == ' ')
    && NoPair(s, ' ', ' ')
  }

  /** Joining words with single spaces gives normalized text. */
  lemma {:induction false} JoinWordsNormalized(ws: seq<string>)
    requires forall w :: w in ws ==> IsWord(w)
    ensures Normalized(JoinSpace(ws))
    ensures ws != [] ==> JoinSpace(ws) != [] && !IsSpace(JoinSpace(ws)[0])
  {
    if |ws| > 1 {
      JoinWordsNormalized(ws[1..]);
      var a, b := ws[0], JoinSpace(ws[1..]);
      assert IsWord(a);
      var r := a + " " + b;
      assert r == JoinSpace(ws);
      forall k: nat | k < |r| ensures !PairAt(r, k, ' ', ' ') {
        if k + 1 < |a| {
        } else if k + 1 == |a| {
        } else if k == |a| {
        } else if k + 1 < |r| {
          assert r[k] == b[k - |a| - 1] && r[k + 1] == b[k + 1 - |a| - 1];
          assert !PairAt(b, k - |a| - 1, ' ', ' ');
        }
      }
      forall k | 0 <= k < |r| && IsSpace(r[k]) ensures r[k] == ' ' {
        if k > |a| {
          assert r[k] == b[k - |a| - 1];
        }
      }
    } else if |ws| == 1 {
      assert IsWord(ws[0]);
    }
  }

  /** The text after a space of normalized text is normalized. */
  lemma NormalizedAfter(s: string, j: nat)
    requires Normalized(s) && j + 1 < |s| && s[j] == ' '
    ensures Normalized(s[j + 1..]) && s[j + 1] != ' '
  {
    var rest := s[j + 1..];
    forall k: nat | k < |rest| ensures !PairAt(rest, k, ' ', ' ') {
      if k + 1 < |rest| {
        assert rest[k] == s[j + 1 + k] && rest[k + 1] == s[j + 1 + k + 1];
        assert !PairAt(s, j + 1 + k, ' ', ' ');
      }
    }
    forall k | 0 <= k < |rest| && IsSpace(rest[k]) ensures rest[k] == ' ' {
      assert rest[k] == s[j + 1 + k];
    }
    assert !PairAt(s, j, ' ', ' ');
  }

  /** The words of text that starts with a word are that word and the words after it. */
  lemma WordsFirst(s: string)
    requires s != [] && !IsSpace(s[0])
    ensures Words(s) == [s[..Span(s, 0, NonSpace)]] + Words(s[Span(s, 0, NonSpace)..])
  {
    assert LStrip(s) == s;
  }

  /** Leading blanks do not change the words. */
  lemma WordsAfterSpace(s: string)
    requires s != [] && IsSpace(s[0])
    ensures Words(s) == Words(s[1..])
  {
    assert LStrip(s) == LStrip(s[1..]);
  }

  /** A word followed by a blank: the word, then the words after the blank. */
  lemma WordsStep(s: string, j: nat)
    requires s != [] && !IsSpace(s[0]) && j == Span(s, 0, NonSpace) && j < |s|
    ensures Words(s) == [s[..j]] + Words(s[j + 1..])
  {
    WordsFirst(s);
    WordsAfterSpace(s[j..]);
    assert s[j..][1..] == s[j + 1..];
  }

  /** Text that is one word has that word as its only word. */
  lemma WordsLast(s: string)
    requires s != [] && !IsSpace(s[0]) && Span(s, 0, NonSpace) == |s|
    ensures Words(s) == [s]
  {
    WordsFirst(s);
    var e: string := [];
    assert s[|s|..] == e;
    WordsNone();
    assert s[..|s|] == s;
  }

  lemma WordsNone()
    ensures Words([]) == []
  {
    assert LStrip([]) == [];
  }

  lemma JoinCons(w: string, ws: seq<string>)
    requires ws != []
    ensures JoinSpace([w] + ws) == w + " " + JoinSpace(ws)
  {
    assert ([w] + ws)[1..] == ws;
  }

  lemma AroundSpace(s: string, j: nat)
    requires j < |s| && s[j] == ' '
    ensures s == s[..j] + " " + s[j + 1..]
  {
  }

  /** Splitting words joined by single blanks gives the words back: `" ".join(ws).split() == ws`. */
  lemma {:induction false} WordsOfJoin(ws: seq<string>)
    requires forall w :: w in ws ==> IsWord(w)
    ensures Words(JoinSpace(ws)) == ws
    decreases |ws|
  {
    if ws == [] {
      WordsNone();
    } else if |ws| == 1 {
      WordsOfOne(ws[0]);
    } else {
      assert forall v :: v in ws[1..] ==> v in ws;
      WordsOfJoin(ws[1..]);
      WordsOfCons(ws[0], ws[1..]);
      HeadTail(ws);
    }
  }

  /** One word, joined, splits back into itself. */
  lemma WordsOfOne(w: string)
    requires IsWord(w)
    ensures Words(w) == [w]
  {
    WordRun(w, []);
    assert w + [] == w;
    WordsLast(w);
  }

  /** A word and a blank in front of joined words add that word in front of the split. */
  lemma WordsOfCons(w: string, ws: seq<string>)
    requires IsWord(w) && ws != [] && IsWord(ws[0])
    ensures Words(w + " " + JoinSpace(ws)) == [w] + Words(JoinSpace(ws))
  {
    var rest := JoinSpace(ws);
    var s := w + " " + rest;
    WordRun(w, " " + rest);
    assert s == w + (" " + rest);
    WordsStep(s, |w|);
    assert s[..|w|] == w && s[|w| + 1..] == rest;
  }

  /** A word followed by nothing or by whitespace is the whole non-whitespace run at the start. */
  lemma WordRun(w: string, rest: string)
    requires IsWord(w) && (rest == [] || IsSpace(rest[0]))
    ensures Span(w + rest, 0, NonSpace) == |w| && !IsSpace((w + rest)[0])
  {
    SpanExact(w + rest, 0, |w|, NonSpace);
  }

  /** Normalized text is its own `" ".join(s.split())`. */
  lemma {:induction false} NormalizedWords(s: string)
    requires Normalized(s)
    ensures JoinSpace(Words(s)) == s
    ensures s != [] ==> Words(s) != []
    decreases |s|
  {
    if s != [] {
      var j := Span(s, 0, NonSpace);
      assert InClass(s[0], NonSpace);
      if j < |s| {
        NormalizedAfter(s, j);
        WordsStep(s, j);
        NormalizedWords(s[j + 1..]);
        JoinCons(s[..j], Words(s[j + 1..]));
        AroundSpace(s, j);
      } else {
        WordsLast(s);
      }
    }
  }
}
