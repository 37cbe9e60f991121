/**
  * The DB2 DDL parser: the CREATE TABLE statement of a DDL script becomes a table
  * definition (schema, name, columns, primary key and foreign keys).
  *
  * The script is first cleaned (comments dropped, whitespace collapsed), the parenthesised
  * body of the first CREATE TABLE is split at the commas outside parentheses, and each
  * piece is classified as a primary key, a foreign key, a skipped constraint or a column.
  */
module DdlParser {
  import opened Wrappers
  import opened Strings
  import opened SparkTypes
  import Db2Types

  /** `DDLColumn`: one column definition. */
  datatype DdlColumn = DdlColumn(
    name: string,
    dataType: string,
    nullable: bool,
    defaultValue: Option<string>,
    isPrimaryKey: bool,
    foreignKeyRef: Option<string>)

  /** `DDLTable`: the foreign keys map a column name to "table.column". */
  datatype DdlTable = DdlTable(
    schema: string,
    name: string,
    columns: seq<DdlColumn>,
    primaryKey: seq<string>,
    foreignKeys: map<string, string>)

  /** `full_name`: the schema and the table name, joined by a dot. */
  function FullName(t: DdlTable): (r: string)
    ensures |r| == |t.schema| + 1 + |t.name|
    ensures r[..|t.schema|] == t.schema && r[|t.schema|] == '.' && r[|t.schema| + 1..] == t.name
  {
    t.schema + "." + t.name
  }

  // ---------------------------------------------------------------------------
  // _clean_content
  // ---------------------------------------------------------------------------

  /**
    * `re.sub(r"--.*$", "", s, flags=re.MULTILINE)`: every `--` and the rest of its line
    * go, the line break stays. No `--` is left, and text without one is unchanged.
    */
  function DropLineComments(s: string): (r: string)
    ensures |r| <= |s|
    ensures NoPair(r, '-', '-')
    ensures NoPair(s, '-', '-') ==> r == s
    ensures r != [] && !PairAt(s, 0, '-', '-') ==> r[0] == s[0]
    ensures r != [] && PairAt(s, 0, '-', '-') ==> r[0] == '\n'
    decreases |s|
  {
    if s == [] then []
    else if PairAt(s, 0, '-', '-') then
      match Find(s, "\n", 2)
      case Some(e) =>
        assert s[e..e + 1] == "\n";
        assert s[e..][0] == '\n' && !PairAt(s[e..], 0, '-', '-');
        var rest := DropLineComments(s[e..]);
        assert !NoPair(s, '-', '-');
        rest
      case None => []
    else
      var rest := DropLineComments(s[1..]);
      var r := [s[0]] + rest;
      forall k: nat | k < |r| ensures !PairAt(r, k, '-', '-') {
        if k > 0 && k + 1 < |r| {
          assert r[k] == rest[k - 1] && r[k + 1] == rest[k];
          assert !PairAt(rest, k - 1, '-', '-');
        } else if k == 0 && k + 1 < |r| && s[0] == '-' {
          assert !PairAt(s[1..], 0, '-', '-');
        }
      }
      assert NoPair(s, '-', '-') ==> NoPair(s[1..], '-', '-') by {
        if NoPair(s, '-', '-') {
          forall k: nat | k < |s[1..]| ensures !PairAt(s[1..], k, '-', '-') {
            assert !PairAt(s, k + 1, '-', '-');
          }
        }
      }
      r
  }

  // The block-comment substitution of `_clean_content` (non-greedy, across lines): every
  // comment opener up to the first closer after it goes, and an opener that is never
  // closed stays. Text without an opener is unchanged.
  function DropBlockComments(s: string): (r: string)
    ensures |r| <= |s|
    ensures NoPair(s, '/', '*') ==> r == s
    decreases |s|
  {
    if s == [] then []
    else
      var close := if PairAt(s, 0, '/', '*') then Find(s, "*/", 2) else None;
      match close
      case Some(e) => DropBlockComments(s[e + 2..])
      case None =>
        var rest := DropBlockComments(s[1..]);
        assert NoPair(s, '/', '*') ==> NoPair(s[1..], '/', '*') by {
          if NoPair(s, '/', '*') {
            forall k: nat | k < |s[1..]| ensures !PairAt(s[1..], k, '/', '*') {
              assert !PairAt(s, k + 1, '/', '*');
            }
          }
        }
        [s[0]] + rest
  }

  /** `_clean_content`: comments dropped, then every whitespace run made one space. */
  function CleanContent(content: string): (r: string)
    ensures Normalized(r)
  {
    var words := Words(DropBlockComments(DropLineComments(content)));
    JoinWordsNormalized(words);
    JoinSpace(words)
  }

  /** Normalized text without comment markers is already clean. */
  lemma CleanContentFixed(s: string)
    requires Normalized(s) && NoPair(s, '-', '-') && NoPair(s, '/', '*')
    ensures CleanContent(s) == s
  {
    NormalizedWords(s);
  }

  /** Text in which no `--` starts comes through the line-comment pass unchanged, whatever follows it. */
  lemma {:induction false} LineCommentPlain(a: string, t: string)
    requires forall k :: 0 <= k < |a| ==> !PairAt(a + t, k, '-', '-')
    ensures DropLineComments(a + t) == a + DropLineComments(t)
    decreases |a|
  {
    if a == [] {
      assert a + t == t;
    } else {
      var s := a + t;
      assert !PairAt(s, 0, '-', '-');
      assert s[1..] == a[1..] + t;
      forall k | 0 <= k < |a[1..]| ensures !PairAt(a[1..] + t, k, '-', '-') {
        assert !PairAt(s, k + 1, '-', '-');
      }
      LineCommentPlain(a[1..], t);
      assert a == [a[0]] + a[1..];
      Assoc([a[0]], a[1..], DropLineComments(t));
    }
  }

  /** Text before which no `--` starts, and that does not end with `-`, stays in front of what follows. */
  lemma LinePrefix(a: string, t: string)
    requires NoPair(a, '-', '-') && (a == [] || a[|a| - 1] != '-')
    ensures DropLineComments(a + t) == a + DropLineComments(t)
  {
    forall k | 0 <= k < |a| ensures !PairAt(a + t, k, '-', '-') {
      if k + 1 < |a| {
        assert !PairAt(a, k, '-', '-');
      }
    }
    LineCommentPlain(a, t);
  }

  /** The first line break at or after position 2 of `--b`, a line break and `c`, when `b` holds none, ends `b`. */
  lemma FirstBreak(t: string, b: string, c: string)
    requires t == "--" + b + "\n" + c && '\n' !in b
    ensures Find(t, "\n", 2) == Some(2 + |b|)
  {
    assert LitAt(t, 2 + |b|, "\n") by {
      assert t[2 + |b|..2 + |b| + 1] == "\n";
    }
    assert forall k :: 2 <= k < 2 + |b| ==> t[k] == b[k - 2] && !LitAt(t, k, "\n");
  }

  /** A comment at the start of the text: it goes up to the line break `e`, which stays. */
  lemma LineCommentStep(t: string, e: nat)
    requires PairAt(t, 0, '-', '-') && Find(t, "\n", 2) == Some(e)
    ensures DropLineComments(t) == DropLineComments(t[e..])
  {
  }

  /** A comment at the start of the text with no line break after it: nothing is left. */
  lemma LineCommentLast(t: string)
    requires PairAt(t, 0, '-', '-') && Find(t, "\n", 2) == None
    ensures DropLineComments(t) == []
  {
  }

  /** A line that is a comment: the line break stays, and the rest is cleaned on its own. */
  lemma CommentLine(b: string, c: string)
    requires '\n' !in b
    ensures DropLineComments("--" + b + "\n" + c) == "\n" + DropLineComments(c)
  {
    var t := "--" + b + "\n" + c;
    FirstBreak(t, b, c);
    LineCommentStep(t, 2 + |b|);
    assert t[2 + |b|..] == "\n" + c;
    LineCommentPlain("\n", c);
  }

  /**
    * `a--b` and its line break: the comment goes, the text before it and the line break stay,
    * and the rest is cleaned on its own. `a` holds no `--` and does not end with `-`, and the
    * comment `b` holds no line break.
    */
  lemma LineCommentDropped(a: string, b: string, c: string)
    requires NoPair(a, '-', '-') && (a == [] || a[|a| - 1] != '-') && '\n' !in b
    ensures DropLineComments(a + "--" + b + "\n" + c) == a + "\n" + DropLineComments(c)
  {
    var t := "--" + b + "\n" + c;
    Strings.Regroup(a, "--", b, "\n", c);
    LinePrefix(a, t);
    CommentLine(b, c);
    Strings.Assoc(a, "\n", DropLineComments(c));
  }

  /** A comment that runs to the end of the text: everything from `--` on goes. */
  lemma LineCommentToEnd(a: string, b: string)
    requires NoPair(a, '-', '-') && (a == [] || a[|a| - 1] != '-') && '\n' !in b
    ensures DropLineComments(a + "--" + b) == a
  {
    assert a + "--" + b == a + ("--" + b);
    LinePrefix(a, "--" + b);
    LastComment(b);
    assert a + [] == a;
  }

  /** A last line that is a comment leaves nothing. */
  lemma LastComment(b: string)
    requires '\n' !in b
    ensures DropLineComments("--" + b) == []
  {
    var t := "--" + b;
    forall k | 2 <= k < |t| ensures !LitAt(t, k, "\n") {
      assert t[k] == b[k - 2];
    }
    assert Find(t, "\n", 2) == None;
    LineCommentLast(t);
  }

  // Text in which no comment opener starts comes through the block-comment pass unchanged,
  // whatever follows it.
  lemma {:induction false} BlockCommentPlain(a: string, t: string)
    requires forall k :: 0 <= k < |a| ==> !PairAt(a + t, k, '/', '*')
    ensures DropBlockComments(a + t) == a + DropBlockComments(t)
    decreases |a|
  {
    if a == [] {
      assert a + t == t;
    } else {
      var s := a + t;
      assert !PairAt(s, 0, '/', '*');
      assert s[1..] == a[1..] + t;
      forall k | 0 <= k < |a[1..]| ensures !PairAt(a[1..] + t, k, '/', '*') {
        assert !PairAt(s, k + 1, '/', '*');
      }
      BlockCommentPlain(a[1..], t);
      assert a == [a[0]] + a[1..];
      Assoc([a[0]], a[1..], DropBlockComments(t));
    }
  }

  // In an opener, `b`, a closer and `c`, the first closer at or after position 2 is the one
  // after `b` when `b` holds none.
  lemma FirstCloser(t: string, b: string, c: string)
    requires t == "/*" + b + "*/" + c && NoPair(b, '*', '/')
    ensures Find(t, "*/", 2) == Some(2 + |b|)
  {
    assert LitAt(t, 2 + |b|, "*/") by {
      assert t[2 + |b|..2 + |b| + 2] == "*/";
    }
    var r := Find(t, "*/", 2);
    assert r.Some?;
    if r.value < 2 + |b| {
      var k := r.value;
      assert t[k..k + 2][1] == t[k + 1];
      if k + 1 < 2 + |b| {
        assert t[k] == b[k - 2] && t[k + 1] == b[k - 1];
        assert PairAt(b, k - 2, '*', '/');
      }
    }
  }

  // `a`, an opener, `b`, a closer and `c`: the comment goes with both its markers, the text
  // before it stays, and the rest is cleaned on its own. `a` holds no opener and the comment
  // `b` holds no closer.
  lemma BlockCommentDropped(a: string, b: string, c: string)
    requires NoPair(a, '/', '*') && NoPair(b, '*', '/')
    ensures DropBlockComments(a + "/*" + b + "*/" + c) == a + DropBlockComments(c)
  {
    var t := "/*" + b + "*/" + c;
    assert a + "/*" + b + "*/" + c == a + t;
    forall k | 0 <= k < |a| ensures !PairAt(a + t, k, '/', '*') {
      if k + 1 < |a| {
        assert !PairAt(a, k, '/', '*');
      }
    }
    BlockCommentPlain(a, t);
    FirstCloser(t, b, c);
    assert PairAt(t, 0, '/', '*');
    assert t[2 + |b| + 2..] == c;
  }

  /**
    * The words of the cleaned content are the words of the text with its comments dropped,
    * and, for content without comment markers, the words of the content itself.
    */
  lemma CleanContentWords(content: string)
    ensures Words(CleanContent(content)) == Words(DropBlockComments(DropLineComments(content)))
    ensures NoPair(content, '-', '-') && NoPair(content, '/', '*') ==> Words(CleanContent(content)) == Words(content)
  {
    WordsOfJoin(Words(DropBlockComments(DropLineComments(content))));
  }

  // ---------------------------------------------------------------------------
  // _split_columns
  // ---------------------------------------------------------------------------

  /** The parenthesis depth at the end of `s`: opened minus closed, possibly negative. */
  function Depth(s: string): int
    decreases |s|
  {
    if s == [] then 0
    else Depth(s[..|s| - 1]) + (if s[|s| - 1] == '(' then 1 else if s[|s| - 1] == ')' then -1 else 0)
  }

  /** Every comma of `piece` lies inside parentheses opened within the piece. */
  predicate NoTopLevelComma(piece: string) {
    forall k {:trigger piece[k], Depth(piece[..k])} :: 0 <= k < |piece| && piece[k] == ',' ==> Depth(piece[..k]) != 0
  }

  /** `",".join(pieces)`. */
  function JoinComma(pieces: seq<string>): string
    requires pieces != []
  {
    if |pieces| == 1 then pieces[0] else JoinComma(pieces[..|pieces| - 1]) + "," + pieces[|pieces| - 1]
  }

  /** The variables of the `_split_columns` loop: finished parts, the current piece, the depth. */
  datatype Splitting = Splitting(parts: seq<string>, current: string, depth: int)

  /** One character of the loop. */
  function SplitStep(st: Splitting, c: char): Splitting {
    if c == '(' then st.(current := st.current + [c], depth := st.depth + 1)
    else if c == ')' then st.(current := st.current + [c], depth := st.depth - 1)
    else if c == ',' && st.depth == 0 then Splitting(st.parts + [Strip(st.current)], [], st.depth)
    else st.(current := st.current + [c])
  }

  /** The loop's variables after the characters of `s`. */
  function SplitScan(s: string): Splitting
    decreases |s|
  {
    if s == [] then Splitting([], [], 0) else SplitStep(SplitScan(s[..|s| - 1]), s[|s| - 1])
  }

  /** After the loop: the stripped last piece is kept unless it is blank. */
  function Finish(st: Splitting): seq<string> {
    if Strip(st.current) != [] then st.parts + [Strip(st.current)] else st.parts
  }

  /**
    * `_split_columns`: one scan of the characters, splitting at the commas outside
    * parentheses; what it computes is characterised by `SplitPieces`.
    */
  method SplitColumns(content: string) returns (parts: seq<string>)
    ensures parts == Finish(SplitScan(content))
  {
    parts := [];
    var current: string := [];
    var depth := 0;
    var i := 0;
    while i < |content|
      invariant 0 <= i <= |content|
      invariant SplitScan(content[..i]) == Splitting(parts, current, depth)
    {
      var c := content[i];
      assert content[..i + 1][..i] == content[..i];
      if c == '(' {
        depth := depth + 1;
        current := current + [c];
      } else if c == ')' {
        depth := depth - 1;
        current := current + [c];
      } else if c == ',' && depth == 0 {
        parts := parts + [Strip(current)];
        current := [];
      } else {
        current := current + [c];
      }
      i := i + 1;
    }
    assert content[..i] == content;
    if Strip(current) != [] {
      parts := parts + [Strip(current)];
    }
  }

  /** The depth of a piece grows by the one character appended. */
  lemma DepthSnoc(s: string, c: char)
    ensures Depth(s + [c]) == Depth(s) + (if c == '(' then 1 else if c == ')' then -1 else 0)
  {
    assert (s + [c])[..|s|] == s;
  }

  /** Appending a character that is not a comma at depth 0 keeps a piece free of top-level commas. */
  lemma NoTopLevelCommaSnoc(piece: string, c: char)
    requires NoTopLevelComma(piece)
    requires c == ',' ==> Depth(piece) != 0
    ensures NoTopLevelComma(piece + [c])
  {
    var p := piece + [c];
    forall k | 0 <= k < |p| && p[k] == ',' ensures Depth(p[..k]) != 0 {
      if k < |piece| {
        assert p[..k] == piece[..k];
      } else {
        assert p[..k] == piece;
      }
    }
  }

  lemma JoinCommaExtend(pieces: seq<string>, c: char)
    requires pieces != []
    ensures JoinComma(pieces[..|pieces| - 1] + [pieces[|pieces| - 1] + [c]]) == JoinComma(pieces) + [c]
  {
    var n := |pieces|;
    var q := pieces[..n - 1] + [pieces[n - 1] + [c]];
    if n == 1 {
      assert q == [pieces[0] + [c]];
    } else {
      assert q[..n - 1] == pieces[..n - 1];
      var x := JoinComma(pieces[..n - 1]);
      assert JoinComma(q) == x + "," + (pieces[n - 1] + [c]);
      Assoc(x + ",", pieces[n - 1], [c]);
    }
  }

  lemma JoinCommaNew(pieces: seq<string>)
    requires pieces != []
    ensures JoinComma(pieces + [[]]) == JoinComma(pieces) + ","
  {
    assert (pieces + [[]])[..|pieces|] == pieces;
  }

  /** No raw piece has a comma outside its own parentheses. */
  predicate CommaFree(raw: seq<string>) {
    forall i :: 0 <= i < |raw| ==> NoTopLevelComma(raw[i])
  }

  /** Every piece but the last closes all it opens, and the finished parts are those pieces stripped. */
  predicate Closed(raw: seq<string>, parts: seq<string>) {
    && |raw| == |parts| + 1
    && forall i :: 0 <= i < |raw| - 1 ==> Depth(raw[i]) == 0 && parts[i] == Strip(raw[i])
  }

  /**
    * How raw pieces stand behind the loop's variables: no piece has a comma outside its
    * own parentheses; every piece but the last closes all it opens (so each split comma
    * is at depth 0); the finished parts are the stripped earlier pieces, the current piece
    * is the last, and the depth is the current piece's depth.
    */
  predicate Behind(raw: seq<string>, st: Splitting) {
    && Closed(raw, st.parts)
    && raw[|raw| - 1] == st.current
    && st.depth == Depth(st.current)
    && CommaFree(raw)
  }

  lemma CommaFreeReplaceLast(raw: seq<string>, x: string)
    requires raw != [] && CommaFree(raw) && NoTopLevelComma(x)
    ensures CommaFree(raw[..|raw| - 1] + [x])
  {
    var next := raw[..|raw| - 1] + [x];
    forall i | 0 <= i < |next| ensures NoTopLevelComma(next[i]) {
      if i < |raw| - 1 {
        assert next[i] == raw[i];
      }
    }
  }

  lemma ClosedReplaceLast(raw: seq<string>, parts: seq<string>, x: string)
    requires Closed(raw, parts)
    ensures Closed(raw[..|raw| - 1] + [x], parts)
  {
    var next := raw[..|raw| - 1] + [x];
    forall i | 0 <= i < |next| - 1 ensures Depth(next[i]) == 0 && parts[i] == Strip(next[i]) {
      assert next[i] == raw[i];
    }
  }

  lemma CommaFreeAppend(raw: seq<string>)
    requires CommaFree(raw)
    ensures CommaFree(raw + [[]])
  {
    var next := raw + [[]];
    forall i | 0 <= i < |next| ensures NoTopLevelComma(next[i]) {
      if i < |raw| {
        assert next[i] == raw[i];
      }
    }
  }

  lemma ClosedAppend(raw: seq<string>, parts: seq<string>)
    requires Closed(raw, parts) && Depth(raw[|raw| - 1]) == 0
    ensures Closed(raw + [[]], parts + [Strip(raw[|raw| - 1])])
  {
    var next, ps := raw + [[]], parts + [Strip(raw[|raw| - 1])];
    forall i | 0 <= i < |next| - 1 ensures Depth(next[i]) == 0 && ps[i] == Strip(next[i]) {
      assert next[i] == raw[i];
    }
  }

  /** A comma at depth 0 closes the current piece and starts an empty one. */
  lemma BehindSplit(raw: seq<string>, st: Splitting)
    requires Behind(raw, st) && st.depth == 0
    ensures Behind(raw + [[]], SplitStep(st, ','))
    ensures JoinComma(raw + [[]]) == JoinComma(raw) + ","
  {
    JoinCommaNew(raw);
    CommaFreeAppend(raw);
    ClosedAppend(raw, st.parts);
    assert SplitStep(st, ',') == Splitting(st.parts + [Strip(st.current)], [], 0);
    assert NoTopLevelComma([]);
  }

  /** Any other character joins the current piece; the finished parts stay as they are. */
  lemma StepExtends(st: Splitting, c: char)
    requires !(c == ',' && st.depth == 0)
    ensures SplitStep(st, c) == st.(current := st.current + [c],
      depth := st.depth + (if c == '(' then 1 else if c == ')' then -1 else 0))
  {
  }

  /** Any other character joins the current piece. */
  lemma BehindExtend(raw: seq<string>, st: Splitting, c: char)
    requires Behind(raw, st) && !(c == ',' && st.depth == 0)
    ensures Behind(raw[..|raw| - 1] + [st.current + [c]], SplitStep(st, c))
    ensures JoinComma(raw[..|raw| - 1] + [st.current + [c]]) == JoinComma(raw) + [c]
  {
    JoinCommaExtend(raw, c);
    DepthSnoc(st.current, c);
    assert NoTopLevelComma(raw[|raw| - 1]);
    NoTopLevelCommaSnoc(st.current, c);
    StepExtends(st, c);
    CommaFreeReplaceLast(raw, st.current + [c]);
    ClosedReplaceLast(raw, st.parts, st.current + [c]);
  }

  /** The raw pieces behind the scan of `s`, joined by commas, are `s`. */
  lemma {:induction false} SplitScanPieces(s: string) returns (raw: seq<string>)
    ensures Behind(raw, SplitScan(s)) && JoinComma(raw) == s
    decreases |s|
  {
    if s == [] {
      raw := PiecesStart();
    } else {
      var init, c := s[..|s| - 1], s[|s| - 1];
      var before := SplitScan(init);
      var prev := SplitScanPieces(init);
      assert SplitScan(s) == SplitStep(before, c);
      FrontLast(s);
      raw := PiecesStep(prev, before, c);
    }
  }

  /** Before the first character there is one raw piece, the empty one. */
  lemma PiecesStart() returns (raw: seq<string>)
    ensures Behind(raw, SplitScan([])) && JoinComma(raw) == []
  {
    raw := [[]];
  }

  /** One character of the scan: the raw pieces take it in, as a new piece after a split comma. */
  lemma PiecesStep(prev: seq<string>, before: Splitting, c: char) returns (raw: seq<string>)
    requires Behind(prev, before)
    ensures Behind(raw, SplitStep(before, c)) && JoinComma(raw) == JoinComma(prev) + [c]
  {
    if c == ',' && before.depth == 0 {
      BehindSplit(prev, before);
      raw := prev + [[]];
    } else {
      BehindExtend(prev, before, c);
      raw := prev[..|prev| - 1] + [before.current + [c]];
    }
  }

  /**
    * `_split_columns` splits exactly at the commas outside parentheses: the content is
    * the raw pieces joined by commas, each split comma at depth 0 and no other comma
    * outside parentheses, and the parts are the stripped pieces, the last one dropped
    * when it is blank.
    */
  lemma SplitPieces(content: string) returns (raw: seq<string>)
    ensures raw != [] && JoinComma(raw) == content
    ensures forall i :: 0 <= i < |raw| ==> NoTopLevelComma(raw[i])
    ensures forall i :: 0 <= i < |raw| - 1 ==> Depth(raw[i]) == 0
    ensures var parts := Finish(SplitScan(content));
      && |parts| == |raw| - (if Strip(raw[|raw| - 1]) == [] then 1 else 0)
      && (forall i :: 0 <= i < |parts| ==> parts[i] == Strip(raw[i]))
  {
    raw := SplitScanPieces(content);
  }

  // ---------------------------------------------------------------------------
  // _parse_column
  // ---------------------------------------------------------------------------

  /**
    * The type of the column pattern at `t`: a run of letters, then optionally blanks and a
    * parenthesised argument (at least one character, no closing parenthesis inside).
    */
  function TypeEnd(s: string, t: nat): (e: Option<nat>)
    requires t <= |s|
    ensures e.Some? ==> t < e.value <= |s|
  {
    var a := Span(s, t, Letter);
    if a == t then None
    else
      var p := SkipSpaces(s, a);
      if CharAt(s, p, '(') then
        var q := Span(s, p + 1, Except(')'));
        if q > p + 1 && CharAt(s, q, ')') then Some(q + 1) else Some(a)
      else Some(a)
  }

  /** Where an optional `\s+W1...\s+Wn` group ends: after the words when they follow, else at `i`. */
  function Optional(s: string, i: nat, words: seq<string>): (j: nat)
    requires i <= |s|
    ensures i <= j <= |s|
  {
    SpacedWords(s, i, words).GetOr(i)
  }

  /**
    * The optional `\s+WITH\s+DEFAULT\s+[^,]+` group at `i`, with the `WITH DEFAULT` prefix
    * and the surrounding blanks removed: the text up to the next comma. When only blanks
    * follow `DEFAULT` (two or more before a comma or the end) the group still matches and
    * the default is empty.
    */
  function DefaultAt(s: string, i: nat): (r: Option<string>)
    requires i <= |s|
    ensures r.Some? ==> ',' !in r.value
    ensures r.Some? && r.value != [] ==> !IsSpace(r.value[0]) && !IsSpace(r.value[|r.value| - 1])
  {
    match SpacedWords(s, i, ["WITH", "DEFAULT"])
    case None => None
    case Some(d) =>
      var e := SkipSpaces(s, d);
      if e > d && e < |s| && s[e] != ',' then
        var v := s[e..Span(s, e, Except(','))];
        SpanAll(s, e, Except(','));
        assert forall k :: 0 <= k < |v| ==> v[k] != ',';
        Some(StripNoComma(v))
      else if e >= d + 2 then Some([])
      else None
  }

  /** Stripping keeps a comma-free text comma-free. */
  function StripNoComma(v: string): (r: string)
    requires ',' !in v
    ensures r == Strip(v) && ',' !in r
  {
    var r := Strip(v);
    var l := LStrip(v);
    assert forall k :: 0 <= k < |r| ==> r[k] == v[|v| - |l| + k];
    r
  }

  /**
    * `_parse_column`: the column pattern matched at the start of a definition: a word (the
    * name), blanks, the type with an optional `FOR BIT DATA`, an optional `NOT NULL` and an
    * optional `WITH DEFAULT` clause. The name and the type are upper-cased; NOT NULL makes
    * the column non-nullable; no key flags are set here.
    */
  function ParseColumn(s: string): (r: Option<DdlColumn>)
    ensures r.Some? ==> IsUpperWord(r.value.name) && |r.value.name| <= |s|
    ensures r.Some? ==> r.value.dataType != [] && IsLetter(r.value.dataType[0])
    ensures r.Some? ==> !r.value.isPrimaryKey && r.value.foreignKeyRef == None
  {
    var n := Span(s, 0, Word);
    var t := SkipSpaces(s, n);
    if n == 0 || t == n then None
    else match TypeEnd(s, t)
      case None => None
      case Some(e) =>
        var b := Optional(s, e, ["FOR", "BIT", "DATA"]);
        var notNull := SpacedWords(s, b, ["NOT", "NULL"]);
        var c := notNull.GetOr(b);
        ColumnFacts(s, n, t, b);
        Some(DdlColumn(Upper(s[..n]), Upper(Strip(s[t..b])), notNull.None?, DefaultAt(s, c), false, None))
  }

  /** A non-empty run of word characters without lower-case letters: an upper-cased `\w+`. */
  predicate IsUpperWord(w: string) {
    w != [] && forall k :: 0 <= k < |w| ==> IsWordChar(w[k]) && !('a' <= w[k] <= 'z')
  }

  /** Text that begins with a non-blank keeps its first character when stripped. */
  lemma StripKeepsFirst(x: string)
    requires x != [] && !IsSpace(x[0])
    ensures Strip(x) != [] && Strip(x)[0] == x[0]
  {
    assert LStrip(x) == x;
  }

  lemma ColumnFacts(s: string, n: nat, t: nat, b: nat)
    requires 0 < n <= t < b <= |s| && n == Span(s, 0, Word) && t == SkipSpaces(s, n) && t < Span(s, t, Letter)
    ensures IsUpperWord(Upper(s[..n]))
    ensures Upper(Strip(s[t..b])) != [] && IsLetter(Upper(Strip(s[t..b]))[0])
  {
    SpanAll(s, 0, Word);
    var w := Upper(s[..n]);
    forall k | 0 <= k < |w| ensures IsWordChar(w[k]) {
      assert IsWordChar(s[k]);
    }
    assert IsLetter(s[t]);
    StripKeepsFirst(s[t..b]);
  }

  // ---------------------------------------------------------------------------
  // Constraints
  // ---------------------------------------------------------------------------

  /**
    * `\(([^)]+)\)` at `p`: the text between a parenthesis and the first closing one after
    * it (at least one character), and where the group ends.
    */
  function ParenText(s: string, p: nat): (r: Option<(string, nat)>)
    requires p <= |s|
    ensures r.Some? ==> p < r.value.1 <= |s| && r.value.0 != [] && ')' !in r.value.0
  {
    if !CharAt(s, p, '(') then None
    else
      var q := Span(s, p + 1, Except(')'));
      if q > p + 1 && CharAt(s, q, ')') then
        SpanAll(s, p + 1, Except(')'));
        var text := s[p + 1..q];
        assert forall k :: 0 <= k < |text| ==> text[k] == s[p + 1 + k];
        Some((text, q + 1))
      else None
  }

  /** `PRIMARY\s+KEY\s*\(([^)]+)\)` matched at the start of a part: the column list. */
  function MatchPrimaryKey(s: string): (r: Option<string>)
    ensures r.Some? ==> LitAtCI(s, 0, "PRIMARY") && r.value != [] && ')' !in r.value
  {
    if !LitAtCI(s, 0, "PRIMARY") then None
    else match SpacedWords(s, 7, ["KEY"])
      case None => None
      case Some(k) =>
        match ParenText(s, SkipSpaces(s, k))
        case None => None
        case Some((cols, _)) => Some(cols)
  }

  /** `[c.strip() for c in cols.split(",")]`. */
  function KeyColumns(cols: string): (r: seq<string>)
    ensures |r| == |Split(cols, ',')|
    ensures forall i :: 0 <= i < |r| ==> r[i] == Strip(Split(cols, ',')[i])
  {
    var pieces := Split(cols, ',');
    seq(|pieces|, i requires 0 <= i < |pieces| => Strip(pieces[i]))
  }

  /** `\w+(?:\.\w+)?` at `i`: a word, optionally followed by a dot and a second word. */
  function QualifiedName(s: string, i: nat): (e: Option<nat>)
    requires i <= |s|
    ensures e.Some? ==> i < e.value <= |s|
  {
    var a := Span(s, i, Word);
    if a == i then None
    else if CharAt(s, a, '.') && Span(s, a + 1, Word) > a + 1 then Some(Span(s, a + 1, Word))
    else Some(a)
  }

  /**
    * `FOREIGN\s+KEY\s+(\w+)\s*\(([^)]+)\)\s*REFERENCES\s+(\w+(?:\.\w+)?)\s*\(([^)]+)\)`
    * matched at the start of a part: the stripped column, and "table.column" for the
    * referenced table and its stripped column. A constraint name after `KEY` is required.
    */
  function MatchForeignKey(s: string): (r: Option<(string, string)>)
    ensures r.Some? ==> LitAtCI(s, 0, "FOREIGN")
  {
    if !LitAtCI(s, 0, "FOREIGN") then None
    else match SpacedWords(s, 7, ["KEY"])
      case None => None
      case Some(k) =>
        var n := SkipSpaces(s, k);
        var w := Span(s, n, Word);
        if n == k || w == n then None
        else ForeignKeyTail(s, SkipSpaces(s, w))
  }

  /**
    * `\(([^)]+)\)\s*REFERENCES\s+(\w+(?:\.\w+)?)\s*\(([^)]+)\)` at `p`, the part of the
    * foreign-key pattern after the constraint name: the stripped column and the reference.
    */
  function ForeignKeyTail(s: string, p: nat): (r: Option<(string, string)>)
    requires p <= |s|
    ensures r.Some? ==> CharAt(s, p, '(') && ParenText(s, p).Some? && r.value.0 == Strip(ParenText(s, p).value.0)
  {
    match ParenText(s, p)
    case None => None
    case Some((cols, e)) =>
      var r := SkipSpaces(s, e);
      if !LitAtCI(s, r, "REFERENCES") then None
      else
        var t := SkipSpaces(s, r + 10);
        if t == r + 10 then None
        else match QualifiedName(s, t)
          case None => None
          case Some(u) =>
            match ParenText(s, SkipSpaces(s, u))
            case None => None
            case Some((refCols, _)) => Some((Strip(cols), s[t..u] + "." + Strip(refCols)))
  }

  /**
    * The foreign-key pattern with the constraint name made optional,
    * `FOREIGN\s+KEY(?:\s+\w+)?\s*\(...`: a name after `KEY` is skipped when there is one,
    * otherwise the column list follows `KEY` directly. Wherever the pattern as written
    * matches, this one matches the same way.
    */
  function MatchForeignKeyNameOptional(s: string): (r: Option<(string, string)>)
    ensures r.Some? ==> LitAtCI(s, 0, "FOREIGN")
    ensures MatchForeignKey(s).Some? ==> r == MatchForeignKey(s)
  {
    if !LitAtCI(s, 0, "FOREIGN") then None
    else match SpacedWords(s, 7, ["KEY"])
      case None => None
      case Some(k) =>
        var n := SkipSpaces(s, k);
        var w := Span(s, n, Word);
        if n > k && w > n then ForeignKeyTail(s, SkipSpaces(s, w))
        else ForeignKeyTail(s, n)
  }

  /** The words that mark a part as a constraint to skip (`part.upper().startswith(...)`). */
  predicate ConstraintWord(u: string) {
    StartsWith(u, "CONSTRAINT") || StartsWith(u, "UNIQUE") || StartsWith(u, "CHECK") || StartsWith(u, "INDEX")
  }

  /** What one part of the table body is. */
  datatype Part =
    | Blank
    | PrimaryKeyPart(columns: seq<string>)
    | ForeignKeyPart(column: string, reference: string)
    | ConstraintPart
    | ColumnPart(definition: DdlColumn)
    | Unparsed

  /**
    * One iteration of the `parse_content` loop: the part is stripped, and blank parts are
    * skipped; then the primary key, the foreign key and the constraint words are tried in
    * this order, and only then the column pattern.
    */
  function Classify(part: string): (r: Part)
    ensures r.Blank? <==> Strip(part) == []
    ensures r.ColumnPart? ==> !ConstraintWord(Upper(Strip(part)))
    ensures r.ConstraintPart? ==> ConstraintWord(Upper(Strip(part)))
    ensures r.PrimaryKeyPart? ==> r.columns != []
    ensures r.ColumnPart? ==> !r.definition.isPrimaryKey && r.definition.foreignKeyRef == None
  {
    var p := Strip(part);
    if p == [] then Blank
    else match MatchPrimaryKey(p)
      case Some(cols) => PrimaryKeyPart(KeyColumns(cols))
      case None =>
        match MatchForeignKey(p)
        case Some((column, reference)) => ForeignKeyPart(column, reference)
        case None =>
          if ConstraintWord(Upper(p)) then ConstraintPart
          else match ParseColumn(p)
            case Some(col) => ColumnPart(col)
            case None => Unparsed
  }

  /** What each part is, in order. */
  function Kinds(parts: seq<string>): (kinds: seq<Part>)
    ensures |kinds| == |parts|
    ensures forall i :: 0 <= i < |parts| ==> kinds[i] == Classify(parts[i])
  {
    seq(|parts|, i requires 0 <= i < |parts| => Classify(parts[i]))
  }

  /** The three collections `parse_content` builds from the parts. */
  datatype Collected = Collected(columns: seq<DdlColumn>, primaryKey: seq<string>, foreignKeys: map<string, string>)

  /** One iteration of the loop: a primary key replaces the list, a foreign key is entered, a column appended. */
  function CollectStep(acc: Collected, kind: Part): Collected {
    match kind
    case PrimaryKeyPart(cols) => acc.(primaryKey := cols)
    case ForeignKeyPart(column, reference) => acc.(foreignKeys := acc.foreignKeys[column := reference])
    case ColumnPart(col) => acc.(columns := acc.columns + [col])
    case _ => acc
  }

  /** The collections after the parts of the given kinds, in order. */
  function Collect(kinds: seq<Part>): Collected
    decreases |kinds|
  {
    if kinds == [] then Collected([], [], map[])
    else CollectStep(Collect(kinds[..|kinds| - 1]), kinds[|kinds| - 1])
  }

  /** The part's column, when it is a column definition. */
  function ColumnOf(kind: Part): seq<DdlColumn> {
    if kind.ColumnPart? then [kind.definition] else []
  }

  /** The column definitions among the parts, in order (read from the front). */
  function ColumnsOf(kinds: seq<Part>): seq<DdlColumn>
    decreases |kinds|
  {
    if kinds == [] then [] else ColumnOf(kinds[0]) + ColumnsOf(kinds[1..])
  }

  lemma {:induction false} ColumnsOfSnoc(kinds: seq<Part>, x: Part)
    ensures ColumnsOf(kinds + [x]) == ColumnsOf(kinds) + ColumnOf(x)
    decreases |kinds|
  {
    if kinds == [] {
      assert ColumnsOf([x]) == ColumnOf(x) + ColumnsOf([]);
    } else {
      assert (kinds + [x])[1..] == kinds[1..] + [x];
      ColumnsOfSnoc(kinds[1..], x);
    }
  }

  /** Column order is preserved: the collected columns are the column parts, in order. */
  lemma {:induction false} CollectColumns(kinds: seq<Part>)
    ensures Collect(kinds).columns == ColumnsOf(kinds)
    decreases |kinds|
  {
    if kinds != [] {
      var init, x := kinds[..|kinds| - 1], kinds[|kinds| - 1];
      CollectColumns(init);
      ColumnsOfSnoc(init, x);
      assert init + [x] == kinds;
    }
  }

  /** No column part carries a key flag. */
  predicate Unflagged(kinds: seq<Part>) {
    forall i :: 0 <= i < |kinds| && kinds[i].ColumnPart? ==>
      !kinds[i].definition.isPrimaryKey && kinds[i].definition.foreignKeyRef == None
  }

  /** The collected columns carry no key flags yet: `_parse_column` sets none. */
  lemma {:induction false} CollectUnflagged(kinds: seq<Part>)
    requires Unflagged(kinds)
    ensures forall c :: c in Collect(kinds).columns ==> !c.isPrimaryKey && c.foreignKeyRef == None
    decreases |kinds|
  {
    if kinds != [] {
      CollectUnflagged(kinds[..|kinds| - 1]);
    }
  }

  /** Without a PRIMARY KEY part the primary key stays empty. */
  lemma {:induction false} PrimaryKeyNone(kinds: seq<Part>)
    requires forall i :: 0 <= i < |kinds| ==> !kinds[i].PrimaryKeyPart?
    ensures Collect(kinds).primaryKey == []
    decreases |kinds|
  {
    if kinds != [] {
      PrimaryKeyNone(kinds[..|kinds| - 1]);
    }
  }

  /** The last PRIMARY KEY part wins: it replaces any earlier list. */
  lemma {:induction false} PrimaryKeyLastWins(kinds: seq<Part>, i: nat)
    requires i < |kinds| && kinds[i].PrimaryKeyPart?
    requires forall j :: i < j < |kinds| ==> !kinds[j].PrimaryKeyPart?
    ensures Collect(kinds).primaryKey == kinds[i].columns
    decreases |kinds|
  {
    if i < |kinds| - 1 {
      PrimaryKeyLastWins(kinds[..|kinds| - 1], i);
    }
  }

  /** The FOREIGN KEY part at `i` is for `column`. */
  predicate ForeignKeyFor(kinds: seq<Part>, i: int, column: string) {
    0 <= i < |kinds| && kinds[i].ForeignKeyPart? && kinds[i].column == column
  }

  /** A column has a foreign key exactly when some FOREIGN KEY part names it. */
  lemma {:induction false} ForeignKeyColumns(kinds: seq<Part>, column: string)
    ensures column in Collect(kinds).foreignKeys <==> exists i :: ForeignKeyFor(kinds, i, column)
    decreases |kinds|
  {
    if kinds != [] {
      var init, n := kinds[..|kinds| - 1], |kinds| - 1;
      ForeignKeyColumns(init, column);
      if ForeignKeyFor(kinds, n, column) {
        assert column in Collect(kinds).foreignKeys;
      } else {
        assert column in Collect(kinds).foreignKeys <==> column in Collect(init).foreignKeys;
        if column in Collect(init).foreignKeys {
          var i :| ForeignKeyFor(init, i, column);
          assert ForeignKeyFor(kinds, i, column);
        }
        forall i | ForeignKeyFor(kinds, i, column) ensures ForeignKeyFor(init, i, column) {
        }
      }
    }
  }

  /** The last FOREIGN KEY part for a column gives its reference. */
  lemma {:induction false} ForeignKeyLastWins(kinds: seq<Part>, i: nat, column: string)
    requires ForeignKeyFor(kinds, i, column)
    requires forall j :: i < j < |kinds| ==> !ForeignKeyFor(kinds, j, column)
    ensures column in Collect(kinds).foreignKeys && Collect(kinds).foreignKeys[column] == kinds[i].reference
    decreases |kinds|
  {
    if i < |kinds| - 1 {
      var init := kinds[..|kinds| - 1];
      assert ForeignKeyFor(init, i, column);
      assert forall j :: i < j < |init| ==> !ForeignKeyFor(init, j, column) by {
        forall j | i < j < |init| ensures !ForeignKeyFor(init, j, column) {
          assert !ForeignKeyFor(kinds, j, column);
        }
      }
      ForeignKeyLastWins(init, i, column);
      assert !ForeignKeyFor(kinds, |kinds| - 1, column);
    }
  }

  // ---------------------------------------------------------------------------
  // parse_content
  // ---------------------------------------------------------------------------

  /** The groups of the CREATE TABLE pattern: optional schema, table name, column text. */
  datatype CreateMatch = CreateMatch(schema: Option<string>, name: string, body: string)

  datatype DdlError = NoCreateTable

  /** The last occurrence of `c` in `s[from..i]`. */
  function LastFrom(s: string, c: char, from: nat, i: nat): (r: Option<nat>)
    requires i <= |s|
    ensures r.Some? ==> from <= r.value < i && s[r.value] == c && forall k :: r.value < k < i ==> s[k] != c
    ensures r.None? ==> forall k :: from <= k < i ==> s[k] != c
    decreases i
  {
    if i <= from then None
    else if s[i - 1] == c then Some(i - 1)
    else LastFrom(s, c, from, i - 1)
  }

  /**
    * `CREATE\s+TABLE\s+(?:(\w+)\.)?(\w+)\s*\((.*)\)` (any case, `.` matching line breaks)
    * tried at position `p`: the column text runs from the opening parenthesis to the last
    * closing parenthesis of the whole text.
    */
  function MatchCreateAt(s: string, p: nat): (r: Option<CreateMatch>)
    ensures r.Some? ==> LitAtCI(s, p, "CREATE") && IsWordText(r.value.name)
    ensures r.Some? && r.value.schema.Some? ==> IsWordText(r.value.schema.value)
  {
    if !LitAtCI(s, p, "CREATE") then None
    else match SpacedWords(s, p + 6, ["TABLE"])
      case None => None
      case Some(a) =>
        var b := SkipSpaces(s, a);
        if a == b then None
        else match TableName(s, b)
          case None => None
          case Some((schema, name, e)) =>
            var c := SkipSpaces(s, e);
            if !CharAt(s, c, '(') then None
            else match LastFrom(s, ')', c + 1, |s|)
              case None => None
              case Some(l) => Some(CreateMatch(schema, name, s[c + 1..l]))
  }

  /** `(?:(\w+)\.)?(\w+)` at `b`: the optional schema, the table name, and where the name ends. */
  function TableName(s: string, b: nat): (r: Option<(Option<string>, string, nat)>)
    requires b <= |s|
    ensures r.Some? ==> b < r.value.2 <= |s| && IsWordText(r.value.1)
    ensures r.Some? && r.value.0.Some? ==> IsWordText(r.value.0.value)
  {
    var w1 := Span(s, b, Word);
    if w1 == b then None
    else
      SpanAll(s, b, Word);
      WordRun(s, b, w1);
      if CharAt(s, w1, '.') && Span(s, w1 + 1, Word) > w1 + 1 then
        var w2 := Span(s, w1 + 1, Word);
        SpanAll(s, w1 + 1, Word);
        WordRun(s, w1 + 1, w2);
        Some((Some(s[b..w1]), s[w1 + 1..w2], w2))
      else Some((None, s[b..w1], w1))
  }

  /** A non-empty `\w+` run. */
  predicate IsWordText(w: string) { w != [] && forall k :: 0 <= k < |w| ==> IsWordChar(w[k]) }

  lemma WordRun(s: string, i: nat, j: nat)
    requires i < j <= |s| && forall k :: i <= k < j ==> InClass(s[k], Word)
    ensures IsWordText(s[i..j])
  {
    var w := s[i..j];
    forall k | 0 <= k < |w| ensures IsWordChar(w[k]) {
      assert w[k] == s[i + k];
    }
  }

  /** `CREATE_TABLE_PATTERN.search`: the match at the first position where there is one. */
  function FindCreate(s: string): Option<CreateMatch> {
    FirstMatch((p: nat) => MatchCreateAt(s, p), 0, |s|)
  }

  /** The search finds nothing exactly when the pattern matches at no position. */
  lemma CreateSearch(s: string)
    ensures FindCreate(s).None? <==> forall p: nat :: p <= |s| ==> MatchCreateAt(s, p).None?
  {
    var m := (p: nat) => MatchCreateAt(s, p);
    ScanNone(m, 0, |s|);
    assert FindCreate(s) == FirstMatch(m, 0, |s|);
    assert forall p: nat :: m(p) == MatchCreateAt(s, p);
  }

  /** `col.is_primary_key` / `col.foreign_key_ref` after the flag loop of `parse_content`. */
  function Flag(col: DdlColumn, primaryKey: seq<string>, foreignKeys: map<string, string>): DdlColumn {
    col.(isPrimaryKey := col.isPrimaryKey || col.name in primaryKey,
         foreignKeyRef := if col.name in foreignKeys then Some(foreignKeys[col.name]) else col.foreignKeyRef)
  }

  /** The table `parse_content` builds from a CREATE TABLE match and the collections. */
  function Assemble(m: CreateMatch, acc: Collected): DdlTable {
    DdlTable(m.schema.GetOr("DBO"), m.name,
      seq(|acc.columns|, i requires 0 <= i < |acc.columns| => Flag(acc.columns[i], acc.primaryKey, acc.foreignKeys)),
      acc.primaryKey, acc.foreignKeys)
  }

  /** The table `parse_content` returns for a CREATE TABLE match. */
  function Table(m: CreateMatch): DdlTable {
    Assemble(m, Collect(Kinds(Finish(SplitScan(m.body)))))
  }

  /**
    * The returned table: the schema defaults to "DBO"; the columns are the column parts in
    * order, each flagged as a primary-key column exactly when its name is in the primary
    * key, and given a foreign-key reference exactly when its name has a foreign key.
    */
  lemma {:induction false} AssembleFlags(m: CreateMatch, kinds: seq<Part>)
    requires Unflagged(kinds)
    ensures var t := Assemble(m, Collect(kinds));
      && t.schema == (if m.schema.Some? then m.schema.value else "DBO") && t.name == m.name
      && |t.columns| == |ColumnsOf(kinds)|
      && (forall i :: 0 <= i < |t.columns| ==> t.columns[i] == Flag(ColumnsOf(kinds)[i], t.primaryKey, t.foreignKeys))
      && forall i :: 0 <= i < |t.columns| ==>
        && (t.columns[i].isPrimaryKey <==> t.columns[i].name in t.primaryKey)
        && t.columns[i].foreignKeyRef == (if t.columns[i].name in t.foreignKeys then Some(t.foreignKeys[t.columns[i].name]) else None)
  {
    CollectColumns(kinds);
    CollectUnflagged(kinds);
    var acc := Collect(kinds);
    assert forall i :: 0 <= i < |acc.columns| ==> acc.columns[i] in acc.columns;
  }

  /** Flagging the collected columns one by one gives the assembled table. */
  lemma AssembleFrom(m: CreateMatch, acc: Collected, flagged: seq<DdlColumn>)
    requires |flagged| == |acc.columns|
    requires forall k :: 0 <= k < |flagged| ==> flagged[k] == Flag(acc.columns[k], acc.primaryKey, acc.foreignKeys)
    ensures DdlTable(m.schema.GetOr("DBO"), m.name, flagged, acc.primaryKey, acc.foreignKeys) == Assemble(m, acc)
  {
  }

  /** The parts of a table body never yield a flagged column. */
  lemma KindsUnflagged(parts: seq<string>)
    ensures Unflagged(Kinds(parts))
  {
  }

  lemma CollectSnoc(kinds: seq<Part>, i: nat)
    requires i < |kinds|
    ensures Collect(kinds[..i + 1]) == CollectStep(Collect(kinds[..i]), kinds[i])
  {
    assert kinds[..i + 1][..i] == kinds[..i];
  }

  /**
    * The classifying loop of `parse_content`, over the parts' kinds: a primary key replaces
    * the list, a foreign key is entered under its column, a column is appended, everything
    * else is skipped.
    */
  method CollectParts(kinds: seq<Part>) returns (columns: seq<DdlColumn>, primaryKey: seq<string>, foreignKeys: map<string, string>)
    ensures Collected(columns, primaryKey, foreignKeys) == Collect(kinds)
  {
    columns, primaryKey, foreignKeys := [], [], map[];
    var i := 0;
    while i < |kinds|
      invariant 0 <= i <= |kinds|
      invariant Collect(kinds[..i]) == Collected(columns, primaryKey, foreignKeys)
    {
      CollectSnoc(kinds, i);
      match kinds[i] {
        case PrimaryKeyPart(cols) => primaryKey := cols;
        case ForeignKeyPart(column, reference) => foreignKeys := foreignKeys[column := reference];
        case ColumnPart(col) => columns := columns + [col];
        case _ =>
      }
      i := i + 1;
    }
    assert kinds[..i] == kinds;
  }

  /** The flag loop of `parse_content`, updating each column in place. */
  method FlagColumns(columns: seq<DdlColumn>, primaryKey: seq<string>, foreignKeys: map<string, string>)
    returns (flagged: seq<DdlColumn>)
    ensures |flagged| == |columns|
    ensures forall k :: 0 <= k < |columns| ==> flagged[k] == Flag(columns[k], primaryKey, foreignKeys)
  {
    flagged := columns;
    var j := 0;
    while j < |flagged|
      invariant 0 <= j <= |flagged| == |columns|
      invariant forall k :: 0 <= k < j ==> flagged[k] == Flag(columns[k], primaryKey, foreignKeys)
      invariant forall k :: j <= k < |flagged| ==> flagged[k] == columns[k]
    {
      var col := flagged[j];
      if col.name in primaryKey {
        col := col.(isPrimaryKey := true);
      }
      if col.name in foreignKeys {
        col := col.(foreignKeyRef := Some(foreignKeys[col.name]));
      }
      flagged := flagged[j := col];
      j := j + 1;
    }
  }

  /**
    * `parse_content`: the content is cleaned and searched for CREATE TABLE (a ValueError
    * when there is none); the parts of its body are classified in one loop, and a second
    * loop flags the primary-key and foreign-key columns.
    */
  method ParseContent(content: string) returns (r: Result<DdlTable, DdlError>)
    ensures r.Err? <==> forall p: nat :: p <= |CleanContent(content)| ==> MatchCreateAt(CleanContent(content), p).None?
    ensures r.Err? ==> r.error == NoCreateTable
    ensures r.Ok? ==> FindCreate(CleanContent(content)).Some? && r.value == Table(FindCreate(CleanContent(content)).value)
  {
    var s := CleanContent(content);
    CreateSearch(s);
    var found := FindCreate(s);
    if found.None? {
      return Err(NoCreateTable);
    }
    var m := found.value;
    var parts := SplitColumns(m.body);
    var columns, primaryKey, foreignKeys := CollectParts(Kinds(parts));
    ghost var acc := Collected(columns, primaryKey, foreignKeys);
    columns := FlagColumns(columns, primaryKey, foreignKeys);
    AssembleFrom(m, acc, columns);
    assert Table(m) == Assemble(m, acc);
    r := Ok(DdlTable(m.schema.GetOr("DBO"), m.name, columns, primaryKey, foreignKeys));
  }

  /** The schema field of one column: typed by the DB2 converter, with the column's nullability. */
  function ColumnField(col: DdlColumn): StructField {
    StructField(col.name, Db2Types.Convert(col.dataType), col.nullable)
  }

  /** `to_spark_schema`: one field per column, in order. */
  method ToSparkSchema(table: DdlTable) returns (schema: seq<StructField>)
    ensures |schema| == |table.columns|
    ensures forall i :: 0 <= i < |table.columns| ==>
      schema[i] == StructField(table.columns[i].name, Db2Types.Convert(table.columns[i].dataType), table.columns[i].nullable)
  {
    schema := BuildFields(table.columns, ColumnField);
  }

  // ---------------------------------------------------------------------------
  // Column definitions written out and read back
  // ---------------------------------------------------------------------------

  /** The argument of a type, with its parentheses, when it has one. */
  function ArgsText(args: Option<string>): string {
    match args
    case None => []
    case Some(a) => "(" + a + ")"
  }

  /** The default clause of a written column definition. */
  function DefaultText(defaultValue: Option<string>): string {
    match defaultValue
    case None => []
    case Some(v) => " " + "WITH" + " " + "DEFAULT" + (" " + v)
  }

  /** What follows the type in a written column definition: NOT NULL, then the default. */
  function Tail(nullable: bool, defaultValue: Option<string>): string {
    (if nullable then [] else " " + "NOT" + " " + "NULL") + DefaultText(defaultValue)
  }

  /** A column definition as a DDL script writes it: name, type, NOT NULL, default. */
  function Render(name: string, letters: string, args: Option<string>, nullable: bool, defaultValue: Option<string>): string {
    name + " " + (letters + ArgsText(args)) + Tail(nullable, defaultValue)
  }

  /** Upper-case ASCII letters: the keyword of a type. */
  predicate IsTypeKeyword(w: string) { w != [] && forall k :: 0 <= k < |w| ==> 'A' <= w[k] <= 'Z' }

  /** A type argument: no closing parenthesis and no lower-case letter inside. */
  predicate IsTypeArgument(a: string) { a != [] && forall k :: 0 <= k < |a| ==> a[k] != ')' && !('a' <= a[k] <= 'z') }

  /** A default value the pattern reads back whole: no comma, no surrounding blanks. */
  predicate IsDefaultText(v: string) { v != [] && ',' !in v && !IsSpace(v[0]) && !IsSpace(v[|v| - 1]) }

  /** A blank and then the upper-case word `w` at `i`: the group `\s+w` matches there. */
  lemma WordAfterBlank(s: string, i: nat, w: string)
    requires WrittenAt(s, i, " ") && WrittenAt(s, i + 1, w) && IsTypeKeyword(w)
    ensures SkipSpaces(s, i) == i + 1 && LitAtCI(s, i + 1, w)
  {
    assert s[i] == " "[0];
    assert s[i + 1] == w[0];
    SpanExact(s, i, i + 1, Space);
    forall j | i + 1 <= j < i + 1 + |w| ensures UpperChar(s[j]) == w[j - (i + 1)] {
      assert s[j] == w[j - (i + 1)];
    }
  }

  /** A blank and the first word at `i`: the group continues with the other words after it. */
  lemma SpacedStep(s: string, i: nat, words: seq<string>, j: nat)
    requires words != [] && IsTypeKeyword(words[0])
    requires WrittenAt(s, i, " ") && WrittenAt(s, i + 1, words[0]) && j == i + 1 + |words[0]|
    ensures SpacedWords(s, i, words) == SpacedWords(s, j, words[1..])
  {
    WordAfterBlank(s, i, words[0]);
  }

  /** Two blank-separated words at `i`: each blank and each word where it stands. */
  lemma TwoWordsSplit(s: string, i: nat, a: string, b: string)
    requires WrittenAt(s, i, " " + a + " " + b)
    ensures WrittenAt(s, i, " ") && WrittenAt(s, i + 1, a)
    ensures WrittenAt(s, i + 1 + |a|, " ") && WrittenAt(s, i + 2 + |a|, b)
  {
    WrittenSplit(s, i, " " + a + " ", b, i + 2 + |a|);
    WrittenSplit(s, i, " " + a, " ", i + 1 + |a|);
    WrittenSplit(s, i, " ", a, i + 1);
  }

  /** Two blank-separated upper-case words at `i` match `\s+A\s+B`, ending after `B`. */
  lemma TwoWordsRead(s: string, i: nat, a: string, b: string, j: nat)
    requires IsTypeKeyword(a) && IsTypeKeyword(b)
    requires WrittenAt(s, i, " ") && WrittenAt(s, i + 1, a)
    requires WrittenAt(s, i + 1 + |a|, " ") && WrittenAt(s, i + 2 + |a|, b)
    requires j == i + 2 + |a| + |b|
    ensures SpacedWords(s, i, [a, b]) == Some(j)
  {
    var p := i + 1 + |a|;
    assert [a, b][0] == a && [a, b][1..] == [b] && [b][0] == b && [b][1..] == [];
    SpacedStep(s, i, [a, b], p);
    SpacedStep(s, p, [b], j);
    assert SpacedWords(s, j, []) == Some(j);
  }

  /** The keywords written after a type are upper-case words. */
  lemma Keywords()
    ensures IsTypeKeyword("NOT") && IsTypeKeyword("NULL")
    ensures IsTypeKeyword("WITH") && IsTypeKeyword("DEFAULT")
  {
  }

  /** Nothing that begins with another letter, and not the end, starts the group `\s+W...`. */
  lemma NoWordAfterBlank(s: string, i: nat, words: seq<string>)
    requires i <= |s| && words != [] && words[0] != []
    requires i == |s| || (i + 1 < |s| && s[i] == ' ' && !IsSpace(s[i + 1]) && UpperChar(s[i + 1]) != words[0][0])
    ensures SpacedWords(s, i, words) == None
  {
    if i < |s| {
      SpanExact(s, i, i + 1, Space);
      assert !LitAtCI(s, i + 1, words[0]) by {
        assert UpperChar(s[i + 1]) != words[0][0];
      }
    }
  }

  /** The default clause written at `c`, up to the end, is read back as written. */
  lemma DefaultRead(s: string, c: nat, defaultValue: Option<string>)
    requires WrittenAt(s, c, DefaultText(defaultValue)) && |s| == c + |DefaultText(defaultValue)|
    requires defaultValue.Some? ==> IsDefaultText(defaultValue.value)
    ensures DefaultAt(s, c) == defaultValue
  {
    match defaultValue
    case None =>
      NoWordAfterBlank(s, c, ["WITH", "DEFAULT"]);
    case Some(v) =>
      WrittenSplit(s, c, " " + "WITH" + " " + "DEFAULT", " " + v, c + 13);
      Keywords();
      TwoWordsSplit(s, c, "WITH", "DEFAULT");
      TwoWordsRead(s, c, "WITH", "DEFAULT", c + 13);
      DefaultValueRead(s, c + 13, v);
  }

  /** A blank and then a default value running to the end: the value, stripped, is itself. */
  lemma DefaultValueRead(s: string, d: nat, v: string)
    requires WrittenAt(s, d, " " + v) && |s| == d + 1 + |v| && IsDefaultText(v)
    ensures SkipSpaces(s, d) == d + 1 && d + 1 < |s| && s[d + 1] != ','
    ensures Span(s, d + 1, Except(',')) == |s| && s[d + 1..|s|] == v && Strip(v) == v
  {
    WrittenSplit(s, d, " ", v, d + 1);
    assert s[d] == " "[0];
    assert s[d + 1] == v[0];
    SpanExact(s, d, d + 1, Space);
    forall k | d + 1 <= k < |s| ensures InClass(s[k], Except(',')) {
      assert s[k] == v[k - d - 1];
    }
    SpanExact(s, d + 1, |s|, Except(','));
    WrittenSlice(s, d + 1, v, |s|);
    StripIdentity(v);
  }

  /** The tail begins with a blank and then the N of NOT or the W of WITH, or is empty. */
  lemma TailHead(s: string, e: nat, nullable: bool, defaultValue: Option<string>)
    requires WrittenAt(s, e, Tail(nullable, defaultValue)) && |s| == e + |Tail(nullable, defaultValue)|
    ensures e == |s| <==> nullable && defaultValue == None
    ensures e < |s| ==> e + 1 < |s| && s[e] == ' ' && s[e + 1] == (if nullable then 'W' else 'N')
  {
    var tail := Tail(nullable, defaultValue);
    if tail != [] {
      assert s[e] == tail[0] && s[e + 1] == tail[1];
    }
  }

  /**
    * The tail written at `e`, up to the end: no FOR BIT DATA, NOT NULL found exactly when
    * it was written, and the default read back.
    */
  lemma TailRead(s: string, e: nat, nullable: bool, defaultValue: Option<string>)
    requires WrittenAt(s, e, Tail(nullable, defaultValue)) && |s| == e + |Tail(nullable, defaultValue)|
    requires defaultValue.Some? ==> IsDefaultText(defaultValue.value)
    ensures Optional(s, e, ["FOR", "BIT", "DATA"]) == e
    ensures SpacedWords(s, e, ["NOT", "NULL"]).None? == nullable
    ensures DefaultAt(s, SpacedWords(s, e, ["NOT", "NULL"]).GetOr(e)) == defaultValue
  {
    TailHead(s, e, nullable, defaultValue);
    NoWordAfterBlank(s, e, ["FOR", "BIT", "DATA"]);
    if nullable {
      NullableTailRead(s, e, defaultValue);
    } else {
      NotNullTailRead(s, e, defaultValue);
    }
  }

  lemma NullableTailRead(s: string, e: nat, defaultValue: Option<string>)
    requires WrittenAt(s, e, Tail(true, defaultValue)) && |s| == e + |Tail(true, defaultValue)|
    requires defaultValue.Some? ==> IsDefaultText(defaultValue.value)
    ensures SpacedWords(s, e, ["NOT", "NULL"]) == None
    ensures DefaultAt(s, e) == defaultValue
  {
    TailHead(s, e, true, defaultValue);
    NoWordAfterBlank(s, e, ["NOT", "NULL"]);
    assert Tail(true, defaultValue) == DefaultText(defaultValue);
    DefaultRead(s, e, defaultValue);
  }

  lemma NotNullTailRead(s: string, e: nat, defaultValue: Option<string>)
    requires WrittenAt(s, e, Tail(false, defaultValue)) && |s| == e + |Tail(false, defaultValue)|
    requires defaultValue.Some? ==> IsDefaultText(defaultValue.value)
    ensures SpacedWords(s, e, ["NOT", "NULL"]) == Some(e + 9)
    ensures DefaultAt(s, e + 9) == defaultValue
  {
    WrittenSplit(s, e, " " + "NOT" + " " + "NULL", DefaultText(defaultValue), e + 9);
    Keywords();
    TwoWordsSplit(s, e, "NOT", "NULL");
    TwoWordsRead(s, e, "NOT", "NULL", e + 9);
    DefaultRead(s, e + 9, defaultValue);
  }

  /** A written type: upper-case, begins with a letter, ends with a letter or `)`. */
  lemma TypeTextFacts(letters: string, args: Option<string>)
    requires IsTypeKeyword(letters) && (args.Some? ==> IsTypeArgument(args.value))
    ensures var ty := letters + ArgsText(args);
      && ty != [] && IsLetter(ty[0]) && !IsSpace(ty[|ty| - 1])
      && forall k :: 0 <= k < |ty| ==> !('a' <= ty[k] <= 'z')
  {
    var ty := letters + ArgsText(args);
    assert ty[0] == letters[0];
    forall k | 0 <= k < |ty| ensures !('a' <= ty[k] <= 'z') {
      if k >= |letters| && args.Some? {
        var a := args.value;
        assert ArgsText(args) == "(" + a + ")";
        var j := k - |letters|;
        assert ty[k] == ("(" + a + ")")[j];
        if 0 < j <= |a| {
          assert ("(" + a + ")")[j] == a[j - 1];
        }
      }
    }
  }

  /** The run of letters at `t` is the type keyword: Span stops where it ends. */
  lemma LettersRead(s: string, t: nat, letters: string)
    requires WrittenAt(s, t, letters) && IsTypeKeyword(letters)
    requires t + |letters| == |s| || !IsLetter(s[t + |letters|])
    ensures Span(s, t, Letter) == t + |letters|
  {
    forall k | t <= k < t + |letters| ensures InClass(s[k], Letter) {
      assert s[k] == letters[k - t];
    }
    SpanExact(s, t, t + |letters|, Letter);
  }

  /** A parenthesised argument at `a`: the optional group of the type pattern reads it. */
  lemma ArgumentRead(s: string, a: nat, x: string)
    requires WrittenAt(s, a, "(" + x + ")") && IsTypeArgument(x)
    ensures SkipSpaces(s, a) == a && CharAt(s, a, '(')
    ensures Span(s, a + 1, Except(')')) == a + 1 + |x| && CharAt(s, a + 1 + |x|, ')')
  {
    WrittenSplit(s, a, "(" + x, ")", a + 1 + |x|);
    WrittenSplit(s, a, "(", x, a + 1);
    assert s[a] == "("[0];
    assert s[a + 1 + |x|] == ")"[0];
    SpanExact(s, a, a, Space);
    forall k | a + 1 <= k < a + 1 + |x| ensures InClass(s[k], Except(')')) {
      assert s[k] == x[k - a - 1];
    }
    SpanExact(s, a + 1, a + 1 + |x|, Except(')'));
  }

  /**
    * A written type at `t`, followed by the end or by a blank and a letter: the type pattern
    * ends right after it and reads it back unchanged.
    */
  lemma TypeRead(s: string, t: nat, letters: string, args: Option<string>, e: nat)
    requires WrittenAt(s, t, letters + ArgsText(args)) && IsTypeKeyword(letters)
    requires args.Some? ==> IsTypeArgument(args.value)
    requires e == t + |letters + ArgsText(args)|
    requires e == |s| || (e + 1 < |s| && s[e] == ' ' && IsLetter(s[e + 1]))
    ensures TypeEnd(s, t) == Some(e)
  {
    WrittenSplit(s, t, letters, ArgsText(args), t + |letters|);
    var a := t + |letters|;
    match args
    case None =>
      LettersRead(s, t, letters);
      if a < |s| {
        SpanExact(s, a, a + 1, Space);
      }
    case Some(x) =>
      ArgumentRead(s, a, x);
      assert s[a] == '(';
      LettersRead(s, t, letters);
  }

  /** The written name at the start, then a blank: the name pattern reads the name back. */
  lemma NameRead(s: string, name: string)
    requires WrittenAt(s, 0, name + " ") && IsUpperWord(name)
    ensures Span(s, 0, Word) == |name| && Upper(s[..|name|]) == name
  {
    WrittenSplit(s, 0, name, " ", |name|);
    assert s[|name|] == " "[0];
    forall k | 0 <= k < |name| ensures InClass(s[k], Word) {
      assert s[k] == name[k];
    }
    SpanExact(s, 0, |name|, Word);
    WrittenSlice(s, 0, name, |name|);
    UpperIdentity(name);
  }

  /** Where the parts of a written column definition stand. */
  lemma RenderLayout(name: string, letters: string, args: Option<string>, nullable: bool, defaultValue: Option<string>)
    ensures var s := Render(name, letters, args, nullable, defaultValue);
      var ty := letters + ArgsText(args);
      var tail := Tail(nullable, defaultValue);
      && WrittenAt(s, 0, name + " ") && WrittenAt(s, |name| + 1, ty)
      && WrittenAt(s, |name + " " + ty|, tail) && |s| == |name + " " + ty| + |tail|
  {
    var s := Render(name, letters, args, nullable, defaultValue);
    var ty := letters + ArgsText(args);
    WrittenConcat(name + " " + ty, Tail(nullable, defaultValue));
    WrittenSplit(s, 0, name + " ", ty, |name| + 1);
  }

  /** The name and the blank after it: the name pattern reads the name, the blanks end at the type. */
  lemma NameLayoutRead(s: string, name: string, ty: string)
    requires IsUpperWord(name) && WrittenAt(s, 0, name + " ")
    requires WrittenAt(s, |name| + 1, ty) && ty != [] && IsLetter(ty[0])
    ensures Span(s, 0, Word) == |name| && Upper(s[..|name|]) == name
    ensures SkipSpaces(s, |name|) == |name| + 1
  {
    NameRead(s, name);
    assert s[|name| + 1] == ty[0];
    WrittenSplit(s, 0, name, " ", |name|);
    assert s[|name|] == " "[0];
    SpanExact(s, |name|, |name| + 1, Space);
  }

  /** The written type, stripped and upper-cased, is itself. */
  lemma TypeTextRead(s: string, t: nat, letters: string, args: Option<string>, e: nat)
    requires IsTypeKeyword(letters) && (args.Some? ==> IsTypeArgument(args.value))
    requires WrittenAt(s, t, letters + ArgsText(args)) && e == t + |letters + ArgsText(args)|
    ensures Upper(Strip(s[t..e])) == letters + ArgsText(args)
  {
    WrittenSlice(s, t, letters + ArgsText(args), e);
    TypeTextIdentity(letters, args);
  }

  lemma TypeTextIdentity(letters: string, args: Option<string>)
    requires IsTypeKeyword(letters) && (args.Some? ==> IsTypeArgument(args.value))
    ensures Upper(Strip(letters + ArgsText(args))) == letters + ArgsText(args)
  {
    var ty := letters + ArgsText(args);
    TypeTextFacts(letters, args);
    StripIdentity(ty);
    UpperIdentity(ty);
  }

  /** The column pattern, step by step: what each step finds decides the column read. */
  lemma ColumnSteps(s: string, name: string, ty: string, e: nat, nullable: bool, defaultValue: Option<string>)
    requires |name| > 0 && e <= |s|
    requires Span(s, 0, Word) == |name| && Upper(s[..|name|]) == name && SkipSpaces(s, |name|) == |name| + 1
    requires TypeEnd(s, |name| + 1) == Some(e) && Upper(Strip(s[|name| + 1..e])) == ty
    requires Optional(s, e, ["FOR", "BIT", "DATA"]) == e
    requires SpacedWords(s, e, ["NOT", "NULL"]).None? == nullable
    requires DefaultAt(s, SpacedWords(s, e, ["NOT", "NULL"]).GetOr(e)) == defaultValue
    ensures ParseColumn(s) == Some(DdlColumn(name, ty, nullable, defaultValue, false, None))
  {
  }

  /**
    * Round trip: a column definition written out as a DDL script writes it is recognised,
    * with its name, its type (and argument), its nullability and its default read back.
    */
  lemma ParseRendered(name: string, letters: string, args: Option<string>, nullable: bool, defaultValue: Option<string>)
    requires IsUpperWord(name) && IsTypeKeyword(letters)
    requires args.Some? ==> IsTypeArgument(args.value)
    requires defaultValue.Some? ==> IsDefaultText(defaultValue.value)
    ensures ParseColumn(Render(name, letters, args, nullable, defaultValue))
      == Some(DdlColumn(name, letters + ArgsText(args), nullable, defaultValue, false, None))
  {
    var s := Render(name, letters, args, nullable, defaultValue);
    var e := |name + " " + (letters + ArgsText(args))|;
    RenderLayout(name, letters, args, nullable, defaultValue);
    TypeTextFacts(letters, args);
    NameLayoutRead(s, name, letters + ArgsText(args));
    TailHead(s, e, nullable, defaultValue);
    TypeRead(s, |name| + 1, letters, args, e);
    TypeTextRead(s, |name| + 1, letters, args, e);
    TailRead(s, e, nullable, defaultValue);
    ColumnSteps(s, name, letters + ArgsText(args), e, nullable, defaultValue);
  }

  // ---------------------------------------------------------------------------
  // Constraints and the CREATE TABLE header, read back from their written form
  // ---------------------------------------------------------------------------

  /** `(x)`: a parenthesised list as a DDL script writes it. */
  function Paren(x: string): string { "(" + x + ")" }

  /** A keyword with a blank on each side. */
  function Spaced(w: string): string { " " + w + " " }

  /** `schema.table`. */
  function QualName(schema: string, table: string): string { schema + "." + table }

  /** What follows `FOREIGN KEY [name] `: the column, REFERENCES, the table and its column. */
  function ReferenceText(c: string, schema: string, table: string, rc: string): string {
    Paren(c) + Spaced("REFERENCES") + QualName(schema, table) + " " + Paren(rc)
  }

  /** The blank and the constraint name after KEY, when there is one. */
  function NameText(name: Option<string>): string {
    match name
    case None => []
    case Some(n) => " " + n
  }

  /** `FOREIGN KEY [name] (c) REFERENCES schema.table (rc)`. */
  function ForeignKeyText(name: Option<string>, c: string, schema: string, table: string, rc: string): string {
    "FOREIGN" + " " + "KEY" + NameText(name) + " " + ReferenceText(c, schema, table, rc)
  }

  /** `PRIMARY KEY (cols)`. */
  function PrimaryKeyText(cols: string): string {
    "PRIMARY" + Spaced("KEY") + Paren(cols)
  }

  /** `CREATE TABLE schema.table (body)`. */
  function CreateText(schema: string, table: string, body: string): string {
    "CREATE" + Spaced("TABLE") + QualName(schema, table) + " " + Paren(body)
  }

  /** `", ".join(names)`. */
  function CommaList(names: seq<string>): string
    requires names != []
    decreases |names|
  {
    if |names| == 1 then names[0] else names[0] + ", " + CommaList(names[1..])
  }

  /** A column list the key patterns read: at least one character, no closing parenthesis. */
  predicate IsListText(c: string) { c != [] && ')' !in c }

  /** The keywords of the constraint and header patterns. */
  lemma HeaderKeywords()
    ensures IsTypeKeyword("FOREIGN") && IsTypeKeyword("PRIMARY") && IsTypeKeyword("KEY")
    ensures IsTypeKeyword("REFERENCES") && IsTypeKeyword("CREATE") && IsTypeKeyword("TABLE")
  {
  }

  /** A blank at `i` and then something else: the blanks end right after it. */
  lemma OneBlank(s: string, i: nat)
    requires WrittenAt(s, i, " ") && i + 1 < |s| && !IsSpace(s[i + 1])
    ensures SkipSpaces(s, i) == i + 1
  {
    assert s[i] == " "[0];
    SpanExact(s, i, i + 1, Space);
  }

  /** A word at `i` that the next character does not continue: the word run is exactly it. */
  lemma WordRead(s: string, i: nat, w: string)
    requires IsWordText(w) && WrittenAt(s, i, w)
    requires i + |w| == |s| || !IsWordChar(s[i + |w|])
    ensures Span(s, i, Word) == i + |w| && s[i..i + |w|] == w
  {
    forall k | i <= k < i + |w| ensures InClass(s[k], Word) {
      assert s[k] == w[k - i];
    }
    SpanExact(s, i, i + |w|, Word);
    WrittenSlice(s, i, w, i + |w|);
  }

  /** An upper-case keyword written at `i` is found there in any case. */
  lemma KeywordRead(s: string, i: nat, w: string)
    requires IsTypeKeyword(w) && WrittenAt(s, i, w)
    ensures LitAtCI(s, i, w)
  {
    forall j | i <= j < i + |w| ensures UpperChar(s[j]) == w[j - i] {
      assert s[j] == w[j - i];
    }
  }

  /** ` W ` at `i`, then something that is not a blank: `\s+W\s+` matches, blanks included. */
  lemma KeywordBetween(s: string, i: nat, w: string, x: string)
    requires IsTypeKeyword(w) && WrittenAt(s, i, Spaced(w))
    requires WrittenAt(s, i + |w| + 2, x) && x != [] && !IsSpace(x[0])
    ensures SkipSpaces(s, i) == i + 1 && LitAtCI(s, i + 1, w)
    ensures SpacedWords(s, i, [w]) == Some(i + 1 + |w|)
    ensures SkipSpaces(s, i + 1 + |w|) == i + 2 + |w|
  {
    WrittenSplit(s, i, " " + w, " ", i + 1 + |w|);
    WrittenSplit(s, i, " ", w, i + 1);
    WordAfterBlank(s, i, w);
    SpacedStep(s, i, [w], i + 1 + |w|);
    assert [w][1..] == [];
    assert s[i + 2 + |w|] == x[0];
    OneBlank(s, i + 1 + |w|);
  }

  /** `(c)` written at `p`: the group `\(([^)]+)\)` reads c and ends after the parenthesis. */
  lemma ParenTextRead(s: string, p: nat, c: string)
    requires IsListText(c) && WrittenAt(s, p, Paren(c))
    ensures ParenText(s, p) == Some((c, p + 2 + |c|))
  {
    WrittenSplit(s, p, "(" + c, ")", p + 1 + |c|);
    WrittenSplit(s, p, "(", c, p + 1);
    assert s[p] == "("[0];
    assert s[p + 1 + |c|] == ")"[0];
    forall k | p + 1 <= k < p + 1 + |c| ensures InClass(s[k], Except(')')) {
      assert s[k] == c[k - p - 1];
    }
    SpanExact(s, p + 1, p + 1 + |c|, Except(')'));
    WrittenSlice(s, p + 1, c, p + 1 + |c|);
  }

  /** A blank and then `(c)`: the blanks are skipped and the group reads c. */
  lemma ParenAfterBlank(s: string, u: nat, c: string)
    requires IsListText(c) && WrittenAt(s, u, " ") && WrittenAt(s, u + 1, Paren(c))
    ensures SkipSpaces(s, u) == u + 1 && ParenText(s, u + 1) == Some((c, u + 3 + |c|))
  {
    assert s[u + 1] == Paren(c)[0];
    OneBlank(s, u);
    ParenTextRead(s, u + 1, c);
  }

  /**
    * `schema.table` written at `t` and followed by a blank: the qualified name, and the
    * schema and table of the header pattern, are read whole.
    */
  lemma QualifiedRead(s: string, t: nat, schema: string, table: string, u: nat)
    requires IsWordText(schema) && IsWordText(table) && u == t + |schema| + 1 + |table|
    requires WrittenAt(s, t, QualName(schema, table)) && WrittenAt(s, u, " ")
    ensures QualifiedName(s, t) == Some(u) && s[t..u] == QualName(schema, table)
    ensures TableName(s, t) == Some((Some(schema), table, u))
  {
    var a := t + |schema|;
    QualifiedPieces(s, t, schema, table, a, u);
    WrittenSlice(s, t, QualName(schema, table), u);
    QualifiedSpans(s, t, a, u);
  }

  /** The word spans, the dot and the blank of `schema.table ` written at `t`. */
  lemma QualifiedPieces(s: string, t: nat, schema: string, table: string, a: nat, u: nat)
    requires IsWordText(schema) && IsWordText(table)
    requires a == t + |schema| && u == a + 1 + |table|
    requires WrittenAt(s, t, QualName(schema, table)) && WrittenAt(s, u, " ")
    ensures u < |s| && Span(s, t, Word) == a && CharAt(s, a, '.') && Span(s, a + 1, Word) == u
    ensures s[t..a] == schema && s[a + 1..u] == table
  {
    WrittenSplit(s, t, schema + ".", table, a + 1);
    WrittenSplit(s, t, schema, ".", a);
    assert s[a] == "."[0];
    assert s[u] == " "[0];
    WordRead(s, t, schema);
    WordRead(s, a + 1, table);
  }

  /** Word spans on both sides of a dot: TableName returns both, the schema first. */
  lemma QualifiedSpans(s: string, t: nat, a: nat, u: nat)
    requires t < a < u <= |s| && Span(s, t, Word) == a && CharAt(s, a, '.')
    requires a + 1 < u && Span(s, a + 1, Word) == u
    ensures TableName(s, t) == Some((Some(s[t..a]), s[a + 1..u], u))
  {
  }

  /** Where the pieces of the text after the constraint name stand. */
  lemma ReferenceLayout(s: string, p: nat, c: string, schema: string, table: string, rc: string, e: nat, u: nat)
    requires WrittenAt(s, p, ReferenceText(c, schema, table, rc))
    requires e == p + 2 + |c| && u == e + 12 + |schema| + 1 + |table|
    ensures WrittenAt(s, p, Paren(c)) && WrittenAt(s, e, Spaced("REFERENCES"))
    ensures WrittenAt(s, e + 12, QualName(schema, table)) && WrittenAt(s, u, " ")
    ensures WrittenAt(s, u + 1, Paren(rc))
  {
    WrittenSplit(s, p, Paren(c) + Spaced("REFERENCES") + QualName(schema, table) + " ", Paren(rc), u + 1);
    WrittenSplit(s, p, Paren(c) + Spaced("REFERENCES") + QualName(schema, table), " ", u);
    WrittenSplit(s, p, Paren(c) + Spaced("REFERENCES"), QualName(schema, table), e + 12);
    WrittenSplit(s, p, Paren(c), Spaced("REFERENCES"), e);
  }

  /** The foreign-key tail, step by step: what each step finds decides what is read. */
  lemma ForeignKeyTailSteps(s: string, p: nat, c: string, e: nat, u: nat, rc: string, reference: string)
    requires p <= |s| && ParenText(s, p) == Some((c, e))
    requires SkipSpaces(s, e) == e + 1 && LitAtCI(s, e + 1, "REFERENCES") && SkipSpaces(s, e + 11) == e + 12
    requires QualifiedName(s, e + 12) == Some(u) && s[e + 12..u] == reference
    requires SkipSpaces(s, u) == u + 1 && ParenText(s, u + 1).Some? && ParenText(s, u + 1).value.0 == rc
    ensures ForeignKeyTail(s, p) == Some((Strip(c), reference + "." + Strip(rc)))
  {
  }

  /**
    * The text after the constraint name, written at `p`: the column comes back stripped,
    * the reference as `schema.table.column` with the referenced column stripped.
    */
  lemma ForeignKeyTailRead(s: string, p: nat, c: string, schema: string, table: string, rc: string)
    requires IsListText(c) && IsListText(rc) && IsWordText(schema) && IsWordText(table)
    requires WrittenAt(s, p, ReferenceText(c, schema, table, rc))
    ensures ForeignKeyTail(s, p) == Some((Strip(c), schema + "." + table + "." + Strip(rc)))
  {
    var e := p + 2 + |c|;
    var u := e + 12 + |schema| + 1 + |table|;
    ReferenceHeadRead(s, p, c, schema, table, rc, e, u);
    ReferenceNameRead(s, p, c, schema, table, rc, e, u);
    ForeignKeyTailSteps(s, p, c, e, u, rc, QualName(schema, table));
  }

  /** The column group, then REFERENCES with its blanks. */
  lemma ReferenceHeadRead(s: string, p: nat, c: string, schema: string, table: string, rc: string, e: nat, u: nat)
    requires IsListText(c) && IsWordText(schema)
    requires WrittenAt(s, p, ReferenceText(c, schema, table, rc))
    requires e == p + 2 + |c| && u == e + 12 + |schema| + 1 + |table|
    ensures ParenText(s, p) == Some((c, e)) && SkipSpaces(s, e) == e + 1
    ensures LitAtCI(s, e + 1, "REFERENCES") && SkipSpaces(s, e + 11) == e + 12
  {
    ReferenceLayout(s, p, c, schema, table, rc, e, u);
    HeaderKeywords();
    ParenTextRead(s, p, c);
    assert QualName(schema, table)[0] == schema[0];
    KeywordBetween(s, e, "REFERENCES", QualName(schema, table));
  }

  /** The referenced table, then its column group. */
  lemma ReferenceNameRead(s: string, p: nat, c: string, schema: string, table: string, rc: string, e: nat, u: nat)
    requires IsListText(rc) && IsWordText(schema) && IsWordText(table)
    requires WrittenAt(s, p, ReferenceText(c, schema, table, rc))
    requires e == p + 2 + |c| && u == e + 12 + |schema| + 1 + |table|
    ensures QualifiedName(s, e + 12) == Some(u) && s[e + 12..u] == QualName(schema, table)
    ensures SkipSpaces(s, u) == u + 1 && ParenText(s, u + 1) == Some((rc, u + 3 + |rc|))
  {
    ReferenceLayout(s, p, c, schema, table, rc, e, u);
    QualifiedRead(s, e + 12, schema, table, u);
    ParenAfterBlank(s, u, rc);
  }

  /** Where the pieces of a written foreign key stand. */
  lemma ForeignKeyLayout(name: Option<string>, c: string, schema: string, table: string, rc: string)
    ensures var s := ForeignKeyText(name, c, schema, table, rc);
      var m := 11 + |NameText(name)|;
      && WrittenAt(s, 0, "FOREIGN") && WrittenAt(s, 7, " ") && WrittenAt(s, 8, "KEY")
      && WrittenAt(s, 11, NameText(name)) && WrittenAt(s, m, " ")
      && WrittenAt(s, m + 1, ReferenceText(c, schema, table, rc))
  {
    var s := ForeignKeyText(name, c, schema, table, rc);
    var m := 11 + |NameText(name)|;
    WrittenConcat("FOREIGN" + " " + "KEY" + NameText(name) + " ", ReferenceText(c, schema, table, rc));
    WrittenSplit(s, 0, "FOREIGN" + " " + "KEY" + NameText(name), " ", m);
    WrittenSplit(s, 0, "FOREIGN" + " " + "KEY", NameText(name), 11);
    WrittenSplit(s, 0, "FOREIGN" + " ", "KEY", 8);
    WrittenSplit(s, 0, "FOREIGN", " ", 7);
  }

  /** A written foreign key begins with F and ends with a closing parenthesis. */
  lemma ForeignKeyTextEnds(name: Option<string>, c: string, schema: string, table: string, rc: string)
    ensures var s := ForeignKeyText(name, c, schema, table, rc);
      s != [] && s[0] == 'F' && s[|s| - 1] == ')'
  {
  }

  /** A written foreign key begins with FOREIGN and then KEY: the pattern's head matches. */
  lemma ForeignKeyHead(name: Option<string>, c: string, schema: string, table: string, rc: string)
    ensures var s := ForeignKeyText(name, c, schema, table, rc);
      LitAtCI(s, 0, "FOREIGN") && SpacedWords(s, 7, ["KEY"]) == Some(11)
  {
    var s := ForeignKeyText(name, c, schema, table, rc);
    ForeignKeyLayout(name, c, schema, table, rc);
    HeaderKeywords();
    KeywordRead(s, 0, "FOREIGN");
    SpacedStep(s, 7, ["KEY"], 11);
    assert ["KEY"][1..] == [];
  }

  /** Both foreign-key patterns after `FOREIGN KEY`, when a name follows. */
  lemma ForeignKeyNamedSteps(s: string, w: nat)
    requires LitAtCI(s, 0, "FOREIGN") && SpacedWords(s, 7, ["KEY"]) == Some(11)
    requires SkipSpaces(s, 11) == 12 && Span(s, 12, Word) == w && w > 12 && SkipSpaces(s, w) == w + 1
    ensures MatchForeignKey(s) == ForeignKeyTail(s, w + 1)
    ensures MatchForeignKeyNameOptional(s) == ForeignKeyTail(s, w + 1)
  {
  }

  /** Both foreign-key patterns after `FOREIGN KEY`, when no name follows. */
  lemma ForeignKeyUnnamedSteps(s: string)
    requires LitAtCI(s, 0, "FOREIGN") && SpacedWords(s, 7, ["KEY"]) == Some(11)
    requires SkipSpaces(s, 11) == 12 && Span(s, 12, Word) == 12
    ensures MatchForeignKey(s) == None
    ensures MatchForeignKeyNameOptional(s) == ForeignKeyTail(s, 12)
  {
  }

  /** The pattern as written, on a foreign key with a constraint name. */
  lemma NamedForeignKeyMatch(n: string, c: string, schema: string, table: string, rc: string)
    requires IsWordText(n) && IsListText(c) && IsListText(rc) && IsWordText(schema) && IsWordText(table)
    ensures MatchForeignKey(ForeignKeyText(Some(n), c, schema, table, rc))
      == Some((Strip(c), schema + "." + table + "." + Strip(rc)))
  {
    var s := ForeignKeyText(Some(n), c, schema, table, rc);
    var w := 12 + |n|;
    ForeignKeyHead(Some(n), c, schema, table, rc);
    ConstraintNameRead(n, c, schema, table, rc, w);
    ForeignKeyNamedSteps(s, w);
    ForeignKeyTailRead(s, w + 1, c, schema, table, rc);
  }

  /** The constraint name of a written foreign key: blanks, the name word, a blank, the rest. */
  lemma ConstraintNameRead(n: string, c: string, schema: string, table: string, rc: string, w: nat)
    requires IsWordText(n) && w == 12 + |n|
    ensures var s := ForeignKeyText(Some(n), c, schema, table, rc);
      && SkipSpaces(s, 11) == 12 && Span(s, 12, Word) == w && w > 12 && SkipSpaces(s, w) == w + 1
      && WrittenAt(s, w + 1, ReferenceText(c, schema, table, rc))
  {
    var s := ForeignKeyText(Some(n), c, schema, table, rc);
    ForeignKeyLayout(Some(n), c, schema, table, rc);
    WrittenSplit(s, 11, " ", n, 12);
    assert s[w + 1] == ReferenceText(c, schema, table, rc)[0];
    BlankWordBlank(s, n, w);
  }

  /** ` n ` at 11, then an opening parenthesis: the skips and the word run end where expected. */
  lemma BlankWordBlank(s: string, n: string, w: nat)
    requires IsWordText(n) && w == 12 + |n| && WrittenAt(s, 11, " ") && WrittenAt(s, 12, n)
    requires WrittenAt(s, w, " ") && w + 1 < |s| && s[w + 1] == '('
    ensures SkipSpaces(s, 11) == 12 && Span(s, 12, Word) == w && SkipSpaces(s, w) == w + 1
  {
    assert s[12] == n[0] && s[w] == " "[0];
    OneBlank(s, 11);
    WordRead(s, 12, n);
    OneBlank(s, w);
  }

  /** A part that begins with F is not a primary key. */
  lemma NotPrimaryKey(s: string)
    requires s != [] && s[0] == 'F'
    ensures MatchPrimaryKey(s) == None
  {
    assert !LitAtCI(s, 0, "PRIMARY") by {
      assert UpperChar(s[0]) != "PRIMARY"[0];
    }
  }

  /** The last steps of `parse_content`'s loop for a foreign-key part. */
  lemma ClassifyForeignKey(s: string, column: string, reference: string)
    requires s != [] && Strip(s) == s && MatchPrimaryKey(s) == None
    requires MatchForeignKey(s) == Some((column, reference))
    ensures Classify(s) == ForeignKeyPart(column, reference)
  {
  }

  /**
    * Round trip: `FOREIGN KEY name (c) REFERENCES schema.table (rc)` is read back as a
    * foreign key on the stripped column c, referencing `schema.table.rc`.
    */
  lemma NamedForeignKeyRead(n: string, c: string, schema: string, table: string, rc: string)
    requires IsWordText(n) && IsListText(c) && IsListText(rc) && IsWordText(schema) && IsWordText(table)
    ensures Classify(ForeignKeyText(Some(n), c, schema, table, rc))
      == ForeignKeyPart(Strip(c), schema + "." + table + "." + Strip(rc))
  {
    var s := ForeignKeyText(Some(n), c, schema, table, rc);
    NamedForeignKeyMatch(n, c, schema, table, rc);
    ForeignKeyPartShape(Some(n), c, schema, table, rc);
    ClassifyForeignKey(s, Strip(c), schema + "." + table + "." + Strip(rc));
  }

  /** `FOREIGN KEY (` at the start: neither pattern finds a name, the corrected one reads on. */
  lemma UnnamedForeignKeyHead(c: string, schema: string, table: string, rc: string)
    ensures var s := ForeignKeyText(None, c, schema, table, rc);
      && MatchForeignKey(s) == None
      && MatchForeignKeyNameOptional(s) == ForeignKeyTail(s, 12)
  {
    var s := ForeignKeyText(None, c, schema, table, rc);
    ForeignKeyLayout(None, c, schema, table, rc);
    ForeignKeyHead(None, c, schema, table, rc);
    assert s[12] == ReferenceText(c, schema, table, rc)[0];
    OneBlank(s, 11);
    SpanExact(s, 12, 12, Word);
    ForeignKeyUnnamedSteps(s);
  }

  /** The type of the column pattern on `KEY (c)`: it runs to the closing parenthesis. */
  lemma KeyTypeRead(s: string, c: string, e: nat)
    requires IsTypeArgument(c) && e == 14 + |c|
    requires WrittenAt(s, 8, "KEY") && WrittenAt(s, 11, " ") && WrittenAt(s, 12, Paren(c))
    ensures TypeEnd(s, 8) == Some(e) && Upper(Strip(s[8..e])) == "KEY (" + c + ")"
  {
    KeyTypeEnd(s, c, e);
    KeyTypeText(s, c, e);
  }

  lemma KeyTypeEnd(s: string, c: string, e: nat)
    requires IsTypeArgument(c) && e == 14 + |c|
    requires WrittenAt(s, 8, "KEY") && WrittenAt(s, 11, " ") && WrittenAt(s, 12, Paren(c))
    ensures TypeEnd(s, 8) == Some(e)
  {
    HeaderKeywords();
    assert s[11] == " "[0] && s[12] == Paren(c)[0];
    LettersRead(s, 8, "KEY");
    OneBlank(s, 11);
    ArgumentRead(s, 12, c);
  }

  lemma KeyTypeText(s: string, c: string, e: nat)
    requires IsTypeArgument(c) && e == 14 + |c|
    requires WrittenAt(s, 8, "KEY") && WrittenAt(s, 11, " ") && WrittenAt(s, 12, Paren(c))
    ensures Upper(Strip(s[8..e])) == "KEY (" + c + ")"
  {
    var ty := "KEY (" + c + ")";
    WrittenSlice(s, 8, "KEY", 11);
    WrittenSlice(s, 11, " ", 12);
    WrittenSlice(s, 12, Paren(c), e);
    assert s[8..e] == s[8..11] + s[11..12] + s[12..e];
    assert s[8..e] == ty;
    forall k | 0 <= k < |ty| ensures !('a' <= ty[k] <= 'z') {
      if 5 <= k < 5 + |c| {
        assert ty[k] == c[k - 5];
      }
    }
    StripIdentity(ty);
    UpperIdentity(ty);
  }

  /** The column pattern on `FOREIGN KEY (c) REFERENCES ...`: name FOREIGN, type `KEY (c)`. */
  lemma UnnamedAsColumn(s: string, c: string, e: nat)
    requires IsTypeArgument(c) && e == 14 + |c|
    requires WrittenAt(s, 0, "FOREIGN") && WrittenAt(s, 7, " ") && WrittenAt(s, 8, "KEY")
    requires WrittenAt(s, 11, " ") && WrittenAt(s, 12, Paren(c)) && WrittenAt(s, e, Spaced("REFERENCES"))
    ensures ParseColumn(s) == Some(DdlColumn("FOREIGN", "KEY (" + c + ")", true, None, false, None))
  {
    HeaderKeywords();
    assert WrittenAt(s, 0, "FOREIGN" + " ");
    assert s[e] == Spaced("REFERENCES")[0] && s[e + 1] == Spaced("REFERENCES")[1];
    NameLayoutRead(s, "FOREIGN", "KEY");
    KeyTypeRead(s, c, e);
    NoWordAfterBlank(s, e, ["FOR", "BIT", "DATA"]);
    NoWordAfterBlank(s, e, ["NOT", "NULL"]);
    NoWordAfterBlank(s, e, ["WITH", "DEFAULT"]);
    ColumnSteps(s, "FOREIGN", "KEY (" + c + ")", e, true, None);
  }

  lemma NotStartsWith(u: string, p: string)
    requires u != [] && p != [] && u[0] != p[0]
    ensures !StartsWith(u, p)
  {
    if |p| <= |u| {
      assert u[..|p|][0] != p[0];
    }
  }

  /** A part that begins with F carries none of the constraint words. */
  lemma NoConstraintWord(s: string)
    requires s != [] && s[0] == 'F'
    ensures !ConstraintWord(Upper(s))
  {
    NotStartsWith(Upper(s), "CONSTRAINT");
    NotStartsWith(Upper(s), "UNIQUE");
    NotStartsWith(Upper(s), "CHECK");
    NotStartsWith(Upper(s), "INDEX");
  }

  /** The last steps of `parse_content`'s loop for a part that only the column pattern matches. */
  lemma ClassifyColumn(s: string, col: DdlColumn)
    requires s != [] && Strip(s) == s && MatchPrimaryKey(s) == None && MatchForeignKey(s) == None
    requires !ConstraintWord(Upper(s)) && ParseColumn(s) == Some(col)
    ensures Classify(s) == ColumnPart(col)
  {
  }

  /** The column pattern on the whole unnamed foreign key. */
  lemma UnnamedForeignKeyColumn(c: string, schema: string, table: string, rc: string)
    requires IsTypeArgument(c)
    ensures ParseColumn(ForeignKeyText(None, c, schema, table, rc))
      == Some(DdlColumn("FOREIGN", "KEY (" + c + ")", true, None, false, None))
  {
    var s := ForeignKeyText(None, c, schema, table, rc);
    ForeignKeyLayout(None, c, schema, table, rc);
    ReferenceLayout(s, 12, c, schema, table, rc, 14 + |c|, 26 + |c| + |schema| + 1 + |table|);
    UnnamedAsColumn(s, c, 14 + |c|);
  }

  /**
    * The foreign key as written without a constraint name: the pattern as written does not
    * match it, and the part is then read as a column named FOREIGN of type `KEY (c)`.
    */
  lemma UnnamedForeignKeyReadAsColumn(c: string, schema: string, table: string, rc: string)
    requires IsTypeArgument(c) && IsListText(rc) && IsWordText(schema) && IsWordText(table)
    ensures MatchForeignKey(ForeignKeyText(None, c, schema, table, rc)) == None
    ensures Classify(ForeignKeyText(None, c, schema, table, rc))
      == ColumnPart(DdlColumn("FOREIGN", "KEY (" + c + ")", true, None, false, None))
  {
    var s := ForeignKeyText(None, c, schema, table, rc);
    UnnamedForeignKeyHead(c, schema, table, rc);
    UnnamedForeignKeyColumn(c, schema, table, rc);
    ForeignKeyPartShape(None, c, schema, table, rc);
    ClassifyColumn(s, DdlColumn("FOREIGN", "KEY (" + c + ")", true, None, false, None));
  }

  /** A written foreign key is stripped already, and neither a primary key nor a constraint. */
  lemma ForeignKeyPartShape(name: Option<string>, c: string, schema: string, table: string, rc: string)
    ensures var s := ForeignKeyText(name, c, schema, table, rc);
      && s != [] && Strip(s) == s && MatchPrimaryKey(s) == None && !ConstraintWord(Upper(s))
  {
    var s := ForeignKeyText(name, c, schema, table, rc);
    ForeignKeyTextEnds(name, c, schema, table, rc);
    StripIdentity(s);
    NotPrimaryKey(s);
    NoConstraintWord(s);
  }

  /**
    * The corrected pattern reads a foreign key with or without a constraint name, the same
    * way in both cases.
    */
  lemma NameOptionalForeignKeyRead(name: Option<string>, c: string, schema: string, table: string, rc: string)
    requires name.Some? ==> IsWordText(name.value)
    requires IsListText(c) && IsListText(rc) && IsWordText(schema) && IsWordText(table)
    ensures MatchForeignKeyNameOptional(ForeignKeyText(name, c, schema, table, rc))
      == Some((Strip(c), schema + "." + table + "." + Strip(rc)))
  {
    match name
    case Some(n) =>
      NamedForeignKeyMatch(n, c, schema, table, rc);
    case None =>
      var s := ForeignKeyText(None, c, schema, table, rc);
      UnnamedForeignKeyHead(c, schema, table, rc);
      ForeignKeyLayout(None, c, schema, table, rc);
      ForeignKeyTailRead(s, 12, c, schema, table, rc);
  }

  /** `PRIMARY KEY (cols)` matches the primary-key pattern with cols as its list. */
  lemma PrimaryKeyMatch(cols: string)
    requires IsListText(cols)
    ensures MatchPrimaryKey(PrimaryKeyText(cols)) == Some(cols)
  {
    var s := PrimaryKeyText(cols);
    WrittenConcat("PRIMARY" + Spaced("KEY"), Paren(cols));
    WrittenSplit(s, 0, "PRIMARY", Spaced("KEY"), 7);
    HeaderKeywords();
    KeywordRead(s, 0, "PRIMARY");
    KeywordBetween(s, 7, "KEY", Paren(cols));
    ParenTextRead(s, 12, cols);
  }

  /** The last steps of `parse_content`'s loop for a primary-key part. */
  lemma ClassifyPrimaryKey(s: string, cols: string)
    requires s != [] && Strip(s) == s && MatchPrimaryKey(s) == Some(cols)
    ensures Classify(s) == PrimaryKeyPart(KeyColumns(cols))
  {
  }

  /** Round trip: `PRIMARY KEY (cols)` is read back as a primary key over the listed columns. */
  lemma PrimaryKeyRead(cols: string)
    requires IsListText(cols)
    ensures Classify(PrimaryKeyText(cols)) == PrimaryKeyPart(KeyColumns(cols))
  {
    var s := PrimaryKeyText(cols);
    PrimaryKeyMatch(cols);
    assert s[0] == 'P' && s[|s| - 1] == ')';
    StripIdentity(s);
    ClassifyPrimaryKey(s, cols);
  }

  /** A text without the separator is one piece. */
  lemma SplitWhole(s: string, sep: char)
    requires sep !in s
    ensures Split(s, sep) == [s]
  {
    forall k | 0 <= k < |s| ensures !LitAt(s, k, [sep]) {
      assert s[k..k + 1] == [s[k]];
    }
  }

  /** The first piece of a split ends at the first separator. */
  lemma SplitFirst(a: string, rest: string, sep: char)
    requires sep !in a
    ensures Split(a + [sep] + rest, sep) == [a] + Split(rest, sep)
  {
    var s := a + [sep] + rest;
    assert LitAt(s, |a|, [sep]) by {
      assert s[|a|..|a| + 1] == [sep];
    }
    forall k | 0 <= k < |a| ensures !LitAt(s, k, [sep]) {
      assert s[k..k + 1] == [a[k]];
    }
    assert s[..|a|] == a;
    assert s[|a| + 1..] == rest;
  }

  /** `", ".join(names)` with the names free of commas splits back into the names, blank-led. */
  lemma {:induction false} SplitCommaList(x: string, names: seq<string>, text: string)
    requires names != [] && ',' !in x && text == x + CommaList(names)
    requires forall i :: 0 <= i < |names| ==> ',' !in names[i]
    ensures var parts := Split(text, ',');
      && |parts| == |names| && parts[0] == x + names[0]
      && forall i :: 1 <= i < |names| ==> parts[i] == " " + names[i]
    decreases |names|
  {
    if |names| == 1 {
      SplitWhole(x + names[0], ',');
    } else {
      var rest := CommaList(names[1..]);
      CommaListFirst(x, names);
      SplitFirst(x + names[0], " " + rest, ',');
      SplitCommaList(" ", names[1..], " " + rest);
      var parts, later := Split(text, ','), Split(" " + rest, ',');
      forall i | 1 <= i < |names| ensures parts[i] == " " + names[i] {
        assert parts[i] == later[i - 1] && names[1..][i - 1] == names[i];
      }
    }
  }

  /** The first comma of `x + ", ".join(names)` follows the first name. */
  lemma CommaListFirst(x: string, names: seq<string>)
    requires |names| > 1
    ensures x + CommaList(names) == (x + names[0]) + [','] + (" " + CommaList(names[1..]))
  {
    var rest, y := CommaList(names[1..]), x + names[0];
    assert ", " == [','] + " ";
    Assoc(x, names[0] + ", ", rest);
    Assoc(x, names[0], ", ");
    Assoc(y, [','], " ");
    Assoc(y + [','], " ", rest);
  }

  /** A word with a blank before it strips to the word. */
  lemma StripBlankWord(n: string)
    requires IsWordText(n)
    ensures Strip(" " + n) == n
  {
    assert !IsSpace(n[0]) && !IsSpace(n[|n| - 1]) by {
      assert IsWordChar(n[0]) && IsWordChar(n[|n| - 1]);
    }
    var s := " " + n;
    assert s[1..] == n;
    assert LStrip(s) == LStrip(n) == n;
    assert RStrip(n) == n;
  }

  /** `[c.strip() for c in ", ".join(names).split(",")]` gives the names back. */
  lemma KeyColumnsList(names: seq<string>)
    requires names != [] && forall i :: 0 <= i < |names| ==> IsWordText(names[i])
    ensures KeyColumns(CommaList(names)) == names
  {
    var parts := Split(CommaList(names), ',');
    var r := KeyColumns(CommaList(names));
    StrippedPieces(names);
    forall i | 0 <= i < |names| ensures r[i] == names[i] {
      assert r[i] == Strip(parts[i]);
    }
    ElementWise(r, names);
  }

  /** Each piece of `", ".join(names).split(",")` strips to its name. */
  lemma StrippedPieces(names: seq<string>)
    requires names != [] && forall i :: 0 <= i < |names| ==> IsWordText(names[i])
    ensures var parts := Split(CommaList(names), ',');
      |parts| == |names| && forall i :: 0 <= i < |names| ==> Strip(parts[i]) == names[i]
  {
    NoCommaInNames(names);
    var parts := CommaSplit(names);
    StripPieces(names, parts);
  }

  /** The pieces of `", ".join(names).split(",")`: the first name, then each later one blank-led. */
  lemma CommaSplit(names: seq<string>) returns (parts: seq<string>)
    requires names != [] && forall i :: 0 <= i < |names| ==> ',' !in names[i]
    ensures parts == Split(CommaList(names), ',')
    ensures |parts| == |names| && parts[0] == names[0]
    ensures forall i :: 1 <= i < |names| ==> parts[i] == " " + names[i]
  {
    assert [] + CommaList(names) == CommaList(names);
    assert [] + names[0] == names[0];
    SplitCommaList([], names, CommaList(names));
    parts := Split(CommaList(names), ',');
  }

  lemma NoCommaInNames(names: seq<string>)
    requires forall i :: 0 <= i < |names| ==> IsWordText(names[i])
    ensures forall i :: 0 <= i < |names| ==> ',' !in names[i]
  {
    forall i | 0 <= i < |names| ensures ',' !in names[i] {
      var w := names[i];
      assert forall k :: 0 <= k < |w| ==> IsWordChar(w[k]);
    }
  }

  lemma StripPieces(names: seq<string>, parts: seq<string>)
    requires names != [] && forall i :: 0 <= i < |names| ==> IsWordText(names[i])
    requires |parts| == |names| && parts[0] == names[0]
    requires forall i :: 1 <= i < |names| ==> parts[i] == " " + names[i]
    ensures forall i :: 0 <= i < |names| ==> Strip(parts[i]) == names[i]
  {
    StripIdentity(names[0]);
    forall i | 1 <= i < |names| ensures Strip(parts[i]) == names[i] {
      StripBlankWord(names[i]);
    }
  }

  /** A list of names holds no closing parenthesis and is not empty. */
  lemma {:induction false} CommaListText(names: seq<string>)
    requires names != [] && forall i :: 0 <= i < |names| ==> IsWordText(names[i])
    ensures IsListText(CommaList(names))
    decreases |names|
  {
    var w := names[0];
    assert forall k :: 0 <= k < |w| ==> IsWordChar(w[k]);
    if |names| > 1 {
      CommaListText(names[1..]);
    }
  }

  /** Round trip: `PRIMARY KEY (a, b, ...)` is read back as a primary key on exactly those names. */
  lemma PrimaryKeyListRead(names: seq<string>)
    requires names != [] && forall i :: 0 <= i < |names| ==> IsWordText(names[i])
    ensures Classify(PrimaryKeyText(CommaList(names))) == PrimaryKeyPart(names)
  {
    CommaListText(names);
    PrimaryKeyRead(CommaList(names));
    KeyColumnsList(names);
  }

  /** The header pattern, step by step: what each step finds decides the match. */
  lemma CreateSteps(s: string, w: nat, schema: string, table: string, body: string)
    requires LitAtCI(s, 0, "CREATE") && SpacedWords(s, 6, ["TABLE"]) == Some(12) && SkipSpaces(s, 12) == 13
    requires TableName(s, 13) == Some((Some(schema), table, w)) && SkipSpaces(s, w) == w + 1
    requires CharAt(s, w + 1, '(') && LastFrom(s, ')', w + 2, |s|) == Some(|s| - 1)
    requires w + 2 <= |s| - 1 && s[w + 2..|s| - 1] == body
    ensures MatchCreateAt(s, 0) == Some(CreateMatch(Some(schema), table, body))
  {
  }

  /**
    * Round trip: `CREATE TABLE schema.table (body)` is matched with the schema, the table
    * name and the text up to the last closing parenthesis as the column text.
    */
  lemma CreateRead(schema: string, table: string, body: string)
    requires IsWordText(schema) && IsWordText(table)
    ensures MatchCreateAt(CreateText(schema, table, body), 0) == Some(CreateMatch(Some(schema), table, body))
  {
    var s := CreateText(schema, table, body);
    var w := 13 + |schema| + 1 + |table|;
    CreateHeadRead(schema, table, body);
    CreateNameRead(schema, table, body, w);
    CreateBodyRead(schema, table, body, w);
    CreateSteps(s, w, schema, table, body);
  }

  /** `CREATE TABLE ` at the start of a written header. */
  lemma CreateHeadRead(schema: string, table: string, body: string)
    requires IsWordText(schema)
    ensures var s := CreateText(schema, table, body);
      LitAtCI(s, 0, "CREATE") && SpacedWords(s, 6, ["TABLE"]) == Some(12) && SkipSpaces(s, 12) == 13
  {
    var s := CreateText(schema, table, body);
    CreateLayout(schema, table, body);
    HeaderKeywords();
    KeywordRead(s, 0, "CREATE");
    assert QualName(schema, table)[0] == schema[0];
    KeywordBetween(s, 6, "TABLE", QualName(schema, table));
  }

  /** The table name of a written header, and the parenthesis after it. */
  lemma CreateNameRead(schema: string, table: string, body: string, w: nat)
    requires IsWordText(schema) && IsWordText(table) && w == 13 + |schema| + 1 + |table|
    ensures var s := CreateText(schema, table, body);
      && TableName(s, 13) == Some((Some(schema), table, w))
      && SkipSpaces(s, w) == w + 1 && CharAt(s, w + 1, '(')
  {
    var s := CreateText(schema, table, body);
    CreateLayout(schema, table, body);
    QualifiedRead(s, 13, schema, table, w);
    assert s[w + 1] == "("[0];
    OneBlank(s, w);
  }

  /** The column text of a written header runs to its last character, a closing parenthesis. */
  lemma CreateBodyRead(schema: string, table: string, body: string, w: nat)
    requires w == 13 + |schema| + 1 + |table|
    ensures var s := CreateText(schema, table, body);
      && w + 2 <= |s| - 1 && LastFrom(s, ')', w + 2, |s|) == Some(|s| - 1) && s[w + 2..|s| - 1] == body
  {
    var s := CreateText(schema, table, body);
    CreateLayout(schema, table, body);
    WrittenSlice(s, w + 2, body, |s| - 1);
  }

  /** Where the pieces of a written header stand. */
  lemma CreateLayout(schema: string, table: string, body: string)
    ensures var s := CreateText(schema, table, body);
      var w := 13 + |schema| + 1 + |table|;
      && WrittenAt(s, 0, "CREATE") && WrittenAt(s, 6, Spaced("TABLE"))
      && WrittenAt(s, 13, QualName(schema, table)) && WrittenAt(s, w, " ")
      && WrittenAt(s, w + 1, "(") && WrittenAt(s, w + 2, body) && |s| == w + 3 + |body|
      && s[|s| - 1] == ')'
  {
    var s := CreateText(schema, table, body);
    var w := 13 + |schema| + 1 + |table|;
    WrittenConcat("CREATE" + Spaced("TABLE") + QualName(schema, table) + " ", Paren(body));
    WrittenSplit(s, 0, "CREATE" + Spaced("TABLE") + QualName(schema, table), " ", w);
    WrittenSplit(s, 0, "CREATE" + Spaced("TABLE"), QualName(schema, table), 13);
    WrittenSplit(s, 0, "CREATE", Spaced("TABLE"), 6);
    WrittenSplit(s, w + 1, "(" + body, ")", w + 2 + |body|);
    WrittenSplit(s, w + 1, "(", body, w + 2);
  }
}
