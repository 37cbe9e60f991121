/**
  * The DCLGEN parser: a DB2 DCLGEN member holds an `EXEC SQL DECLARE ... TABLE (...)
  * END-EXEC` statement with the SQL columns and a COBOL record with one host variable per
  * column. The parser reads the table name and the SQL columns, the host variables, the
  * column count, and pairs each host variable with the SQL column of the same name.
  *
  * The SQL column list is split by the same depth-aware comma splitter as a CREATE TABLE
  * body (`DdlParser.SplitColumns`), and the columns are `DdlParser.DdlColumn` values.
  */
module DclParser {
  import opened Wrappers
  import opened Strings
  import opened SparkTypes
  import Db2Types
  import DdlParser

  // ---------------------------------------------------------------------------
  // Loops that keep what each item yields
  // ---------------------------------------------------------------------------

  /**
    * What a loop collects when it appends, for each item in turn, what `f` yields for it
    * (nothing for an item it skips).
    */
  function Gather<T>(items: seq<string>, f: string -> seq<T>): seq<T> {
    if items == [] then [] else Gather(items[..|items| - 1], f) + f(items[|items| - 1])
  }

  /** When every item yields one element, the loop keeps one per item, in order. */
  lemma {:induction false} GatherEach<T>(items: seq<string>, f: string -> seq<T>)
    requires forall i :: 0 <= i < |items| ==> |f(items[i])| == 1
    ensures |Gather(items, f)| == |items|
    ensures forall i :: 0 <= i < |items| ==> [Gather(items, f)[i]] == f(items[i])
  {
    if items != [] {
      var init := items[..|items| - 1];
      forall i | 0 <= i < |init| ensures |f(init[i])| == 1 {
        assert init[i] == items[i];
      }
      GatherEach(init, f);
      var last := f(items[|items| - 1]);
      assert Gather(items, f) == Gather(init, f) + last;
      forall i | 0 <= i < |items| ensures [Gather(items, f)[i]] == f(items[i]) {
        if i < |init| {
          assert items[i] == init[i] && Gather(items, f)[i] == Gather(init, f)[i];
        } else {
          assert Gather(items, f)[i] == last[0];
        }
      }
    }
  }

  /** Everything the loop keeps was yielded by some item. */
  lemma {:induction false} GatherFrom<T>(items: seq<string>, f: string -> seq<T>)
    ensures forall x :: x in Gather(items, f) ==> exists j :: 0 <= j < |items| && x in f(items[j])
  {
    if items != [] {
      var init := items[..|items| - 1];
      GatherFrom(init, f);
      forall x | x in Gather(items, f) ensures exists j :: 0 <= j < |items| && x in f(items[j]) {
        if x in Gather(init, f) {
          var j :| 0 <= j < |init| && x in f(init[j]);
          assert items[j] == init[j];
        } else {
          assert x in f(items[|items| - 1]);
        }
      }
    }
  }

  /** The loop over the first `n` items is the loop over the first `n - 1` and then item `n - 1`. */
  lemma GatherLast<T>(items: seq<string>, n: nat, f: string -> seq<T>)
    requires 0 < n <= |items|
    ensures Gather(items[..n], f) == Gather(items[..n - 1], f) + f(items[n - 1])
  {
    assert items[..n][..n - 1] == items[..n - 1];
  }

  /** When each item yields at most one element, the loop keeps at most one per item. */
  lemma {:induction false} GatherAtMost<T>(items: seq<string>, f: string -> seq<T>)
    requires forall x :: |f(x)| <= 1
    ensures |Gather(items, f)| <= |items|
  {
    if items != [] {
      GatherAtMost(items[..|items| - 1], f);
    }
  }

  // ---------------------------------------------------------------------------
  // The EXEC SQL DECLARE statement
  // ---------------------------------------------------------------------------

  /** The table name as written and the text between the parentheses. */
  datatype DeclareMatch = DeclareMatch(tableName: string, body: string)

  /** `\)\s*END-EXEC` at `q` (any case). */
  predicate ClosesDeclare(s: string, q: nat) {
    q < |s| && s[q] == ')' && LitAtCI(s, SkipSpaces(s, q + 1), "END-EXEC")
  }

  /** The lazy `(.*?)\)\s*END-EXEC`: the first position from `from` that closes the statement. */
  function FirstClose(s: string, from: nat): (r: Option<nat>)
    requires from <= |s|
    ensures r.Some? ==> from <= r.value && ClosesDeclare(s, r.value)
    decreases |s| - from
  {
    if from == |s| then None
    else if ClosesDeclare(s, from) then Some(from)
    else FirstClose(s, from + 1)
  }

  /** Nothing before the position FirstClose finds closes the statement; nothing at all when it finds none. */
  lemma {:induction false} FirstCloseLeast(s: string, from: nat, q: nat)
    requires from <= q <= |s|
    requires FirstClose(s, from).Some? ==> q < FirstClose(s, from).value
    ensures !ClosesDeclare(s, q)
    decreases q - from
  {
    if from < q {
      FirstCloseLeast(s, from + 1, q);
    }
  }

  /**
    * `\s+TABLE\s*\((.*?)\)\s*END-EXEC` after the table name, which ends at `e`: the text
    * between the parenthesis that opens the column list and the first closing parenthesis
    * that END-EXEC follows.
    */
  function DeclareBody(s: string, e: nat): (r: Option<string>)
    requires e <= |s|
    ensures r.Some? ==> |r.value| < |s| - e
  {
    match SpacedWords(s, e, ["TABLE"])
    case None => None
    case Some(d) =>
      var c := SkipSpaces(s, d);
      if !CharAt(s, c, '(') then None
      else match FirstClose(s, c + 1)
        case None => None
        case Some(q) => Some(s[c + 1..q])
  }

  /**
    * `EXEC\s+SQL\s+DECLARE\s+(\w+(?:\.\w+)?)\s+TABLE\s*\((.*?)\)\s*END-EXEC` (any case, `.`
    * matching line breaks) tried at position `p`: the name as written, and the column text.
    */
  function MatchDeclareAt(s: string, p: nat): (r: Option<DeclareMatch>)
    ensures r.Some? ==> LitAtCI(s, p, "EXEC") && r.value.tableName != [] && IsWordChar(r.value.tableName[0])
  {
    if !LitAtCI(s, p, "EXEC") then None
    else match SpacedWords(s, p + 4, ["SQL", "DECLARE"])
      case None => None
      case Some(a) =>
        var b := SkipSpaces(s, a);
        if a == b then None
        else match DdlParser.TableName(s, b)
          case None => None
          case Some((_, _, e)) =>
            DeclaredNameStart(s, b, e);
            match DeclareBody(s, e)
            case None => None
            case Some(body) => Some(DeclareMatch(s[b..e], body))
  }

  /** The declared name begins with a word character. */
  lemma DeclaredNameStart(s: string, b: nat, e: nat)
    requires b <= |s| && DdlParser.TableName(s, b).Some? && e == DdlParser.TableName(s, b).value.2
    ensures b < e <= |s| && IsWordChar(s[b..e][0])
  {
    SpanAll(s, b, Word);
  }

  /** `DECLARE_PATTERN.search`: the match at the first position where there is one. */
  function FindDeclare(s: string): Option<DeclareMatch> {
    FirstMatch((p: nat) => MatchDeclareAt(s, p), 0, |s|)
  }

  /** The search finds nothing exactly when the pattern matches at no position. */
  lemma DeclareSearch(s: string)
    ensures FindDeclare(s).None? <==> forall p: nat :: p <= |s| ==> MatchDeclareAt(s, p).None?
  {
    var m := (p: nat) => MatchDeclareAt(s, p);
    ScanNone(m, 0, |s|);
    assert FindDeclare(s) == FirstMatch(m, 0, |s|);
    assert forall p: nat :: m(p) == MatchDeclareAt(s, p);
  }

  // ---------------------------------------------------------------------------
  // A DECLARE statement, read back from its written form
  // ---------------------------------------------------------------------------

  /** `EXEC SQL DECLARE name`. */
  function DeclareHead(name: string): string {
    "EXEC" + DdlParser.Spaced("SQL") + "DECLARE" + " " + name
  }

  /** `EXEC SQL DECLARE schema.table TABLE (body) END-EXEC`. */
  function DeclareText(schema: string, table: string, body: string): string {
    DeclareHead(DdlParser.QualName(schema, table)) + DdlParser.Spaced("TABLE") + DdlParser.Paren(body) + " " + "END-EXEC"
  }

  /** Column text the lazy close cannot stop inside: END-EXEC, in any case, occurs nowhere in it. */
  predicate NoEndExec(body: string) {
    forall k: nat :: k <= |body| ==> !LitAtCI(body, k, "END-EXEC")
  }

  /** The keywords of the DECLARE pattern. */
  lemma DeclareKeywords()
    ensures DdlParser.IsTypeKeyword("EXEC") && DdlParser.IsTypeKeyword("SQL")
    ensures DdlParser.IsTypeKeyword("DECLARE") && DdlParser.IsTypeKeyword("TABLE")
  {
  }

  /** A position that closes the statement, with none before it from `from`, is the one FirstClose finds. */
  lemma {:induction false} FirstCloseAt(s: string, from: nat, q: nat)
    requires from <= q && ClosesDeclare(s, q)
    requires forall k :: from <= k < q ==> !ClosesDeclare(s, k)
    ensures FirstClose(s, from) == Some(q)
    decreases q - from
  {
    if from < q {
      FirstCloseAt(s, from + 1, q);
    }
  }

  /**
    * Column text written at `off` and closed by a parenthesis at `c`: no position inside it
    * closes the statement, since the blanks after a parenthesis inside stop at `c` at the latest.
    */
  lemma NoCloseInside(s: string, off: nat, body: string, c: nat)
    requires WrittenAt(s, off, body) && c == off + |body| && c < |s| && s[c] == ')'
    requires NoEndExec(body)
    ensures forall q :: off <= q < c ==> !ClosesDeclare(s, q)
  {
    forall q | off <= q < c ensures !ClosesDeclare(s, q) {
      var j := SkipSpaces(s, q + 1);
      SpanAll(s, q + 1, Space);
      assert !InClass(s[c], Space);
      if j + 8 <= c {
        assert !LitAtCI(body, j - off, "END-EXEC");
        forall i | j - off <= i < j - off + 8
          ensures body[i] == s[off + i]
        {
        }
      } else {
        assert UpperChar(s[c]) != "END-EXEC"[c - j];
      }
    }
  }

  /** `) END-EXEC` at `c`: the statement closes there. */
  lemma ClosesAt(s: string, c: nat)
    requires WrittenAt(s, c, ")") && WrittenAt(s, c + 1, " ")
    requires WrittenAt(s, c + 2, "END-EXEC")
    ensures ClosesDeclare(s, c)
  {
    assert s[c] == ")"[0];
    assert s[c + 2] == "END-EXEC"[0];
    DdlParser.OneBlank(s, c + 1);
    forall j | c + 2 <= j < c + 10 ensures UpperChar(s[j]) == "END-EXEC"[j - (c + 2)] {
      assert s[j] == "END-EXEC"[j - (c + 2)];
    }
  }

  /** `(body) END-EXEC` at `p`: the lazy close stops right after the column text. */
  lemma CloseRead(s: string, p: nat, body: string, c: nat)
    requires NoEndExec(body) && WrittenAt(s, p, DdlParser.Paren(body)) && c == p + 1 + |body|
    requires WrittenAt(s, c + 1, " ") && WrittenAt(s, c + 2, "END-EXEC")
    ensures FirstClose(s, p + 1) == Some(c) && s[p + 1..c] == body
  {
    WrittenSplit(s, p, "(" + body, ")", c);
    WrittenSplit(s, p, "(", body, p + 1);
    ClosesAt(s, c);
    FirstCloseAfter(s, p + 1, body, c);
  }

  /** Column text at `off` that a closing position `c` follows: FirstClose stops at `c`. */
  lemma FirstCloseAfter(s: string, off: nat, body: string, c: nat)
    requires NoEndExec(body) && WrittenAt(s, off, body) && c == off + |body| && ClosesDeclare(s, c)
    ensures FirstClose(s, off) == Some(c) && s[off..c] == body
  {
    NoCloseInside(s, off, body, c);
    FirstCloseAt(s, off, c);
    WrittenSlice(s, off, body, c);
  }

  /** The part of the DECLARE pattern after the name, step by step. */
  lemma DeclareBodySteps(s: string, e: nat, body: string)
    requires e <= |s| && SpacedWords(s, e, ["TABLE"]) == Some(e + 6) && SkipSpaces(s, e + 6) == e + 7 && CharAt(s, e + 7, '(')
    requires FirstClose(s, e + 8) == Some(e + 8 + |body|) && s[e + 8..e + 8 + |body|] == body
    ensures DeclareBody(s, e) == Some(body)
  {
  }

  /** The DECLARE pattern, step by step: what each step finds decides the match. */
  lemma DeclareSteps(s: string, e: nat, name: string, schema: string, table: string, body: string)
    requires LitAtCI(s, 0, "EXEC") && SpacedWords(s, 4, ["SQL", "DECLARE"]) == Some(16) && SkipSpaces(s, 16) == 17
    requires DdlParser.TableName(s, 17) == Some((Some(schema), table, e)) && s[17..e] == name
    requires DeclareBody(s, e) == Some(body)
    ensures MatchDeclareAt(s, 0) == Some(DeclareMatch(name, body))
  {
  }

  /**
    * Round trip: `EXEC SQL DECLARE schema.table TABLE (body) END-EXEC` is found with the
    * qualified name as the table name and the whole column text as the body, whatever
    * parentheses the column text holds, as long as END-EXEC does not occur in it; the name
    * splits back into the schema and the table.
    */
  lemma DeclareRead(schema: string, table: string, body: string)
    requires DdlParser.IsWordText(schema) && DdlParser.IsWordText(table) && NoEndExec(body)
    ensures FindDeclare(DeclareText(schema, table, body)) == Some(DeclareMatch(schema + "." + table, body))
    ensures SplitTableName(schema + "." + table) == (schema, table)
  {
    var s := DeclareText(schema, table, body);
    DeclareMatchRead(schema, table, body);
    assert FindDeclare(s) == FirstMatch((p: nat) => MatchDeclareAt(s, p), 0, |s|);
    SplitQualName(schema, table);
  }

  /** The DECLARE pattern matches a written statement at its start. */
  lemma DeclareMatchRead(schema: string, table: string, body: string)
    requires DdlParser.IsWordText(schema) && DdlParser.IsWordText(table) && NoEndExec(body)
    ensures MatchDeclareAt(DeclareText(schema, table, body), 0) == Some(DeclareMatch(DdlParser.QualName(schema, table), body))
  {
    var e, c := DeclareLayout(schema, table, body);
    DeclarePiecesRead(DeclareText(schema, table, body), schema, table, body, e, c);
  }

  /** The pieces of a statement, each where it stands, make the pattern match at the start. */
  lemma DeclarePiecesRead(s: string, schema: string, table: string, body: string, e: nat, c: nat)
    requires DdlParser.IsWordText(schema) && DdlParser.IsWordText(table) && NoEndExec(body)
    requires e == 17 + |schema| + 1 + |table|
    requires WrittenAt(s, 0, DeclareHead(DdlParser.QualName(schema, table)))
    requires WrittenAt(s, e, DdlParser.Spaced("TABLE")) && WrittenAt(s, e + 7, DdlParser.Paren(body))
    requires c == e + 8 + |body| && WrittenAt(s, c + 1, " ") && WrittenAt(s, c + 2, "END-EXEC")
    ensures MatchDeclareAt(s, 0) == Some(DeclareMatch(DdlParser.QualName(schema, table), body))
  {
    DeclareHeadRead(s, DdlParser.QualName(schema, table));
    DeclareNameRead(s, schema, table, e);
    DeclareBodyRead(s, e, body, c);
    DeclareSteps(s, e, DdlParser.QualName(schema, table), schema, table, body);
  }

  /** `EXEC SQL DECLARE ` at the start of a written statement. */
  lemma DeclareHeadRead(s: string, name: string)
    requires WrittenAt(s, 0, DeclareHead(name)) && name != [] && !IsSpace(name[0])
    ensures LitAtCI(s, 0, "EXEC") && SpacedWords(s, 4, ["SQL", "DECLARE"]) == Some(16) && SkipSpaces(s, 16) == 17
  {
    WrittenSplit(s, 0, "EXEC" + DdlParser.Spaced("SQL") + "DECLARE" + " ", name, 17);
    WrittenSplit(s, 0, "EXEC" + DdlParser.Spaced("SQL") + "DECLARE", " ", 16);
    WrittenSplit(s, 0, "EXEC" + DdlParser.Spaced("SQL"), "DECLARE", 9);
    WrittenSplit(s, 0, "EXEC", DdlParser.Spaced("SQL"), 4);
    WrittenSplit(s, 4, " " + "SQL", " ", 8);
    WrittenSplit(s, 4, " ", "SQL", 5);
    DeclareKeywords();
    DdlParser.KeywordRead(s, 0, "EXEC");
    DdlParser.TwoWordsRead(s, 4, "SQL", "DECLARE", 16);
    assert s[17] == name[0];
    DdlParser.OneBlank(s, 16);
  }

  /** The table name of a written statement, which a blank follows. */
  lemma DeclareNameRead(s: string, schema: string, table: string, e: nat)
    requires DdlParser.IsWordText(schema) && DdlParser.IsWordText(table) && e == 17 + |schema| + 1 + |table|
    requires WrittenAt(s, 0, DeclareHead(DdlParser.QualName(schema, table))) && WrittenAt(s, e, DdlParser.Spaced("TABLE"))
    ensures DdlParser.TableName(s, 17) == Some((Some(schema), table, e)) && s[17..e] == DdlParser.QualName(schema, table)
  {
    WrittenSplit(s, e, " " + "TABLE", " ", e + 6);
    WrittenSplit(s, e, " ", "TABLE", e + 1);
    WrittenSplit(s, 0, "EXEC" + DdlParser.Spaced("SQL") + "DECLARE" + " ", DdlParser.QualName(schema, table), 17);
    DdlParser.QualifiedRead(s, 17, schema, table, e);
  }

  /** `TABLE (`, the column text and the close of a written statement. */
  lemma DeclareBodyRead(s: string, e: nat, body: string, c: nat)
    requires NoEndExec(body) && WrittenAt(s, e, DdlParser.Spaced("TABLE"))
    requires WrittenAt(s, e + 7, DdlParser.Paren(body))
    requires c == e + 8 + |body| && WrittenAt(s, c + 1, " ") && WrittenAt(s, c + 2, "END-EXEC")
    ensures DeclareBody(s, e) == Some(body)
  {
    DeclareKeywords();
    assert s[e + 7] == DdlParser.Paren(body)[0];
    DdlParser.KeywordBetween(s, e, "TABLE", DdlParser.Paren(body));
    CloseRead(s, e + 7, body, c);
    DeclareBodySteps(s, e, body);
  }

  /** Where the pieces of a written statement stand. */
  lemma DeclareLayout(schema: string, table: string, body: string) returns (e: nat, c: nat)
    ensures e == 17 + |schema| + 1 + |table| && c == e + 8 + |body|
    ensures var s := DeclareText(schema, table, body);
      && WrittenAt(s, 0, DeclareHead(DdlParser.QualName(schema, table)))
      && WrittenAt(s, e, DdlParser.Spaced("TABLE"))
      && WrittenAt(s, e + 7, DdlParser.Paren(body)) && WrittenAt(s, c + 1, " ")
      && WrittenAt(s, c + 2, "END-EXEC")
  {
    var s := DeclareText(schema, table, body);
    var head := DeclareHead(DdlParser.QualName(schema, table));
    var named := head + DdlParser.Spaced("TABLE");
    var a, b, d := WrittenFour(named, DdlParser.Paren(body), " ", "END-EXEC");
    e, c := |head|, b - 1;
    WrittenSplit(s, 0, head, DdlParser.Spaced("TABLE"), e);
  }

  /** A qualified name of two words splits at its dot into the two words. */
  lemma SplitQualName(schema: string, table: string)
    requires DdlParser.IsWordText(schema)
    ensures SplitTableName(schema + "." + table) == (schema, table)
  {
    var name := schema + "." + table;
    assert name[|schema|] == '.';
    var k := IndexOf(name, '.').value;
    assert forall i :: 0 <= i < |schema| ==> name[i] == schema[i] && IsWordChar(name[i]);
    assert k == |schema|;
    assert name[..k] == schema && name[k + 1..] == table;
  }

  // ---------------------------------------------------------------------------
  // Schema and table
  // ---------------------------------------------------------------------------

  /** The first occurrence of `c` in `s`. */
  function IndexOf(s: string, c: char): (r: Option<nat>)
    ensures r.Some? ==> r.value < |s| && s[r.value] == c && c !in s[..r.value]
    ensures r.None? <==> c !in s
    decreases |s|
  {
    if s == [] then None
    else if s[0] == c then Some(0)
    else match IndexOf(s[1..], c)
      case None => None
      case Some(k) =>
        assert s[..k + 1] == [s[0]] + s[1..][..k];
        Some(k + 1)
  }

  /**
    * `table_name.split(".", 1)` when the name holds a dot: the schema before the first dot
    * and the table after it, which put back together with the dot give the name; without a
    * dot the schema stays empty and the table is the name.
    */
  function SplitTableName(name: string): (r: (string, string))
    ensures '.' in name ==> r.0 + "." + r.1 == name && '.' !in r.0
    ensures '.' !in name ==> r == ("", name)
  {
    match IndexOf(name, '.')
    case None => ("", name)
    case Some(k) =>
      assert name[..k] + "." + name[k + 1..] == name;
      (name[..k], name[k + 1..])
  }

  // ---------------------------------------------------------------------------
  // _parse_sql_columns
  // ---------------------------------------------------------------------------

  /**
    * `SQL_COLUMN_PATTERN.match`: a word (the name), blanks, the type pattern, and an
    * optional NOT NULL. Name and type are upper-cased; the column is nullable exactly when
    * NOT NULL does not follow the type; no default and no key flags.
    */
  function ParseSqlColumn(s: string): (r: Option<DdlParser.DdlColumn>)
    ensures r.Some? ==> DdlParser.IsUpperWord(r.value.name) && |r.value.name| <= |s|
    ensures r.Some? ==> r.value.dataType != [] && IsLetter(r.value.dataType[0])
    ensures r.Some? ==> r.value.defaultValue == None && !r.value.isPrimaryKey && r.value.foreignKeyRef == None
  {
    var n := Span(s, 0, Word);
    var t := SkipSpaces(s, n);
    if n == 0 || t == n then None
    else match DdlParser.TypeEnd(s, t)
      case None => None
      case Some(e) =>
        DdlParser.ColumnFacts(s, n, t, e);
        var notNull := SpacedWords(s, e, ["NOT", "NULL"]);
        Some(DdlParser.DdlColumn(Upper(s[..n]), Upper(Strip(s[t..e])), notNull.None?, None, false, None))
  }

  /** The steps of the column pattern, as facts about `s`, give the column. */
  lemma SqlColumnSteps(s: string, name: string, ty: string, e: nat, nullable: bool)
    requires |name| > 0 && e <= |s|
    requires Span(s, 0, Word) == |name| && Upper(s[..|name|]) == name && SkipSpaces(s, |name|) == |name| + 1
    requires DdlParser.TypeEnd(s, |name| + 1) == Some(e) && Upper(Strip(s[|name| + 1..e])) == ty
    requires SpacedWords(s, e, ["NOT", "NULL"]).None? == nullable
    ensures ParseSqlColumn(s) == Some(DdlParser.DdlColumn(name, ty, nullable, None, false, None))
  {
  }

  /**
    * A column written out as DCLGEN writes it, `NAME TYPE[(ARGS)][ NOT NULL]`, reads back
    * as the column it was written from.
    */
  lemma ParseSqlRendered(name: string, letters: string, args: Option<string>, nullable: bool)
    requires DdlParser.IsUpperWord(name) && DdlParser.IsTypeKeyword(letters)
    requires args.Some? ==> DdlParser.IsTypeArgument(args.value)
    ensures ParseSqlColumn(DdlParser.Render(name, letters, args, nullable, None))
      == Some(DdlParser.DdlColumn(name, letters + DdlParser.ArgsText(args), nullable, None, false, None))
  {
    var ty := letters + DdlParser.ArgsText(args);
    var s := DdlParser.Render(name, letters, args, nullable, None);
    var e := |name + " " + ty|;
    DdlParser.RenderLayout(name, letters, args, nullable, None);
    DdlParser.TypeTextFacts(letters, args);
    DdlParser.NameLayoutRead(s, name, ty);
    DdlParser.TailHead(s, e, nullable, None);
    DdlParser.TypeRead(s, |name| + 1, letters, args, e);
    DdlParser.TypeTextRead(s, |name| + 1, letters, args, e);
    DdlParser.TailRead(s, e, nullable, None);
    SqlColumnSteps(s, name, ty, e, nullable);
  }

  /** What one part contributes: the column, when the stripped part is not blank and the pattern recognises it. */
  function SqlColumnOf(part: string): seq<DdlParser.DdlColumn> {
    var p := Strip(part);
    if p != [] && ParseSqlColumn(p).Some? then [ParseSqlColumn(p).value] else []
  }

  /** The columns the loop of `_parse_sql_columns` collects from the parts, in order. */
  function SqlColumns(parts: seq<string>): seq<DdlParser.DdlColumn> {
    Gather(parts, SqlColumnOf)
  }

  /** `_parse_sql_columns`: split at top-level commas, then recognise each part. */
  method ParseSqlColumns(content: string) returns (columns: seq<DdlParser.DdlColumn>)
    ensures columns == SqlColumns(DdlParser.Finish(DdlParser.SplitScan(content)))
  {
    var parts := DdlParser.SplitColumns(content);
    columns := [];
    var i := 0;
    while i < |parts|
      invariant i <= |parts|
      invariant columns == SqlColumns(parts[..i])
    {
      assert parts[..i + 1][..i] == parts[..i];
      assert Gather(parts[..i + 1], SqlColumnOf) == columns + SqlColumnOf(parts[i]);
      var part := Strip(parts[i]);
      if part != [] {
        match ParseSqlColumn(part)
        case Some(col) =>
          columns := columns + [col];
        case None =>
      }
      i := i + 1;
    }
    assert parts[..i] == parts;
  }

  // ---------------------------------------------------------------------------
  // _parse_cobol_record
  // ---------------------------------------------------------------------------

  /** What the COBOL field pattern captures: level, name, picture, COMP usage and USAGE word. */
  datatype FieldMatch = FieldMatch(level: nat, name: string, pic: Option<string>, comp: Option<string>, usage: Option<string>)

  /** `int()` of two ASCII digits. */
  function TwoDigits(hi: char, lo: char): (n: nat)
    requires IsDigit(hi) && IsDigit(lo)
    ensures n < 100
  {
    (hi as int - '0' as int) * 10 + (lo as int - '0' as int)
  }

  /** `[^\s.]+` from `i`: where the run of characters other than whitespace and `.` ends. */
  function PicRun(s: string, i: nat): (j: nat)
    requires i <= |s|
    ensures i <= j <= |s| && (j == |s| || IsSpace(s[j]) || s[j] == '.')
    ensures forall k :: i <= k < j ==> !IsSpace(s[k]) && s[k] != '.'
    decreases |s| - i
  {
    if i < |s| && !IsSpace(s[i]) && s[i] != '.' then PicRun(s, i + 1) else i
  }

  /** `(?:\s+PIC\s+([^\s.]+))?` at `i`: the picture string, and where the group ends (`i` when absent). */
  function PicGroup(s: string, i: nat): (r: (Option<string>, nat))
    requires i <= |s|
    ensures i <= r.1 <= |s|
    ensures r.0.Some? ==> r.0.value != [] && '.' !in r.0.value
  {
    var j := SkipSpaces(s, i);
    if j > i && LitAtCI(s, j, "PIC") then
      var k := SkipSpaces(s, j + 3);
      var v := PicRun(s, k);
      if k > j + 3 && v > k then
        assert forall m :: 0 <= m < v - k ==> s[k..v][m] == s[k + m];
        (Some(s[k..v]), v)
      else (None, i)
    else (None, i)
  }

  /** COMP, COMP-1, COMP-2, COMP-3, COMP-4 or COMP-5. */
  predicate IsCompWord(w: string) {
    w == "COMP" || (|w| == 6 && w[..5] == "COMP-" && '1' <= w[5] <= '5')
  }

  /** A word matched in any case at `j`, upper-cased, is the word. */
  lemma UpperMatched(s: string, j: nat, w: string)
    requires LitAtCI(s, j, w)
    ensures Upper(s[j..j + |w|]) == w
  {
  }

  /** `(?:\s+(COMP(?:-[1-5])?))?` at `i`: the usage as written, and where the group ends. */
  function CompGroup(s: string, i: nat): (r: (Option<string>, nat))
    requires i <= |s|
    ensures i <= r.1 <= |s|
    ensures r.0.None? ==> r.1 == i
    ensures r.0.Some? ==> IsCompWord(Upper(r.0.value)) && r.1 == SkipSpaces(s, i) + |r.0.value|
  {
    var j := SkipSpaces(s, i);
    if j > i && LitAtCI(s, j, "COMP") then
      UpperMatched(s, j, "COMP");
      if j + 6 <= |s| && s[j + 4] == '-' && '1' <= s[j + 5] <= '5' then
        assert Upper(s[j..j + 6])[..5] == "COMP-" by {
          assert Upper(s[j..j + 6])[..4] == Upper(s[j..j + 4]);
        }
        (Some(s[j..j + 6]), j + 6)
      else (Some(s[j..j + 4]), j + 4)
    else (None, i)
  }

  /** `(?:\s+USAGE\s+(\w+))?` at `i`: the usage word as written. */
  function UsageGroup(s: string, i: nat): (r: Option<string>)
    requires i <= |s|
    ensures r.Some? ==> r.value != []
  {
    var j := SkipSpaces(s, i);
    if j > i && LitAtCI(s, j, "USAGE") then
      var k := SkipSpaces(s, j + 5);
      var w := Span(s, k, Word);
      if k > j + 5 && w > k then Some(s[k..w]) else None
    else None
  }

  /**
    * `(\d{2})\s+([\w-]+)(?:\s+PIC\s+([^\s.]+))?(?:\s+(COMP(?:-[1-5])?))?(?:\s+USAGE\s+(\w+))?`
    * (any case) tried at position `p`.
    */
  function MatchFieldAt(s: string, p: nat): (r: Option<FieldMatch>)
    ensures r.Some? ==> r.value.level < 100 && r.value.name != [] && forall k :: 0 <= k < |r.value.name| ==> IsNameChar(r.value.name[k])
  {
    if !(p + 2 <= |s| && IsDigit(s[p]) && IsDigit(s[p + 1])) then None
    else
      var a := SkipSpaces(s, p + 2);
      var n := Span(s, a, Name);
      if a == p + 2 || n == a then None
      else
        SpanAll(s, a, Name);
        assert forall k :: 0 <= k < n - a ==> s[a..n][k] == s[a + k];
        var (pic, b) := PicGroup(s, n);
        var (comp, c) := CompGroup(s, b);
        Some(FieldMatch(TwoDigits(s[p], s[p + 1]), s[a..n], pic, comp, UsageGroup(s, c)))
  }

  /** `COBOL_FIELD_PATTERN.search`: the match at the first position where there is one. */
  function FindField(s: string): Option<FieldMatch> {
    FirstMatch((p: nat) => MatchFieldAt(s, p), 0, |s|)
  }

  /** The field the search finds is one the pattern matches at some position, where it matches nowhere before. */
  lemma FieldSearch(s: string) returns (p: nat)
    requires FindField(s).Some?
    ensures p <= |s| && MatchFieldAt(s, p) == FindField(s)
    ensures forall q :: 0 <= q < p ==> MatchFieldAt(s, q).None?
  {
    var m := (p: nat) => MatchFieldAt(s, p);
    assert FindField(s) == FirstMatch(m, 0, |s|);
    p := ScanSome(m, 0, |s|);
    assert forall q :: 0 <= q < p ==> m(q) == MatchFieldAt(s, q);
  }

  /** The field the search finds has a two-digit level and a non-empty `[\w-]+` name. */
  lemma FoundField(s: string)
    requires FindField(s).Some?
    ensures FindField(s).value.level < 100 && FindField(s).value.name != []
    ensures forall k :: 0 <= k < |FindField(s).value.name| ==> IsNameChar(FindField(s).value.name[k])
  {
    var p := FieldSearch(s);
  }

  /**
    * The picture clause of a field: `PIC ` and the picture, then the COMP usage or else the
    * USAGE word; none without a picture.
    */
  function PicClause(m: FieldMatch): (r: Option<string>)
    ensures r.Some? <==> m.pic.Some?
    ensures r.Some? ==> StartsWith(r.value, "PIC ")
  {
    match m.pic
    case None => None
    case Some(pic) =>
      var more := if m.comp.Some? then " " + m.comp.value else if m.usage.Some? then " " + m.usage.value else "";
      var c := "PIC " + pic + more;
      assert c[0..4] == "PIC ";
      Some(c)
  }

  /** A host variable as its line of the record declares it. */
  datatype HostDecl = HostDecl(name: string, level: nat, picClause: Option<string>)

  /**
    * What one line of the record declares: nothing for a blank line, a line the field
    * pattern does not find, the record name (level 01) and the length field of a VARCHAR
    * (level 49); otherwise the upper-cased name, the level and the picture clause.
    */
  function DeclOf(line: string): (r: Option<HostDecl>)
    ensures r.Some? ==> r.value.level < 100 && r.value.level != 1 && r.value.level != 49
    ensures r.Some? ==> r.value.name != [] && forall k :: 0 <= k < |r.value.name| ==> IsNameChar(r.value.name[k]) && !('a' <= r.value.name[k] <= 'z')
    ensures r.Some? && r.value.picClause.Some? ==> StartsWith(r.value.picClause.value, "PIC ")
  {
    var l := Strip(line);
    if l == [] then None
    else match FindField(l)
      case None => None
      case Some(m) =>
        if m.level == 1 || m.level == 49 then None
        else
          FoundField(l);
          UpperName(m.name);
          Some(HostDecl(Upper(m.name), m.level, PicClause(m)))
  }

  /** Upper-casing keeps a `[\w-]+` name a name, with no lower-case letter left. */
  lemma UpperName(w: string)
    requires forall k :: 0 <= k < |w| ==> IsNameChar(w[k])
    ensures forall k :: 0 <= k < |w| ==> IsNameChar(Upper(w)[k]) && !('a' <= Upper(w)[k] <= 'z')
  {
    forall k | 0 <= k < |w| ensures IsNameChar(Upper(w)[k]) {
      assert Upper(w)[k] == UpperChar(w[k]);
    }
  }

  /** What one line contributes to the declarations. */
  function DeclSeq(line: string): seq<HostDecl> {
    match DeclOf(line)
    case None => []
    case Some(d) => [d]
  }

  /** The declarations of the lines, in order. */
  function Decls(lines: seq<string>): seq<HostDecl> {
    DeclsTo(lines, |lines|)
  }

  /** The declarations of the first `n` lines, in order. */
  function DeclsTo(lines: seq<string>, n: nat): seq<HostDecl>
    requires n <= |lines|
  {
    if n == 0 then [] else DeclsTo(lines, n - 1) + DeclSeq(lines[n - 1])
  }

  /** The declarations of the first `n` lines are what the loop gathers from those lines. */
  lemma {:induction false} DeclsToGathered(lines: seq<string>, n: nat)
    requires n <= |lines|
    ensures DeclsTo(lines, n) == Gather(lines[..n], DeclSeq)
  {
    if n > 0 {
      DeclsToGathered(lines, n - 1);
      GatherLast(lines, n, DeclSeq);
    }
  }

  /** What a line contributes is its declaration. */
  lemma DeclSeqFrom(line: string, d: HostDecl)
    requires d in DeclSeq(line)
    ensures DeclOf(line) == Some(d)
  {
  }

  /** Every declaration comes from a line of the record; none is a record name or a VARCHAR length field. */
  lemma DeclsFromLines(lines: seq<string>)
    ensures forall d :: d in Decls(lines) ==> exists j :: 0 <= j < |lines| && DeclOf(lines[j]) == Some(d)
    ensures forall d :: d in Decls(lines) ==> d.level != 1 && d.level != 49 && d.level < 100
  {
    forall d | d in Decls(lines) ensures exists j :: 0 <= j < |lines| && DeclOf(lines[j]) == Some(d) {
      DeclsToGathered(lines, |lines|);
      TakeAll(lines);
      GatherFrom(lines, DeclSeq);
      var j :| 0 <= j < |lines| && d in DeclSeq(lines[j]);
      DeclSeqFrom(lines[j], d);
    }
  }

  /** One more line adds its declaration, if it has one, to those of the lines before it. */
  lemma DeclsNext(lines: seq<string>, i: nat, next: nat, decls: seq<HostDecl>, found: Option<HostDecl>)
    requires i < |lines| && next == i + 1 && decls == DeclsTo(lines, i)
    requires DeclSeq(lines[i]) == if found.Some? then [found.value] else []
    ensures DeclsTo(lines, next) == if found.Some? then decls + [found.value] else decls
  {
    AppendNone(decls);
  }

  /** What a line yields, case by case, in the terms of the loop of `_parse_cobol_record`. */
  lemma LineDecls(line: string)
    ensures Strip(line) == [] ==> DeclSeq(line) == []
    ensures Strip(line) != [] && FindField(Strip(line)).None? ==> DeclSeq(line) == []
    ensures Strip(line) != [] && FindField(Strip(line)).Some? ==>
      var m := FindField(Strip(line)).value;
      DeclSeq(line) == if m.level == 1 || m.level == 49 then [] else [HostDecl(Upper(m.name), m.level, PicClause(m))]
  {
  }

  // ---------------------------------------------------------------------------
  // A line of the record, read back from its written form
  // ---------------------------------------------------------------------------

  /** A `[\w-]+` name. */
  predicate IsNameText(w: string) { w != [] && forall k :: 0 <= k < |w| ==> IsNameChar(w[k]) }

  /** A picture the group `[^\s.]+` reads whole: at least one character, no blank and no period. */
  predicate IsPicText(p: string) { p != [] && forall k :: 0 <= k < |p| ==> !IsSpace(p[k]) && p[k] != '.' }

  /** ` PIC picture`, or nothing. */
  function PicPart(pic: Option<string>): string {
    match pic
    case None => []
    case Some(p) => DdlParser.Spaced("PIC") + p
  }

  /** ` COMP-n`, or nothing. */
  function CompPart(comp: Option<string>): string {
    match comp
    case None => []
    case Some(c) => " " + c
  }

  /** ` USAGE word`, or nothing. */
  function UsagePart(usage: Option<string>): string {
    match usage
    case None => []
    case Some(w) => DdlParser.Spaced("USAGE") + w
  }

  /** `LL NAME[ PIC picture][ COMP-n][ USAGE word].`: a line of a DCLGEN record. */
  function FieldText(hi: char, lo: char, name: string, pic: Option<string>, comp: Option<string>, usage: Option<string>): string {
    [hi, lo] + " " + name + PicPart(pic) + CompPart(comp) + UsagePart(usage) + "."
  }

  /** The parts a field line may hold after its name, each as the line writes it. */
  predicate IsFieldParts(pic: Option<string>, comp: Option<string>, usage: Option<string>) {
    && (pic.Some? ==> IsPicText(pic.value))
    && (comp.Some? ==> IsCompWord(comp.value))
    && (usage.Some? ==> DdlParser.IsWordText(usage.value))
  }

  /** At `x` the line ends with its period, or a blank and one of the `next` letters begin the next part. */
  predicate NextPart(s: string, x: nat, next: set<char>) {
    x < |s| && (s[x] == '.' || (s[x] == ' ' && x + 1 < |s| && s[x + 1] in next))
  }

  /** Nothing or a blank, then a letter other than `w[0]`: the group `\s+W` does not match at `x`. */
  lemma NoKeywordAt(s: string, x: nat, next: set<char>, w: string)
    requires NextPart(s, x, next) && w != [] && w[0] !in next && forall c :: c in next ==> 'A' <= c <= 'Z'
    ensures var j := SkipSpaces(s, x); !(j > x && LitAtCI(s, j, w))
  {
    if s[x] != '.' {
      DdlParser.OneBlank(s, x);
    }
  }

  /** `[^\s.]+` from `k` runs to the first blank or period. */
  lemma {:induction false} PicRunExact(s: string, k: nat, v: nat)
    requires k <= v < |s| && (IsSpace(s[v]) || s[v] == '.')
    requires forall m :: k <= m < v ==> !IsSpace(s[m]) && s[m] != '.'
    ensures PicRun(s, k) == v
    decreases v - k
  {
    if k < v {
      PicRunExact(s, k + 1, v);
    }
  }

  /** The level, the blank and the name at the start of a written line. */
  lemma LevelNameRead(s: string, name: string)
    requires IsNameText(name) && WrittenAt(s, 2, " ") && WrittenAt(s, 3, name)
    requires 3 + |name| < |s| && !IsNameChar(s[3 + |name|])
    ensures SkipSpaces(s, 2) == 3 && Span(s, 3, Name) == 3 + |name| && s[3..3 + |name|] == name
  {
    assert s[3] == name[0];
    DdlParser.OneBlank(s, 2);
    forall k | 3 <= k < 3 + |name| ensures InClass(s[k], Name) {
      assert s[k] == name[k - 3];
    }
    SpanExact(s, 3, 3 + |name|, Name);
    WrittenSlice(s, 3, name, 3 + |name|);
  }

  /** The picture part written at `n`: the PIC group reads the picture and ends after it. */
  lemma PicPartRead(s: string, n: nat, pic: Option<string>, b: nat)
    requires n <= |s| && WrittenAt(s, n, PicPart(pic)) && (pic.Some? ==> IsPicText(pic.value))
    requires b == n + |PicPart(pic)| && NextPart(s, b, {'C', 'U'})
    ensures PicGroup(s, n) == (pic, b)
  {
    match pic
    case None =>
      NoKeywordAt(s, n, {'C', 'U'}, "PIC");
    case Some(p) =>
      PicWordRead(s, n, p, b);
      PicSteps(s, n, p, b);
  }

  /** ` PIC picture` at `n`, then a blank or the period: each step of the group. */
  lemma PicWordRead(s: string, n: nat, p: string, b: nat)
    requires IsPicText(p) && WrittenAt(s, n, DdlParser.Spaced("PIC") + p) && b == n + 5 + |p|
    requires b < |s| && (IsSpace(s[b]) || s[b] == '.')
    ensures SkipSpaces(s, n) == n + 1 && LitAtCI(s, n + 1, "PIC") && SkipSpaces(s, n + 4) == n + 5
    ensures PicRun(s, n + 5) == b && s[n + 5..b] == p
  {
    WrittenSplit(s, n, DdlParser.Spaced("PIC"), p, n + 5);
    assert DdlParser.IsTypeKeyword("PIC");
    DdlParser.KeywordBetween(s, n, "PIC", p);
    forall m | n + 5 <= m < b ensures !IsSpace(s[m]) && s[m] != '.' {
      assert s[m] == p[m - (n + 5)];
    }
    PicRunExact(s, n + 5, b);
    WrittenSlice(s, n + 5, p, b);
  }

  /** The PIC group, step by step. */
  lemma PicSteps(s: string, n: nat, p: string, b: nat)
    requires p != [] && n + 5 <= b <= |s| && b == n + 5 + |p|
    requires SkipSpaces(s, n) == n + 1 && LitAtCI(s, n + 1, "PIC") && SkipSpaces(s, n + 4) == n + 5
    requires PicRun(s, n + 5) == b && s[n + 5..b] == p
    ensures PicGroup(s, n) == (Some(p), b)
  {
  }

  /** The COMP part written at `b`: the COMP group reads the usage as written and ends after it. */
  lemma CompPartRead(s: string, b: nat, comp: Option<string>, c: nat)
    requires b <= |s| && WrittenAt(s, b, CompPart(comp)) && (comp.Some? ==> IsCompWord(comp.value))
    requires c == b + |CompPart(comp)| && NextPart(s, c, {'U'})
    ensures CompGroup(s, b) == (comp, c)
  {
    match comp
    case None =>
      NoKeywordAt(s, b, {'U'}, "COMP");
    case Some(w) =>
      CompWordPartRead(s, b, w, c);
  }

  /** A blank and a COMP word written at `b`: the COMP group reads the word. */
  lemma CompWordPartRead(s: string, b: nat, w: string, c: nat)
    requires b <= |s| && WrittenAt(s, b, " " + w) && IsCompWord(w)
    requires c == b + 1 + |w| && NextPart(s, c, {'U'})
    ensures CompGroup(s, b) == (Some(w), c)
  {
    BlankThenComp(s, b, w);
    CompWordRead(s, b + 1, w);
    CompGroupAt(s, b, b + 1, w);
  }

  /** The single blank before a COMP word is all the blanks the group skips. */
  lemma BlankThenComp(s: string, b: nat, w: string)
    requires WrittenAt(s, b, " " + w) && IsCompWord(w)
    ensures SkipSpaces(s, b) == b + 1 && WrittenAt(s, b + 1, w)
  {
    WrittenSplit(s, b, " ", w, b + 1);
    assert s[b + 1] == w[0];
    DdlParser.OneBlank(s, b);
  }

  /** The COMP group after its blanks, at `j`, reads the COMP word written there. */
  lemma CompGroupAt(s: string, i: nat, j: nat, w: string)
    requires i <= |s| && i < j == SkipSpaces(s, i) && IsCompWord(w) && j + |w| <= |s|
    requires LitAtCI(s, j, "COMP") && s[j..j + |w|] == w
    requires j + 6 <= |s| && s[j + 4] == '-' && '1' <= s[j + 5] <= '5' <==> |w| == 6
    ensures CompGroup(s, i) == (Some(w), j + |w|)
  {
  }

  /** A COMP word written at `j` and followed by a blank or the period: the group reads it whole. */
  lemma CompWordRead(s: string, j: nat, c: string)
    requires IsCompWord(c) && WrittenAt(s, j, c) && j + |c| < |s| && (s[j + |c|] == ' ' || s[j + |c|] == '.')
    ensures LitAtCI(s, j, "COMP")
    ensures s[j..j + |c|] == c
    ensures j + 6 <= |s| && s[j + 4] == '-' && '1' <= s[j + 5] <= '5' <==> |c| == 6
  {
    forall i | j <= i < j + 4 ensures UpperChar(s[i]) == "COMP"[i - j] {
      assert s[i] == c[i - j];
      if c != "COMP" {
        assert c[i - j] == c[..5][i - j];
      }
    }
    if |c| == 6 {
      assert s[j + 4] == c[..5][4] && s[j + 5] == c[5];
    } else {
      assert s[j + 4] != '-';
    }
    WrittenSlice(s, j, c, j + |c|);
  }

  /** The USAGE part written at `c`, before the period: the USAGE group reads the word. */
  lemma UsagePartRead(s: string, c: nat, usage: Option<string>)
    requires c <= |s| && WrittenAt(s, c, UsagePart(usage)) && (usage.Some? ==> DdlParser.IsWordText(usage.value))
    requires c + |UsagePart(usage)| < |s| && s[c + |UsagePart(usage)|] == '.'
    ensures UsageGroup(s, c) == usage
  {
    match usage
    case None =>
    case Some(w) =>
      UsageWordRead(s, c, w);
  }

  /** ` USAGE word` at `c`, then the period: each step of the group. */
  lemma UsageWordRead(s: string, c: nat, w: string)
    requires DdlParser.IsWordText(w) && WrittenAt(s, c, DdlParser.Spaced("USAGE") + w)
    requires c + 7 + |w| < |s| && s[c + 7 + |w|] == '.'
    ensures UsageGroup(s, c) == Some(w)
  {
    assert DdlParser.IsTypeKeyword("USAGE");
    WrittenSplit(s, c, DdlParser.Spaced("USAGE"), w, c + 7);
    DdlParser.KeywordBetween(s, c, "USAGE", w);
    DdlParser.WordRead(s, c + 7, w);
    var j, k, e := c + 1, c + 7, c + 7 + |w|;
    assert SkipSpaces(s, j + 5) == k;
    UsageSteps(s, c, j, k, e, w);
  }

  /** The usage group, step by step: the blanks to `j`, the keyword, the blanks to `k` and the word to `e`. */
  lemma UsageSteps(s: string, c: nat, j: nat, k: nat, e: nat, w: string)
    requires c < j && j + 5 < k < e <= |s|
    requires SkipSpaces(s, c) == j && LitAtCI(s, j, "USAGE") && SkipSpaces(s, j + 5) == k
    requires Span(s, k, Word) == e && s[k..e] == w
    ensures UsageGroup(s, c) == Some(w)
  {
  }

  /** The field pattern, step by step: what each group finds decides the match. */
  lemma FieldSteps(s: string, name: string, pic: Option<string>, comp: Option<string>, usage: Option<string>,
                    n: nat, b: nat, c: nat)
    requires n == 3 + |name| && n <= b <= c <= |s| && name != []
    requires IsDigit(s[0]) && IsDigit(s[1])
    requires SkipSpaces(s, 2) == 3 && Span(s, 3, Name) == n && s[3..n] == name
    requires PicGroup(s, n) == (pic, b) && CompGroup(s, b) == (comp, c) && UsageGroup(s, c) == usage
    ensures MatchFieldAt(s, 0) == Some(FieldMatch(TwoDigits(s[0], s[1]), name, pic, comp, usage))
  {
  }

  /** Where the pieces of a written line stand. */
  lemma FieldLayout(hi: char, lo: char, name: string, pic: Option<string>, comp: Option<string>, usage: Option<string>)
    returns (n: nat, b: nat, c: nat)
    ensures var s := FieldText(hi, lo, name, pic, comp, usage);
      && n == 3 + |name| && b == n + |PicPart(pic)| && c == b + |CompPart(comp)|
      && s[0] == hi && s[1] == lo && WrittenAt(s, 2, " ") && WrittenAt(s, 3, name)
      && WrittenAt(s, n, PicPart(pic)) && WrittenAt(s, b, CompPart(comp))
      && WrittenAt(s, c, UsagePart(usage)) && |s| == c + |UsagePart(usage)| + 1 && s[|s| - 1] == '.'
  {
    var named := [hi, lo] + " " + name;
    var body := named + PicPart(pic) + CompPart(comp) + UsagePart(usage);
    n, b, c := WrittenFour(named, PicPart(pic), CompPart(comp), UsagePart(usage));
    WrittenExtend(body, ".", 0, named);
    WrittenExtend(body, ".", n, PicPart(pic));
    WrittenExtend(body, ".", b, CompPart(comp));
    WrittenExtend(body, ".", c, UsagePart(usage));
    NamedLayout(body + ".", hi, lo, name);
  }

  /** The level digits, the blank and the name at the start of a line. */
  lemma NamedLayout(s: string, hi: char, lo: char, name: string)
    requires WrittenAt(s, 0, [hi, lo] + " " + name)
    ensures s[0] == hi && s[1] == lo && WrittenAt(s, 2, " ") && WrittenAt(s, 3, name)
  {
    WrittenSplit(s, 0, [hi, lo] + " ", name, 3);
    WrittenSplit(s, 0, [hi, lo], " ", 2);
  }

  /** After the name and after each part, the line goes on with a blank and the next keyword, or ends with its period. */
  lemma PartStarts(s: string, x: nat, pic: Option<string>, comp: Option<string>, usage: Option<string>, b: nat, c: nat)
    requires IsFieldParts(pic, comp, usage) && b == x + |PicPart(pic)| && c == b + |CompPart(comp)|
    requires WrittenAt(s, x, PicPart(pic)) && WrittenAt(s, b, CompPart(comp))
    requires WrittenAt(s, c, UsagePart(usage)) && c + |UsagePart(usage)| < |s| && s[c + |UsagePart(usage)|] == '.'
    ensures x < |s| && !IsNameChar(s[x])
    ensures NextPart(s, b, {'C', 'U'}) && NextPart(s, c, {'U'})
  {
    if usage.Some? {
      assert s[c] == ' ' && s[c + 1] == 'U';
    }
    if comp.Some? {
      assert s[b] == ' ' && s[b + 1] == comp.value[0];
    }
    if pic.Some? {
      assert s[x] == ' ';
    }
  }

  /** The pieces of a line, each where it stands, make the field pattern match at the start. */
  lemma FieldPiecesRead(s: string, name: string, pic: Option<string>, comp: Option<string>, usage: Option<string>,
                         n: nat, b: nat, c: nat)
    requires n == 3 + |name| && b == n + |PicPart(pic)| && c == b + |CompPart(comp)| && |s| == c + |UsagePart(usage)| + 1
    requires IsDigit(s[0]) && IsDigit(s[1]) && IsNameText(name) && IsFieldParts(pic, comp, usage)
    requires WrittenAt(s, 2, " ") && WrittenAt(s, 3, name)
    requires WrittenAt(s, n, PicPart(pic)) && WrittenAt(s, b, CompPart(comp))
    requires WrittenAt(s, c, UsagePart(usage)) && s[|s| - 1] == '.'
    ensures MatchFieldAt(s, 0) == Some(FieldMatch(TwoDigits(s[0], s[1]), name, pic, comp, usage))
  {
    PartStarts(s, n, pic, comp, usage, b, c);
    LevelNameRead(s, name);
    FieldGroupsRead(s, n, pic, comp, usage, b, c);
    FieldSteps(s, name, pic, comp, usage, n, b, c);
  }

  /** The three optional groups after the name, each read where its part stands. */
  lemma FieldGroupsRead(s: string, n: nat, pic: Option<string>, comp: Option<string>, usage: Option<string>, b: nat, c: nat)
    requires IsFieldParts(pic, comp, usage) && b == n + |PicPart(pic)| && c == b + |CompPart(comp)|
    requires WrittenAt(s, n, PicPart(pic)) && WrittenAt(s, b, CompPart(comp))
    requires WrittenAt(s, c, UsagePart(usage)) && c + |UsagePart(usage)| < |s| && s[c + |UsagePart(usage)|] == '.'
    requires NextPart(s, b, {'C', 'U'}) && NextPart(s, c, {'U'})
    ensures PicGroup(s, n) == (pic, b) && CompGroup(s, b) == (comp, c) && UsageGroup(s, c) == usage
  {
    PicPartRead(s, n, pic, b);
    CompPartRead(s, b, comp, c);
    UsagePartRead(s, c, usage);
  }

  /** The field pattern matches a written line at its start, with each part as written. */
  lemma FieldMatchRead(hi: char, lo: char, name: string, pic: Option<string>, comp: Option<string>, usage: Option<string>)
    requires IsDigit(hi) && IsDigit(lo) && IsNameText(name) && IsFieldParts(pic, comp, usage)
    ensures MatchFieldAt(FieldText(hi, lo, name, pic, comp, usage), 0) == Some(FieldMatch(TwoDigits(hi, lo), name, pic, comp, usage))
  {
    var n, b, c := FieldLayout(hi, lo, name, pic, comp, usage);
    FieldPiecesRead(FieldText(hi, lo, name, pic, comp, usage), name, pic, comp, usage, n, b, c);
  }

  /**
    * Round trip: a line written as `LL NAME[ PIC picture][ COMP-n][ USAGE word].` declares
    * the upper-cased name at level LL, with `PIC picture` and then the COMP usage, or else
    * the USAGE word, as its picture clause, and no picture clause without a picture; a line
    * of level 01 or 49 declares nothing.
    */
  lemma FieldLineRead(hi: char, lo: char, name: string, pic: Option<string>, comp: Option<string>, usage: Option<string>)
    requires IsDigit(hi) && IsDigit(lo) && IsNameText(name) && IsFieldParts(pic, comp, usage)
    ensures var level := TwoDigits(hi, lo);
      var more := if comp.Some? then " " + comp.value else if usage.Some? then " " + usage.value else "";
      DeclOf(FieldText(hi, lo, name, pic, comp, usage))
        == if level == 1 || level == 49 then None
           else Some(HostDecl(Upper(name), level, if pic.Some? then Some("PIC " + pic.value + more) else None))
  {
    FieldFound(hi, lo, name, pic, comp, usage);
  }

  /** A written line is its own strip, and the field search finds it at its start. */
  lemma FieldFound(hi: char, lo: char, name: string, pic: Option<string>, comp: Option<string>, usage: Option<string>)
    requires IsDigit(hi) && IsDigit(lo) && IsNameText(name) && IsFieldParts(pic, comp, usage)
    ensures var s := FieldText(hi, lo, name, pic, comp, usage);
      Strip(s) == s && FindField(s) == Some(FieldMatch(TwoDigits(hi, lo), name, pic, comp, usage))
  {
    var s := FieldText(hi, lo, name, pic, comp, usage);
    FieldMatchRead(hi, lo, name, pic, comp, usage);
    assert FindField(s) == FirstMatch((p: nat) => MatchFieldAt(s, p), 0, |s|);
    FieldTextStripped(hi, lo, name, pic, comp, usage);
  }

  lemma FieldTextStripped(hi: char, lo: char, name: string, pic: Option<string>, comp: Option<string>, usage: Option<string>)
    requires IsDigit(hi)
    ensures Strip(FieldText(hi, lo, name, pic, comp, usage)) == FieldText(hi, lo, name, pic, comp, usage)
  {
    var s := FieldText(hi, lo, name, pic, comp, usage);
    assert s[0] == hi && s[|s| - 1] == '.';
    assert !IsSpace(s[0]) && !IsSpace(s[|s| - 1]);
    StripIdentity(s);
  }

  /** A COBOL host variable; the SQL column it maps to is set after the record is read. */
  class HostVariable {
    const name: string
    const level: nat
    const picClause: Option<string>
    var sqlColumn: Option<string>

    /** A host variable as its line declares it, not yet mapped. */
    constructor (d: HostDecl)
      ensures name == d.name && level == d.level && picClause == d.picClause && sqlColumn == None
    {
      name := d.name;
      level := d.level;
      picClause := d.picClause;
      sqlColumn := None;
    }
  }

  /** What a host variable declares: its name, level and picture clause. */
  function Declared(v: HostVariable): HostDecl {
    HostDecl(v.name, v.level, v.picClause)
  }

  /** What each of the host variables declares, in order. */
  function DeclaredAll(vs: seq<HostVariable>): (ds: seq<HostDecl>)
    ensures |ds| == |vs| && forall k :: 0 <= k < |vs| ==> ds[k] == Declared(vs[k])
  {
    seq(|vs|, k requires 0 <= k < |vs| => Declared(vs[k]))
  }

  /** One more variable adds what it declares at the end. */
  lemma DeclaredSnoc(vs: seq<HostVariable>, v: HostVariable)
    ensures DeclaredAll(vs + [v]) == DeclaredAll(vs) + [Declared(v)]
  {
    ElementWise(DeclaredAll(vs + [v]), DeclaredAll(vs) + [Declared(v)]);
  }

  /** The body of the loop of `_parse_cobol_record`: what one line declares, if anything. */
  method ReadLine(text: string) returns (found: Option<HostDecl>)
    ensures DeclSeq(text) == if found.Some? then [found.value] else []
  {
    found := None;
    var line := Strip(text);
    if line != [] {
      match FindField(line)
      case Some(m) =>
        if m.level != 1 && m.level != 49 {
          found := Some(HostDecl(Upper(m.name), m.level, PicClause(m)));
        }
      case None =>
    }
    LineDecls(text);
  }

  /** `_parse_cobol_record`: a new, unmapped host variable for each declaring line. */
  method ParseCobolRecord(content: string) returns (variables: seq<HostVariable>)
    ensures DeclaredAll(variables) == Decls(Split(content, '\n'))
    ensures forall i :: 0 <= i < |variables| ==> fresh(variables[i]) && variables[i].sqlColumn == None
  {
    var lines := Split(content, '\n');
    variables := DeclareVariables(lines);
  }

  /** The loop of `_parse_cobol_record` over the lines of the record. */
  method DeclareVariables(lines: seq<string>) returns (variables: seq<HostVariable>)
    ensures DeclaredAll(variables) == Decls(lines)
    ensures forall i :: 0 <= i < |variables| ==> fresh(variables[i]) && variables[i].sqlColumn == None
  {
    variables := [];
    var i := 0;
    while i < |lines|
      invariant forall k :: 0 <= k < |variables| ==> fresh(variables[k]) && variables[k].sqlColumn == None
      invariant i <= |lines| && DeclaredAll(variables) == DeclsTo(lines, i)
    {
      var found := ReadLine(lines[i]);
      var next := i + 1;
      DeclsNext(lines, i, next, DeclaredAll(variables), found);
      if found.Some? {
        var v := new HostVariable(found.value);
        DeclaredSnoc(variables, v);
        variables := variables + [v];
      }
      i := next;
    }
  }

  // ---------------------------------------------------------------------------
  // _map_columns_to_variables
  // ---------------------------------------------------------------------------

  /**
    * The SQL column name a host variable stands for: the name without a leading `DCL-`,
    * with `_` for every `-`.
    */
  function SqlName(name: string): (r: string)
    ensures '-' !in r
    ensures |r| == |name| - (if StartsWith(name, "DCL-") then 4 else 0)
  {
    var rest := if StartsWith(name, "DCL-") then name[4..] else name;
    seq(|rest|, k requires 0 <= k < |rest| => if rest[k] == '-' then '_' else rest[k])
  }

  /** The COBOL spelling of an SQL name: `-` for every `_`. */
  function CobolName(column: string): (r: string)
    ensures |r| == |column| && '_' !in r
  {
    seq(|column|, k requires 0 <= k < |column| => if column[k] == '_' then '-' else column[k])
  }

  /** The host variable DCLGEN declares for a column, `DCL-` and the column in COBOL spelling, maps back to the column. */
  lemma SqlNameOfDclName(column: string)
    requires '-' !in column
    ensures SqlName("DCL-" + CobolName(column)) == column
  {
    var name := "DCL-" + CobolName(column);
    assert StartsWith(name, "DCL-") by { assert name[0..4] == "DCL-"; }
    assert name[4..] == CobolName(column);
  }

  /** A column in COBOL spelling, without the prefix, maps back to the column too, unless the column itself begins with `DCL_`. */
  lemma SqlNameOfCobolName(column: string)
    requires '-' !in column && !StartsWith(column, "DCL_")
    ensures SqlName(CobolName(column)) == column
  {
    CobolPrefix(column);
  }

  /** The COBOL spelling begins with `DCL-` only when the column begins with `DCL_`. */
  lemma CobolPrefix(column: string)
    requires '-' !in column
    ensures StartsWith(CobolName(column), "DCL-") ==> StartsWith(column, "DCL_")
  {
    var name := CobolName(column);
    if StartsWith(name, "DCL-") {
      forall k | 0 <= k < 4 ensures column[k] == "DCL_"[k] {
        assert name[k] == name[..4][k];
        assert column[k] in column;
      }
      assert column[..4] == "DCL_";
    }
  }

  /** Some column has the name `n`. */
  predicate HasColumn(columns: seq<DdlParser.DdlColumn>, n: string) {
    exists k :: 0 <= k < |columns| && columns[k].name == n
  }

  /** The SQL column a host variable named `name` is mapped to, starting from none. */
  function ColumnFor(name: string, columns: seq<DdlParser.DdlColumn>): (r: Option<string>)
    ensures r.Some? <==> HasColumn(columns, SqlName(name))
    ensures r.Some? ==> r.value == SqlName(name) && '-' !in r.value
  {
    if HasColumn(columns, SqlName(name)) then Some(SqlName(name)) else None
  }

  /** `v` holds the SQL column its name maps to, or `before` when no column has that name. */
  predicate MappedFrom(v: HostVariable, columns: seq<DdlParser.DdlColumn>, before: Option<string>)
    reads v
  {
    v.sqlColumn == if HasColumn(columns, SqlName(v.name)) then Some(SqlName(v.name)) else before
  }

  /** `v` still holds `before`, or already the SQL column its name maps to. */
  predicate Pending(v: HostVariable, columns: seq<DdlParser.DdlColumn>, before: Option<string>)
    reads v
  {
    v.sqlColumn == before || (HasColumn(columns, SqlName(v.name)) && v.sqlColumn == Some(SqlName(v.name)))
  }

  /**
    * `_map_columns_to_variables`: each host variable whose SQL name is the name of a
    * column gets that column; the others keep what they had. The variables are updated in
    * place, and a variable listed twice ends the same as one listed once.
    */
  method MapColumnsToVariables(variables: seq<HostVariable>, columns: seq<DdlParser.DdlColumn>)
    modifies set k | 0 <= k < |variables| :: variables[k]
    ensures forall k :: 0 <= k < |variables| ==> MappedFrom(variables[k], columns, old(variables[k].sqlColumn))
  {
    var i := 0;
    while i < |variables|
      invariant i <= |variables|
      invariant forall k :: 0 <= k < i ==> MappedFrom(variables[k], columns, old(variables[k].sqlColumn))
      invariant forall k :: i <= k < |variables| ==> Pending(variables[k], columns, old(variables[k].sqlColumn))
    {
      var v := variables[i];
      var sqlName := SqlName(v.name);
      var j := 0;
      while j < |columns|
        invariant j <= |columns|
        invariant forall k :: 0 <= k < j ==> columns[k].name != sqlName
        invariant forall k :: 0 <= k < i ==> MappedFrom(variables[k], columns, old(variables[k].sqlColumn))
        invariant forall k :: i <= k < |variables| ==> Pending(variables[k], columns, old(variables[k].sqlColumn))
      {
        if columns[j].name == sqlName {
          v.sqlColumn := Some(columns[j].name);
          break;
        }
        j := j + 1;
      }
      i := i + 1;
    }
  }

  // ---------------------------------------------------------------------------
  // The column count
  // ---------------------------------------------------------------------------

  /** `IS\s+(\d+)` at `q` (any case): the number. */
  function CountAt(s: string, q: nat): Option<nat> {
    if !LitAtCI(s, q, "IS") then None
    else
      var c := SkipSpaces(s, q + 2);
      if c == q + 2 then None
      else match Number(s, c)
        case None => None
        case Some((n, _)) => Some(n)
  }

  /** No line break in `s[q..k]`. */
  predicate NoBreak(s: string, q: nat, k: nat) requires k <= |s| { forall j :: q <= j < k ==> s[j] != '\n' }

  /** `.*?IS\s+(\d+)` from `q`: the lazy scan, which tries each position up to the next line break. */
  function CountFrom(s: string, q: nat): (r: Option<nat>)
    requires q <= |s|
    ensures r.None? ==> forall k :: q <= k < |s| && NoBreak(s, q, k) ==> CountAt(s, k).None?
    decreases |s| - q
  {
    if q == |s| then None
    else match CountAt(s, q)
      case Some(n) => Some(n)
      case None => if s[q] == '\n' then None else CountFrom(s, q + 1)
  }

  /** The lazy scan reaches the first position that gives a count without crossing a line break; the blanks around it may. */
  lemma {:induction false} CountOnLine(s: string, q: nat) returns (r: nat)
    requires q <= |s| && CountFrom(s, q).Some?
    ensures q <= r < |s| && CountAt(s, r) == CountFrom(s, q)
    ensures forall k :: q <= k < r ==> s[k] != '\n' && CountAt(s, k).None?
    decreases |s| - q
  {
    match CountAt(s, q)
    case Some(_) =>
      r := q;
    case None =>
      r := CountOnLine(s, q + 1);
  }

  /**
    * `NUMBER\s+OF\s+COLUMNS\s+.*?IS\s+(\d+)` (any case, `.` not matching a line break)
    * tried at position `p`: the count.
    */
  function MatchCountAt(s: string, p: nat): (r: Option<nat>)
    ensures r.Some? ==> LitAtCI(s, p, "NUMBER") && exists b :: p + 6 < b <= |s| && CountFrom(s, b) == r
  {
    if !LitAtCI(s, p, "NUMBER") then None
    else match SpacedWords(s, p + 6, ["OF", "COLUMNS"])
      case None => None
      case Some(a) =>
        var b := SkipSpaces(s, a);
        if b == a then None else CountFrom(s, b)
  }

  /** `COLUMN_COUNT_PATTERN.search`: the count at the first position where the pattern matches. */
  function FindCount(s: string): (r: Option<nat>)
    ensures r.Some? ==> exists p :: 0 <= p <= |s| && MatchCountAt(s, p) == r
  {
    var m := (p: nat) => MatchCountAt(s, p);
    ScanFound(m, 0, |s|);
    FirstMatch(m, 0, |s|)
  }

  /** A count is found exactly when the pattern matches somewhere. */
  lemma CountSearch(s: string)
    ensures FindCount(s).None? <==> forall p: nat :: p <= |s| ==> MatchCountAt(s, p).None?
  {
    var m := (p: nat) => MatchCountAt(s, p);
    ScanNone(m, 0, |s|);
    assert FindCount(s) == FirstMatch(m, 0, |s|);
    assert forall p: nat :: m(p) == MatchCountAt(s, p);
  }

  // ---------------------------------------------------------------------------
  // parse_content and to_spark_schema
  // ---------------------------------------------------------------------------

  /** What the parser reads from a DCLGEN member. */
  datatype DclGenResult = DclGenResult(
    tableName: string,
    schema: string,
    table: string,
    sqlColumns: seq<DdlParser.DdlColumn>,
    hostVariables: seq<HostVariable>,
    columnCount: nat)

  /**
    * The first half of `parse_content`: the table name, split into schema and table, and the
    * SQL columns of the DECLARE statement; all empty when there is none.
    */
  method ReadDeclaration(content: string) returns (tableName: string, schema: string, table: string, sqlColumns: seq<DdlParser.DdlColumn>)
    ensures FindDeclare(content).None? ==> tableName == [] && schema == [] && table == [] && sqlColumns == []
    ensures FindDeclare(content).Some? ==>
      && tableName == FindDeclare(content).value.tableName
      && (schema, table) == SplitTableName(tableName)
      && sqlColumns == SqlColumns(DdlParser.Finish(DdlParser.SplitScan(FindDeclare(content).value.body)))
  {
    tableName, schema, table, sqlColumns := "", "", "", [];
    var found := FindDeclare(content);
    if found.Some? {
      tableName := found.value.tableName;
      schema, table := SplitTableName(tableName).0, SplitTableName(tableName).1;
      sqlColumns := ParseSqlColumns(found.value.body);
    }
  }

  /**
    * `parse_content`: the DECLARE statement gives the table name, split into schema and
    * table, and the SQL columns; the record gives the host variables; the column count is
    * the one the member states, or else the number of SQL columns; each host variable is
    * then mapped to the SQL column of its name.
    */
  method ParseContent(content: string) returns (result: DclGenResult)
    ensures FindDeclare(content).None? ==> result.tableName == [] && result.schema == [] && result.table == [] && result.sqlColumns == []
    ensures FindDeclare(content).Some? ==>
      && result.tableName == FindDeclare(content).value.tableName
      && (result.schema, result.table) == SplitTableName(result.tableName)
      && result.sqlColumns == SqlColumns(DdlParser.Finish(DdlParser.SplitScan(FindDeclare(content).value.body)))
    ensures result.columnCount == match FindCount(content) case Some(n) => n case None => |result.sqlColumns|
    ensures DeclaredAll(result.hostVariables) == Decls(Split(content, '\n'))
    ensures forall i :: 0 <= i < |result.hostVariables| ==>
      && fresh(result.hostVariables[i])
      && result.hostVariables[i].sqlColumn == ColumnFor(result.hostVariables[i].name, result.sqlColumns)
  {
    var tableName, schema, table, sqlColumns := ReadDeclaration(content);
    var hostVariables := ParseCobolRecord(content);
    var count := FindCount(content);
    var columnCount := if count.Some? then count.value else |sqlColumns|;
    MapColumnsToVariables(hostVariables, sqlColumns);
    forall i | 0 <= i < |hostVariables| ensures hostVariables[i].sqlColumn == ColumnFor(hostVariables[i].name, sqlColumns) {
      assert MappedFrom(hostVariables[i], sqlColumns, None);
    }
    result := DclGenResult(tableName, schema, table, sqlColumns, hostVariables, columnCount);
  }

  /** `to_spark_schema`: one field per SQL column, in order, with the DB2 type converted. */
  method ToSparkSchema(result: DclGenResult) returns (schema: seq<StructField>)
    ensures |schema| == |result.sqlColumns|
    ensures forall i :: 0 <= i < |result.sqlColumns| ==>
      schema[i] == StructField(result.sqlColumns[i].name, Db2Types.Convert(result.sqlColumns[i].dataType), result.sqlColumns[i].nullable)
  {
    schema := BuildFields(result.sqlColumns, DdlParser.ColumnField);
  }
}
