/** Reading a dumped INSERT back: its table, its columns and its values, cell by cell. */
module DumpRows {
  import opened Utils
  import opened Strings
  import opened DumpLiterals
  import opened DumpConcat
  import opened DumpEscapes
  import opened DumpScript

  // ----- a reader of value lists that knows quotes and parentheses only -----

  /** Inside a literal or not, and in how many parentheses. */
  datatype Spot = Spot(quote: bool, depth: nat)

  function Move(c: char, p: Spot): Spot {
    if c == '\'' then Spot(!p.quote, p.depth)
    else if p.quote then p
    else if c == '(' then Spot(false, p.depth + 1)
    else if c == ')' && p.depth > 0 then Spot(false, p.depth - 1)
    else p
  }

  /** The texts between the commas that stand outside literals and parentheses. */
  function Values(s: string, cur: string, p: Spot): seq<string>
    decreases |s|
  {
    if s == "" then [cur]
    else if s[0] == ',' && p == Spot(false, 0) then [cur] + Values(s[1..], "", p)
    else Values(s[1..], cur + [s[0]], Move(s[0], p))
  }

  // ----- fragments that hold no such comma -----

  /** Where a fragment leads, if it holds no comma to split at and closes no more than it opens. */
  function Pass(s: string, p: Spot): Option<Spot>
    decreases |s|
  {
    if s == "" then Some(p)
    else if p == Spot(false, 0) && (s[0] == ',' || s[0] == ')') then None
    else Pass(s[1..], Move(s[0], p))
  }

  lemma {:induction false} PassConcat(a: string, b: string, p: Spot)
    requires Pass(a, p).Some?
    ensures Pass(a + b, p) == Pass(b, Pass(a, p).value)
    decreases |a|
  {
    if a == "" {
      assert a + b == b;
    } else {
      assert (a + b)[0] == a[0] && (a + b)[1..] == a[1..] + b;
      PassConcat(a[1..], b, Move(a[0], p));
    }
  }

  lemma {:induction false} PassedIsKept(s: string, rest: string, cur: string, p: Spot)
    requires Pass(s, p).Some?
    ensures Values(s + rest, cur, p) == Values(rest, cur + s, Pass(s, p).value)
    decreases |s|
  {
    if s == "" {
      assert s + rest == rest && cur + s == cur;
    } else {
      assert (s + rest)[0] == s[0] && (s + rest)[1..] == s[1..] + rest;
      PassedIsKept(s[1..], rest, cur + [s[0]], Move(s[0], p));
      assert cur + [s[0]] + s[1..] == cur + s;
    }
  }

  /** From any depth back to it. */
  predicate Level(s: string, d: nat) { Pass(s, Spot(false, d)) == Some(Spot(false, d)) }

  lemma LevelConcat(a: string, b: string, d: nat)
    requires Level(a, d) && Level(b, d)
    ensures Level(a + b, d)
  {
    PassConcat(a, b, Spot(false, d));
  }

  predicate Flat(s: string) { '\'' !in s && '(' !in s && ')' !in s && ',' !in s }

  lemma {:induction false} FlatLevel(s: string, d: nat)
    requires Flat(s)
    ensures Level(s, d)
    decreases |s|
  {
    if s != "" {
      assert s[0] in s && forall c :: c in s[1..] ==> c in s;
      FlatLevel(s[1..], d);
    }
  }

  lemma {:induction false} PairedPass(s: string, d: nat)
    requires Paired(s)
    ensures Pass(s, Spot(true, d)) == Some(Spot(true, d))
    decreases |s|
  {
    if s == "" {
    } else if s[0] == '\'' {
      assert s[1..][0] == '\'' && s[1..][1..] == s[2..];
      PairedPass(s[2..], d);
      assert Pass(s, Spot(true, d)) == Pass(s[1..], Spot(false, d)) == Pass(s[2..], Spot(true, d));
    } else {
      PairedPass(s[1..], d);
    }
  }

  lemma LiteralLevel(s: string, d: nat)
    requires Paired(s)
    ensures Level("'" + s + "'", d)
  {
    PairedPass(s, d);
    PassConcat(s, "'", Spot(true, d));
    assert Pass("'", Spot(true, d)) == Some(Spot(false, d)) by { assert "'"[1..] == ""; }
    assert ("'" + s + "'")[1..] == s + "'";
  }

  lemma {:induction false} ItoaFlat(n: nat)
    ensures Flat(Itoa(n))
  {
    assert forall d: nat :: d < 10 ==> Flat([Digit(d)]);
    if n >= 10 { ItoaFlat(n / 10); }
  }

  lemma OpenPass(word: string, d: nat)
    requires Flat(word)
    ensures Pass(word + "(", Spot(false, d)) == Some(Spot(false, d + 1))
  {
    FlatLevel(word, d);
    PassConcat(word, "(", Spot(false, d));
    assert "("[1..] == "";
  }

  lemma ClosePass(d: nat)
    ensures Pass(")", Spot(false, d + 1)) == Some(Spot(false, d))
  {
    assert ")"[1..] == "";
  }

  /** A word, and something level in parentheses. */
  lemma CallLevel(word: string, inner: string, d: nat)
    requires Flat(word) && Level(inner, d + 1)
    ensures Level(word + "(" + inner + ")", d)
  {
    OpenPass(word, d);
    PassConcat(word + "(", inner, Spot(false, d));
    PassConcat(word + "(" + inner, ")", Spot(false, d));
    ClosePass(d);
  }

  lemma CommaLevel(d: nat)
    ensures Level(", ", d + 1)
  {
    assert ", "[1..] == " " && " "[1..] == "";
  }

  lemma CharLevel(c: char, d: nat)
    ensures Level(Call(c), d)
  {
    ItoaFlat(c as nat);
    FlatLevel(Itoa(c as nat), d + 1);
    CallLevel("CHAR", Itoa(c as nat), d);
    assert "CHAR" + "(" == "CHAR(";
  }

  lemma {:induction false} CharsLevel(run: string, d: nat)
    requires run != ""
    ensures Level(CharCalls(run), d + 1)
    decreases |run|
  {
    hide Level, Call;
    CharLevel(run[0], d + 1);
    if |run| > 1 {
      CharsLevel(run[1..], d);
      CommaLevel(d);
      LevelConcat(Call(run[0]), ", ", d + 1);
      LevelConcat(Call(run[0]) + ", ", CharCalls(run[1..]), d + 1);
    }
  }

  /** From inside the parentheses out of them. */
  predicate Leaves(s: string, d: nat) { Pass(s, Spot(false, d + 1)) == Some(Spot(false, d)) }

  lemma LevelLeaves(a: string, b: string, d: nat)
    requires Level(a, d + 1) && Leaves(b, d)
    ensures Leaves(a + b, d)
  {
    PassConcat(a, b, Spot(false, d + 1));
  }

  lemma {:induction false} ArgsLeave(s: string, d: nat)
    requires Paired(s) && s != ""
    ensures Leaves(ConcatArgs(s), d)
    decreases |s|, 1
  {
    hide Level, Leaves, Paired, RunTail, ConcatArgs;
    var a := RunStart(s);
    if a == |s| {
      ArgsOfText(s);
      LiteralLevel(s, d + 1);
      CloseLeaves(d);
      LevelLeaves("'" + s + "'", ")", d);
      assert "'" + s + "')" == "'" + s + "'" + ")";
    } else {
      var b := a + RunEnd(s[a..]);
      CutAtRun(s, a, b);
      ArgsAtRun(s, a, b);
      TailLeaves(s, a, b, d);
      if a > 0 { TextLeaves(s[..a], RunTail(s, a, b), d); }
    }
  }

  lemma CloseLeaves(d: nat)
    ensures Leaves(")", d)
  {
    ClosePass(d);
  }

  lemma TextLeaves(text: string, more: string, d: nat)
    requires Paired(text) && Leaves(more, d)
    ensures Leaves("'" + text + "', " + more, d)
  {
    hide Level, Leaves, Paired;
    LiteralLevel(text, d + 1);
    CommaLevel(d);
    LevelConcat("'" + text + "'", ", ", d + 1);
    LevelLeaves("'" + text + "'" + ", ", more, d);
    assert "'" + text + "'" + ", " == "'" + text + "', ";
  }

  lemma {:induction false} TailLeaves(s: string, a: nat, b: nat, d: nat)
    requires a < b <= |s| && Paired(s[b..])
    ensures Leaves(RunTail(s, a, b), d)
    decreases |s|, 0
  {
    hide Level, Leaves, Paired, ConcatArgs, CharCalls;
    CharsLevel(s[a..b], d);
    if b < |s| {
      ArgsLeave(s[b..], d);
      CommaLevel(d);
      LevelLeaves(", ", ConcatArgs(s[b..]), d);
      LevelLeaves(CharCalls(s[a..b]), ", " + ConcatArgs(s[b..]), d);
    } else {
      CloseLeaves(d);
      LevelLeaves(CharCalls(s[a..b]), ")", d);
    }
  }

  lemma ConcatLevel(v: string, d: nat)
    requires v != ""
    ensures Level(ConcatWithChar(v), d)
  {
    EscapePaired(v);
    ArgsLeave(Escape(v), d);
    OpenPass("CONCAT", d);
    assert "CONCAT" + "(" == "CONCAT(";
    PassConcat("CONCAT(", ConcatArgs(Escape(v)), Spot(false, d));
    hide Pass, ConcatArgs;
  }

  lemma HexLevel(run: string, d: nat)
    requires forall j :: 0 <= j < |run| ==> IsControl(run[j])
    ensures Level("e" + ("'" + HexRun(run) + "'"), d)
  {
    hide Level, Paired, HexRun;
    HexRunPaired(run);
    LiteralLevel(HexRun(run), d);
    FlatLevel("e", d);
    LevelConcat("e", "'" + HexRun(run) + "'", d);
  }

  lemma {:induction false} TermsLevel(s: string, d: nat)
    requires Paired(s)
    ensures Level(PgTerms(s), d)
    decreases |s|, 1
  {
    hide Level, Paired, PgTail, PgTerms;
    if s == "" {
      FlatLevel("", d);
      PgTermsNone();
    } else {
      var a := RunStart(s);
      if a == |s| {
        LiteralLevel(s, d);
        PgTermsOnly(s);
      } else {
        var b := a + RunEnd(s[a..]);
        CutAtRun(s, a, b);
        PgTermsStep(s, a, b);
        PgTailLevel(s, a, b, d);
        if a > 0 { BarsLevel("'" + s[..a] + "'", PgTail(s, a, b), s[..a], d); }
      }
    }
  }

  lemma BarsLevel(first: string, more: string, text: string, d: nat)
    requires first == "'" + text + "'" && Paired(text) && Level(more, d)
    ensures Level("'" + text + "' || " + more, d)
  {
    hide Level, Paired;
    LiteralLevel(text, d);
    FlatLevel(" || ", d);
    LevelConcat(first, " || ", d);
    LevelConcat(first + " || ", more, d);
    assert first + " || " == "'" + text + "' || ";
  }

  lemma {:induction false} PgTailLevel(s: string, a: nat, b: nat, d: nat)
    requires a < b <= |s| && Paired(s[b..]) && forall j :: 0 <= j < b - a ==> IsControl(s[a..b][j])
    ensures Level(PgTail(s, a, b), d)
    decreases |s|, 0
  {
    hide Level, Paired, PgTerms, HexRun;
    var hex := HexRun(s[a..b]);
    HexLevel(s[a..b], d);
    if b < |s| {
      TermsLevel(s[b..], d);
      FlatLevel(" || ", d);
      LevelConcat("e" + ("'" + hex + "'"), " || ", d);
      LevelConcat("e" + ("'" + hex + "'") + " || ", PgTerms(s[b..]), d);
      PgTailText(hex, PgTerms(s[b..]));
    } else {
      Join("e", "'" + hex, "'");
      Join("e", "'", hex);
      assert "e" + "'" == "e'";
    }
  }

  lemma UniLevel(v: string, d: nat)
    ensures Level(UniStr(v), d)
  {
    hide Level, Paired, UniText;
    TextIsEscapedSlashes(v);
    EscapePaired(Slashed(v));
    LiteralLevel(UniText(v), d + 1);
    CallLevel("unistr", "'" + UniText(v) + "'", d);
    UniStrText(UniText(v));
    assert "unistr" + "(" == "unistr(";
  }

  lemma NationalLevel(v: string)
    ensures Level("N" + ("'" + Escape(v) + "'"), 0)
  {
    EscapePaired(v);
    LiteralLevel(Escape(v), 0);
    FlatLevel("N", 0);
    LevelConcat("N", "'" + Escape(v) + "'", 0);
  }

  lemma BytesLevel(form: Form, bytes: Octets)
    ensures Level(BytesText(form, bytes), 0)
  {
    HexPaired(form, bytes);
    hide Level, Paired, HexPairs;
    var text := Lead(form) + HexPairs(bytes);
    LiteralLevel(text, 0);
    LiteralLevel(text, 1);
    FlatLevel("X", 0);
    match form
    case Bytea => assert BytesText(form, bytes) == "'" + text + "'";
    case Xquote =>
      LevelConcat("X", "'" + text + "'", 0);
      assert BytesText(form, bytes) == "X" + ("'" + text + "'");
    case HexToRaw =>
      CallLevel("HEXTORAW", "'" + text + "'", 0);
      assert BytesText(form, bytes) == "HEXTORAW" + "(" + ("'" + text + "'") + ")";
    case Convert => ConvertLevel(text);
  }

  lemma ConvertLevel(text: string)
    requires Paired(text)
    ensures Level("CONVERT(VARBINARY(MAX), " + ("'" + text + "'") + ", 1)", 0)
  {
    hide Level, Paired;
    var literal := "'" + text + "'";
    LiteralLevel(text, 1);
    TypeLevel();
    LevelConcat("VARBINARY(MAX), ", literal, 1);
    LevelConcat("VARBINARY(MAX), " + literal, ", 1", 1);
    CallLevel("CONVERT", "VARBINARY(MAX), " + literal + ", 1", 0);
    ConvertText(literal);
  }

  lemma ConvertText(literal: string)
    ensures "CONVERT" + "(" + ("VARBINARY(MAX), " + literal + ", 1") + ")" == "CONVERT(VARBINARY(MAX), " + literal + ", 1)"
  {
    var start := "CONVERT" + "(";
    Join(start, "VARBINARY(MAX), " + literal, ", 1");
    Join(start, "VARBINARY(MAX), ", literal);
    Join(start + "VARBINARY(MAX), " + literal, ", 1", ")");
    assert start + "VARBINARY(MAX), " == "CONVERT(VARBINARY(MAX), " && ", 1" + ")" == ", 1)";
  }

  /** The fixed words around the bytes of SQL Server. */
  lemma TypeLevel()
    ensures Level("VARBINARY(MAX), ", 1) && Level(", 1", 1)
  {
    hide Level;
    FlatLevel("MAX", 2);
    CallLevel("VARBINARY", "MAX", 1);
    CommaLevel(0);
    FlatLevel("1", 1);
    LevelConcat(", ", "1", 1);
    LevelConcat("VARBINARY" + "(" + "MAX" + ")", ", ", 1);
    assert "VARBINARY" + "(" + "MAX" + ")" + ", " == "VARBINARY(MAX), " && ", " + "1" == ", 1";
  }

  /** Null and boolean words and numbers hold none of the reader's characters, and an empty string is
      never written in one of the special forms. */
  predicate Readable(c: Cell) {
    match c
    case Raw(t) => Flat(t)
    case Concat(v) => v != ""
    case Postgres(v) => v != ""
    case _ => true
  }

  lemma CellLevel(c: Cell)
    requires Readable(c)
    ensures Level(CellText(c), 0)
  {
    hide Level, Escape, ConcatWithChar, PgLiteral, UniStr;
    match c
    case Null => FlatLevel("NULL", 0);
    case Raw(t) => FlatLevel(t, 0);
    case Quoted(v) => EscapePaired(v); LiteralLevel(Escape(v), 0);
    case Concat(v) => ConcatLevel(v, 0);
    case Postgres(v) => EscapePaired(v); TermsLevel(Escape(v), 0); assert PgLiteral(v) == PgTerms(Escape(v)) by { PgLiteralIs(v); }
    case UniSql(v) => UniLevel(v, 0);
    case National(v) => NationalLevel(v);
    case Bytes(form, bytes) => BytesLevel(form, bytes);
  }

  lemma PgLiteralIs(v: string)
    ensures PgLiteral(v) == PgTerms(Escape(v))
  {}

  function Texts(cells: seq<Cell>): seq<string> {
    if cells == [] then [] else [CellText(cells[0])] + Texts(cells[1..])
  }

  /** The list of values is read as one text for each cell, in order. */
  lemma {:induction false} CellsReadBack(cells: seq<Cell>)
    requires cells != [] && forall c :: c in cells ==> Readable(c)
    ensures Values(CellsText(cells), "", Spot(false, 0)) == Texts(cells)
    decreases |cells|
  {
    hide Pass, CellText;
    var text, rest := CellText(cells[0]), cells[1..];
    assert cells[0] in cells && forall c :: c in rest ==> c in cells;
    CellLevel(cells[0]);
    LevelIs(text);
    if rest == [] {
      PassedIsKept(text, "", "", Spot(false, 0));
      assert text + "" == text && "" + text == text;
    } else {
      var more := CellsText(rest);
      PassedIsKept(text, "," + more, "", Spot(false, 0));
      assert text + "," + more == text + ("," + more) && "" + text == text;
      assert ("," + more)[0] == ',' && ("," + more)[1..] == more;
      CellsReadBack(rest);
    }
  }

  lemma LevelIs(s: string)
    requires Level(s, 0)
    ensures Pass(s, Spot(false, 0)) == Some(Spot(false, 0))
  {}

  // ----- the whole statement -----

  const VALUES := ") VALUES ("

  /** Table, columns and values of an INSERT: the table up to the first parenthesis, the columns up to
      the next one, the values up to the last. */
  function ReadInsert(s: string): Option<(string, string, seq<string>)> {
    if !("INSERT INTO " <= s) then None
    else
      var open := Find(s, '(');
      var close := Find(s, ')');
      if 13 <= open < close && s[open - 1] == ' ' && close + 10 < |s| && s[close..close + 10] == VALUES && s[|s| - 1] == ')'
      then Some((s[12..open - 1], s[open + 1..close], Values(s[close + 10..|s| - 1], "", Spot(false, 0))))
      else None
  }

  lemma {:induction false} FindSkips(a: string, c: char, b: string)
    requires c !in a
    ensures Find(a + [c] + b, c) == |a|
    decreases |a|
  {
    var s := a + [c] + b;
    if a != "" {
      assert a[0] in a && forall d :: d in a[1..] ==> d in a;
      assert s[0] == a[0] && s[1..] == a[1..] + [c] + b;
      FindSkips(a[1..], c, b);
    }
  }

  /** The statement, cut before each of its first parentheses. */
  lemma Cuts(table: string, columns: string, cells: string)
    ensures
      var s := "INSERT INTO " + table + " (" + columns + ") VALUES (" + cells + ")";
      && s == ("INSERT INTO " + table + " ") + ['('] + (columns + VALUES + cells + ")")
      && s == ("INSERT INTO " + table + " (" + columns) + [')'] + (" VALUES (" + cells + ")")
      && s == ("INSERT INTO " + table + " (" + columns) + VALUES + (cells + ")")
  {
    var upTo := "INSERT INTO " + table + " (" + columns;
    assert VALUES == [')'] + " VALUES (" && " " + ['('] == " (";
  }

  /** Where the pieces of the statement stand. */
  lemma Layout(table: string, columns: string, cells: string)
    ensures
      var s := "INSERT INTO " + table + " (" + columns + ") VALUES (" + cells + ")";
      var n := 13 + |table|;
      var m := n + 1 + |columns|;
      && |s| == m + 11 + |cells| && s[..12] == "INSERT INTO " && s[12..n - 1] == table && s[n - 1] == ' '
      && s[n + 1..m] == columns && s[m..m + 10] == VALUES && s[m + 10..|s| - 1] == cells && s[|s| - 1] == ')'
  {
    var s := "INSERT INTO " + table + " (" + columns + ") VALUES (" + cells + ")";
    var upTo := "INSERT INTO " + table + " (" + columns;
    Cuts(table, columns, cells);
    HeadLayout(table, columns);
    assert s[..|upTo|] == upTo;
    assert s[|upTo|..|upTo| + 10] == VALUES && s[|upTo| + 10..|s| - 1] == cells;
    SliceOfSlice(s, |upTo|, 0, 12);
    SliceOfSlice(s, |upTo|, 12, 12 + |table|);
    SliceOfSlice(s, |upTo|, 14 + |table|, |upTo|);
  }

  lemma SliceOfSlice(s: string, n: nat, a: nat, b: nat)
    requires a <= b <= n <= |s|
    ensures s[..n][a..b] == s[a..b]
  {}

  lemma HeadLayout(table: string, columns: string)
    ensures
      var s := "INSERT INTO " + table + " (" + columns;
      && s[0..12] == "INSERT INTO " && s[12..12 + |table|] == table && s[12 + |table|] == ' '
      && s[14 + |table|..|s|] == columns
  {}

  /** What a dump writes for a row is read back: the table, the columns, and cell for cell the texts,
      in their order; each string among them evaluates to the value that was dumped. */
  lemma InsertReadsBack(table: string, columns: string, row: Row)
    requires Flat(table) && table != "" && '(' !in columns && ')' !in columns
    requires row.cells != [] && forall c :: c in row.cells ==> Readable(c)
    ensures ReadInsert(RowText(table, columns, row)) == Some((table, columns, Texts(row.cells)))
  {
    CellsReadBack(row.cells);
    hide Values, CellsText, Texts, Find;
    Layout(table, columns, CellsText(row.cells));
    FirstParentheses(table, columns, CellsText(row.cells));
  }

  lemma FirstParentheses(table: string, columns: string, cells: string)
    requires Flat(table) && '(' !in columns && ')' !in columns
    ensures
      var s := "INSERT INTO " + table + " (" + columns + ") VALUES (" + cells + ")";
      Find(s, '(') == 13 + |table| && Find(s, ')') == 14 + |table| + |columns|
  {
    hide Find;
    Cuts(table, columns, cells);
    var head := "INSERT INTO " + table + " ";
    assert '(' !in head && ')' !in head;
    FindSkips(head, '(', columns + VALUES + cells + ")");
    var upTo := "INSERT INTO " + table + " (" + columns;
    assert ')' !in upTo;
    FindSkips(upTo, ')', " VALUES (" + cells + ")");
  }
}
