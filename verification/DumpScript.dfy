/** The INSERT rows of a dump, and what Import makes of them. */
module DumpScript {
  import opened Strings
  import opened DumpLiterals
  import opened DumpConcat
  import opened DumpEscapes
  import Split = ImportSplit

  // ----- walking over text that neither splits nor starts a comment -----

  datatype Pos = Pos(quote: bool, dash: bool) | Stopped

  /** The quote flag, and whether the last character is a dash. */
  function Walk(s: string, p: Pos): Pos
    decreases |s|
  {
    if s == "" || p.Stopped? then p
    else
      var q := if s[0] == '\'' then !p.quote else p.quote;
      if !p.quote && p.dash && s[0] == '-' then Stopped
      else if !q && s[0] == ';' then Stopped
      else Walk(s[1..], Pos(q, s[0] == '-'))
  }

  lemma {:induction false} WalkConcat(a: string, b: string, p: Pos)
    ensures Walk(a + b, p) == Walk(b, Walk(a, p))
    decreases |a|
  {
    if a == "" {
      assert a + b == b;
    } else if p.Pos? {
      assert (a + b)[0] == a[0] && (a + b)[1..] == a[1..] + b;
      var q := if a[0] == '\'' then !p.quote else p.quote;
      WalkConcat(a[1..], b, Pos(q, a[0] == '-'));
    }
  }

  lemma WalkThree(a: string, b: string, c: string, p: Pos)
    ensures Walk(a + b + c, p) == Walk(c, Walk(b, Walk(a, p)))
  {
    WalkConcat(a + b, c, p);
    WalkConcat(a, b, p);
  }

  predicate Outside(p: Pos) { p.Pos? && !p.quote }

  /** A fragment that can stand anywhere outside quotes and leaves us outside quotes. */
  predicate Inert(s: string) {
    Outside(Walk(s, Pos(false, false))) && Outside(Walk(s, Pos(false, true)))
  }

  lemma InertConcat(a: string, b: string)
    requires Inert(a) && Inert(b)
    ensures Inert(a + b)
  {
    hide Walk;
    WalkConcat(a, b, Pos(false, false));
    WalkConcat(a, b, Pos(false, true));
  }

  lemma InertThree(a: string, b: string, c: string)
    requires Inert(a) && Inert(b) && Inert(c)
    ensures Inert(a + b + c)
  {
    InertConcat(a, b);
    InertConcat(a + b, c);
  }

  predicate DashPair(s: string) { exists i :: 0 < i < |s| && s[i] == '-' && s[i - 1] == '-' }

  /** Text without quotes, semicolons and two dashes in a row. */
  predicate Tame(s: string) { '\'' !in s && ';' !in s && !DashPair(s) }

  lemma DashPairLater(s: string)
    requires s != "" && DashPair(s[1..])
    ensures DashPair(s)
  {
    var t := s[1..];
    var i :| 0 < i < |t| && t[i] == '-' && t[i - 1] == '-';
    assert s[i + 1] == '-' && s[i + 1 - 1] == '-';
  }

  lemma DashPairFirst(s: string)
    requires |s| > 1 && s[0] == '-' && s[1] == '-'
    ensures DashPair(s)
  {
    assert s[1 - 1] == '-';
  }

  lemma {:induction false} TameWalk(s: string, p: Pos)
    requires p.Pos? && !p.quote && Tame(s) && (p.dash && s != "" ==> s[0] != '-')
    ensures Outside(Walk(s, p))
    decreases |s|
  {
    if s != "" {
      assert s[0] in s && forall c :: c in s[1..] ==> c in s;
      var t := s[1..];
      if DashPair(t) { DashPairLater(s); }
      if |s| > 1 && s[0] == '-' && s[1] == '-' { DashPairFirst(s); }
      TameWalk(t, Pos(false, s[0] == '-'));
    }
  }

  /** Text without quotes, semicolons and dashes. */
  lemma {:induction false} PlainWalk(s: string, p: Pos)
    requires p.Pos? && !p.quote && '\'' !in s && ';' !in s && '-' !in s
    ensures Walk(s, p).Pos? && !Walk(s, p).quote && (s != "" ==> !Walk(s, p).dash)
    decreases |s|
  {
    if s != "" {
      assert s[0] in s && forall c :: c in s[1..] ==> c in s;
      PlainWalk(s[1..], Pos(false, false));
    }
  }

  lemma PlainInert(s: string)
    requires '\'' !in s && ';' !in s && '-' !in s
    ensures Inert(s)
  {
    PlainWalk(s, Pos(false, false));
    PlainWalk(s, Pos(false, true));
  }

  /** The inside of a literal: whatever it holds, quotes come in pairs. */
  lemma {:induction false} PairedWalk(s: string, p: Pos)
    requires Paired(s) && p.Pos? && p.quote
    ensures Walk(s, p).Pos? && Walk(s, p).quote
    decreases |s|
  {
    if s == "" {
    } else if s[0] == '\'' {
      var t := s[1..];
      assert t[0] == '\'' && t[1..] == s[2..];
      assert Walk(s, p) == Walk(t, Pos(false, false)) == Walk(s[2..], Pos(true, false));
      PairedWalk(s[2..], Pos(true, false));
    } else {
      assert Walk(s, p) == Walk(s[1..], Pos(true, s[0] == '-'));
      PairedWalk(s[1..], Pos(true, s[0] == '-'));
    }
  }

  lemma LiteralWalk(s: string, dash: bool)
    requires Paired(s)
    ensures Walk("'" + s + "'", Pos(false, dash)) == Pos(false, false)
  {
    WalkThree("'", s, "'", Pos(false, dash));
    assert Walk("'", Pos(false, dash)) == Pos(true, false);
    PairedWalk(s, Pos(true, false));
    var p := Walk(s, Pos(true, false));
    assert Walk("'", p) == Pos(false, false);
  }

  lemma LiteralInert(s: string)
    requires Paired(s)
    ensures Inert("'" + s + "'")
  {
    LiteralWalk(s, false);
    LiteralWalk(s, true);
  }

  // ----- the literals -----

  lemma {:induction false} ItoaPlain(n: nat)
    ensures '\'' !in Itoa(n) && ';' !in Itoa(n) && '-' !in Itoa(n)
  {
    assert forall d: nat :: d < 10 ==> Digit(d) != '\'' && Digit(d) != ';' && Digit(d) != '-';
    if n >= 10 { ItoaPlain(n / 10); }
  }

  lemma CallInert(c: char)
    ensures Inert(Call(c))
  {
    ItoaPlain(c as nat);
    PlainInert(Call(c));
  }

  lemma {:induction false} CallsInert(run: string)
    requires run != ""
    ensures Inert(CharCalls(run))
    decreases |run|
  {
    CallInert(run[0]);
    if |run| > 1 {
      PlainInert(", ");
      CallsInert(run[1..]);
      hide Inert, Call;
      InertThree(Call(run[0]), ", ", CharCalls(run[1..]));
    }
  }

  lemma {:induction false} ConcatArgsInert(s: string)
    requires Paired(s) && s != ""
    ensures Inert(ConcatArgs(s))
    decreases |s|, 1
  {
    hide Inert, Paired, RunTail, ConcatArgs;
    var a := RunStart(s);
    if a == |s| {
      ArgsOfText(s);
      LiteralInert(s);
      PlainInert(")");
      InertConcat("'" + s + "'", ")");
      assert "'" + s + "')" == "'" + s + "'" + ")";
    } else {
      var b := a + RunEnd(s[a..]);
      CutAtRun(s, a, b);
      ArgsAtRun(s, a, b);
      RunTailInert(s, a, b);
      if a > 0 { ArgTextInert(s[..a], RunTail(s, a, b)); }
    }
  }

  /** A literal, a separator and more. */
  lemma TextInert(text: string, separator: string, more: string)
    requires Paired(text) && Inert(more) && (separator == ", " || separator == " || ")
    ensures Inert("'" + text + ("'" + separator) + more)
  {
    hide Inert, Paired;
    LiteralInert(text);
    PlainInert(separator);
    InertThree("'" + text + "'", separator, more);
    Join("'" + text, "'", separator);
  }

  lemma ArgTextInert(text: string, more: string)
    requires Paired(text) && Inert(more)
    ensures Inert("'" + text + "', " + more)
  {
    hide Inert, Paired;
    TextInert(text, ", ", more);
    assert "'" + ", " == "', ";
  }

  lemma PgTextInert(text: string, more: string)
    requires Paired(text) && Inert(more)
    ensures Inert("'" + text + "' || " + more)
  {
    hide Inert, Paired;
    TextInert(text, " || ", more);
    assert "'" + " || " == "' || ";
  }

  lemma {:induction false} RunTailInert(s: string, a: nat, b: nat)
    requires a < b <= |s| && Paired(s[b..])
    ensures Inert(RunTail(s, a, b))
    decreases |s|, 0
  {
    hide Inert, Paired, ConcatArgs, CharCalls;
    CallsInert(s[a..b]);
    if b < |s| {
      ConcatArgsInert(s[b..]);
      PlainInert(", ");
      InertConcat(", ", ConcatArgs(s[b..]));
      InertConcat(CharCalls(s[a..b]), ", " + ConcatArgs(s[b..]));
    } else {
      PlainInert(")");
      InertConcat(CharCalls(s[a..b]), ")");
    }
  }

  lemma {:induction false} HexRunPaired(run: string)
    requires forall j :: 0 <= j < |run| ==> IsControl(run[j])
    ensures Paired(HexRun(run))
    decreases |run|
  {
    if run != "" {
      assert IsControl(run[0]);
      HexRunPaired(run[1..]);
      var t, h := HexRun(run[1..]), Hex2(run[0]);
      HexHasNoQuote(run[0]);
      hide Paired, Hex2;
      PairedCons(h[1], t);
      PairedCons(h[0], [h[1]] + t);
      PairedCons('x', [h[0]] + ([h[1]] + t));
      PairedCons('\\', ['x'] + ([h[0]] + ([h[1]] + t)));
      HexText(h, t);
    }
  }

  lemma HexHasNoQuote(c: char)
    requires IsControl(c)
    ensures |Hex2(c)| == 2 && Hex2(c)[0] != '\'' && Hex2(c)[1] != '\''
  {}

  lemma HexText(h: string, t: string)
    requires |h| == 2
    ensures "\\x" + h + t == ['\\'] + (['x'] + ([h[0]] + ([h[1]] + t)))
  {
    assert h == [h[0]] + [h[1]];
  }

  lemma {:induction false} PgTermsInert(s: string)
    requires Paired(s)
    ensures Inert(PgTerms(s))
    decreases |s|, 1
  {
    hide Inert, Paired, PgTail, PgTerms;
    if s == "" {
      PgTermsNone();
      PlainInert("");
    } else {
      var a := RunStart(s);
      if a == |s| {
        PgTermsOnly(s);
        LiteralInert(s);
      } else {
        var b := a + RunEnd(s[a..]);
        CutAtRun(s, a, b);
        PgTermsStep(s, a, b);
        PgTailInert(s, a, b);
        if a > 0 { PgTextInert(s[..a], PgTail(s, a, b)); }
      }
    }
  }

  lemma HexInert(run: string)
    requires forall j :: 0 <= j < |run| ==> IsControl(run[j])
    ensures Inert("e" + ("'" + HexRun(run) + "'"))
  {
    hide Inert, Paired, HexRun;
    HexRunPaired(run);
    LiteralInert(HexRun(run));
    PlainInert("e");
    InertConcat("e", "'" + HexRun(run) + "'");
  }

  lemma {:induction false} PgTailInert(s: string, a: nat, b: nat)
    requires a < b <= |s| && Paired(s[b..]) && forall j :: 0 <= j < b - a ==> IsControl(s[a..b][j])
    ensures Inert(PgTail(s, a, b))
    decreases |s|, 0
  {
    hide Inert, Paired, PgTerms, HexRun;
    var hex := HexRun(s[a..b]);
    HexInert(s[a..b]);
    if b < |s| {
      PgTermsInert(s[b..]);
      PlainInert(" || ");
      InertThree("e" + ("'" + hex + "'"), " || ", PgTerms(s[b..]));
      PgTailText(hex, PgTerms(s[b..]));
    } else {
      Join("e", "'" + hex, "'");
      Join("e", "'", hex);
      assert "e" + "'" == "e'";
    }
  }

  lemma PgTailText(hex: string, more: string)
    ensures "e'" + hex + ("' || " + more) == "e" + ("'" + hex + "'") + " || " + more
  {
    Join("e", "'" + hex, "'");
    Join("e", "'", hex);
    assert "e" + "'" == "e'" && "'" + " || " == "' || ";
    Regroup("e'" + hex, "'", " || ", more);
    Join("'", " || ", more);
  }

  lemma ConcatInert(v: string)
    ensures Inert(ConcatWithChar(v))
  {
    EscapePaired(v);
    if v == "" { assert Escape(v) == "" && ConcatArgs("") == ""; PlainInert(""); } else { ConcatArgsInert(Escape(v)); }
    PlainInert("CONCAT(");
    InertConcat("CONCAT(", ConcatArgs(Escape(v)));
  }

  lemma UniInert(v: string)
    ensures Inert(UniStr(v))
  {
    TextIsEscapedSlashes(v);
    EscapePaired(Slashed(v));
    LiteralInert(UniText(v));
    PlainInert("unistr(");
    PlainInert(")");
    InertConcat("unistr(", "'" + UniText(v) + "'");
    InertConcat("unistr(" + ("'" + UniText(v) + "'"), ")");
    UniStrText(UniText(v));
  }

  lemma UniStrText(t: string)
    ensures "unistr('" + t + "')" == "unistr(" + ("'" + t + "'") + ")"
  {}

  // ----- rows -----

  /** A value of a dumped row: NULL, a number or boolean as it stands, or a string or bytes in one
      of the forms of the target database. */
  datatype Cell =
    | Null
    | Raw(text: string)
    | Quoted(v: string)
    | National(v: string)
    | Concat(v: string)
    | Postgres(v: string)
    | UniSql(v: string)
    | Bytes(form: Form, bytes: Octets)

  /** The four ways to write bytes in hexadecimal: of PostgreSQL, SQLite, Oracle and SQL Server. */
  datatype Form = Bytea | Xquote | HexToRaw | Convert

  function Before(form: Form): string {
    match form case Bytea => "" case Xquote => "X" case HexToRaw => "HEXTORAW(" case Convert => "CONVERT(VARBINARY(MAX), "
  }

  /** What stands in the literal before the digits. */
  function Lead(form: Form): string {
    match form case Bytea => "\\x" case Convert => "0x" case _ => ""
  }

  function After(form: Form): string {
    match form case HexToRaw => ")" case Convert => ", 1)" case _ => ""
  }

  function BytesText(form: Form, bytes: Octets): string {
    Before(form) + ("'" + (Lead(form) + HexPairs(bytes)) + "'") + After(form)
  }

  function CellText(c: Cell): string {
    match c
    case Null => "NULL"
    case Raw(t) => t
    case Quoted(v) => "'" + Escape(v) + "'"
    case National(v) => "N" + ("'" + Escape(v) + "'")
    case Concat(v) => ConcatWithChar(v)
    case Postgres(v) => PgLiteral(v)
    case UniSql(v) => UniStr(v)
    case Bytes(form, bytes) => BytesText(form, bytes)
  }

  lemma NationalInert(v: string)
    ensures Inert("N" + ("'" + Escape(v) + "'"))
  {
    EscapePaired(v);
    LiteralInert(Escape(v));
    PlainInert("N");
    InertConcat("N", "'" + Escape(v) + "'");
  }

  lemma BytesInert(form: Form, bytes: Octets)
    ensures Inert(BytesText(form, bytes))
  {
    HexPaired(form, bytes);
    FormInert(form);
    hide Inert, HexPairs, Before, Lead, After;
    LiteralInert(Lead(form) + HexPairs(bytes));
    InertThree(Before(form), "'" + (Lead(form) + HexPairs(bytes)) + "'", After(form));
  }

  lemma FormInert(form: Form)
    ensures Inert(Before(form)) && Inert(After(form))
  {
    hide Inert;
    PlainInert(Before(form));
    PlainInert(After(form));
  }

  lemma HexPaired(form: Form, bytes: Octets)
    ensures Paired(Lead(form) + HexPairs(bytes))
  {
    HexIsHex(bytes);
    hide HexPairs;
    NoQuotePaired(Lead(form) + HexPairs(bytes));
  }

  lemma {:induction false} NoQuotePaired(s: string)
    requires '\'' !in s
    ensures Paired(s)
  {
    if s != "" {
      assert s[0] in s && forall c :: c in s[1..] ==> c in s;
      NoQuotePaired(s[1..]);
    }
  }

  /** Numbers and booleans hold no quote mark, no semicolon and no two dashes in a row. */
  predicate RawText(t: string) { Tame(t) }

  function CellsText(cells: seq<Cell>): string {
    if cells == [] then ""
    else if |cells| == 1 then CellText(cells[0])
    else CellText(cells[0]) + "," + CellsText(cells[1..])
  }

  datatype Row = Row(cells: seq<Cell>)

  /** Nor do the quoted names of the table and its columns. */
  predicate PlainName(s: string) { Tame(s) }

  function RowText(table: string, columns: string, row: Row): string {
    "INSERT INTO " + table + " (" + columns + ") VALUES (" + CellsText(row.cells) + ")"
  }

  function Script(table: string, columns: string, rows: seq<Row>): string {
    if rows == [] then "" else RowText(table, columns, rows[0]) + ";\n" + Script(table, columns, rows[1..])
  }

  ghost predicate GoodRow(row: Row) {
    forall c :: c in row.cells && c.Raw? ==> RawText(c.text)
  }

  /** A cell is walked over after an opening parenthesis or a comma. */
  lemma CellWalk(c: Cell)
    requires c.Raw? ==> RawText(c.text)
    ensures
      Outside(Walk(CellText(c), Pos(false, false)))
  {
    hide PgTerms, ConcatArgs, UniText, Escape;
    match c
    case Null => PlainInert("NULL"); assert Inert("NULL");
    case Raw(t) => TameWalk(t, Pos(false, false));
    case Quoted(v) => EscapePaired(v); LiteralInert(Escape(v)); assert Inert("'" + Escape(v) + "'");
    case Concat(v) => ConcatInert(v);
    case Postgres(v) => EscapePaired(v); PgTermsInert(Escape(v)); assert Inert(PgLiteral(v));
    case UniSql(v) => UniInert(v);
    case National(v) => NationalInert(v); assert Inert(CellText(c));
    case Bytes(form, bytes) => BytesInert(form, bytes); assert Inert(BytesText(form, bytes));
  }

  lemma {:induction false} CellsWalk(cells: seq<Cell>)
    requires forall c :: c in cells && c.Raw? ==> RawText(c.text)
    ensures
      Outside(Walk(CellsText(cells), Pos(false, false)))
    decreases |cells|
  {
    if cells != [] {
      assert cells[0] in cells && forall c :: c in cells[1..] ==> c in cells;
      CellWalk(cells[0]);
      if |cells| > 1 {
        CellsWalk(cells[1..]);
        WalkThree(CellText(cells[0]), ",", CellsText(cells[1..]), Pos(false, false));
        var p := Walk(CellText(cells[0]), Pos(false, false));
        assert Walk(",", p) == Pos(false, false);
      }
    }
  }

  lemma RowWalk(table: string, columns: string, row: Row)
    requires PlainName(table) && PlainName(columns) && GoodRow(row)
    ensures
      Outside(Walk(RowText(table, columns, row), Pos(false, false)))
  {
    var start := Pos(false, false);
    HeadWalk(table, columns);
    CellsWalk(row.cells);
    var head := "INSERT INTO " + table + " (" + columns + ") VALUES (";
    hide Walk, CellsText;
    WalkThree(head, CellsText(row.cells), ")", start);
    AfterCells(Walk(CellsText(row.cells), start));
  }

  lemma AfterCells(p: Pos)
    requires Outside(p)
    ensures Walk(")", p) == Pos(false, false)
  {}

  lemma HeadWalk(table: string, columns: string)
    requires PlainName(table) && PlainName(columns)
    ensures Walk("INSERT INTO " + table + " (" + columns + ") VALUES (", Pos(false, false)) == Pos(false, false)
  {
    var start := Pos(false, false);
    FixedWalk();
    TameWalk(table, start);
    TameWalk(columns, start);
    hide Walk, Tame;
    WalkThree("INSERT INTO ", table, " (", start);
    AfterName(Walk(table, start));
    WalkThree("INSERT INTO " + table + " (", columns, ") VALUES (", start);
    AfterName(Walk(columns, start));
  }

  lemma FixedWalk()
    ensures Walk("INSERT INTO ", Pos(false, false)) == Pos(false, false)
  {
    PlainWalk("INSERT INTO ", Pos(false, false));
  }

  lemma AfterName(p: Pos)
    requires Outside(p)
    ensures Walk(" (", p) == Pos(false, false) && Walk(") VALUES (", p) == Pos(false, false)
  {
    PlainWalk(" (", p);
    PlainWalk(") VALUES (", p);
  }

  // ----- from the walk to the splitter -----

  lemma {:induction false} WalkRuns(data: string, i: nat, end: nat, quote: bool)
    requires i <= end <= |data|
    requires Walk(data[i..end], Pos(quote, i > 0 && data[i - 1] == '-')).Pos?
    ensures Split.Run(data, i, end, quote, false) ==
            Split.End(Walk(data[i..end], Pos(quote, i > 0 && data[i - 1] == '-')).quote, false)
    decreases end - i
  {
    if i < end {
      var s := data[i..end];
      assert s[1..] == data[i + 1..end] && s[0] == data[i];
      var q := if data[i] == '\'' then !quote else quote;
      WalkRuns(data, i + 1, end, q);
    }
  }

  lemma {:induction false} WalkSafe(data: string, i: nat, end: nat, quote: bool, newline: bool)
    requires i <= end < |data| && data[end] == ';'
    requires Outside(Walk(data[i..end], Pos(quote, i > 0 && data[i - 1] == '-')))
    ensures Split.CommentSafe(data, i, quote, false, newline)
    decreases end - i
  {
    if i < end {
      var s := data[i..end];
      assert s[1..] == data[i + 1..end] && s[0] == data[i];
      var q := if data[i] == '\'' then !quote else quote;
      WalkSafe(data, i + 1, end, q, newline || (quote && data[i] == '\n'));
    }
  }

  lemma ScriptCut(lead: string, row: string, rest: string)
    ensures
      var text, end := lead + row + ";" + rest, |lead| + |row|;
      && end < |text| && text[end] == ';' && text[..end] == lead + row && text[end + 1..] == rest
      && text[0..end] == lead + row
  {}

  /** A leading newline, a row, its semicolon: the splitter stops at that semicolon. */
  lemma RowSplits(lead: string, row: string, rest: string)
    requires lead == "" || lead == "\n"
    requires Outside(Walk(row, Pos(false, false)))
    ensures
      var text := lead + row + ";" + rest;
      && Split.Scan(text, false) == Split.At(|lead| + |row|)
      && Split.CommentSafe(text, 0, false, false, false)
  {
    var text := lead + row + ";" + rest;
    var end := |lead| + |row|;
    ScriptCut(lead, row, rest);
    LeadWalk(lead, row);
    hide Walk, Split.CommentSafe, Split.Run;
    RowRuns(text, end);
    WalkSafe(text, 0, end, false, false);
  }

  lemma LeadWalk(lead: string, row: string)
    requires lead == "" || lead == "\n"
    ensures Walk(lead + row, Pos(false, false)) == Walk(row, Pos(false, false))
  {
    WalkConcat(lead, row, Pos(false, false));
    assert Walk(lead, Pos(false, false)) == Pos(false, false);
  }

  lemma RowRuns(text: string, end: nat)
    requires end < |text| && text[end] == ';' && Outside(Walk(text[0..end], Pos(false, false)))
    ensures Split.Scan(text, false) == Split.At(end)
  {
    hide Walk;
    WalkRuns(text, 0, end, false);
    Split.RunOn(text, 0, end, |text|, false, false);
    assert Split.Run(text, end, |text|, false, false) == Split.At(end);
  }

  lemma {:induction false} TrimLead(s: string)
    requires s != "" && !Split.IsBlank(s[0]) && !Split.IsBlank(s[|s| - 1])
    ensures Split.Trim(s) == s && Split.Trim("\n" + s) == s
  {
    assert ("\n" + s)[1..] == s;
  }

  function RowTexts(table: string, columns: string, rows: seq<Row>): seq<string> {
    if rows == [] then [] else [RowText(table, columns, rows[0])] + RowTexts(table, columns, rows[1..])
  }

  lemma RowEnds(table: string, columns: string, row: Row)
    ensures
      var s := RowText(table, columns, row);
      s != "" && s[0] == 'I' && s[|s| - 1] == ')'
  {}

  lemma {:induction false} OneQuery(s: string, more: seq<string>)
    ensures Split.Queries([s] + more) == (if Split.Trim(s) == "" then [] else [Split.Trim(s)]) + Split.Queries(more)
  {
    Split.QueriesConcat([s], more);
    assert [s][..0] == [] && Split.Queries([s]) == [] + (if Split.Trim(s) == "" then [] else [Split.Trim(s)]);
  }

  lemma {:induction false} ScriptSplits(lead: string, table: string, columns: string, rows: seq<Row>)
    requires PlainName(table) && PlainName(columns) && (forall r :: r in rows ==> GoodRow(r))
    requires lead == "" || lead == "\n"
    ensures Split.SafeText(lead + Script(table, columns, rows))
    ensures Split.Queries(Split.Statements(lead + Script(table, columns, rows))) == RowTexts(table, columns, rows)
    decreases |rows|
  {
    if rows == [] {
      NoRows(lead);
    } else {
      assert rows[0] in rows && forall r :: r in rows[1..] ==> r in rows;
      var row := RowText(table, columns, rows[0]);
      var more := Script(table, columns, rows[1..]);
      ScriptSplits("\n", table, columns, rows[1..]);
      RowWalk(table, columns, rows[0]);
      RowEnds(table, columns, rows[0]);
      LeadRow(lead, row, more);
      FirstRow(lead, row, "\n" + more);
    }
  }

  /** The first row's query, then those of the rest. */
  lemma FirstRow(lead: string, row: string, rest: string)
    requires lead == "" || lead == "\n"
    requires Outside(Walk(row, Pos(false, false))) && Split.SafeText(rest)
    requires row != "" && !Split.IsBlank(row[0]) && !Split.IsBlank(row[|row| - 1])
    ensures Split.SafeText(lead + row + ";" + rest)
    ensures Split.Queries(Split.Statements(lead + row + ";" + rest)) == [row] + Split.Queries(Split.Statements(rest))
  {
    hide Split.Run, Split.Scan, Split.CommentSafe, Split.SafeText, Split.Statements, Split.Trim, Split.Queries, Split.IsBlank;
    hide Walk;
    var text, n := lead + row + ";" + rest, |lead| + |row|;
    RowSplits(lead, row, rest);
    ScriptCut(lead, row, rest);
    FirstStatement(text, n);
    TrimLead(row);
    LeadOrNot(lead, row);
    OneQuery(lead + row, Split.Statements(rest));
  }

  lemma LeadOrNot(lead: string, row: string)
    requires lead == "" || lead == "\n"
    ensures lead + row == row || lead + row == "\n" + row
  {
    if lead == "" { assert lead + row == row; }
  }

  lemma FirstStatement(text: string, n: nat)
    requires n < |text| && Split.Scan(text, false) == Split.At(n) && Split.CommentSafe(text, 0, false, false, false)
    requires Split.SafeText(text[n + 1..])
    ensures Split.SafeText(text) && Split.Statements(text) == [text[..n]] + Split.Statements(text[n + 1..])
  {}

  lemma LeadRow(lead: string, row: string, more: string)
    ensures lead + (row + ";\n" + more) == lead + row + ";" + ("\n" + more)
  {
    assert ";\n" == ";" + "\n";
  }

  lemma NoRows(lead: string)
    requires lead == "" || lead == "\n"
    ensures lead + "" == lead && Split.SafeText(lead) && Split.Queries(Split.Statements(lead)) == []
  {
    if lead == "\n" {
      assert Split.Run(lead, 0, 1, false, false) == Split.Run(lead, 1, 1, false, false) == Split.End(false, false);
      assert Split.CommentSafe(lead, 1, false, false, false);
      assert Split.Statements(lead) == [lead];
      OneQuery(lead, []);
      assert [lead] + [] == [lead] && "\n"[1..] == "" && Split.Trim("\n") == "";
    }
  }

  /** Importing the INSERT rows of a dump executes one statement per row, the row itself,
      whatever the strings hold, however the reader cuts the file and reports its end. */
  lemma DumpSplitsBack(table: string, columns: string, rows: seq<Row>, chunks: seq<string>, late: bool)
    requires PlainName(table) && PlainName(columns) && (forall r :: r in rows ==> GoodRow(r))
    requires Split.Flat(chunks) == Script(table, columns, rows)
    ensures Split.Queries(Split.Feed("", false, chunks, late, false)) == RowTexts(table, columns, rows)
  {
    var text := Script(table, columns, rows);
    assert "" + text == text;
    ScriptSplits("", table, columns, rows);
    Split.SafeIsStable(text);
    Split.ChunkingIsInvisible(chunks, late);
  }
}
