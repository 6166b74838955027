/** The form a dump chooses for each value, and what the target database reads there. */
module DumpCells {
  import opened Utils
  import opened Strings
  import opened DumpLiterals
  import opened DumpConcat
  import opened DumpEscapes
  import opened DumpScript
  import opened DumpRows
  import Split = ImportSplit

  datatype Target = MySql | PostgreSql | Sqlite | Oracle | Dameng | MsSql | OtherTarget

  /** A scanned value, by the type of its column. */
  datatype Field =
    | Missing
    | Boolean(text: string)
    | Number(text: string)
    | Text(v: string)
    | Blob(bytes: Octets)

  function FormatBool(b: bool, target: Target): string {
    if target != PostgreSql then (if b then "1" else "0") else (if b then "true" else "false")
  }

  predicate HasControl(s: string) { exists c :: c in s && IsControl(c) }

  function TextCell(target: Target, s: string): Cell {
    if s == "" then Quoted("")
    else
      match target
      case PostgreSql => Postgres(s)
      case MySql => if HasControl(s) then Concat(s) else Quoted(s)
      case Sqlite => if HasControl(s) then UniSql(s) else Quoted(s)
      case Oracle => Concat(s)
      case Dameng => Concat(s)
      case MsSql => National(s)
      case OtherTarget => Quoted(s)
  }

  function BlobCell(target: Target, s: Octets): Cell {
    if s == "" then Quoted("")
    else
      match target
      case PostgreSql => Bytes(Bytea, s)
      case Sqlite => Bytes(Xquote, s)
      case Oracle => Bytes(HexToRaw, s)
      case Dameng => Bytes(HexToRaw, s)
      case MsSql => Bytes(Convert, s)
      case _ => TextCell(target, s)
  }

  /** The dump stops with an error at a boolean that does not parse. */
  function CellOf(target: Target, f: Field): Option<Cell> {
    match f
    case Missing => Some(Null)
    case Boolean(s) => (match ParseBool(s) case None => None case Some(b) => Some(Raw(FormatBool(b, target))))
    case Number(s) => Some(Raw(s))
    case Text(s) => Some(TextCell(target, s))
    case Blob(s) => Some(BlobCell(target, s))
  }

  function CellsOf(target: Target, fields: seq<Field>): Option<seq<Cell>> {
    if fields == [] then Some([])
    else
      match (CellOf(target, fields[0]), CellsOf(target, fields[1..]))
      case (Some(c), Some(more)) => Some([c] + more)
      case _ => None
  }

  // ----- what the database reads -----

  /** A whole literal. */
  function Literal(s: string): Option<string> {
    if s == "" || s[0] != '\'' then None
    else
      match ReadQuoted(s[1..])
      case Bad => None
      case Read(v, r) => if r == "" then Some(v) else None
  }

  /** The bytes between a fixed beginning and a fixed end. */
  function Within(s: string, start: string, end: string): Option<string> {
    if start <= s && |start| + |end| <= |s| && s[|s| - |end|..] == end then ReadPairs(s[|start|..|s| - |end|]) else None
  }

  function ReadText(target: Target, s: string): Option<string> {
    match target
    case PostgreSql => EvalTerms(s)
    case MySql => if "CONCAT(" <= s then EvalConcat(false, s) else Literal(s)
    case Sqlite => if "unistr(" <= s then EvalUniStr(s) else Literal(s)
    case Oracle => if "CONCAT(" <= s then EvalConcat(false, s) else Literal(s)
    case Dameng => if "CONCAT(" <= s then EvalConcat(false, s) else Literal(s)
    case MsSql => if "N" <= s then Literal(s[1..]) else Literal(s)
    case OtherTarget => Literal(s)
  }

  function ReadBlob(target: Target, s: string): Option<string> {
    if s == "''" then Some("")
    else
      match target
      case PostgreSql => Within(s, "'\\x", "'")
      case Sqlite => Within(s, "X'", "'")
      case Oracle => Within(s, "HEXTORAW('", "')")
      case Dameng => Within(s, "HEXTORAW('", "')")
      case MsSql => Within(s, "CONVERT(VARBINARY(MAX), '0x", "', 1)")
      case _ => ReadText(target, s)
  }

  function ReadBool(target: Target, s: string): Option<bool> {
    if target == PostgreSql then (if s == "true" then Some(true) else if s == "false" then Some(false) else None)
    else (if s == "1" then Some(true) else if s == "0" then Some(false) else None)
  }

  /** The database reads in `text` the value that was dumped. */
  predicate Means(target: Target, text: string, f: Field) {
    match f
    case Missing => text == "NULL"
    case Boolean(s) => ReadBool(target, text).Some? && ReadBool(target, text) == ParseBool(s)
    case Number(s) => text == s
    case Text(s) => ReadText(target, text) == Some(s)
    case Blob(s) => ReadBlob(target, text) == Some(s)
  }

  // ----- every value comes back -----

  lemma LiteralIs(v: string)
    ensures Literal("'" + Escape(v) + "'") == Some(v)
  {
    QuotedRoundTrip(v, "");
    var s := "'" + Escape(v) + "'";
    assert s[1..] == Escape(v) + "'" + "";
    hide Escape, ReadQuoted;
  }

  lemma WithinIs(start: string, s: string, end: string)
    ensures Within(start + s + end, start, end) == ReadPairs(s)
  {
    var t := start + s + end;
    assert t == start + (s + end);
    assert t[|start|..|t| - |end|] == s && t[|t| - |end|..] == end;
  }

  lemma BytesReadBack(form: Form, bytes: Octets, start: string, end: string)
    requires start == Before(form) + "'" + Lead(form) && end == "'" + After(form)
    ensures Within(BytesText(form, bytes), start, end) == Some(bytes)
  {
    HexReadsBack(bytes);
    var hex := HexPairs(bytes);
    hide HexPairs;
    WithinIs(start, hex, end);
    BytesTextIs(Before(form), Lead(form), hex, After(form));
  }

  lemma BytesTextIs(before: string, lead: string, hex: string, after: string)
    ensures before + ("'" + (lead + hex) + "'") + after == before + "'" + lead + hex + ("'" + after)
  {}

  lemma EmptyIs(target: Target)
    ensures CellText(Quoted("")) == "''" && ReadText(target, "''") == Some("") && ReadBlob(target, "''") == Some("")
  {
    LiteralIs("");
    assert Escape("") == "" && "'" + Escape("") + "'" == "''";
    assert "''"[1..] == "'" && "'"[1..] == "";
    assert ReadQuoted("'") == Read("", "");
  }

  lemma QuotedIs(target: Target, s: string)
    requires target in {MySql, Sqlite, OtherTarget}
    ensures ReadText(target, CellText(Quoted(s))) == Some(s)
  {
    LiteralIs(s);
    hide Literal, Escape;
    assert ("'" + Escape(s) + "'")[0] == '\'';
  }

  /** A string comes back in every database, except that PostgreSQL rejects one with a NUL. */
  lemma TextReturnsIff(target: Target, s: string)
    ensures ReadText(target, CellText(TextCell(target, s))) == Some(s) <==> !(target == PostgreSql && NUL in s)
  {
    hide Literal, Escape, EvalTerms, EvalConcat, EvalUniStr, PgLiteral, ConcatArgs, UniText;
    if s == "" {
      EmptyIs(target);
    } else {
      match target
      case PostgreSql => PgRoundTripIff(s);
      case MySql => if HasControl(s) { ConcatRoundTripIff(false, s); } else { QuotedIs(MySql, s); }
      case Sqlite => if HasControl(s) { UniStrRoundTrip(s); UniStart(s); } else { QuotedIs(Sqlite, s); }
      case Oracle => ConcatRoundTripIff(false, s);
      case Dameng => ConcatRoundTripIff(false, s);
      case MsSql =>
        LiteralIs(s);
        assert ("N" + ("'" + Escape(s) + "'"))[1..] == "'" + Escape(s) + "'";
      case OtherTarget => QuotedIs(OtherTarget, s);
    }
  }

  lemma UniStart(s: string)
    ensures "unistr(" <= UniStr(s)
  {
    hide UniText;
    assert UniStr(s) == "unistr(" + ("'" + UniText(s) + "')");
  }

  /** Bytes come back in every database. */
  lemma BlobReturns(target: Target, s: Octets)
    ensures ReadBlob(target, CellText(BlobCell(target, s))) == Some(s)
  {
    hide ReadText, Within, HexPairs;
    if s == "" {
      EmptyIs(target);
    } else {
      match target
      case PostgreSql => BytesReadBack(Bytea, s, "'\\x", "'");
      case Sqlite => BytesReadBack(Xquote, s, "X'", "'");
      case Oracle => BytesReadBack(HexToRaw, s, "HEXTORAW('", "')");
      case Dameng => BytesReadBack(HexToRaw, s, "HEXTORAW('", "')");
      case MsSql => BytesReadBack(Convert, s, "CONVERT(VARBINARY(MAX), '0x", "', 1)");
      case _ => TextReturnsIff(target, s); EmptyIs(target);
    }
  }

  lemma BooleanReturns(target: Target, b: bool)
    ensures ReadBool(target, FormatBool(b, target)) == Some(b) && Flat(FormatBool(b, target))
  {}

  /** Whether the target accepts and keeps a value: booleans parse, and PostgreSQL's text has no NUL. */
  predicate Kept(target: Target, f: Field) {
    match f
    case Boolean(s) => ParseBool(s).Some?
    case Text(s) => !(target == PostgreSql && NUL in s)
    case _ => true
  }

  predicate FlatNumber(f: Field) { f.Number? ==> Flat(f.text) }

  /** A value is written unless it is a boolean that does not parse, and what is written means it
      exactly if it is kept. */
  lemma CellMeansIff(target: Target, f: Field)
    requires FlatNumber(f)
    ensures CellOf(target, f).None? <==> f.Boolean? && ParseBool(f.text).None?
    ensures CellOf(target, f).Some? ==> Readable(CellOf(target, f).value)
    ensures CellOf(target, f).Some? ==> (Means(target, CellText(CellOf(target, f).value), f) <==> Kept(target, f))
  {
    hide CellText, ReadText, ReadBlob, FormatBool, ReadBool, ParseBool;
    match f
    case Missing => assert CellText(Null) == "NULL" by { NullIs(); }
    case Boolean(s) => if ParseBool(s).Some? { BooleanReturns(target, ParseBool(s).value); RawIs(FormatBool(ParseBool(s).value, target)); }
    case Number(s) => RawIs(s);
    case Text(s) => TextReturnsIff(target, s);
    case Blob(s) => BlobReturns(target, s);
  }

  lemma NullIs()
    ensures CellText(Null) == "NULL"
  {}

  lemma RawIs(s: string)
    ensures CellText(Raw(s)) == s
  {}

  lemma {:induction false} FieldsMeanIff(target: Target, fields: seq<Field>)
    requires forall f :: f in fields ==> FlatNumber(f)
    ensures CellsOf(target, fields).None? <==> exists f :: f in fields && f.Boolean? && ParseBool(f.text).None?
    ensures CellsOf(target, fields).Some? ==>
              var cells := CellsOf(target, fields).value;
              && |Texts(cells)| == |cells| == |fields|
              && (forall c :: c in cells ==> Readable(c))
              && (forall i :: 0 <= i < |fields| ==> (Means(target, Texts(cells)[i], fields[i]) <==> Kept(target, fields[i])))
    decreases |fields|
  {
    hide CellText, Means, Kept, Readable, ParseBool, CellOf;
    if fields != [] {
      var rest := fields[1..];
      assert fields[0] in fields && forall f :: f in rest ==> f in fields;
      assert forall f :: f in fields ==> f == fields[0] || f in rest;
      CellMeansIff(target, fields[0]);
      FieldsMeanIff(target, rest);
    }
  }

  /** The statement inserts into the table and columns one value for each field, in order, and each
      means its field to the target exactly if that is kept. */
  ghost predicate Inserts(target: Target, s: string, table: string, columns: string, fields: seq<Field>) {
    var read := ReadInsert(s);
    && read.Some? && read.value.0 == table && read.value.1 == columns && |read.value.2| == |fields|
    && (forall i :: 0 <= i < |fields| ==> (Means(target, read.value.2[i], fields[i]) <==> Kept(target, fields[i])))
  }

  /** A row is dumped unless a boolean of it does not parse, and the statement inserts it. */
  lemma RowReturns(target: Target, table: string, columns: string, fields: seq<Field>)
    requires Flat(table) && table != "" && '(' !in columns && ')' !in columns
    requires fields != [] && forall f :: f in fields ==> FlatNumber(f)
    ensures CellsOf(target, fields).None? <==> exists f :: f in fields && f.Boolean? && ParseBool(f.text).None?
    ensures CellsOf(target, fields).Some? ==>
              Inserts(target, RowText(table, columns, Row(CellsOf(target, fields).value)), table, columns, fields)
  {
    hide Means, Kept, Readable, RowText, ReadInsert, Texts, CellsOf;
    FieldsMeanIff(target, fields);
    if CellsOf(target, fields).Some? { InsertReadsBack(table, columns, Row(CellsOf(target, fields).value)); }
  }

  // ----- from the rows of a table to the statements of Import -----

  /** The rows as they are dumped, up to the first that cannot be. */
  function RowsOf(target: Target, rows: seq<seq<Field>>): Option<seq<Row>> {
    if rows == [] then Some([])
    else
      match (CellsOf(target, rows[0]), RowsOf(target, rows[1..]))
      case (Some(cells), Some(more)) => Some([Row(cells)] + more)
      case _ => None
  }

  predicate Numeric(f: Field) { f.Number? ==> Flat(f.text) && RawText(f.text) }

  lemma {:induction false} CellsGood(target: Target, fields: seq<Field>)
    requires CellsOf(target, fields).Some? && forall f :: f in fields ==> Numeric(f)
    ensures GoodRow(Row(CellsOf(target, fields).value))
    decreases |fields|
  {
    hide TextCell, BlobCell, ParseBool, RawText;
    if fields != [] {
      assert fields[0] in fields && forall f :: f in fields[1..] ==> f in fields;
      if fields[0].Boolean? { FormatTame(target, ParseBool(fields[0].text).value); }
      TextNotRaw(target, fields[0]);
      CellsGood(target, fields[1..]);
    }
  }

  lemma FormatTame(target: Target, b: bool)
    ensures RawText(FormatBool(b, target))
  {}

  lemma TextNotRaw(target: Target, f: Field)
    ensures f.Text? ==> !TextCell(target, f.v).Raw?
    ensures f.Blob? ==> !BlobCell(target, f.bytes).Raw?
  {}

  lemma {:induction false} RowsGood(target: Target, table: string, columns: string, rows: seq<seq<Field>>)
    requires RowsOf(target, rows).Some?
    requires forall fields :: fields in rows ==> fields != [] && forall f :: f in fields ==> Numeric(f)
    requires Flat(table) && table != "" && '(' !in columns && ')' !in columns
    ensures
      var dumped := RowsOf(target, rows).value;
      && (forall r :: r in dumped ==> GoodRow(r)) && |RowTexts(table, columns, dumped)| == |dumped| == |rows|
      && (forall i :: 0 <= i < |rows| ==> Inserts(target, RowTexts(table, columns, dumped)[i], table, columns, rows[i]))
    decreases |rows|
  {
    hide Inserts, GoodRow, CellsOf, RowText, RawText, Flat;
    if rows != [] {
      assert rows[0] in rows && forall fields :: fields in rows[1..] ==> fields in rows;
      assert forall f :: f in rows[0] ==> Numeric(f) && FlatNumber(f);
      CellsGood(target, rows[0]);
      RowReturns(target, table, columns, rows[0]);
      RowsGood(target, table, columns, rows[1..]);
    }
  }

  /** Dump and Import together: the statements that Import sends for the rows of a table are one
      INSERT for each row, in order, each of which inserts its row. */
  lemma DumpReturns(target: Target, table: string, columns: string, rows: seq<seq<Field>>, chunks: seq<string>, late: bool)
    requires PlainName(table) && PlainName(columns) && Flat(table) && table != "" && '(' !in columns && ')' !in columns
    requires RowsOf(target, rows).Some?
    requires forall fields :: fields in rows ==> fields != [] && forall f :: f in fields ==> Numeric(f)
    requires Split.Flat(chunks) == Script(table, columns, RowsOf(target, rows).value)
    ensures
      var sent := Split.Queries(Split.Feed("", false, chunks, late, false));
      |sent| == |rows| && forall i :: 0 <= i < |rows| ==> Inserts(target, sent[i], table, columns, rows[i])
  {
    RowsGood(target, table, columns, rows);
    hide Inserts, GoodRow, Script, RowTexts, Numeric;
    DumpSplitsBack(table, columns, RowsOf(target, rows).value, chunks, late);
  }
}
