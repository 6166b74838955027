/** The text of a column definition, and how SQLite's catalogue text is read back into a column; both on
    ASCII text. */
module SqliteColumn {
  import opened Utils
  import opened Values
  import opened Strings
  import opened Quoting

  // ----- splitting into fields -----

  /** unicode.IsSpace on ASCII. */
  predicate IsSpace(c: char) { c == ' ' || c == '\t' || c == '\n' || c == '\U{0B}' || c == '\U{0C}' || c == '\r' }

  /** Fields are separated by blanks outside single quotes; `cur` is the field being read. */
  function Fields(s: string, cur: string, quote: bool): seq<string>
    decreases |s|
  {
    if s == "" then (if cur == "" then [] else [cur])
    else if IsSpace(s[0]) && !quote then (if cur == "" then [] else [cur]) + Fields(s[1..], "", false)
    else Fields(s[1..], cur + [s[0]], if s[0] == '\'' then !quote else quote)
  }

  function TrimSpace(s: string): string
    decreases |s|
  {
    if s == "" then ""
    else if IsSpace(s[0]) then TrimSpace(s[1..])
    else if IsSpace(s[|s| - 1]) then TrimSpace(s[..|s| - 1])
    else s
  }

  method SplitColStr(given: string) returns (results: seq<string>)
    ensures results == Fields(TrimSpace(given), "", false)
  {
    var colStr := TrimSpace(given);
    results := [];
    var lastIdx := 0;
    var hasC, hasQuote := false, false;
    assert colStr[0..] == colStr;
    for i := 0 to |colStr|
      invariant hasC ==> lastIdx < i
      invariant i == |colStr| > 0 ==> results == Fields(colStr, "", false)
      invariant i < |colStr| || i == 0 ==>
        Fields(colStr, "", false) == results + Fields(colStr[i..], if hasC then colStr[lastIdx..i] else "", hasQuote)
    {
      hide Fields;
      var c := colStr[i];
      ghost var cur := if hasC then colStr[lastIdx..i] else "";
      assert colStr[i..][1..] == colStr[i + 1..];
      FieldsStep(colStr[i..], cur, hasQuote, results);
      if IsSpace(c) && !hasQuote {
        if hasC {
          results := results + [colStr[lastIdx..i]];
          hasC := false;
        }
      } else {
        if c == '\'' { hasQuote := !hasQuote; }
        if !hasC { lastIdx := i; }
        hasC := true;
        OneMore(colStr, lastIdx, i);
        if i == |colStr| - 1 {
          results := results + [colStr[lastIdx..i + 1]];
        }
      }
      if i == |colStr| - 1 { FieldsEnd(cur + [c], hasQuote); }
    }
    if colStr == "" { FieldsEnd("", false); }
  }

  lemma OneMore(s: string, a: nat, b: nat)
    requires a <= b < |s|
    ensures s[a..b + 1] == s[a..b] + [s[b]] && (a == b ==> s[a..b] == "")
  {}

  lemma FieldsStep(s: string, cur: string, quote: bool, before: seq<string>)
    requires s != ""
    ensures
      before + Fields(s, cur, quote) ==
      if IsSpace(s[0]) && !quote then (if cur == "" then before else before + [cur]) + Fields(s[1..], "", false)
      else before + Fields(s[1..], cur + [s[0]], if s[0] == '\'' then !quote else quote)
  {}

  lemma FieldsEnd(cur: string, quote: bool)
    ensures Fields("", cur, quote) == if cur == "" then [] else [cur]
    ensures Fields("", "", false) == []
  {}

  /** Reading on through the text meets no blank outside quotes; the quote flag at the end. */
  function Through(s: string, quote: bool): Option<bool> {
    if s == "" then Some(quote)
    else if IsSpace(s[0]) && !quote then None
    else Through(s[1..], if s[0] == '\'' then !quote else quote)
  }

  /** One field, whatever follows. */
  predicate OneField(s: string) { s != "" && Through(s, false) == Some(false) }

  lemma {:induction false} FieldsThrough(a: string, rest: string, cur: string, quote: bool)
    requires Through(a, quote).Some?
    ensures Fields(a + rest, cur, quote) == Fields(rest, cur + a, Through(a, quote).value)
    decreases |a|
  {
    if a == "" {
      assert a + rest == rest && cur + a == cur;
    } else {
      assert (a + rest)[0] == a[0] && (a + rest)[1..] == a[1..] + rest;
      FieldsThrough(a[1..], rest, cur + [a[0]], if a[0] == '\'' then !quote else quote);
      assert cur + [a[0]] + a[1..] == cur + a;
    }
  }

  /** The six ASCII characters that separate fields. */
  predicate Separator(c: char) { 9 <= c as nat <= 13 || c as nat == 32 }

  /** Without a quote, a field is text free of separators. */
  lemma {:induction false} BareFieldIff(w: string)
    requires '\'' !in w
    ensures OneField(w) <==> w != "" && forall c :: c in w ==> !Separator(c)
    decreases |w|
  {
    if w != "" {
      assert w[0] in w && forall c :: c in w[1..] ==> c in w;
      assert forall c :: c in w ==> c == w[0] || c in w[1..];
      if |w| > 1 { BareFieldIff(w[1..]); } else { assert w[1..] == "" && Through("", false) == Some(false); }
    }
  }

  /** A field and any separator: the field, then those of the rest. */
  lemma FieldThen(f: string, c: char, rest: string)
    requires OneField(f) && Separator(c)
    ensures Fields(f + [c] + rest, "", false) == [f] + Fields(rest, "", false)
    ensures Fields([c] + rest, "", false) == Fields(rest, "", false)
  {
    FieldsThrough(f, [c] + rest, "", false);
    assert f + [c] + rest == f + ([c] + rest) && "" + f == f && ([c] + rest)[1..] == rest;
  }

  function Spaced(fields: seq<string>): string {
    if fields == [] then "" else if |fields| == 1 then fields[0] else fields[0] + " " + Spaced(fields[1..])
  }

  /** Fields joined by blanks are split apart again. */
  lemma {:induction false} SplitSpaced(fields: seq<string>)
    requires forall f :: f in fields ==> OneField(f)
    ensures Fields(Spaced(fields), "", false) == fields
    decreases |fields|
  {
    if fields != [] {
      var f, more := fields[0], fields[1..];
      assert f in fields && forall x :: x in more ==> x in fields;
      assert "" + f == f;
      if more == [] {
        FieldsThrough(f, "", "", false);
        assert f + "" == f && fields == [f];
      } else {
        var rest := " " + Spaced(more);
        assert Spaced(fields) == f + rest && rest[1..] == Spaced(more);
        FieldsThrough(f, rest, "", false);
        SplitSpaced(more);
        assert [f] + more == fields;
      }
    }
  }

  lemma {:induction false} FieldEnds(s: string, quote: bool)
    requires Through(s, quote) == Some(false) && s != ""
    ensures !IsSpace(s[|s| - 1]) && (!quote ==> !IsSpace(s[0]))
    decreases |s|
  {
    var q := if s[0] == '\'' then !quote else quote;
    if |s| > 1 { FieldEnds(s[1..], q); } else { assert Through(s[1..], q) == Some(q); }
  }

  lemma {:induction false} SpacedEnds(fields: seq<string>)
    requires fields != [] && forall f :: f in fields ==> OneField(f)
    ensures
      var s := Spaced(fields);
      s != "" && !IsSpace(s[0]) && !IsSpace(s[|s| - 1])
    decreases |fields|
  {
    assert fields[0] in fields && forall f :: f in fields[1..] ==> f in fields;
    FieldEnds(fields[0], false);
    if |fields| > 1 { SpacedEnds(fields[1..]); }
  }

  // ----- columns -----

  /** What is printed of a column and read back. */
  datatype Column = Column(
    name: string,
    sqlType: string,
    collation: string,
    isPrimaryKey: bool,
    isAutoIncrement: bool,
    default: string,
    defaultIsEmpty: bool,
    nullable: bool)

  predicate AsText(t: string) {
    t in ["TIMESTAMPZ", "CHAR", "VARCHAR", "NVARCHAR", "TINYTEXT", "TEXT", "MEDIUMTEXT", "LONGTEXT", "JSON"]
  }

  predicate AsInteger(t: string) {
    t in ["BIT", "TINYINT", "UNSIGNED TINYINT", "SMALLINT", "UNSIGNED SMALLINT", "MEDIUMINT", "INT", "UNSIGNED INT",
          "BIGINT", "UNSIGNED BIGINT", "INTEGER"]
  }

  predicate AsBlob(t: string) { t in ["TINYBLOB", "BLOB", "MEDIUMBLOB", "LONGBLOB", "BYTEA", "BINARY", "VARBINARY"] }

  /** The type name SQLite gets. */
  function TypeName(t: string): string {
    if t == "BOOL" || t == "SERIAL" || t == "BIGSERIAL" then "INTEGER"
    else if t in ["DATE", "DATETIME", "TIMESTAMP", "TIME"] then "DATETIME"
    else if AsText(t) then "TEXT"
    else if AsInteger(t) then "INTEGER"
    else if t in ["FLOAT", "DOUBLE", "REAL"] then "REAL"
    else if t in ["DECIMAL", "NUMERIC"] then "NUMERIC"
    else if AsBlob(t) then "BLOB"
    else t
  }

  /** Asking for the type may change the column: boolean defaults become digits, and a serial
      column becomes an auto-incremented primary key. */
  function Typed(c: Column): Column {
    if c.sqlType == "BOOL" then
      c.(default := if c.default == "true" then "1" else if c.default == "false" then "0" else c.default)
    else if c.sqlType == "SERIAL" || c.sqlType == "BIGSERIAL" then
      c.(isPrimaryKey := true, isAutoIncrement := true, nullable := false)
    else c
  }

  function CollationWords(c: Column, supportCollation: bool): seq<string> {
    if supportCollation && c.collation != "" then ["COLLATE", c.collation] else []
  }

  function KeyWords(c: Column, includePrimaryKey: bool): seq<string> {
    if !includePrimaryKey || !c.isPrimaryKey then []
    else if c.isAutoIncrement then ["PRIMARY", "KEY", "AUTOINCREMENT"]
    else ["PRIMARY", "KEY"]
  }

  function DefaultWords(c: Column): seq<string> {
    if c.defaultIsEmpty then [] else ["DEFAULT", if c.default == "" then "''" else c.default]
  }

  function NullWords(c: Column): seq<string> { if c.nullable then ["NULL"] else ["NOT", "NULL"] }

  /** The words of the definition of a column whose type has been asked for. */
  function Words(q: Quoter, c: Column, includePrimaryKey: bool, supportCollation: bool): seq<string> {
    [Put(q, c.name), TypeName(c.sqlType)] + CollationWords(c, supportCollation) + KeyWords(c, includePrimaryKey)
    + DefaultWords(c) + NullWords(c)
  }

  /** A column object of the schema package. */
  class ColumnObject {
    var name: string
    var sqlType: string
    var collation: string
    var isPrimaryKey: bool
    var isAutoIncrement: bool
    var default: string
    var defaultIsEmpty: bool
    var nullable: bool

    function View(): Column
      reads this
    {
      Column(name, sqlType, collation, isPrimaryKey, isAutoIncrement, default, defaultIsEmpty, nullable)
    }

    /** new(schemas.Column) with the two flags parseString sets. */
    constructor ()
      ensures View() == Blank
    {
      name, sqlType, collation, default := "", "", "", "";
      isPrimaryKey, isAutoIncrement, defaultIsEmpty, nullable := false, false, true, true;
    }

    method SQLType() returns (t: string)
      modifies this
      ensures View() == Typed(old(View())) && t == TypeName(old(sqlType))
      ensures unchanged(this`name, this`sqlType, this`collation)
    {
      if sqlType == "BOOL" {
        if default == "true" { default := "1"; }
        else if default == "false" { default := "0"; }
      } else if sqlType == "SERIAL" || sqlType == "BIGSERIAL" {
        isPrimaryKey := true;
        isAutoIncrement := true;
        nullable := false;
      }
      t := TypeName(sqlType);
    }

    /** ColumnString for a column name that is one word. */
    method ColumnString(q: Quoter, includePrimaryKey: bool, supportCollation: bool) returns (bd: string)
      requires Name(q, name)
      modifies this
      ensures View() == Typed(old(View()))
      ensures bd == Spaced(Words(q, View(), includePrimaryKey, supportCollation))
    {
      hide Typed, TypeName, Quote, Put, Spaced;
      OneName(q, name);
      bd := Quote(q, name).value;
      bd := bd + " ";
      var t := SQLType();
      bd := bd + t;
      SpacedTwo(Put(q, name), t);
      ghost var c := View();
      ghost var words := [Put(q, name), t];
      if supportCollation && collation != "" {
        bd := bd + " COLLATE ";
        bd := bd + collation;
        AddTwo(words, "COLLATE", collation);
        assert " " + "COLLATE" + " " == " COLLATE ";
      }
      assert words + [] == words;
      words := words + CollationWords(c, supportCollation);
      bd := WriteKeys(words, bd, includePrimaryKey);
      words := words + KeyWords(c, includePrimaryKey);
      bd := WriteDefault(words, bd);
      words := words + DefaultWords(c);
      if nullable {
        bd := bd + " NULL";
        AddOne(words, "NULL");
      } else {
        AddNotNull(words);
        bd := bd + " NOT NULL";
      }
    }

    method WriteKeys(ghost words: seq<string>, before: string, includePrimaryKey: bool) returns (bd: string)
      requires words != [] && before == Spaced(words)
      ensures bd == Spaced(words + KeyWords(View(), includePrimaryKey))
    {
      bd := before;
      hide Spaced;
      if includePrimaryKey && isPrimaryKey {
        AddKeys(words);
        bd := bd + " PRIMARY KEY";
        if isAutoIncrement {
          bd := bd + " ";
          bd := bd + "AUTOINCREMENT";
          AddOne(words + ["PRIMARY", "KEY"], "AUTOINCREMENT");
          assert words + ["PRIMARY", "KEY"] + ["AUTOINCREMENT"] == words + ["PRIMARY", "KEY", "AUTOINCREMENT"];
          Join(before + " PRIMARY KEY", " ", "AUTOINCREMENT");
        }
      } else {
        assert words + [] == words;
      }
    }

    /** The part of ColumnString that writes the default. */
    method WriteDefault(ghost words: seq<string>, before: string) returns (bd: string)
      requires words != [] && before == Spaced(words)
      ensures bd == Spaced(words + DefaultWords(View()))
    {
      bd := before;
      if !defaultIsEmpty {
        bd := bd + " DEFAULT ";
        if default == "" { bd := bd + "''"; } else { bd := bd + default; }
        AddTwo(words, "DEFAULT", if default == "" then "''" else default);
      } else {
        assert words + [] == words;
      }
    }
  }

  const Blank := Column("", "", "", false, false, "", true, true)

  lemma SpacedTwo(a: string, b: string)
    ensures Spaced([a, b]) == a + " " + b
  {
    assert [a, b][1..] == [b];
  }

  lemma AddOne(words: seq<string>, w: string)
    requires words != []
    ensures words + [] == words && Spaced(words + [w]) == Spaced(words) + (" " + w)
  {
    SpacedAppend(words, w);
  }

  lemma AddTwo(words: seq<string>, v: string, w: string)
    requires words != []
    ensures Spaced(words + [v, w]) == Spaced(words) + (" " + v + " ") + w
  {
    SpacedAppend(words, v);
    SpacedAppend(words + [v], w);
    assert words + [v] + [w] == words + [v, w];
  }

  lemma AddKeys(words: seq<string>)
    requires words != []
    ensures Spaced(words + ["PRIMARY", "KEY"]) == Spaced(words) + " PRIMARY KEY"
  {
    AddTwo(words, "PRIMARY", "KEY");
    Join(Spaced(words), " PRIMARY ", "KEY");
    assert " " + "PRIMARY" + " " == " PRIMARY " && " PRIMARY " + "KEY" == " PRIMARY KEY";
  }

  lemma AddNotNull(words: seq<string>)
    requires words != []
    ensures Spaced(words + ["NOT", "NULL"]) == Spaced(words) + " NOT NULL"
  {
    AddTwo(words, "NOT", "NULL");
    Join(Spaced(words), " NOT ", "NULL");
    assert " " + "NOT" + " " == " NOT " && " NOT " + "NULL" == " NOT NULL";
  }

  lemma {:induction false} SpacedAppend(words: seq<string>, w: string)
    requires words != []
    ensures Spaced(words + [w]) == Spaced(words) + " " + w
    decreases |words|
  {
    if |words| == 1 {
      assert (words + [w])[1..] == [w];
    } else {
      assert (words + [w])[1..] == words[1..] + [w];
      SpacedAppend(words[1..], w);
    }
  }

  lemma OneName(q: Quoter, name: string)
    requires Name(q, name)
    ensures Quote(q, name) == Some(Put(q, name))
  {
    QuoteSolid(q, "", name, "");
    assert "" + name + "" == name && "" + Put(q, name) + "" == Put(q, name);
    QuoteNothing(q);
  }

  // ----- parseString -----

  function TrimSet(s: string): string
    decreases |s|
  {
    if s == "" then ""
    else if s[0] in "`[]'\"" then TrimSet(s[1..])
    else if s[|s| - 1] in "`[]'\"" then TrimSet(s[..|s| - 1])
    else s
  }

  /** One field's effect; None where a trailing DEFAULT makes the code panic. */
  function ParseField(fields: seq<string>, idx: nat, col: Column): Option<Column>
    requires idx < |fields|
  {
    var field := fields[idx];
    if idx == 0 then Some(col.(name := TrimSet(TrimSpace(field))))
    else if idx == 1 then Some(col.(sqlType := field))
    else if field == "PRIMARY" then Some(col.(isPrimaryKey := true))
    else if field == "AUTOINCREMENT" then Some(col.(isAutoIncrement := true))
    else if field == "NULL" then Some(col.(nullable := fields[idx - 1] != "NOT"))
    else if field == "DEFAULT" then
      if idx + 1 < |fields| then Some(col.(default := fields[idx + 1], defaultIsEmpty := false)) else None
    else Some(col)
  }

  function ParseFrom(fields: seq<string>, idx: nat, col: Column): Option<Column>
    requires idx <= |fields|
    decreases |fields| - idx
  {
    if idx == |fields| then Some(col)
    else
      match ParseField(fields, idx, col)
      case None => None
      case Some(next) => ParseFrom(fields, idx + 1, next)
  }

  function Parse(colStr: string): Option<Column> { ParseFrom(Fields(TrimSpace(colStr), "", false), 0, Blank) }

  method ParseString(colStr: string) returns (ok: bool, col: ColumnObject)
    ensures fresh(col)
    ensures if ok then Parse(colStr) == Some(col.View()) else Parse(colStr) == None
  {
    var fields := SplitColStr(colStr);
    col := new ColumnObject();
    for idx := 0 to |fields|
      invariant fresh(col)
      invariant ParseFrom(fields, 0, Blank) == ParseFrom(fields, idx, col.View())
    {
      var field := fields[idx];
      if idx == 0 {
        col.name := TrimSet(TrimSpace(field));
        continue;
      } else if idx == 1 {
        col.sqlType := field;
        continue;
      }
      if field == "PRIMARY" {
        col.isPrimaryKey := true;
      } else if field == "AUTOINCREMENT" {
        col.isAutoIncrement := true;
      } else if field == "NULL" {
        if fields[idx - 1] == "NOT" { col.nullable := false; } else { col.nullable := true; }
      } else if field == "DEFAULT" {
        if idx + 1 == |fields| { return false, col; }
        col.default := fields[idx + 1];
        col.defaultIsEmpty := false;
      }
    }
    return true, col;
  }

  // ----- the round trip -----

  /** A name without blanks, dots or quote marks. */
  predicate SimpleName(q: Quoter, name: string) {
    Name(q, name) && forall c :: c in name ==> !IsSpace(c) && c !in "`[]'\""
  }

  /** What can be read back: the type as printed, the keys as printed, the default as printed. */
  function Expected(c: Column, includePrimaryKey: bool): Column {
    Column(c.name, TypeName(c.sqlType), "",
           includePrimaryKey && c.isPrimaryKey, includePrimaryKey && c.isPrimaryKey && c.isAutoIncrement,
           PrintedDefault(c), c.defaultIsEmpty, c.nullable)
  }

  function PrintedDefault(c: Column): string {
    if c.defaultIsEmpty then "" else if c.default == "" then "''" else c.default
  }

  /** A bare default that reads like one of the parser's own words. */
  predicate Misread(c: Column, includePrimaryKey: bool) {
    var d := PrintedDefault(c);
    || (d == "PRIMARY" && !(includePrimaryKey && c.isPrimaryKey))
    || (d == "AUTOINCREMENT" && !(includePrimaryKey && c.isPrimaryKey && c.isAutoIncrement))
    || d == "DEFAULT"
    || (d == "NOT" && c.nullable)
  }

  predicate Keyword(s: string) { s in ["PRIMARY", "AUTOINCREMENT", "NULL", "DEFAULT", "NOT"] }

  /** Every part of the definition is one field, and no keyword stands where it is not meant. */
  predicate Plain(q: Quoter, c: Column) {
    && SimpleName(q, c.name)
    && OneField(TypeName(c.sqlType)) && TypeName(c.sqlType) != "NOT"
    && (c.collation != "" ==> OneField(c.collation) && !Keyword(c.collation))
    && (!c.defaultIsEmpty && c.default != "" ==> OneField(c.default))
  }

  lemma {:induction false} ThroughPlain(s: string)
    requires forall c :: c in s ==> !IsSpace(c) && c != '\''
    ensures Through(s, false) == Some(false)
    decreases |s|
  {
    if s != "" {
      assert s[0] in s && forall c :: c in s[1..] ==> c in s;
      ThroughPlain(s[1..]);
    }
  }

  lemma {:induction false} TrimSetTwice(marks: string, s: string, more: string)
    requires (forall c :: c in marks ==> c in "`[]'\"") && (forall c :: c in more ==> c in "`[]'\"")
    requires forall c :: c in s ==> c !in "`[]'\""
    requires s != ""
    ensures TrimSet(marks + s + more) == s
    decreases |marks| + |more|
  {
    var t := marks + s + more;
    assert s[0] in s && s[|s| - 1] in s;
    if marks != "" {
      assert t[0] == marks[0] && marks[0] in marks && t[1..] == marks[1..] + s + more;
      assert forall c :: c in marks[1..] ==> c in marks;
      TrimSetTwice(marks[1..], s, more);
    } else if more != "" {
      var n := |more| - 1;
      assert t[|t| - 1] == more[n] && more[n] in more && t[..|t| - 1] == marks + s + more[..n];
      assert t[0] == s[0];
      assert forall c :: c in more[..n] ==> c in more;
      TrimSetTwice(marks, s, more[..n]);
    } else {
      assert t == s;
    }
  }

  /** The dialect's marks around a name are among those that are trimmed. */
  predicate TrimmedMarks(q: Quoter) {
    q.IsEmpty() || (q.prefix in "`[]\"" && q.suffix in "`[]\"")
  }

  lemma NameField(q: Quoter, name: string)
    requires SimpleName(q, name) && TrimmedMarks(q)
    ensures OneField(Put(q, name)) && TrimSet(TrimSpace(Put(q, name))) == name
  {
    var p := Put(q, name);
    assert forall c :: c in p ==> c in name || c == q.prefix || c == q.suffix;
    ThroughPlain(p);
    assert p[0] in p && p[|p| - 1] in p;
    if p == name {
      TrimSetTwice("", name, "");
      assert "" + name + "" == name;
    } else {
      TrimSetTwice([q.prefix], name, [q.suffix]);
    }
  }

  lemma Capitals(s: string)
    requires s != "" && forall i :: 0 <= i < |s| ==> 'A' <= s[i] <= 'Z'
    ensures OneField(s)
  {
    ThroughPlain(s);
  }

  lemma FixedFields()
    ensures OneField("COLLATE") && OneField("PRIMARY") && OneField("KEY") && OneField("AUTOINCREMENT")
    ensures OneField("DEFAULT") && OneField("NOT") && OneField("NULL") && OneField("''")
  {
    hide OneField;
    Capitals("COLLATE");
    Capitals("PRIMARY");
    Capitals("KEY");
    Capitals("AUTOINCREMENT");
    Capitals("DEFAULT");
    Capitals("NOT");
    Capitals("NULL");
    EmptyLiteral();
  }

  lemma EmptyLiteral()
    ensures OneField("''")
  {
    assert "''"[1..] == "'" && "'"[1..] == "";
    assert Through("'", true) == Some(false);
  }

  lemma WordsAreFields(q: Quoter, c: Column, includePrimaryKey: bool, supportCollation: bool)
    requires Plain(q, c) && TrimmedMarks(q)
    ensures forall w :: w in Words(q, c, includePrimaryKey, supportCollation) ==> OneField(w)
  {
    NameField(q, c.name);
    SegmentsAreFields(q, c, includePrimaryKey, supportCollation);
    hide OneField, CollationWords, KeyWords, DefaultWords, NullWords;
    var head := [Put(q, c.name), TypeName(c.sqlType)];
    assert AllFields(head);
  }

  lemma SegmentsAreFields(q: Quoter, c: Column, includePrimaryKey: bool, supportCollation: bool)
    requires Plain(q, c)
    ensures AllFields(CollationWords(c, supportCollation)) && AllFields(KeyWords(c, includePrimaryKey))
    ensures AllFields(DefaultWords(c)) && AllFields(NullWords(c)) && OneField(TypeName(c.sqlType))
  {
    FixedFields();
    hide OneField, TypeName, SimpleName, Keyword;
  }

  predicate AllFields(words: seq<string>) { forall w :: w in words ==> OneField(w) }

  lemma ParseStep(fields: seq<string>, idx: nat, col: Column)
    requires idx < |fields| && ParseField(fields, idx, col).Some?
    ensures ParseFrom(fields, idx, col) == ParseFrom(fields, idx + 1, ParseField(fields, idx, col).value)
  {}

  /** Through name, type and collation. */
  lemma ParseHead(q: Quoter, c: Column, fields: seq<string>, n: nat)
    requires Plain(q, c) && TrimmedMarks(q) && 2 <= |fields|
    requires fields[0] == Put(q, c.name) && fields[1] == TypeName(c.sqlType)
    requires n == 2 || (n == 4 <= |fields| && c.collation != "" && fields[2] == "COLLATE" && fields[3] == c.collation)
    ensures ParseFrom(fields, 0, Blank) == ParseFrom(fields, n, Blank.(name := c.name, sqlType := TypeName(c.sqlType)))
  {
    NameField(q, c.name);
    hide ParseFrom, TypeName, Put, TrimSet, TrimSpace, OneField, SimpleName;
    var one := Blank.(name := c.name);
    var two := one.(sqlType := TypeName(c.sqlType));
    ParseStep(fields, 0, Blank);
    ParseStep(fields, 1, one);
    if n == 4 {
      ParseStep(fields, 2, two);
      ParseStep(fields, 3, two);
    }
  }

  /** Through the key words. */
  lemma ParseKeys(fields: seq<string>, i: nat, n: nat, auto: bool, col: Column)
    requires 2 <= i <= n <= |fields| && !col.isPrimaryKey && !col.isAutoIncrement
    requires n == i || (n == (if auto then i + 3 else i + 2) && fields[i] == "PRIMARY" && fields[i + 1] == "KEY"
                        && (auto ==> fields[i + 2] == "AUTOINCREMENT"))
    ensures ParseFrom(fields, i, col) == ParseFrom(fields, n, col.(isPrimaryKey := n > i, isAutoIncrement := n > i && auto))
  {
    if n > i {
      hide ParseFrom;
      ParseStep(fields, i, col);
      var keyed := col.(isPrimaryKey := true);
      ParseStep(fields, i + 1, keyed);
      if auto { ParseStep(fields, i + 2, keyed); }
    }
  }

  /** What the parser makes of a default in column `col`; `rest` follows it. */
  function WithDefault(col: Column, d: string, rest: string): Column {
    var c := col.(default := d, defaultIsEmpty := false);
    if d == "PRIMARY" then c.(isPrimaryKey := true)
    else if d == "AUTOINCREMENT" then c.(isAutoIncrement := true)
    else if d == "NULL" then c.(nullable := true)
    else if d == "DEFAULT" then c.(default := rest)
    else c
  }

  lemma ParseDefault(fields: seq<string>, i: nat, col: Column)
    requires 2 <= i && i + 2 < |fields| && fields[i] == "DEFAULT"
    ensures ParseFrom(fields, i, col) == ParseFrom(fields, i + 2, WithDefault(col, fields[i + 1], fields[i + 2]))
  {
    hide ParseFrom;
    ParseStep(fields, i, col);
    ParseStep(fields, i + 1, col.(default := fields[i + 1], defaultIsEmpty := false));
  }

  /** The closing NULL or NOT NULL. */
  lemma ParseNull(fields: seq<string>, i: nat, nullable: bool, col: Column)
    requires 2 <= i && |fields| == (if nullable then i + 1 else i + 2) && fields[|fields| - 1] == "NULL"
    requires !nullable ==> fields[i] == "NOT"
    ensures ParseFrom(fields, i, col) == Some(col.(nullable := nullable && fields[i - 1] != "NOT"))
  {
    if nullable {
      assert ParseFrom(fields, i + 1, col.(nullable := fields[i - 1] != "NOT")) == Some(col.(nullable := fields[i - 1] != "NOT"));
    } else {
      assert ParseFrom(fields, i + 1, col) == ParseFrom(fields, i + 2, col.(nullable := false));
    }
  }

  /** The fields of the definition, by position. */
  lemma WordsAt(q: Quoter, c: Column, includePrimaryKey: bool, supportCollation: bool)
    returns (a: nat, b: nat, d: nat)
    ensures
      var fields := Words(q, c, includePrimaryKey, supportCollation);
      var keys := includePrimaryKey && c.isPrimaryKey;
      && a == (if supportCollation && c.collation != "" then 4 else 2)
      && b == a + (if !keys then 0 else if c.isAutoIncrement then 3 else 2)
      && d == b + (if c.defaultIsEmpty then 0 else 2)
      && |fields| == d + (if c.nullable then 1 else 2)
      && fields[0] == Put(q, c.name) && fields[1] == TypeName(c.sqlType)
      && (a == 4 ==> fields[2] == "COLLATE" && fields[3] == c.collation)
      && (keys ==> fields[a] == "PRIMARY" && fields[a + 1] == "KEY" && (c.isAutoIncrement ==> fields[a + 2] == "AUTOINCREMENT"))
      && (!c.defaultIsEmpty ==> fields[b] == "DEFAULT" && fields[b + 1] == PrintedDefault(c))
      && fields[|fields| - 1] == "NULL" && fields[d] == (if c.nullable then "NULL" else "NOT")
  {
    hide TypeName, Put;
    var keys := includePrimaryKey && c.isPrimaryKey;
    a := if supportCollation && c.collation != "" then 4 else 2;
    b := a + (if !keys then 0 else if c.isAutoIncrement then 3 else 2);
    d := b + (if c.defaultIsEmpty then 0 else 2);
  }

  /** What parseString makes of the fields ColumnString prints. */
  lemma ParseWords(q: Quoter, c: Column, includePrimaryKey: bool, supportCollation: bool)
    requires Plain(q, c) && TrimmedMarks(q)
    ensures
      var r := ParseFrom(Words(q, c, includePrimaryKey, supportCollation), 0, Blank);
      && r.Some? && (r.value == Expected(c, includePrimaryKey) <==> !Misread(c, includePrimaryKey))
  {
    var fields := Words(q, c, includePrimaryKey, supportCollation);
    var a, b, d := WordsAt(q, c, includePrimaryKey, supportCollation);
    ParseHead(q, c, fields, a);
    var head := Blank.(name := c.name, sqlType := TypeName(c.sqlType));
    ParseKeys(fields, a, b, c.isAutoIncrement, head);
    var keyed := head.(isPrimaryKey := b > a, isAutoIncrement := b > a && c.isAutoIncrement);
    hide Words, ParseFrom, TypeName, OneField, SimpleName, Put;
    if !c.defaultIsEmpty {
      ParseDefault(fields, b, keyed);
      ParseNull(fields, d, c.nullable, WithDefault(keyed, fields[b + 1], fields[b + 2]));
      DefaultRead(c, includePrimaryKey, fields[b + 2]);
    } else {
      LastIsNotNot(q, c, fields, a, b);
      ParseNull(fields, d, c.nullable, keyed);
      NotMisread(c, includePrimaryKey);
    }
  }

  lemma DefaultRead(c: Column, includePrimaryKey: bool, next: string)
    requires !c.defaultIsEmpty && next == (if c.nullable then "NULL" else "NOT")
    ensures
      var keys := includePrimaryKey && c.isPrimaryKey;
      var keyed := Blank.(name := c.name, sqlType := TypeName(c.sqlType),
                          isPrimaryKey := keys, isAutoIncrement := keys && c.isAutoIncrement);
      var d := PrintedDefault(c);
      var read := WithDefault(keyed, d, next).(nullable := c.nullable && d != "NOT");
      read == Expected(c, includePrimaryKey) <==> !Misread(c, includePrimaryKey)
  {
    hide TypeName;
  }

  lemma NotMisread(c: Column, includePrimaryKey: bool)
    requires c.defaultIsEmpty
    ensures !Misread(c, includePrimaryKey)
  {}

  /** Without a default, the word before NULL is not NOT. */
  lemma LastIsNotNot(q: Quoter, c: Column, fields: seq<string>, a: nat, b: nat)
    requires Plain(q, c) && 2 <= a <= b < |fields| && fields[1] == TypeName(c.sqlType)
    requires a == 2 || (a == 4 && c.collation != "" && fields[3] == c.collation)
    requires b == a || (b == a + 2 && fields[a + 1] == "KEY") || (b == a + 3 && fields[a + 2] == "AUTOINCREMENT")
    ensures fields[b - 1] != "NOT"
  {}

  /** Reading a printed definition gives the name, the printed type, the keys, the default and the
      nullability back, exactly unless the default is a bare word of the parser's own. */
  lemma ColumnRoundTripIff(q: Quoter, c: Column, includePrimaryKey: bool, supportCollation: bool)
    requires Plain(q, c) && TrimmedMarks(q)
    ensures
      var r := Parse(Spaced(Words(q, c, includePrimaryKey, supportCollation)));
      && r.Some? && (r.value == Expected(c, includePrimaryKey) <==> !Misread(c, includePrimaryKey))
  {
    var fields := Words(q, c, includePrimaryKey, supportCollation);
    WordsAreFields(q, c, includePrimaryKey, supportCollation);
    SpacedEnds(fields);
    SplitSpaced(fields);
    ParseWords(q, c, includePrimaryKey, supportCollation);
  }

  lemma {:induction false} ThroughQuotes(s: string)
    requires Paired(s)
    ensures Through(s + "'", true) == Some(false)
    decreases |s|
  {
    var t := s + "'";
    if s == "" {
      assert t[1..] == "";
    } else if s[0] == '\'' {
      assert t[1..][0] == '\'' && t[1..][1..] == s[2..] + "'";
      ThroughQuotes(s[2..]);
    } else {
      assert t[1..] == s[1..] + "'";
      ThroughQuotes(s[1..]);
    }
  }

  /** A quoted literal, blanks inside included, or a number is never misread. */
  lemma LiteralDefaultsReturn(q: Quoter, c: Column, includePrimaryKey: bool, supportCollation: bool, body: string)
    requires Plain(q, c.(default := "")) && TrimmedMarks(q) && !c.defaultIsEmpty
    requires (c.default == "'" + body + "'" && Paired(body))
          || (c.default != "" && forall x :: x in c.default ==> '0' <= x <= '9' || x == '.' || x == '-')
    ensures Parse(Spaced(Words(q, c, includePrimaryKey, supportCollation))) == Some(Expected(c, includePrimaryKey))
  {
    var d := c.default;
    if d == "'" + body + "'" && Paired(body) {
      assert d == "'" + (body + "'") && d[1..] == body + "'";
      ThroughQuotes(body);
      assert d[0] == '\'';
    } else {
      ThroughPlain(d);
      assert d[0] in d;
    }
    assert OneField(d);
    hide OneField;
    assert "PRIMARY"[0] == 'P' && "AUTOINCREMENT"[0] == 'A' && "DEFAULT"[0] == 'D' && "NOT"[0] == 'N';
    ColumnRoundTripIff(q, c, includePrimaryKey, supportCollation);
  }
}
