/** What a printed column means: its type against the kinds of types the other dialects and Go know,
    its default, its keys and its collation. */
module SqliteTypes {
  import opened Utils
  import opened Values
  import opened Strings
  import opened Quoting
  import opened SqliteColumn

  // ----- types -----

  datatype Category = Boolean | Time | Blob | Text | Numeric | Array | Unknown

  predicate IsTime(t: string) { t in ["DATE", "DATETIME", "TIME", "TIMESTAMP", "TIMESTAMPZ", "SMALLDATETIME", "YEAR"] }

  predicate IsBlob(t: string) {
    t in ["BINARY", "VARBINARY", "TINYBLOB", "BLOB", "MEDIUMBLOB", "LONGBLOB", "BYTEA", "UNIQUEIDENTIFIER"]
  }

  predicate IsText(t: string) {
    t in ["ENUM", "SET", "JSON", "JSONB", "XML", "CHAR", "NCHAR", "VARCHAR", "VARCHAR2", "NVARCHAR",
          "TINYTEXT", "TEXT", "NTEXT", "MEDIUMTEXT", "LONGTEXT", "UUID", "CLOB", "SYSNAME"]
  }

  predicate IsNumeric(t: string) {
    t in ["BIT", "UNSIGNED BIT", "TINYINT", "UNSIGNED TINYINT", "SMALLINT", "UNSIGNED SMALLINT", "MEDIUMINT",
          "UNSIGNED MEDIUMINT", "INT", "UNSIGNED INT", "INTEGER", "BIGINT", "UNSIGNED BIGINT", "NUMBER", "INT8",
          "DECIMAL", "UNSIGNED DECIMAL", "NUMERIC", "REAL", "FLOAT", "UNSIGNED FLOAT", "DOUBLE", "MONEY",
          "SMALLMONEY", "SERIAL", "BIGSERIAL"]
  }

  /** The table of all types (schemas/type.go). */
  function CategoryOf(t: string): Category {
    if t == "BOOL" || t == "BOOLEAN" then Boolean
    else if IsTime(t) then Time
    else if IsBlob(t) then Blob
    else if IsText(t) then Text
    else if IsNumeric(t) then Numeric
    else if t == "ARRAY" then Array
    else Unknown
  }

  datatype GoKind = Flag | Moment | Bytes | Float | Whole | Str

  /** The kind of Go type for a column of this type, its width aside (`SQLType2Type`). */
  function GoKindOf(t: string): GoKind {
    if t == "BOOL" then Flag
    else if t in ["DATETIME", "DATE", "TIME", "TIMESTAMP", "TIMESTAMPZ", "SMALLDATETIME", "YEAR"] then Moment
    else if t in ["TINYBLOB", "BLOB", "LONGBLOB", "BYTEA", "BINARY", "MEDIUMBLOB", "VARBINARY", "UNIQUEIDENTIFIER"] then Bytes
    else if t in ["FLOAT", "REAL", "DOUBLE"] then Float
    else if t in ["BIT", "TINYINT", "SMALLINT", "MEDIUMINT", "INT", "INTEGER", "SERIAL", "BIGINT", "BIGSERIAL", "UNSIGNED BIT",
                  "UNSIGNED TINYINT", "UNSIGNED SMALLINT", "UNSIGNED MEDIUMINT", "UNSIGNED INT", "UNSIGNED BIGINT"] then Whole
    else Str
  }

  predicate Times(t: string) { t in ["DATE", "DATETIME", "TIMESTAMP", "TIME"] }

  predicate Texts(t: string) {
    t in ["CHAR", "VARCHAR", "NVARCHAR", "TINYTEXT", "TEXT", "MEDIUMTEXT", "LONGTEXT", "JSON"]
  }

  predicate Small(t: string) { t in ["BIT", "TINYINT", "SMALLINT", "MEDIUMINT"] }

  predicate Large(t: string) { t in ["INT", "BIGINT", "INTEGER"] }

  predicate Unsigned(t: string) { t in ["UNSIGNED TINYINT", "UNSIGNED SMALLINT", "UNSIGNED INT", "UNSIGNED BIGINT"] }

  predicate Serials(t: string) { t == "SERIAL" || t == "BIGSERIAL" }

  predicate Wholes(t: string) { Small(t) || Large(t) || Unsigned(t) || Serials(t) }

  predicate Floats(t: string) { t in ["FLOAT", "DOUBLE", "REAL"] }

  predicate Decimals(t: string) { t in ["DECIMAL", "NUMERIC"] }

  predicate Blobs(t: string) { t in ["TINYBLOB", "BLOB", "MEDIUMBLOB", "LONGBLOB", "BYTEA", "BINARY", "VARBINARY"] }

  lemma TimeTypes(t: string)
    requires Times(t)
    ensures TypeName(t) == "DATETIME" && CategoryOf(t) == Time && GoKindOf(t) == Moment
  {}

  lemma TextNames(t: string)
    requires Texts(t)
    ensures TypeName(t) == "TEXT"
  {}

  lemma TextTypes(t: string)
    requires Texts(t)
    ensures CategoryOf(t) == Text
  {}

  lemma TextValues(t: string)
    requires Texts(t)
    ensures GoKindOf(t) == Str
  {}

  lemma WholeNames(t: string)
    requires Wholes(t)
    ensures TypeName(t) == "INTEGER"
  {
    WholesAreIntegers(t);
    WholesAreNoTexts(t);
    hide AsInteger, AsText;
  }

  lemma WholesAreNoTexts(t: string)
    requires Wholes(t)
    ensures !AsText(t)
  {}

  lemma WholesAreIntegers(t: string)
    requires Wholes(t)
    ensures Serials(t) || AsInteger(t)
  {}

  lemma SmallTypes(t: string)
    requires Small(t)
    ensures CategoryOf(t) == Numeric
  {
    SmallIsNoText(t);
    hide IsText;
  }

  lemma SmallIsNoText(t: string)
    requires Small(t)
    ensures !IsText(t)
  {}

  lemma SmallValues(t: string)
    requires Small(t)
    ensures GoKindOf(t) == Whole
  {}

  lemma LargeTypes(t: string)
    requires Large(t)
    ensures CategoryOf(t) == Numeric
  {
    LargeIsNoText(t);
    hide IsText;
  }

  lemma LargeIsNoText(t: string)
    requires Large(t)
    ensures !IsText(t)
  {}

  lemma LargeValues(t: string)
    requires Large(t)
    ensures GoKindOf(t) == Whole
  {}

  lemma UnsignedTypes(t: string)
    requires Unsigned(t)
    ensures CategoryOf(t) == Numeric
  {
    UnsignedIsNoText(t);
    hide IsText;
  }

  lemma UnsignedIsNoText(t: string)
    requires Unsigned(t)
    ensures !IsText(t)
  {}

  lemma UnsignedValues(t: string)
    requires Unsigned(t)
    ensures GoKindOf(t) == Whole
  {}

  lemma SerialsTypes(t: string)
    requires Serials(t)
    ensures CategoryOf(t) == Numeric
  {
    SerialsIsNoText(t);
    hide IsText;
  }

  lemma SerialsIsNoText(t: string)
    requires Serials(t)
    ensures !IsText(t)
  {}

  lemma SerialsValues(t: string)
    requires Serials(t)
    ensures GoKindOf(t) == Whole
  {}

  lemma WholeTypes(t: string)
    requires Wholes(t)
    ensures CategoryOf(t) == Numeric && GoKindOf(t) == Whole
  {
    hide CategoryOf, GoKindOf, Small, Large, Unsigned, Serials;
    if Small(t) { SmallTypes(t); SmallValues(t); }
    if Large(t) { LargeTypes(t); LargeValues(t); }
    if Unsigned(t) { UnsignedTypes(t); UnsignedValues(t); }
    if Serials(t) { SerialsTypes(t); SerialsValues(t); }
  }

  lemma FloatNames(t: string)
    requires Floats(t)
    ensures TypeName(t) == "REAL"
  {}

  lemma FloatTypes(t: string)
    requires Floats(t)
    ensures CategoryOf(t) == Numeric
  {
    FloatsAreNoTexts(t);
    hide IsText;
  }

  lemma FloatsAreNoTexts(t: string)
    requires Floats(t)
    ensures !IsText(t)
  {}

  lemma FloatValues(t: string)
    requires Floats(t)
    ensures GoKindOf(t) == Float
  {}

  lemma DecimalNames(t: string)
    requires Decimals(t)
    ensures TypeName(t) == "NUMERIC"
  {}

  lemma DecimalTypes(t: string)
    requires Decimals(t)
    ensures CategoryOf(t) == Numeric
  {
    DecimalsAreNoTexts(t);
    hide IsText;
  }

  lemma DecimalsAreNoTexts(t: string)
    requires Decimals(t)
    ensures !IsText(t)
  {}

  lemma DecimalValues(t: string)
    requires Decimals(t)
    ensures GoKindOf(t) == Str
  {}

  lemma BlobNames(t: string)
    requires Blobs(t)
    ensures TypeName(t) == "BLOB"
  {
    BlobsAreNoWholes(t);
    BlobsAreNoTexts(t);
    hide AsInteger, AsText;
  }

  lemma BlobsAreNoTexts(t: string)
    requires Blobs(t)
    ensures !AsText(t)
  {}

  lemma BlobsAreNoWholes(t: string)
    requires Blobs(t)
    ensures !AsInteger(t)
  {}

  lemma BlobTypes(t: string)
    requires Blobs(t)
    ensures CategoryOf(t) == Blob && GoKindOf(t) == Bytes
  {}

  lemma ZonedTimes()
    ensures TypeName("TIMESTAMPZ") == "TEXT" && CategoryOf("TIMESTAMPZ") == Time && GoKindOf("TIMESTAMPZ") == Moment
  {}

  lemma Booleans()
    ensures TypeName("BOOL") == "INTEGER" && CategoryOf("BOOL") == Boolean && GoKindOf("BOOL") == Flag
  {}

  /** Every other type is printed as itself. */
  lemma NamedTypes(t: string)
    ensures
      || t == "BOOL" || t == "TIMESTAMPZ" || Times(t) || Texts(t) || Wholes(t) || Floats(t) || Decimals(t)
      || Blobs(t) || TypeName(t) == t
  {}

  /** The type every type gets. */
  lemma TypeNamed(t: string)
    ensures Times(t) ==> TypeName(t) == "DATETIME"
    ensures Texts(t) || t == "TIMESTAMPZ" ==> TypeName(t) == "TEXT"
    ensures Wholes(t) || t == "BOOL" ==> TypeName(t) == "INTEGER"
    ensures Floats(t) ==> TypeName(t) == "REAL"
    ensures Decimals(t) ==> TypeName(t) == "NUMERIC"
    ensures Blobs(t) ==> TypeName(t) == "BLOB"
    ensures
      || t == "BOOL" || t == "TIMESTAMPZ" || Times(t) || Texts(t) || Wholes(t) || Floats(t) || Decimals(t)
      || Blobs(t) || TypeName(t) == t
  {
    NamedTypes(t);
    ZonedTimes();
    Booleans();
    hide TypeName, Times, Texts, Wholes, Floats, Decimals, Blobs;
    if Times(t) { TimeTypes(t); }
    if Texts(t) { TextNames(t); }
    if Wholes(t) { WholeNames(t); }
    if Floats(t) { FloatNames(t); }
    if Decimals(t) { DecimalNames(t); }
    if Blobs(t) { BlobNames(t); }
  }

  /** A type keeps its category and its kind of Go value in SQLite, except for booleans, which become
      whole numbers, and times with a zone, which become text. */
  lemma TypeKeptIff(t: string)
    ensures CategoryOf(TypeName(t)) == CategoryOf(t) <==> t != "BOOL" && t != "TIMESTAMPZ"
    ensures GoKindOf(TypeName(t)) == GoKindOf(t) <==> t != "BOOL" && t != "TIMESTAMPZ"
    ensures TypeName("BOOL") == "INTEGER" && TypeName("TIMESTAMPZ") == "TEXT"
  {
    KindsOfNames();
    ZonedTimes();
    Booleans();
    NamedTypes(t);
    hide TypeName, CategoryOf, GoKindOf, Times, Texts, Wholes, Floats, Decimals, Blobs;
    if Times(t) { TimeTypes(t); }
    if Texts(t) { TextNames(t); TextTypes(t); TextValues(t); }
    if Wholes(t) { WholeNames(t); WholeTypes(t); }
    if Floats(t) { FloatNames(t); FloatTypes(t); FloatValues(t); }
    if Decimals(t) { DecimalNames(t); DecimalTypes(t); DecimalValues(t); }
    if Blobs(t) { BlobNames(t); BlobTypes(t); }
  }

  /** The six types that SQLite is given. */
  lemma KindsOfNames()
    ensures CategoryOf("DATETIME") == Time && GoKindOf("DATETIME") == Moment
    ensures CategoryOf("TEXT") == Text && GoKindOf("TEXT") == Str
    ensures CategoryOf("INTEGER") == Numeric && GoKindOf("INTEGER") == Whole
    ensures CategoryOf("REAL") == Numeric && GoKindOf("REAL") == Float
    ensures CategoryOf("NUMERIC") == Numeric && GoKindOf("NUMERIC") == Str
    ensures CategoryOf("BLOB") == Blob && GoKindOf("BLOB") == Bytes
  {
    hide CategoryOf, GoKindOf, TypeName;
    TimeTypes("DATETIME");
    TextTypes("TEXT");
    TextValues("TEXT");
    WholeTypes("INTEGER");
    FloatTypes("REAL");
    FloatValues("REAL");
    DecimalTypes("NUMERIC");
    DecimalValues("NUMERIC");
    BlobTypes("BLOB");
  }

  /** A printed type is printed as itself. */
  lemma TypeSettles(t: string)
    ensures TypeName(TypeName(t)) == TypeName(t)
  {
    NamedTypes(t);
    ZonedTimes();
    Booleans();
    if Times(t) { TimeTypes(t); }
    if Texts(t) { TextNames(t); }
    if Wholes(t) { WholeNames(t); }
    if Floats(t) { FloatNames(t); }
    if Decimals(t) { DecimalNames(t); }
    if Blobs(t) { BlobNames(t); }
    hide TypeName;
    TimeTypes("DATETIME");
    TextNames("TEXT");
    WholeNames("INTEGER");
    FloatNames("REAL");
    DecimalNames("NUMERIC");
    BlobNames("BLOB");
  }

  // ----- defaults -----

  /** A boolean default keeps its truth and loses the two words that SQLite would read as names; the
      default of another type stays. */
  lemma DefaultKept(c: Column)
    ensures
      var d := Typed(c).default;
      && (c.sqlType == "BOOL" ==> ParseBool(d) == ParseBool(c.default) && d != "true" && d != "false")
      && (c.sqlType != "BOOL" || (c.default != "true" && c.default != "false") ==> d == c.default)
      && (c.sqlType == "BOOL" && c.default in ["true", "false"] ==> d in ["1", "0"])
      && Typed(c).defaultIsEmpty == c.defaultIsEmpty
  {}

  // ----- keys -----

  /** A serial column is printed as an auto-incremented primary key that is not null; any other column
      with the keys and the nullability it has. */
  lemma SerialIsKey(c: Column)
    ensures
      var t, serial := Typed(c), c.sqlType == "SERIAL" || c.sqlType == "BIGSERIAL";
      && (t.isPrimaryKey <==> serial || c.isPrimaryKey) && (t.isAutoIncrement <==> serial || c.isAutoIncrement)
      && (t.nullable <==> !serial && c.nullable)
      && t.name == c.name && t.sqlType == c.sqlType && t.collation == c.collation
  {}

  // ----- collation -----

  /** The collation clause stands behind the type. */
  function ReadCollation(fields: seq<string>): Option<string> {
    if |fields| > 3 && fields[2] == "COLLATE" then Some(fields[3]) else None
  }

  lemma CollationReads(q: Quoter, c: Column, includePrimaryKey: bool, supportCollation: bool)
    ensures ReadCollation(Words(q, c, includePrimaryKey, supportCollation)) ==
            if supportCollation && c.collation != "" then Some(c.collation) else None
  {
    var words := Words(q, c, includePrimaryKey, supportCollation);
    var head := [Put(q, c.name), TypeName(c.sqlType)];
    hide TypeName, Put;
    var a, b, d, e := CollationWords(c, supportCollation), KeyWords(c, includePrimaryKey), DefaultWords(c), NullWords(c);
    assert words == head + (a + (b + (d + e)));
    if a == [] {
      assert a + (b + (d + e)) == b + (d + e);
      if b == [] { assert b + (d + e) == d + e; if d == [] { assert d + e == e; } }
      assert words[2] == (b + (d + e))[0];
    }
  }

  /** Read back from the printed text. */
  lemma CollationReturns(q: Quoter, c: Column, includePrimaryKey: bool, supportCollation: bool)
    requires SqliteColumn.Plain(q, c) && TrimmedMarks(q)
    ensures
      var text := Spaced(Words(q, c, includePrimaryKey, supportCollation));
      ReadCollation(Fields(TrimSpace(text), "", false)) == if supportCollation && c.collation != "" then Some(c.collation) else None
  {
    var fields := Words(q, c, includePrimaryKey, supportCollation);
    WordsAreFields(q, c, includePrimaryKey, supportCollation);
    SpacedEnds(fields);
    SplitSpaced(fields);
    CollationReads(q, c, includePrimaryKey, supportCollation);
    hide Words, Fields;
  }
}
