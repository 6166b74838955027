/** The one-pass filter against the tokens of the SQL text, with the scanner's own view of what
    a token may start and leave behind. */
module FilterTokens {
  import opened Filter
  import opened Strings
  import opened Utils

  /** What may still hang over from the plain text before: `Minus` and `Slash` are an operator
      character the scanner has marked as a possible comment start, the `Saw` forms one that
      it skipped while such a mark was pending. */
  datatype Pending = Calm | Minus | Slash | SawMinus | SawSlash

  function FlagsOf(p: Pending, jsonb: bool): Flags {
    CLEAR.(maybeLine := p == Minus, maybeBlock := p == Slash, maybeJsonb := jsonb)
  }

  /** One character of plain text, or None where it would start something else. */
  function Plainly(fl: Flavour, p: Pending, c: char): Option<Pending> {
    if c == '?' || c == '\'' || (fl.Postgres? && c == '$') then None
    else if c == '-' && (p == Minus || p == SawMinus) then None
    else if c == '*' && (p == Slash || p == SawSlash) then None
    else if c == '-' then Some(if p == Slash then SawMinus else Minus)
    else if c == '/' then Some(if p == Minus || p == Slash then SawSlash else Slash)
    else Some(Calm)
  }

  /** Plain text from `pos` to `end`; outside a jsonb operator no blank follows `::jsonb`. */
  function PlainRun(fl: Flavour, sql: string, pos: nat, end: nat, p: Pending, jsonb: bool): Option<Pending>
    requires end <= |sql|
    decreases end - pos
  {
    if pos >= end then Some(p)
    else if fl.Postgres? && !jsonb && sql[pos] == ' ' && JsonbBefore(sql, pos) then None
    else
      match Plainly(fl, p, sql[pos])
      case None => None
      case Some(q) => PlainRun(fl, sql, pos + 1, end, q, jsonb)
  }

  datatype Token =
    | Plain(text: string)
    | Hole
    | Param(k: nat)
    | Quoted(body: string)
    | LineComment(body: string)
    | LastComment(body: string)
    | BlockComment(body: string)
    | Dollar(name: string, body: string)
    | JsonbHole(gap: string)

  function Tag(name: string): string { "$" + name + "$" }

  function Text(fl: Flavour, t: Token): string {
    match t
    case Plain(s) => s
    case Hole => "?"
    case Param(k) => (if fl.Postgres? then "$" else ":") + Itoa(k)
    case Quoted(b) => "'" + b + "'"
    case LineComment(b) => "--" + b + "\n"
    case LastComment(b) => "--" + b
    case BlockComment(b) => "/*" + b + "*/"
    case Dollar(n, b) => Tag(n) + b + Tag(n)
    case JsonbHole(g) => JSONB + g + "?"
  }

  function Render(fl: Flavour, toks: seq<Token>): string {
    if toks == [] then "" else Text(fl, toks[0]) + Render(fl, toks[1..])
  }

  /** The rewriting by tokens: the k-th placeholder becomes the k-th parameter. */
  function Rewrite(toks: seq<Token>, index: nat): seq<Token> {
    if toks == [] then []
    else if toks[0].Hole? then [Param(index)] + Rewrite(toks[1..], index + 1)
    else [toks[0]] + Rewrite(toks[1..], index)
  }

  function TrailingStars(s: string): nat {
    if s != "" && s[|s| - 1] == '*' then 1 + TrailingStars(s[..|s| - 1]) else 0
  }

  predicate NoCommentEnd(s: string) {
    forall i :: 0 <= i < |s| - 1 ==> !(s[i] == '*' && s[i + 1] == '/')
  }

  /** ASCII letters, digits and the underscore: what may stand in the tag of a dollar quote
      (PostgreSQL manual, section 4.1.2.4), by their codes. */
  predicate TagLetter(c: char) {
    var n := c as int;
    97 <= n <= 122 || 65 <= n <= 90 || 48 <= n <= 57 || n == 95
  }

  predicate IsTag(name: string) { forall c :: c in name ==> TagLetter(c) }

  /** The tokens spell the text from `pos` on, each in the place where it means what it says. */
  predicate Spells(fl: Flavour, sql: string, pos: nat, toks: seq<Token>, p: Pending)
    decreases |toks|
  {
    if toks == [] then pos == |sql|
    else
      var t, end := toks[0], pos + |Text(fl, toks[0])|;
      && HasPrefixAt(sql, pos, Text(fl, t))
      && match t
         case Plain(_) =>
           var q := PlainRun(fl, sql, pos, end, p, false);
           q.Some? && Spells(fl, sql, end, toks[1..], q.value)
         case Hole => Spells(fl, sql, end, toks[1..], AfterHole(p))
         case Param(_) =>
           (fl.Postgres? && p != Minus && p != Slash ==> TagAt(sql, pos) == "") && Spells(fl, sql, end, toks[1..], Calm)
         case Quoted(b) => p == Calm && '\'' !in b && Spells(fl, sql, end, toks[1..], Calm)
         case LineComment(b) => p == Calm && '\n' !in b && Spells(fl, sql, end, toks[1..], Calm)
         case LastComment(b) => p == Calm && '\n' !in b && toks[1..] == [] && end == |sql|
         case BlockComment(b) =>
           && p == Calm && NoCommentEnd(b) && TrailingStars(b) % 2 == 0
           && Spells(fl, sql, end, toks[1..], Calm)
         case Dollar(n, b) =>
           && p == Calm && fl.Postgres? && IsTag(n)
           && (forall j :: 0 <= j < |b| ==> !HasPrefixAt(b + Tag(n), j, Tag(n)))
           && Spells(fl, sql, end, toks[1..], Calm)
         case JsonbHole(g) =>
           && p == Calm && fl.Postgres?
           && PlainRun(fl, sql, pos + |JSONB|, end - 1, Calm, true) == Some(Calm)
           && Spells(fl, sql, end, toks[1..], Calm)
  }

  // ----- each kind of token -----

  lemma ScanPlainOne(fl: Flavour, sql: string, pos: nat, p: Pending, jsonb: bool, index: nat)
    requires pos < |sql| && Plainly(fl, p, sql[pos]).Some?
    requires fl.Postgres? && !jsonb && sql[pos] == ' ' ==> !JsonbBefore(sql, pos)
    ensures Scan(fl, sql, pos, FlagsOf(p, jsonb), index) ==
            [sql[pos]] + Scan(fl, sql, pos + 1, FlagsOf(Plainly(fl, p, sql[pos]).value, jsonb), index)
  {
    hide JsonbBefore, TagAt;
    assert Next(fl, FlagsOf(p, jsonb), sql[pos], JsonbBefore(sql, pos)) == FlagsOf(Plainly(fl, p, sql[pos]).value, jsonb);
  }

  lemma {:induction false} ScanPlain(fl: Flavour, sql: string, pos: nat, end: nat, p: Pending, jsonb: bool, index: nat)
    requires pos <= end <= |sql| && PlainRun(fl, sql, pos, end, p, jsonb).Some?
    ensures Scan(fl, sql, pos, FlagsOf(p, jsonb), index) ==
            sql[pos..end] + Scan(fl, sql, end, FlagsOf(PlainRun(fl, sql, pos, end, p, jsonb).value, jsonb), index)
    decreases end - pos
  {
    hide Scan, JsonbBefore, Plainly;
    if pos < end {
      var q := Plainly(fl, p, sql[pos]).value;
      ScanPlainOne(fl, sql, pos, p, jsonb, index);
      ScanPlain(fl, sql, pos + 1, end, q, jsonb, index);
      assert sql[pos..end] == [sql[pos]] + sql[pos + 1..end];
      Join([sql[pos]], sql[pos + 1..end], Scan(fl, sql, end, FlagsOf(PlainRun(fl, sql, pos, end, p, jsonb).value, jsonb), index));
    } else {
      assert sql[pos..end] == "" && "" + Scan(fl, sql, end, FlagsOf(p, jsonb), index) == Scan(fl, sql, end, FlagsOf(p, jsonb), index);
    }
  }

  /** A stretch in which every character is copied and leaves the flags alone. */
  lemma {:induction false} ScanInert(fl: Flavour, sql: string, pos: nat, end: nat, f: Flags, index: nat)
    requires pos <= end <= |sql| && f.tag == ""
    requires forall i :: pos <= i < end ==>
               && !AtHole(f, sql[i]) && !AtDollar(fl, f, sql[i])
               && Next(fl, f, sql[i], JsonbBefore(sql, i)) == f
    ensures Scan(fl, sql, pos, f, index) == sql[pos..end] + Scan(fl, sql, end, f, index)
    decreases end - pos
  {
    if pos < end {
      ScanOne(fl, sql, pos, f, index);
      hide Scan, JsonbBefore, TagAt;
      ScanInert(fl, sql, pos + 1, end, f, index);
      assert sql[pos..end] == [sql[pos]] + sql[pos + 1..end];
      Join([sql[pos]], sql[pos + 1..end], Scan(fl, sql, end, f, index));
    } else {
      assert sql[pos..end] == "" && "" + Scan(fl, sql, end, f, index) == Scan(fl, sql, end, f, index);
    }
  }

  lemma Split(sql: string, pos: nat, a: string, b: string)
    requires HasPrefixAt(sql, pos, a + b)
    ensures HasPrefixAt(sql, pos, a) && HasPrefixAt(sql, pos + |a|, b)
  {
    var text := a + b;
    assert forall j :: 0 <= j < |a| ==> text[j] == a[j];
    forall j | 0 <= j < |b| ensures sql[pos + |a| + j] == b[j] { assert text[|a| + j] == b[j]; }
  }

  lemma Parts(sql: string, pos: nat, a: string, b: string, c: string)
    requires HasPrefixAt(sql, pos, a + b + c)
    ensures HasPrefixAt(sql, pos, a) && HasPrefixAt(sql, pos + |a|, b) && HasPrefixAt(sql, pos + |a| + |b|, c)
  {
    Split(sql, pos, a + b, c);
    Split(sql, pos, a, b);
  }

  lemma Heads(sql: string, pos: nat, text: string)
    requires HasPrefixAt(sql, pos, text)
    ensures |text| >= 1 ==> sql[pos] == text[0]
    ensures |text| >= 2 ==> sql[pos + 1] == text[1]
  {
    if |text| >= 1 { assert sql[pos + 0] == text[0]; }
  }

  lemma SliceIs(sql: string, pos: nat, text: string)
    requires HasPrefixAt(sql, pos, text)
    ensures sql[pos..pos + |text|] == text
  {
    forall j | 0 <= j < |text| ensures sql[pos..pos + |text|][j] == text[j] { assert sql[pos + j] == text[j]; }
  }

  /** One character that is copied. */
  lemma ScanOne(fl: Flavour, sql: string, pos: nat, f: Flags, index: nat)
    requires pos < |sql| && f.tag == "" && !AtHole(f, sql[pos])
    requires AtDollar(fl, f, sql[pos]) ==> TagAt(sql, pos) == ""
    ensures Scan(fl, sql, pos, f, index) ==
            [sql[pos]] + Scan(fl, sql, pos + 1, Next(fl, f, sql[pos], JsonbBefore(sql, pos)), index)
  {}

  /** A body none of whose characters matters in the current mode. */
  lemma ScanBody(fl: Flavour, sql: string, pos: nat, b: string, f: Flags, index: nat)
    requires HasPrefixAt(sql, pos, b)
    requires || (f == CLEAR.(quote := true) && '\'' !in b)
             || (f == CLEAR.(line := true) && '\n' !in b)
    ensures Scan(fl, sql, pos, f, index) == b + Scan(fl, sql, pos + |b|, f, index)
  {
    SliceIs(sql, pos, b);
    forall i | pos <= i < pos + |b| ensures sql[i] in b { assert sql[pos..pos + |b|][i - pos] in b; }
    hide Scan, HasPrefixAt, JsonbBefore, TagAt;
    ScanInert(fl, sql, pos, pos + |b|, f, index);
  }

  lemma ScanQuoted(fl: Flavour, sql: string, pos: nat, b: string, index: nat)
    requires HasPrefixAt(sql, pos, "'" + b + "'") && '\'' !in b
    ensures Scan(fl, sql, pos, CLEAR, index) ==
            "'" + b + "'" + Scan(fl, sql, pos + |b| + 2, CLEAR, index)
  {
    hide Scan, JsonbBefore, HasPrefixAt, TagAt;
    Parts(sql, pos, "'", b, "'");
    Heads(sql, pos, "'");
    Heads(sql, pos + 1 + |b|, "'");
    ScanOne(fl, sql, pos, CLEAR, index);
    ScanBody(fl, sql, pos + 1, b, CLEAR.(quote := true), index);
    ScanOne(fl, sql, pos + 1 + |b|, CLEAR.(quote := true), index);
    Regroup("'", b, "'", Scan(fl, sql, pos + |b| + 2, CLEAR, index));
  }

  lemma ScanDashes(fl: Flavour, sql: string, pos: nat, index: nat)
    requires HasPrefixAt(sql, pos, "--")
    ensures Scan(fl, sql, pos, CLEAR, index) == "--" + Scan(fl, sql, pos + 2, CLEAR.(line := true), index)
  {
    Heads(sql, pos, "--");
    ScanOne(fl, sql, pos, CLEAR, index);
    ScanOne(fl, sql, pos + 1, CLEAR.(maybeLine := true), index);
  }

  lemma ScanLastComment(fl: Flavour, sql: string, pos: nat, b: string, index: nat)
    requires HasPrefixAt(sql, pos, "--" + b) && '\n' !in b
    ensures Scan(fl, sql, pos, CLEAR, index) ==
            "--" + b + Scan(fl, sql, pos + |b| + 2, CLEAR.(line := true), index)
  {
    hide Scan, JsonbBefore, HasPrefixAt, TagAt;
    Split(sql, pos, "--", b);
    ScanDashes(fl, sql, pos, index);
    ScanBody(fl, sql, pos + 2, b, CLEAR.(line := true), index);
    Join("--", b, Scan(fl, sql, pos + |b| + 2, CLEAR.(line := true), index));
  }

  lemma ScanLineComment(fl: Flavour, sql: string, pos: nat, b: string, index: nat)
    requires HasPrefixAt(sql, pos, "--" + b + "\n") && '\n' !in b
    ensures Scan(fl, sql, pos, CLEAR, index) ==
            "--" + b + "\n" + Scan(fl, sql, pos + |b| + 3, CLEAR, index)
  {
    hide Scan, JsonbBefore, HasPrefixAt, TagAt;
    Parts(sql, pos, "--", b, "\n");
    Heads(sql, pos + 2 + |b|, "\n");
    ScanDashes(fl, sql, pos, index);
    ScanBody(fl, sql, pos + 2, b, CLEAR.(line := true), index);
    ScanOne(fl, sql, pos + 2 + |b|, CLEAR.(line := true), index);
    Regroup("--", b, "\n", Scan(fl, sql, pos + |b| + 3, CLEAR, index));
  }

  /** Inside a block comment the scanner pairs a star with whatever follows it. */
  predicate StarPending(s: string) { TrailingStars(s) % 2 == 1 }

  lemma PrefixNoCommentEnd(s: string, c: char)
    requires NoCommentEnd(s + [c])
    ensures NoCommentEnd(s) && (StarPending(s) ==> c != '/')
    ensures StarPending(s + [c]) == (c == '*' && !StarPending(s))
  {
    assert (s + [c])[..|s|] == s;
    forall i | 0 <= i < |s| - 1 ensures !(s[i] == '*' && s[i + 1] == '/') {
      assert (s + [c])[i] == s[i] && (s + [c])[i + 1] == s[i + 1];
    }
    if StarPending(s) { assert (s + [c])[|s| - 1] == '*' && (s + [c])[|s|] == c; }
  }

  lemma NoStars()
    ensures !StarPending("")
  {}

  lemma {:induction false} ScanBlockBody(fl: Flavour, sql: string, pos: nat, b: string, index: nat)
    requires HasPrefixAt(sql, pos, b) && NoCommentEnd(b)
    ensures Scan(fl, sql, pos, CLEAR.(block := true), index) ==
            b + Scan(fl, sql, pos + |b|, CLEAR.(block := true, maybeEnd := StarPending(b)), index)
    decreases |b|
  {
    hide Scan, JsonbBefore, HasPrefixAt, TrailingStars, StarPending, NoCommentEnd;
    NoStars();
    if b != "" {
      var a, c := b[..|b| - 1], b[|b| - 1];
      assert b == a + [c];
      Split(sql, pos, a, [c]);
      Heads(sql, pos + |a|, [c]);
      PrefixNoCommentEnd(a, c);
      ScanBlockBody(fl, sql, pos, a, index);
      ScanOne(fl, sql, pos + |a|, CLEAR.(block := true, maybeEnd := StarPending(a)), index);
      Join(a, [c], Scan(fl, sql, pos + |b|, CLEAR.(block := true, maybeEnd := StarPending(b)), index));
    }
  }

  lemma ScanOpen(fl: Flavour, sql: string, pos: nat, index: nat)
    requires HasPrefixAt(sql, pos, "/*")
    ensures Scan(fl, sql, pos, CLEAR, index) == "/*" + Scan(fl, sql, pos + 2, CLEAR.(block := true), index)
  {
    Heads(sql, pos, "/*");
    hide Scan, JsonbBefore, HasPrefixAt;
    ScanOne(fl, sql, pos, CLEAR, index);
    ScanOne(fl, sql, pos + 1, CLEAR.(maybeBlock := true), index);
    Join("/", "*", Scan(fl, sql, pos + 2, CLEAR.(block := true), index));
  }

  /** In a block comment, the flags after a star and after the slash behind it. */
  lemma CloseFlags(fl: Flavour, pending: bool, jsonb: bool)
    ensures Next(fl, CLEAR.(block := true, maybeEnd := pending), '*', jsonb) == CLEAR.(block := true, maybeEnd := !pending)
    ensures Next(fl, CLEAR.(block := true, maybeEnd := !pending), '/', jsonb) == CLEAR.(block := pending)
  {}

  lemma ScanClose(fl: Flavour, sql: string, pos: nat, pending: bool, index: nat)
    requires HasPrefixAt(sql, pos, "*/")
    ensures Scan(fl, sql, pos, CLEAR.(block := true, maybeEnd := pending), index) ==
            "*/" + Scan(fl, sql, pos + 2, CLEAR.(block := pending), index)
  {
    Heads(sql, pos, "*/");
    hide Scan, JsonbBefore, HasPrefixAt, Next;
    CloseFlags(fl, pending, JsonbBefore(sql, pos));
    CloseFlags(fl, pending, JsonbBefore(sql, pos + 1));
    ScanOne(fl, sql, pos, CLEAR.(block := true, maybeEnd := pending), index);
    ScanOne(fl, sql, pos + 1, CLEAR.(block := true, maybeEnd := !pending), index);
    Join("*", "/", Scan(fl, sql, pos + 2, CLEAR.(block := pending), index));
  }

  /** A block comment whose body holds no end mark: the scanner leaves it at its end exactly
      when the stars just before the end mark are even in number. */
  lemma ScanBlock(fl: Flavour, sql: string, pos: nat, b: string, index: nat)
    requires HasPrefixAt(sql, pos, "/*" + b + "*/") && NoCommentEnd(b)
    ensures Scan(fl, sql, pos, CLEAR, index) ==
            "/*" + b + "*/" + Scan(fl, sql, pos + |b| + 4, CLEAR.(block := StarPending(b)), index)
  {
    hide Scan, JsonbBefore, HasPrefixAt, TagAt, StarPending, NoCommentEnd;
    Parts(sql, pos, "/*", b, "*/");
    ScanOpen(fl, sql, pos, index);
    ScanBlockBody(fl, sql, pos + 2, b, index);
    ScanClose(fl, sql, pos + 2 + |b|, StarPending(b), index);
    Regroup("/*", b, "*/", Scan(fl, sql, pos + |b| + 4, CLEAR.(block := StarPending(b)), index));
  }

  /** The visible effect: a placeholder right after the comment is numbered, or left alone. */
  lemma BlockCommentIff(fl: Flavour, b: string, index: nat)
    requires NoCommentEnd(b)
    ensures Filtered(fl, "/*" + b + "*/?", index) ==
            "/*" + b + "*/" + (if TrailingStars(b) % 2 == 0 then Prefix(fl) + Itoa(index) else "?")
  {
    var sql := "/*" + b + "*/?";
    assert sql == "/*" + b + "*/" + "?" && HasPrefixAt(sql, 0, sql);
    Split(sql, 0, "/*" + b + "*/", "?");
    ScanBlock(fl, sql, 0, b, index);
    var end := |b| + 4;
    assert sql[end] == '?' && |sql| == end + 1;
    assert Scan(fl, sql, end, CLEAR, index) == Prefix(fl) + Itoa(index) + Scan(fl, sql, end + 1, CLEAR, index + 1);
    ScanOne(fl, sql, end, CLEAR.(block := true), index);
  }

  lemma {:induction false} TagEndAt(sql: string, i: nat, name: string)
    requires HasPrefixAt(sql, i, name + "$") && IsTag(name)
    ensures TagEnd(sql, i) == i + |name|
    decreases |name|
  {
    if name != "" {
      assert name[0] in name;
      assert name + "$" == name[..1] + (name[1..] + "$");
      Split(sql, i, name[..1], name[1..] + "$");
      Heads(sql, i, name[..1]);
      TagEndAt(sql, i + 1, name[1..]);
    } else {
      Heads(sql, i, name + "$");
    }
  }

  lemma InDollar(fl: Flavour, sql: string, pos: nat, tag: string, index: nat)
    requires pos < |sql| && tag != "" && !HasPrefixAt(sql, pos, tag)
    ensures Scan(fl, sql, pos, CLEAR.(tag := tag), index) == [sql[pos]] + Scan(fl, sql, pos + 1, CLEAR.(tag := tag), index)
  {}

  lemma {:induction false} ScanDollarBody(fl: Flavour, sql: string, pos: nat, b: string, tag: string, index: nat)
    requires HasPrefixAt(sql, pos, b) && tag != ""
    requires forall i :: pos <= i < pos + |b| ==> !HasPrefixAt(sql, i, tag)
    ensures Scan(fl, sql, pos, CLEAR.(tag := tag), index) == b + Scan(fl, sql, pos + |b|, CLEAR.(tag := tag), index)
    decreases |b|
  {
    hide Scan, HasPrefixAt;
    if b == "" {
      assert "" + Scan(fl, sql, pos, CLEAR.(tag := tag), index) == Scan(fl, sql, pos, CLEAR.(tag := tag), index);
    } else {
      assert b == b[..1] + b[1..];
      Split(sql, pos, b[..1], b[1..]);
      Heads(sql, pos, b[..1]);
      InDollar(fl, sql, pos, tag, index);
      ScanDollarBody(fl, sql, pos + 1, b[1..], tag, index);
      Join(b[..1], b[1..], Scan(fl, sql, pos + |b|, CLEAR.(tag := tag), index));
    }
  }

  lemma SliceIsPrefix(sql: string, i: nat, p: string)
    requires i + |p| <= |sql|
    ensures HasPrefixAt(sql, i, p) <==> sql[i..i + |p|] == p
  {
    if HasPrefixAt(sql, i, p) { Heads(sql, i, p); }
    if sql[i..i + |p|] == p {
      forall j | 0 <= j < |p| ensures sql[i + j] == p[j] { assert sql[i..i + |p|][j] == p[j]; }
    }
  }

  /** Where the text agrees, so do the occurrences of a tag inside it. */
  lemma SamePrefixes(sql: string, pos: nat, text: string, j: nat, tag: string)
    requires HasPrefixAt(sql, pos, text) && j + |tag| <= |text|
    ensures HasPrefixAt(sql, pos + j, tag) == HasPrefixAt(text, j, tag)
  {
    Heads(sql, pos, text);
    assert sql[pos + j..pos + j + |tag|] == text[j..j + |tag|];
    SliceIsPrefix(sql, pos + j, tag);
    SliceIsPrefix(text, j, tag);
  }

  /** A tag that opens a dollar quote, and the same tag that closes it. */
  lemma ScanTag(sql: string, pos: nat, tag: string, index: nat)
    requires HasPrefixAt(sql, pos, tag) && tag != "" && tag[0] == '$'
    ensures TagAt(sql, pos) == tag ==>
              Scan(Postgres, sql, pos, CLEAR, index) == tag + Scan(Postgres, sql, pos + |tag|, CLEAR.(tag := tag), index)
    ensures Scan(Postgres, sql, pos, CLEAR.(tag := tag), index) == tag + Scan(Postgres, sql, pos + |tag|, CLEAR, index)
  {
    hide Scan, TagAt, HasPrefixAt;
    Heads(sql, pos, tag);
    if TagAt(sql, pos) == tag { ScanOpening(sql, pos, index); }
    ScanClosing(sql, pos, tag, index);
  }

  lemma ScanOpening(sql: string, pos: nat, index: nat)
    requires pos < |sql| && sql[pos] == '$' && TagAt(sql, pos) != ""
    ensures
      var tag := TagAt(sql, pos);
      Scan(Postgres, sql, pos, CLEAR, index) == tag + Scan(Postgres, sql, pos + |tag|, CLEAR.(tag := tag), index)
  {
    hide TagAt, HasPrefixAt;
  }

  lemma ScanClosing(sql: string, pos: nat, tag: string, index: nat)
    requires pos < |sql| && sql[pos] == '$' && tag != "" && HasPrefixAt(sql, pos, tag)
    ensures Scan(Postgres, sql, pos, CLEAR.(tag := tag), index) == tag + Scan(Postgres, sql, pos + |tag|, CLEAR, index)
  {
    hide TagAt, HasPrefixAt;
  }

  lemma TagIsFound(sql: string, pos: nat, name: string)
    requires HasPrefixAt(sql, pos, Tag(name)) && IsTag(name)
    ensures TagAt(sql, pos) == Tag(name)
  {
    assert Tag(name) == "$" + (name + "$");
    Split(sql, pos, "$", name + "$");
    TagEndAt(sql, pos + 1, name);
    Heads(sql, pos, Tag(name));
  }

  lemma NoTagInside(sql: string, pos: nat, b: string, tag: string)
    requires HasPrefixAt(sql, pos, b + tag)
    requires forall j :: 0 <= j < |b| ==> !HasPrefixAt(b + tag, j, tag)
    ensures forall i :: pos <= i < pos + |b| ==> !HasPrefixAt(sql, i, tag)
  {
    forall i | pos <= i < pos + |b| ensures !HasPrefixAt(sql, i, tag) {
      SamePrefixes(sql, pos, b + tag, i - pos, tag);
    }
  }

  lemma ScanDollar(sql: string, pos: nat, name: string, b: string, index: nat)
    requires HasPrefixAt(sql, pos, Tag(name) + b + Tag(name)) && IsTag(name)
    requires forall j :: 0 <= j < |b| ==> !HasPrefixAt(b + Tag(name), j, Tag(name))
    ensures Scan(Postgres, sql, pos, CLEAR, index) ==
            Tag(name) + b + Tag(name) + Scan(Postgres, sql, pos + |b| + 2 * |name| + 4, CLEAR, index)
  {
    hide Scan, HasPrefixAt, TagAt;
    var tag := Tag(name);
    var bodyAt, end := pos + |tag|, pos + |tag| + |b|;
    Parts(sql, pos, tag, b, tag);
    Join(tag, b, tag);
    Split(sql, pos, tag, b + tag);
    TagIsFound(sql, pos, name);
    NoTagInside(sql, bodyAt, b, tag);
    ScanTag(sql, pos, tag, index);
    ScanDollarBody(Postgres, sql, bodyAt, b, tag, index);
    ScanTag(sql, end, tag, index);
    Regroup(tag, b, tag, Scan(Postgres, sql, end + |tag|, CLEAR, index));
  }

  lemma ScanJsonbName(sql: string, pos: nat, index: nat)
    requires HasPrefixAt(sql, pos, "::jsonb")
    ensures Scan(Postgres, sql, pos, CLEAR, index) == "::jsonb" + Scan(Postgres, sql, pos + 7, CLEAR, index)
    ensures JsonbBefore(sql, pos + 7)
  {
    SliceIs(sql, pos, "::jsonb");
    forall i | pos <= i < pos + 7 ensures sql[i] in "::jsonb" { assert sql[pos..pos + 7][i - pos] in "::jsonb"; }
    hide Scan, HasPrefixAt;
    ScanInert(Postgres, sql, pos, pos + 7, CLEAR, index);
  }

  lemma ScanJsonbMark(sql: string, pos: nat, index: nat)
    requires HasPrefixAt(sql, pos, JSONB)
    ensures Scan(Postgres, sql, pos, CLEAR, index) == JSONB + Scan(Postgres, sql, pos + 8, FlagsOf(Calm, true), index)
  {
    hide Scan, HasPrefixAt, JsonbBefore;
    assert JSONB == "::jsonb" + " ";
    Split(sql, pos, "::jsonb", " ");
    Heads(sql, pos + 7, " ");
    ScanJsonbName(sql, pos, index);
    ScanOne(Postgres, sql, pos + 7, CLEAR, index);
    Join("::jsonb", " ", Scan(Postgres, sql, pos + 8, FlagsOf(Calm, true), index));
  }

  /** The question mark after `::jsonb ` is never numbered, whatever plain text stands
      between. */
  lemma ScanJsonb(sql: string, pos: nat, g: string, index: nat)
    requires HasPrefixAt(sql, pos, JSONB + g + "?")
    requires PlainRun(Postgres, sql, pos + |JSONB|, pos + |JSONB| + |g|, Calm, true) == Some(Calm)
    ensures Scan(Postgres, sql, pos, CLEAR, index) ==
            JSONB + g + "?" + Scan(Postgres, sql, pos + |JSONB| + |g| + 1, CLEAR, index)
  {
    hide Scan, JsonbBefore, HasPrefixAt, TagAt, PlainRun;
    var end := pos + |JSONB| + |g|;
    Parts(sql, pos, JSONB, g, "?");
    Heads(sql, pos + 8, g);
    Heads(sql, end, "?");
    ScanJsonbMark(sql, pos, index);
    ScanPlain(Postgres, sql, pos + 8, end, Calm, true, index);
    ScanOne(Postgres, sql, end, FlagsOf(Calm, true), index);
    Regroup(JSONB, g, "?", Scan(Postgres, sql, end + 1, CLEAR, index));
  }

  lemma DigitsAt(sql: string, pos: nat, digits: string)
    requires HasPrefixAt(sql, pos, digits) && forall c :: c in digits ==> '0' <= c <= '9'
    ensures forall i :: pos <= i < pos + |digits| ==> '0' <= sql[i] <= '9'
  {
    SliceIs(sql, pos, digits);
    forall i | pos <= i < pos + |digits| ensures '0' <= sql[i] <= '9' {
      assert sql[pos..pos + |digits|][i - pos] in digits;
    }
  }

  lemma ScanParam(fl: Flavour, sql: string, pos: nat, k: nat, p: Pending, index: nat)
    requires HasPrefixAt(sql, pos, Prefix(fl) + Itoa(k))
    requires fl.Postgres? && p != Minus && p != Slash ==> TagAt(sql, pos) == ""
    ensures Scan(fl, sql, pos, FlagsOf(p, false), index) ==
            Prefix(fl) + Itoa(k) + Scan(fl, sql, pos + 1 + |Itoa(k)|, CLEAR, index)
  {
    hide Scan, JsonbBefore, HasPrefixAt, TagAt, Itoa;
    var digits := Itoa(k);
    var end := pos + 1 + |digits|;
    Split(sql, pos, Prefix(fl), digits);
    Heads(sql, pos, Prefix(fl));
    DigitsAt(sql, pos + 1, digits);
    ScanOne(fl, sql, pos, FlagsOf(p, false), index);
    ScanInert(fl, sql, pos + 1, end, CLEAR, index);
    Join(Prefix(fl), digits, Scan(fl, sql, end, CLEAR, index));
  }

  // ----- the main theorem -----

  lemma RenderCons(fl: Flavour, t: Token, rest: seq<Token>)
    ensures Render(fl, [t] + rest) == Text(fl, t) + Render(fl, rest)
  {
    assert ([t] + rest)[1..] == rest;
  }

  lemma ScanToken(fl: Flavour, sql: string, pos: nat, toks: seq<Token>, p: Pending, index: nat)
    requires toks != [] && Spells(fl, sql, pos, toks, p)
    requires !toks[0].Plain? && !toks[0].Hole? && !toks[0].LastComment?
    ensures Scan(fl, sql, pos, FlagsOf(p, false), index) ==
            Text(fl, toks[0]) + Scan(fl, sql, pos + |Text(fl, toks[0])|, CLEAR, index)
  {
    hide Scan, PlainRun, HasPrefixAt, TagAt, Itoa, TrailingStars;
    match toks[0]
    case Param(k) => ScanParam(fl, sql, pos, k, p, index);
    case Quoted(b) => ScanQuoted(fl, sql, pos, b, index);
    case LineComment(b) => ScanLineComment(fl, sql, pos, b, index);
    case BlockComment(b) => ScanBlock(fl, sql, pos, b, index);
    case Dollar(n, b) => ScanDollar(sql, pos, n, b, index);
    case JsonbHole(g) => ScanJsonb(sql, pos, g, index);
  }

  function AfterHole(p: Pending): Pending { if p == Minus || p == Slash then p else Calm }

  lemma ScanHole(fl: Flavour, sql: string, pos: nat, p: Pending, index: nat)
    requires HasPrefixAt(sql, pos, "?")
    ensures Scan(fl, sql, pos, FlagsOf(p, false), index) ==
            Text(fl, Param(index)) + Scan(fl, sql, pos + 1, FlagsOf(AfterHole(p), false), index + 1)
  {
    Heads(sql, pos, "?");
    assert FlagsOf(p, false) == FlagsOf(AfterHole(p), false);
  }

  /** On any text that tokens spell, the one-pass filter is the rewriting by tokens. */
  lemma {:induction false} ScanIsRewrite(fl: Flavour, sql: string, pos: nat, toks: seq<Token>, p: Pending, index: nat)
    requires pos <= |sql| && Spells(fl, sql, pos, toks, p)
    ensures Scan(fl, sql, pos, FlagsOf(p, false), index) == Render(fl, Rewrite(toks, index))
    decreases |toks|, 1
  {
    if toks == [] {
      ScanNothing(fl, sql, pos, FlagsOf(p, false), index);
    } else if toks[0].Plain? {
      ScanIsRewritePlain(fl, sql, pos, toks, p, index);
    } else if toks[0].Hole? {
      ScanIsRewriteHole(fl, sql, pos, toks, p, index);
    } else if toks[0].LastComment? {
      ScanIsRewriteLast(fl, sql, pos, toks, p, index);
    } else {
      ScanIsRewriteToken(fl, sql, pos, toks, p, index);
    }
  }

  /** A token of plain text is copied. */
  lemma ScanPlainToken(fl: Flavour, sql: string, pos: nat, toks: seq<Token>, p: Pending, index: nat) returns (q: Pending)
    requires toks != [] && toks[0].Plain? && Spells(fl, sql, pos, toks, p)
    ensures
      var end := pos + |Text(fl, toks[0])|;
      && end <= |sql| && Spells(fl, sql, end, toks[1..], q)
      && Scan(fl, sql, pos, FlagsOf(p, false), index) == Text(fl, toks[0]) + Scan(fl, sql, end, FlagsOf(q, false), index)
  {
    hide Scan, PlainRun, Spells, Text, HasPrefixAt;
    FirstToken(fl, sql, pos, toks, p);
    var end := pos + |Text(fl, toks[0])|;
    SliceIs(sql, pos, Text(fl, toks[0]));
    q := PlainRun(fl, sql, pos, end, p, false).value;
    ScanPlain(fl, sql, pos, end, p, false, index);
  }

  lemma {:induction false} ScanIsRewritePlain(fl: Flavour, sql: string, pos: nat, toks: seq<Token>, p: Pending, index: nat)
    requires toks != [] && toks[0].Plain?
    requires pos <= |sql| && Spells(fl, sql, pos, toks, p)
    ensures Scan(fl, sql, pos, FlagsOf(p, false), index) == Render(fl, Rewrite(toks, index))
    decreases |toks|, 0
  {
    hide Scan, Spells, Text, Render, Rewrite;
    var q := ScanPlainToken(fl, sql, pos, toks, p, index);
    ScanIsRewrite(fl, sql, pos + |Text(fl, toks[0])|, toks[1..], q, index);
    RewriteFirst(toks, index);
    RenderCons(fl, toks[0], Rewrite(toks[1..], index));
  }

  lemma {:induction false} ScanIsRewriteHole(fl: Flavour, sql: string, pos: nat, toks: seq<Token>, p: Pending, index: nat)
    requires toks != [] && toks[0].Hole?
    requires pos <= |sql| && Spells(fl, sql, pos, toks, p)
    ensures Scan(fl, sql, pos, FlagsOf(p, false), index) == Render(fl, Rewrite(toks, index))
    decreases |toks|, 0
  {
    hide Scan, HasPrefixAt, PlainRun, Spells, Text;
    FirstToken(fl, sql, pos, toks, p);
    ScanHole(fl, sql, pos, p, index);
    ScanIsRewrite(fl, sql, pos + 1, toks[1..], AfterHole(p), index + 1);
    RenderCons(fl, Param(index), Rewrite(toks[1..], index + 1));
  }

  lemma ScanIsRewriteLast(fl: Flavour, sql: string, pos: nat, toks: seq<Token>, p: Pending, index: nat)
    requires toks != [] && toks[0].LastComment?
    requires pos <= |sql| && Spells(fl, sql, pos, toks, p)
    ensures Scan(fl, sql, pos, FlagsOf(p, false), index) == Render(fl, Rewrite(toks, index))
  {
    var t, end := toks[0], pos + |Text(fl, toks[0])|;
    assert end == |sql| && toks == [t] && p == Calm;
    ScanLastComment(fl, sql, pos, t.body, index);
    ScanNothing(fl, sql, end, CLEAR.(line := true), index);
    hide Scan, HasPrefixAt, Spells, Text;
    assert Rewrite([t], index) == [t] + [];
    RenderCons(fl, t, []);
  }

  lemma {:induction false} ScanIsRewriteToken(fl: Flavour, sql: string, pos: nat, toks: seq<Token>, p: Pending, index: nat)
    requires toks != [] && !toks[0].Plain? && !toks[0].Hole? && !toks[0].LastComment?
    requires pos <= |sql| && Spells(fl, sql, pos, toks, p)
    ensures Scan(fl, sql, pos, FlagsOf(p, false), index) == Render(fl, Rewrite(toks, index))
    decreases |toks|, 0
  {
    hide Scan, HasPrefixAt, Spells, Text;
    var t, rest, end := toks[0], toks[1..], pos + |Text(fl, toks[0])|;
    FirstToken(fl, sql, pos, toks, p);
    ScanToken(fl, sql, pos, toks, p, index);
    ScanIsRewrite(fl, sql, end, rest, Calm, index);
    RenderCons(fl, t, Rewrite(rest, index));
  }

  // ----- the second pass of a cached read -----

  /** The two passes may judge an operator before a placeholder differently, but alike enough. */
  predicate Alike(p: Pending, q: Pending) {
    || p == q
    || (q == Calm && (p == Minus || p == Slash))
    || (p == Minus && q == SawMinus) || (p == SawMinus && q == Minus)
    || (p == Slash && q == SawSlash) || (p == SawSlash && q == Slash)
  }

  lemma AlikeStep(fl: Flavour, p: Pending, q: Pending, c: char)
    requires Alike(p, q) && Plainly(fl, p, c).Some?
    ensures Plainly(fl, q, c).Some? && Alike(Plainly(fl, p, c).value, Plainly(fl, q, c).value)
  {}

  /** The last `k` characters before the two positions agree; before them stands the start of
      both texts, or a placeholder on one side and its digits on the other. */
  ghost predicate SameTail(sql: string, pos: nat, out: string, at: nat, k: nat) {
    && k <= pos <= |sql| && k <= at <= |out| && sql[pos - k..pos] == out[at - k..at]
    && ((k == pos && k == at) || (k < pos && k < at && sql[pos - k - 1] == '?' && '0' <= out[at - k - 1] <= '9'))
  }

  lemma SameJsonb(sql: string, pos: nat, out: string, at: nat, k: nat)
    requires SameTail(sql, pos, out, at, k)
    ensures JsonbBefore(sql, pos) == JsonbBefore(out, at)
  {
    if k >= 7 {
      assert sql[pos - 7..pos] == sql[pos - k..pos][k - 7..] == out[at - k..at][k - 7..] == out[at - 7..at];
    } else if k < pos {
      if pos >= 7 { assert sql[pos - 7..pos][6 - k] == '?' && '?' !in "::jsonb"; }
      if at >= 7 { assert out[at - 7..at][6 - k] == out[at - k - 1]; assert forall c :: c in "::jsonb" ==> !('0' <= c <= '9'); }
    }
  }

  lemma GrowTail(sql: string, pos: nat, out: string, at: nat, k: nat, n: nat)
    requires SameTail(sql, pos, out, at, k) && pos + n <= |sql| && at + n <= |out|
    requires sql[pos..pos + n] == out[at..at + n]
    ensures SameTail(sql, pos + n, out, at + n, k + n)
  {
    assert sql[pos - k..pos + n] == sql[pos - k..pos] + sql[pos..pos + n];
    assert out[at - k..at + n] == out[at - k..at] + out[at..at + n];
  }

  lemma {:induction false} PlainTwice(fl: Flavour, sql: string, pos: nat, out: string, at: nat, k: nat, n: nat,
                                      p: Pending, q: Pending, jsonb: bool)
    requires pos + n <= |sql| && at + n <= |out| && SameTail(sql, pos, out, at, k)
    requires sql[pos..pos + n] == out[at..at + n] && Alike(p, q)
    requires PlainRun(fl, sql, pos, pos + n, p, jsonb).Some?
    ensures PlainRun(fl, out, at, at + n, q, jsonb).Some?
    ensures Alike(PlainRun(fl, sql, pos, pos + n, p, jsonb).value, PlainRun(fl, out, at, at + n, q, jsonb).value)
    decreases n
  {
    hide SameTail, Alike, Plainly, JsonbBefore;
    if n > 0 {
      SameSlices(sql, pos, out, at, n);
      AlikeStep(fl, p, q, sql[pos]);
      SameJsonb(sql, pos, out, at, k);
      GrowTail(sql, pos, out, at, k, 1);
      PlainTwice(fl, sql, pos + 1, out, at + 1, k + 1, n - 1,
                 Plainly(fl, p, sql[pos]).value, Plainly(fl, q, out[at]).value, jsonb);
    }
  }

  lemma SameSlices(sql: string, pos: nat, out: string, at: nat, n: nat)
    requires n > 0 && pos + n <= |sql| && at + n <= |out| && sql[pos..pos + n] == out[at..at + n]
    ensures sql[pos] == out[at] && sql[pos..pos + 1] == out[at..at + 1]
    ensures sql[pos + 1..pos + n] == out[at + 1..at + n]
  {
    assert sql[pos] == sql[pos..pos + n][0] == out[at..at + n][0] == out[at];
    assert sql[pos + 1..pos + n] == sql[pos..pos + n][1..] == out[at..at + n][1..] == out[at + 1..at + n];
  }

  /** The text of these tokens begins like the rest of a dollar-quote tag: tag characters up to
      a dollar sign. */
  predicate TagRest(toks: seq<Token>) {
    toks != [] &&
    match toks[0]
    case Plain(s) => IsTag(s) && TagRest(toks[1..])
    case Hole => true
    case Param(_) => true
    case Dollar(_, _) => true
    case _ => false
  }

  /** No placeholder will be read as the beginning of a tag once it is written as `$k`. */
  predicate NoTags(fl: Flavour, toks: seq<Token>) {
    fl.Oracle? || forall i :: 0 <= i < |toks| && toks[i].Hole? ==> !TagRest(toks[i + 1..])
  }

  ghost predicate NoParams(toks: seq<Token>) { forall t :: t in toks ==> !t.Param? }

  /** Plain text of PostgreSQL holds no dollar sign. */
  ghost predicate NoDollars(toks: seq<Token>) { forall t :: t in toks && t.Plain? ==> '$' !in t.text }

  ghost predicate NoHoles(toks: seq<Token>) { forall t :: t in toks ==> !t.Hole? }

  lemma {:induction false} TagEndSkips(out: string, i: nat, n: nat)
    requires i + n <= |out| && forall j :: i <= j < i + n ==> IsTagChar(out[j])
    ensures TagEnd(out, i) == TagEnd(out, i + n)
    decreases n
  {
    if n > 0 {
      assert IsTagChar(out[i]) && out[i] != '$';
      TagEndSkips(out, i + 1, n - 1);
    }
  }

  lemma TagEndStops(out: string, i: nat, j: nat)
    requires i <= j < |out| && (forall k :: i <= k < j ==> IsTagChar(out[k])) && !IsTagChar(out[j])
    ensures (TagEnd(out, i) != -1) == (out[j] == '$')
  {
    TagEndSkips(out, i, j - i);
  }

  /** The first character that is no tag character, or the length. */
  function TagRun(s: string): (n: nat)
    ensures n <= |s| && (n < |s| ==> !IsTagChar(s[n])) && forall i :: 0 <= i < n ==> IsTagChar(s[i])
  {
    if s != "" && IsTagChar(s[0]) then 1 + TagRun(s[1..]) else 0
  }

  lemma IsTagRun(s: string)
    ensures IsTag(s) <==> TagRun(s) == |s|
  {
    if TagRun(s) < |s| { assert s[TagRun(s)] in s; }
    else { assert forall c :: c in s ==> exists i :: 0 <= i < |s| && s[i] == c; }
  }

  /** A stretch of text on the way to the dollar sign. */
  lemma TagThroughText(out: string, at: nat, text: string)
    requires at + |text| <= |out| && out[at..at + |text|] == text
    ensures IsTag(text) ==> TagEnd(out, at) == TagEnd(out, at + |text|)
    ensures !IsTag(text) && '$' !in text ==> TagEnd(out, at) == -1
  {
    hide TagEnd, IsTag;
    IsTagRun(text);
    var n := TagRun(text);
    forall j | at <= j < at + n ensures IsTagChar(out[j]) { assert out[j] == out[at..at + |text|][j - at]; }
    if n == |text| {
      TagEndSkips(out, at, n);
    } else {
      assert out[at + n] == out[at..at + |text|][n] == text[n] && text[n] in text;
      TagEndStops(out, at, at + n);
    }
  }

  lemma RenderSplit(fl: Flavour, toks: seq<Token>)
    requires toks != []
    ensures Render(fl, toks) == Text(fl, toks[0]) + Render(fl, toks[1..])
  {}

  /** The text at `at` goes on to a dollar sign by tag characters only if the tokens do, and, once
      the placeholders are written, exactly if they do. */
  lemma {:induction false} TagRestIff(out: string, at: nat, toks: seq<Token>)
    requires at <= |out| && out[at..] == Render(Postgres, toks) && NoDollars(toks)
    ensures TagEnd(out, at) != -1 ==> TagRest(toks)
    ensures NoHoles(toks) && TagRest(toks) ==> TagEnd(out, at) != -1
    decreases |toks|
  {
    hide TagEnd, Render, HasPrefixAt, Text, NoDollars, TagRest, NoHoles;
    if toks != [] {
      var t, more := toks[0], toks[1..];
      NoDollarsSplit(toks);
      NoHolesSplit(toks);
      TagRestFirst(toks);
      RenderSplit(Postgres, toks);
      RestPrefix(out, at, Text(Postgres, t), Render(Postgres, more));
      if t.Plain? {
        TextOfPlain(Postgres, t);
        TagThroughText(out, at, t.text);
        TagRestIff(out, at + |t.text|, more);
      } else {
        TagAtToken(out, at, t);
      }
    } else {
      RenderNothing(Postgres, out, at);
      NoTagAtEnd(out, at, toks);
    }
  }

  lemma NoHolesSplit(toks: seq<Token>)
    requires toks != []
    ensures NoHoles(toks) <==> NoHoles(toks[1..]) && !toks[0].Hole?
  {
    assert forall x :: x in toks <==> x == toks[0] || x in toks[1..];
  }

  lemma TagRestFirst(toks: seq<Token>)
    requires toks != []
    ensures TagRest(toks) <==>
      if toks[0].Plain? then IsTag(toks[0].text) && TagRest(toks[1..])
      else toks[0].Hole? || toks[0].Param? || toks[0].Dollar?
  {}

  lemma NoTagAtEnd(out: string, at: nat, toks: seq<Token>)
    requires at == |out| && toks == []
    ensures TagEnd(out, at) == -1 && !TagRest(toks)
  {}

  lemma TagAtToken(out: string, at: nat, t: Token)
    requires !t.Plain? && at + |Text(Postgres, t)| <= |out| && out[at..at + |Text(Postgres, t)|] == Text(Postgres, t)
    ensures TagEnd(out, at) != -1 <==> t.Param? || t.Dollar?
  {
    FirstChar(t);
    hide Text, TagEnd;
    assert out[at] == out[at..at + |Text(Postgres, t)|][0] == Text(Postgres, t)[0];
    TagEndStops(out, at, at);
  }

  lemma FirstChar(t: Token)
    requires !t.Plain?
    ensures
      var text := Text(Postgres, t);
      && text != "" && !IsTagChar(text[0])
      && (text[0] == '$' <==> t.Param? || t.Dollar?)
      && (t.Hole? ==> text[0] == '?')
  {}

  lemma {:induction false} TagRestRewritten(toks: seq<Token>, i: nat)
    ensures TagRest(Rewrite(toks, i)) == TagRest(toks)
    decreases |toks|
  {
    if toks != [] {
      TagRestRewritten(toks[1..], i);
      assert !toks[0].Hole? ==> Rewrite(toks, i)[1..] == Rewrite(toks[1..], i);
    }
  }

  /** A written parameter is read as the start of a tag exactly if what follows the placeholder
      is the rest of one. */
  lemma TagReadIff(out: string, at: nat, toks: seq<Token>, index: nat)
    requires at <= |out| && toks != [] && toks[0].Hole? && NoDollars(toks)
    requires out[at..] == Render(Postgres, Rewrite(toks, index))
    ensures TagAt(out, at) != "" <==> TagRest(toks[1..])
  {
    hide TagEnd, Render, TagRest, Text, NoDollars, NoHoles, TagAt;
    var rest := toks[1..];
    var more := Rewrite(rest, index + 1);
    NoDollarsSplit(toks);
    assert Rewrite(toks, index) == [Param(index)] + more;
    ParamAt(out, at, index, more);
    RewrittenDollars(rest, index + 1);
    TagRestRewritten(rest, index + 1);
    TagRestIff(out, at + |Text(Postgres, Param(index))|, more);
  }

  lemma NoDollarsSplit(toks: seq<Token>)
    requires toks != []
    ensures NoDollars(toks) <==> NoDollars(toks[1..]) && (toks[0].Plain? ==> '$' !in toks[0].text)
  {
    assert forall x :: x in toks <==> x == toks[0] || x in toks[1..];
  }

  /** A written parameter: a tag starts there if its text goes on to a dollar sign. */
  lemma ParamAt(out: string, at: nat, index: nat, more: seq<Token>)
    requires at <= |out| && out[at..] == Render(Postgres, [Param(index)] + more)
    ensures
      var next := at + |Text(Postgres, Param(index))|;
      && next <= |out| && out[next..] == Render(Postgres, more)
      && (TagAt(out, at) != "" <==> TagEnd(out, next) != -1)
  {
    hide Render, Itoa, HasPrefixAt, TagEnd, TagAt;
    var text, digits := Text(Postgres, Param(index)), Itoa(index);
    RenderCons(Postgres, Param(index), more);
    RestPrefix(out, at, text, Render(Postgres, more));
    ParamTag(out, at, digits);
  }

  lemma ParamTag(out: string, at: nat, digits: string)
    requires at + 1 + |digits| <= |out| && out[at..at + 1 + |digits|] == "$" + digits
    requires forall c :: c in digits ==> '0' <= c <= '9'
    ensures TagAt(out, at) != "" <==> TagEnd(out, at + 1 + |digits|) != -1
  {
    hide TagEnd, TagAt;
    DollarThenDigits(out, at, digits);
    TagThroughText(out, at + 1, digits);
    TagAtIff(out, at);
  }

  lemma DollarThenDigits(out: string, at: nat, digits: string)
    requires at + 1 + |digits| <= |out| && out[at..at + 1 + |digits|] == "$" + digits
    requires forall c :: c in digits ==> '0' <= c <= '9'
    ensures out[at] == '$' && out[at + 1..at + 1 + |digits|] == digits && IsTag(digits)
  {
    assert out[at] == out[at..at + 1 + |digits|][0];
    SubSlice(out, at, 1 + |digits|, 1, 1 + |digits|);
  }

  lemma TagAtIff(out: string, at: nat)
    requires at < |out| && out[at] == '$'
    ensures TagAt(out, at) != "" <==> TagEnd(out, at + 1) != -1
  {
    var end := TagEnd(out, at + 1);
    hide TagEnd;
    if end != -1 { assert out[at..end + 1][0] == '$'; }
  }

  lemma {:induction false} RewrittenDollars(toks: seq<Token>, i: nat)
    requires NoDollars(toks)
    ensures NoDollars(Rewrite(toks, i)) && NoHoles(Rewrite(toks, i))
    decreases |toks|
  {
    if toks != [] {
      assert toks[0] in toks && forall x :: x in toks[1..] ==> x in toks;
      RewrittenDollars(toks[1..], if toks[0].Hole? then i + 1 else i);
      var more := Rewrite(toks[1..], if toks[0].Hole? then i + 1 else i);
      assert forall x :: x in Rewrite(toks, i) ==> x == Rewrite(toks, i)[0] || x in more;
    }
  }

  lemma NoDollarsNone(toks: seq<Token>)
    requires toks == []
    ensures NoDollars(toks)
  {}

  lemma {:induction false} PlainHasNoDollar(sql: string, pos: nat, end: nat, p: Pending)
    requires pos <= end <= |sql| && PlainRun(Postgres, sql, pos, end, p, false).Some?
    ensures '$' !in sql[pos..end]
    decreases end - pos
  {
    if pos < end {
      PlainHasNoDollar(sql, pos + 1, end, Plainly(Postgres, p, sql[pos]).value);
      assert sql[pos..end] == [sql[pos]] + sql[pos + 1..end];
    }
  }

  lemma {:induction false} SpelledNoDollars(sql: string, pos: nat, toks: seq<Token>, p: Pending)
    requires Spells(Postgres, sql, pos, toks, p)
    ensures NoDollars(toks)
    decreases |toks|
  {
    hide PlainRun, HasPrefixAt, Spells, Text, NoDollars, Plainly;
    if toks == [] {
      NoDollarsNone(toks);
    } else {
      var t, rest := toks[0], toks[1..];
      FirstToken(Postgres, sql, pos, toks, p);
      NoDollarsSplit(toks);
      if t.Plain? {
        TextOfPlain(Postgres, t);
        SliceIs(sql, pos, t.text);
        PlainHasNoDollar(sql, pos, pos + |t.text|, p);
        SpelledNoDollars(sql, pos + |t.text|, rest, PlainRun(Postgres, sql, pos, pos + |t.text|, p, false).value);
      } else if t.Hole? {
        SpelledNoDollars(sql, pos + 1, rest, AfterHole(p));
      } else if !t.LastComment? {
        SpelledNoDollars(sql, pos + |Text(Postgres, t)|, rest, Calm);
      } else {
        NoDollarsNone(rest);
      }
    }
  }

  lemma RestPrefix(out: string, at: nat, a: string, b: string)
    requires at <= |out| && out[at..] == a + b
    ensures at + |a| <= |out| && HasPrefixAt(out, at, a) && out[at + |a|..] == b
    ensures out[at..at + |a|] == a
  {
    assert forall j :: 0 <= j < |a| ==> out[at..][j] == a[j];
    assert out[at + |a|..] == out[at..][|a|..];
  }

  lemma NoTagsRest(fl: Flavour, toks: seq<Token>)
    requires toks != [] && NoTags(fl, toks) && NoParams(toks)
    ensures NoTags(fl, toks[1..]) && NoParams(toks[1..])
  {
    var rest := toks[1..];
    assert forall x :: x in rest ==> x in toks;
    forall i | 0 <= i < |rest| && rest[i].Hole? ensures fl.Oracle? || !TagRest(rest[i + 1..]) {
      assert toks[i + 1].Hole? && rest[i + 1..] == toks[(i + 1) + 1..];
    }
  }

  lemma HoleTwice(fl: Flavour, sql: string, pos: nat, toks: seq<Token>, out: string, at: nat, index: nat)
    requires toks != [] && toks[0].Hole? && NoTags(fl, toks) && HasPrefixAt(sql, pos, "?")
    requires at <= |out| && out[at..] == Render(fl, Rewrite(toks, index)) && (fl.Postgres? ==> NoDollars(toks))
    ensures
      var at' := at + |Text(fl, Param(index))|;
      && at' <= |out| && HasPrefixAt(out, at, Text(fl, Param(index))) && (fl.Postgres? ==> TagAt(out, at) == "")
      && out[at'..] == Render(fl, Rewrite(toks[1..], index + 1))
      && SameTail(sql, pos + 1, out, at', 0)
  {
    var text := Text(fl, Param(index));
    RenderCons(fl, Param(index), Rewrite(toks[1..], index + 1));
    RestPrefix(out, at, text, Render(fl, Rewrite(toks[1..], index + 1)));
    if fl.Postgres? {
      assert toks[0 + 1..] == toks[1..];
      TagReadIff(out, at, toks, index);
    }
    var digits := Itoa(index);
    assert text[|text| - 1] == digits[|digits| - 1] && digits[|digits| - 1] in digits;
    assert out[at + |text| - 1] == out[at..at + |text|][|text| - 1];
    Heads(sql, pos, "?");
  }

  lemma CopyTwice(fl: Flavour, sql: string, pos: nat, toks: seq<Token>, out: string, at: nat, k: nat, index: nat)
    requires toks != [] && !toks[0].Hole? && HasPrefixAt(sql, pos, Text(fl, toks[0]))
    requires SameTail(sql, pos, out, at, k) && out[at..] == Render(fl, Rewrite(toks, index))
    ensures
      var n := |Text(fl, toks[0])|;
      && pos + n <= |sql| && at + n <= |out|
      && HasPrefixAt(out, at, Text(fl, toks[0])) && sql[pos..pos + n] == out[at..at + n]
      && out[at + n..] == Render(fl, Rewrite(toks[1..], index))
      && SameTail(sql, pos + n, out, at + n, k + n)
  {
    hide HasPrefixAt, Text, Render, SameTail, Rewrite;
    var t, more := toks[0], Rewrite(toks[1..], index);
    TailInside(sql, pos, out, at, k);
    RewriteFirst(toks, index);
    RenderCons(fl, t, more);
    RestPrefix(out, at, Text(fl, t), Render(fl, more));
    SliceIs(sql, pos, Text(fl, t));
    Fits(sql, pos, Text(fl, t));
    GrowTail(sql, pos, out, at, k, |Text(fl, t)|);
  }

  lemma RewriteFirst(toks: seq<Token>, index: nat)
    requires toks != [] && !toks[0].Hole?
    ensures Rewrite(toks, index) == [toks[0]] + Rewrite(toks[1..], index)
  {}

  lemma Fits(sql: string, pos: nat, text: string)
    requires HasPrefixAt(sql, pos, text)
    ensures pos + |text| <= |sql|
  {}

  lemma TailInside(sql: string, pos: nat, out: string, at: nat, k: nat)
    requires SameTail(sql, pos, out, at, k)
    ensures pos <= |sql| && at <= |out|
  {}

  /** A token other than plain text and placeholders means the same wherever it stands. */
  lemma MovedToken(fl: Flavour, sql: string, pos: nat, toks: seq<Token>, out: string, at: nat, more: seq<Token>)
    requires toks != [] && Spells(fl, sql, pos, toks, Calm)
    requires !toks[0].Plain? && !toks[0].Hole? && !toks[0].Param? && !toks[0].LastComment?
    requires HasPrefixAt(out, at, Text(fl, toks[0])) && Spells(fl, out, at + |Text(fl, toks[0])|, more, Calm)
    requires toks[0].JsonbHole? ==> PlainRun(fl, out, at + 8, at + |Text(fl, toks[0])| - 1, Calm, true) == Some(Calm)
    ensures Spells(fl, out, at, [toks[0]] + more, Calm)
  {
    hide PlainRun, TagAt, TrailingStars, Itoa, NoCommentEnd, HasPrefixAt;
    var toks' := [toks[0]] + more;
    assert toks'[0] == toks[0] && toks'[1..] == more;
  }

  lemma MovedPlain(fl: Flavour, t: Token, out: string, at: nat, more: seq<Token>, q: Pending)
    requires t.Plain? && HasPrefixAt(out, at, t.text)
    requires
      var run := PlainRun(fl, out, at, at + |t.text|, q, false);
      run.Some? && Spells(fl, out, at + |t.text|, more, run.value)
    ensures Spells(fl, out, at, [t] + more, q)
  {
    hide PlainRun, HasPrefixAt;
    assert ([t] + more)[1..] == more;
  }

  lemma MovedHole(fl: Flavour, k: nat, out: string, at: nat, more: seq<Token>, q: Pending)
    requires HasPrefixAt(out, at, Text(fl, Param(k))) && (fl.Postgres? ==> TagAt(out, at) == "")
    requires Spells(fl, out, at + |Text(fl, Param(k))|, more, Calm)
    ensures Spells(fl, out, at, [Param(k)] + more, q)
  {
    hide TagAt, HasPrefixAt, Itoa;
    assert ([Param(k)] + more)[1..] == more;
  }

  lemma MovedLast(fl: Flavour, sql: string, pos: nat, toks: seq<Token>, out: string, at: nat)
    requires toks != [] && toks[0].LastComment? && Spells(fl, sql, pos, toks, Calm)
    requires HasPrefixAt(out, at, Text(fl, toks[0])) && at + |Text(fl, toks[0])| == |out|
    ensures Spells(fl, out, at, [toks[0]], Calm)
  {}

  /** What the first token says, and what it leaves to the others. */
  lemma FirstToken(fl: Flavour, sql: string, pos: nat, toks: seq<Token>, p: Pending)
    requires toks != [] && Spells(fl, sql, pos, toks, p)
    ensures
      var t, n := toks[0], |Text(fl, toks[0])|;
      && HasPrefixAt(sql, pos, Text(fl, t)) && pos + n <= |sql|
      && (!t.Plain? && !t.Hole? && !t.Param? ==> p == Calm)
      && (t.Plain? ==> var run := PlainRun(fl, sql, pos, pos + n, p, false);
            run.Some? && Spells(fl, sql, pos + n, toks[1..], run.value))
      && (t.Hole? ==> n == 1 && HasPrefixAt(sql, pos, "?") && Spells(fl, sql, pos + 1, toks[1..], AfterHole(p)))
      && (t.LastComment? ==> toks[1..] == [])
      && (t.JsonbHole? ==> PlainRun(fl, sql, pos + 8, pos + n - 1, Calm, true) == Some(Calm))
      && (!t.Plain? && !t.Hole? && !t.LastComment? ==> Spells(fl, sql, pos + n, toks[1..], Calm))
  {
    hide PlainRun, TagAt, Itoa, TrailingStars, NoCommentEnd;
  }

  /** What the first pass wrote is spelled by the rewritten tokens. */
  lemma {:induction false} RewriteSpells(fl: Flavour, sql: string, pos: nat, toks: seq<Token>, p: Pending,
                                      out: string, at: nat, q: Pending, k: nat, index: nat)
    requires pos <= |sql| && Spells(fl, sql, pos, toks, p) && Alike(p, q)
    requires NoParams(toks) && NoTags(fl, toks) && SameTail(sql, pos, out, at, k)
    requires at <= |out| && out[at..] == Render(fl, Rewrite(toks, index))
    ensures Spells(fl, out, at, Rewrite(toks, index), q)
    decreases |toks|, 1
  {
    if toks == [] {
      RenderNothing(fl, out, at);
    } else if toks[0].Hole? {
      RewriteHole(fl, sql, pos, toks, p, out, at, q, k, index);
    } else if toks[0].Plain? {
      RewritePlain(fl, sql, pos, toks, p, out, at, q, k, index);
    } else {
      assert toks[0] in toks;
      RewriteInert(fl, sql, pos, toks, p, out, at, q, k, index);
    }
  }

  lemma {:induction false} RewriteHole(fl: Flavour, sql: string, pos: nat, toks: seq<Token>, p: Pending,
                                      out: string, at: nat, q: Pending, k: nat, index: nat)
    requires toks != [] && toks[0].Hole?
    requires pos <= |sql| && Spells(fl, sql, pos, toks, p) && Alike(p, q)
    requires NoParams(toks) && NoTags(fl, toks) && SameTail(sql, pos, out, at, k)
    requires at <= |out| && out[at..] == Render(fl, Rewrite(toks, index))
    ensures Spells(fl, out, at, Rewrite(toks, index), q)
    decreases |toks|, 0
  {
    hide PlainRun, TagAt, Alike, Render, HasPrefixAt, SameTail, NoTags, NoParams, NoDollars, Spells, Text;
    var rest := toks[1..];
    FirstToken(fl, sql, pos, toks, p);
    NoTagsRest(fl, toks);
    AlikeCalm(p, q);
    if fl.Postgres? { SpelledNoDollars(sql, pos, toks, p); }
    HoleTwice(fl, sql, pos, toks, out, at, index);
    RewriteSpells(fl, sql, pos + 1, rest, AfterHole(p), out, at + |Text(fl, Param(index))|, Calm, 0, index + 1);
    MovedHole(fl, index, out, at, Rewrite(rest, index + 1), q);
  }

  lemma {:induction false} RewritePlain(fl: Flavour, sql: string, pos: nat, toks: seq<Token>, p: Pending,
                                      out: string, at: nat, q: Pending, k: nat, index: nat)
    requires toks != [] && toks[0].Plain?
    requires pos <= |sql| && Spells(fl, sql, pos, toks, p) && Alike(p, q)
    requires NoParams(toks) && NoTags(fl, toks) && SameTail(sql, pos, out, at, k)
    requires at <= |out| && out[at..] == Render(fl, Rewrite(toks, index))
    ensures Spells(fl, out, at, Rewrite(toks, index), q)
    decreases |toks|, 0
  {
    hide PlainRun, TagAt, Alike, Render, HasPrefixAt, SameTail, NoTags, NoParams, NoDollars, Spells, Text;
    var t, rest, n := toks[0], toks[1..], |Text(fl, toks[0])|;
    FirstToken(fl, sql, pos, toks, p);
    NoTagsRest(fl, toks);
    CopyTwice(fl, sql, pos, toks, out, at, k, index);
    PlainTwice(fl, sql, pos, out, at, k, n, p, q, false);
    RewriteSpells(fl, sql, pos + n, rest, PlainRun(fl, sql, pos, pos + n, p, false).value,
                  out, at + n, PlainRun(fl, out, at, at + n, q, false).value, k + n, index);
    TextOfPlain(fl, t);
    MovedPlain(fl, t, out, at, Rewrite(rest, index), q);
  }

  lemma {:induction false} RewriteInert(fl: Flavour, sql: string, pos: nat, toks: seq<Token>, p: Pending,
                                      out: string, at: nat, q: Pending, k: nat, index: nat)
    requires toks != [] && !toks[0].Hole? && !toks[0].Plain? && !toks[0].Param?
    requires pos <= |sql| && Spells(fl, sql, pos, toks, p) && Alike(p, q)
    requires NoParams(toks) && NoTags(fl, toks) && SameTail(sql, pos, out, at, k)
    requires at <= |out| && out[at..] == Render(fl, Rewrite(toks, index))
    ensures Spells(fl, out, at, Rewrite(toks, index), q)
    decreases |toks|, 0
  {
    hide Rewrite, PlainRun, TagAt, Alike, Render, HasPrefixAt, SameTail, NoTags, NoParams, NoDollars, Spells, Text;
    var t, rest, n := toks[0], toks[1..], |Text(fl, toks[0])|;
    FirstToken(fl, sql, pos, toks, p);
    NoTagsRest(fl, toks);
    AlikeCalm(p, q);
    CopyTwice(fl, sql, pos, toks, out, at, k, index);
    if t.LastComment? {
      assert toks == [t] && rest == [];
      RewriteFirst(toks, index);
      RewriteNone(index);
      RenderNothing(fl, out, at + n);
      MovedLast(fl, sql, pos, toks, out, at);
      assert [t] + [] == [t];
    } else {
      if t.JsonbHole? {
        TextOfJsonb(fl, t);
        JsonbTwice(fl, sql, pos, out, at, k, t.gap);
      }
      RewriteFirst(toks, index);
      RewriteSpells(fl, sql, pos + n, rest, Calm, out, at + n, Calm, k + n, index);
      MovedToken(fl, sql, pos, toks, out, at, Rewrite(rest, index));
    }
  }

  lemma RewriteNone(index: nat)
    ensures Rewrite([], index) == []
  {}

  lemma TextOfPlain(fl: Flavour, t: Token)
    requires t.Plain?
    ensures Text(fl, t) == t.text
  {}

  lemma TextOfJsonb(fl: Flavour, t: Token)
    requires t.JsonbHole?
    ensures |Text(fl, t)| == |t.gap| + 9
  {}

  lemma RenderNothing(fl: Flavour, out: string, at: nat)
    requires at <= |out| && out[at..] == Render(fl, [])
    ensures at == |out|
  {}

  lemma SubSlice(s: string, pos: nat, n: nat, i: nat, j: nat)
    requires pos + n <= |s| && i <= j <= n
    ensures s[pos..pos + n][i..j] == s[pos + i..pos + j]
  {
    var a, b := s[pos..pos + n][i..j], s[pos + i..pos + j];
    assert forall k :: 0 <= k < j - i ==> a[k] == s[pos..pos + n][i + k];
    assert forall k :: 0 <= k < j - i ==> b[k] == s[(pos + i) + k];
    assert |a| == |b|;
    forall k | 0 <= k < |a| ensures a[k] == b[k] {}
  }

  lemma AlikeCalm(p: Pending, q: Pending)
    requires Alike(p, q)
    ensures p == Calm ==> q == Calm
    ensures Alike(AfterHole(p), Calm) && Alike(Calm, Calm)
  {}

  lemma JsonbTwice(fl: Flavour, sql: string, pos: nat, out: string, at: nat, k: nat, g: string)
    requires SameTail(sql, pos, out, at, k) && pos + |g| + 9 <= |sql| && at + |g| + 9 <= |out|
    requires sql[pos..pos + |g| + 9] == out[at..at + |g| + 9]
    requires PlainRun(fl, sql, pos + 8, pos + |g| + 8, Calm, true) == Some(Calm)
    ensures PlainRun(fl, out, at + 8, at + |g| + 8, Calm, true) == Some(Calm)
  {
    SubSlice(sql, pos, |g| + 9, 0, 8);
    SubSlice(out, at, |g| + 9, 0, 8);
    SubSlice(sql, pos, |g| + 9, 8, |g| + 8);
    SubSlice(out, at, |g| + 9, 8, |g| + 8);
    hide PlainRun, SameTail;
    GrowTail(sql, pos, out, at, k, 8);
    PlainTwice(fl, sql, pos + 8, out, at + 8, k + 8, |g|, Calm, Calm, true);
  }

  lemma {:induction false} NothingToRewrite(toks: seq<Token>, i: nat, j: nat)
    requires NoParams(toks)
    ensures Rewrite(Rewrite(toks, i), j) == Rewrite(toks, i)
  {
    if toks != [] {
      assert forall x :: x in toks[1..] ==> x in toks;
      var next := if toks[0].Hole? then i + 1 else i;
      NothingToRewrite(toks[1..], next, j);
      assert Rewrite(toks, i)[1..] == Rewrite(toks[1..], next);
    }
  }

  /** A cached read filters its SQL twice. The first pass numbers the placeholders token by
      token; the second pass, from any start, changes nothing if no placeholder becomes the
      beginning of a tag. */
  lemma FilterTwice(fl: Flavour, sql: string, toks: seq<Token>, start: nat, again: nat)
    requires Spells(fl, sql, 0, toks, Calm) && NoParams(toks)
    ensures Filtered(fl, sql, start) == Render(fl, Rewrite(toks, start))
    ensures NoTags(fl, toks) ==> Filtered(fl, Filtered(fl, sql, start), again) == Filtered(fl, sql, start)
  {
    ScanIsRewrite(fl, sql, 0, toks, Calm, start);
    if NoTags(fl, toks) {
      var out := Filtered(fl, sql, start);
      assert out[0..] == out;
      RewriteSpells(fl, sql, 0, toks, Calm, out, 0, Calm, 0, start);
      ScanIsRewrite(fl, out, 0, Rewrite(toks, start), Calm, again);
      NothingToRewrite(toks, start, again);
    }
  }
}
