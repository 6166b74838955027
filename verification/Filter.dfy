/** The placeholder filters: one pass over the SQL text, `?` becoming `$k` or `:k`. */
module Filter {
  import opened Strings

  datatype Flavour = Postgres | Oracle

  function Prefix(fl: Flavour): string { if fl.Postgres? then "$" else ":" }

  predicate IsTagChar(c: char) {
    'a' <= c <= 'z' || 'A' <= c <= 'Z' || '0' <= c <= '9' || c == '_'
  }

  /** The lexer's flags; `tag` is the open dollar-quote tag, empty when there is none. */
  datatype Flags = Flags(quote: bool, line: bool, block: bool, maybeLine: bool, maybeBlock: bool,
                         maybeEnd: bool, maybeJsonb: bool, tag: string)

  const CLEAR := Flags(false, false, false, false, false, false, false, "")

  predicate HasPrefixAt(sql: string, i: nat, p: string): (b: bool)
    ensures b ==> i + |p| <= |sql|
  {
    i + |p| <= |sql| && forall j :: 0 <= j < |p| ==> sql[i + j] == p[j]
  }

  predicate JsonbBefore(sql: string, i: nat)
    requires i <= |sql|
  {
    i >= 7 && sql[i - 7..i] == "::jsonb"
  }

  const JSONB := "::jsonb "

  predicate Holds(s: string, part: string) { exists j :: 0 <= j <= |s| && HasPrefixAt(s, j, part) }

  /** No character of `::jsonb`. */
  predicate Edge(c: char) { c != ':' && c != 'j' && c != 's' && c != 'o' && c != 'n' && c != 'b' }

  /** The position of the `$` that ends a tag whose inner characters start at `i`. */
  function TagEnd(sql: string, i: nat): (r: int)
    ensures r == -1 || i <= r < |sql|
    decreases |sql| - i
  {
    if i >= |sql| then -1
    else if sql[i] == '$' then i
    else if !IsTagChar(sql[i]) then -1
    else TagEnd(sql, i + 1)
  }

  /** The dollar-quote tag that starts at `i`, or the empty string. */
  function TagAt(sql: string, i: nat): (tag: string)
    ensures tag != "" ==> |tag| >= 2 && HasPrefixAt(sql, i, tag)
  {
    if i < |sql| && sql[i] == '$' && TagEnd(sql, i + 1) != -1 then sql[i..TagEnd(sql, i + 1) + 1] else ""
  }

  predicate AtHole(f: Flags, c: char) {
    !f.quote && !f.line && !f.block && !f.maybeJsonb && c == '?'
  }

  /** The switch reaches its dollar case. */
  predicate AtDollar(fl: Flavour, f: Flags, c: char) {
    fl.Postgres? && c == '$' && !f.quote && !f.line && !f.block && !f.maybeLine && !f.maybeBlock && !f.maybeEnd
  }

  /** The flags after an ordinary character, the switch's cases in their order. */
  function Next(fl: Flavour, f: Flags, c: char, jsonb: bool): Flags {
    if f.maybeJsonb && c == '?' then f.(maybeJsonb := false)
    else if f.maybeLine then f.(line := f.line || c == '-', maybeLine := false)
    else if f.maybeBlock then f.(block := f.block || c == '*', maybeBlock := false)
    else if f.maybeEnd then f.(block := f.block && c != '/', maybeEnd := false)
    else if f.line then f.(line := c != '\n')
    else if f.block then f.(maybeEnd := c == '*')
    else if !f.quote && c == '-' then f.(maybeLine := true)
    else if !f.quote && c == '/' then f.(maybeBlock := true)
    else if !f.quote && c == ' ' && fl.Postgres? && jsonb then f.(maybeJsonb := true)
    else if c == '\'' then f.(quote := !f.quote)
    else f
  }

  /** The filter's output from position `i` on. */
  function Scan(fl: Flavour, sql: string, i: nat, f: Flags, index: nat): string
    decreases |sql| - i
  {
    if i >= |sql| then ""
    else if f.tag != "" then
      if sql[i] == '$' && HasPrefixAt(sql, i, f.tag)
      then f.tag + Scan(fl, sql, i + |f.tag|, f.(tag := ""), index)
      else [sql[i]] + Scan(fl, sql, i + 1, f, index)
    else if AtHole(f, sql[i]) then Prefix(fl) + Itoa(index) + Scan(fl, sql, i + 1, f, index + 1)
    else if AtDollar(fl, f, sql[i]) && TagAt(sql, i) != "" then
      TagAt(sql, i) + Scan(fl, sql, i + |TagAt(sql, i)|, f.(tag := TagAt(sql, i)), index)
    else [sql[i]] + Scan(fl, sql, i + 1, Next(fl, f, sql[i], JsonbBefore(sql, i)), index)
  }

  function Filtered(fl: Flavour, sql: string, start: nat): string { Scan(fl, sql, 0, CLEAR, start) }

  method ExtractDollarQuoteTag(sql: string, start: nat) returns (tag: string, ok: bool)
    ensures tag == TagAt(sql, start) && ok == (tag != "")
  {
    if start >= |sql| || sql[start] != '$' {
      return "", false;
    }
    var i := start + 1;
    while i < |sql|
      invariant start + 1 <= i <= |sql|
      invariant TagEnd(sql, i) == TagEnd(sql, start + 1)
    {
      if sql[i] == '$' {
        return sql[start..i + 1], true;
      } else if !IsTagChar(sql[i]) {
        return "", false;
      }
      i := i + 1;
    }
    return "", false;
  }

  /** What is written next moves from the rest to the buffer. */
  ghost function Moved(buf: string, out: string, rest: string): (r: string)
    ensures r == rest && buf + (out + rest) == (buf + out) + r
  {
    assert buf + (out + rest) == (buf + out) + rest;
    rest
  }

  /** The switch of the loop; a dollar tag is the one case that does not end in a copy. */
  method Switch(fl: Flavour, f: Flags, c: char, jsonb: bool) returns (g: Flags)
    ensures g == Next(fl, f, c, jsonb)
  {
    g := f;
    if f.maybeJsonb && c == '?' {
      g := g.(maybeJsonb := false);
    } else if f.maybeLine {
      if c == '-' { g := g.(line := true); }
      g := g.(maybeLine := false);
    } else if f.maybeBlock {
      if c == '*' { g := g.(block := true); }
      g := g.(maybeBlock := false);
    } else if f.maybeEnd {
      if c == '/' { g := g.(block := false); }
      g := g.(maybeEnd := false);
    } else if f.line {
      if c == '\n' { g := g.(line := false); }
    } else if f.block {
      if c == '*' { g := g.(maybeEnd := true); }
    } else if !f.quote && c == '-' {
      g := g.(maybeLine := true);
    } else if !f.quote && c == '/' {
      g := g.(maybeBlock := true);
    } else if !f.quote && c == ' ' && fl.Postgres? && jsonb {
      g := g.(maybeJsonb := true);
    } else if c == '\'' {
      g := g.(quote := !f.quote);
    }
  }

  method PostgresConvertQuestionMark(sql: string, start: nat) returns (buf: string)
    ensures buf == Filtered(Postgres, sql, start)
  {
    hide JsonbBefore, HasPrefixAt, TagAt, TagEnd, Itoa;
    buf := "";
    var f := CLEAR;
    var index := start;
    var i := 0;
    ghost var rest := Filtered(Postgres, sql, start);
    while i < |sql|
      invariant 0 <= i <= |sql|
      invariant buf + rest == Filtered(Postgres, sql, start) && rest == Scan(Postgres, sql, i, f, index)
    {
      var c := sql[i];
      if f.tag != "" {
        if c == '$' && HasPrefixAt(sql, i, f.tag) {
          rest := Moved(buf, f.tag, Scan(Postgres, sql, i + |f.tag|, f.(tag := ""), index));
          buf := buf + f.tag;
          i := i + |f.tag|;
          f := f.(tag := "");
          continue;
        }
        rest := Moved(buf, [c], Scan(Postgres, sql, i + 1, f, index));
        buf := buf + [c];
        i := i + 1;
        continue;
      }
      if AtHole(f, c) {
        rest := Moved(buf, "$" + Itoa(index), Scan(Postgres, sql, i + 1, f, index + 1));
        buf := buf + ("$" + Itoa(index));
        index := index + 1;
        i := i + 1;
        continue;
      }
      if AtDollar(Postgres, f, c) {
        var tag, ok := ExtractDollarQuoteTag(sql, i);
        if ok {
          f := f.(tag := tag);
          rest := Moved(buf, tag, Scan(Postgres, sql, i + |tag|, f, index));
          buf := buf + tag;
          i := i + |tag|;
          continue;
        }
      }
      f := Switch(Postgres, f, c, JsonbBefore(sql, i));
      rest := Moved(buf, [c], Scan(Postgres, sql, i + 1, f, index));
      buf := buf + [c];
      i := i + 1;
    }
  }

  method OracleConvertQuestionMark(sql: string, start: nat) returns (buf: string)
    ensures buf == Filtered(Oracle, sql, start)
  {
    hide Scan, Next, AtHole, JsonbBefore, HasPrefixAt, TagAt, TagEnd, Itoa;
    buf := "";
    var f := CLEAR;
    var index := start;
    ghost var rest := Filtered(Oracle, sql, start);
    for i := 0 to |sql|
      invariant f.tag == ""
      invariant buf + rest == Filtered(Oracle, sql, start) && rest == Scan(Oracle, sql, i, f, index)
    {
      var c := sql[i];
      OracleStep(sql, i, f, index);
      if AtHole(f, c) {
        rest := Moved(buf, ":" + Itoa(index), Scan(Oracle, sql, i + 1, f, index + 1));
        buf := buf + ":";
        buf := buf + Itoa(index);
        index := index + 1;
      } else {
        f := Switch(Oracle, f, c, JsonbBefore(sql, i));
        rest := Moved(buf, [c], Scan(Oracle, sql, i + 1, f, index));
        buf := buf + [c];
      }
    }
    ScanNothing(Oracle, sql, |sql|, f, index);
    assert buf + "" == buf;
  }

  lemma OracleStep(sql: string, i: nat, f: Flags, index: nat)
    requires i < |sql| && f.tag == ""
    ensures Scan(Oracle, sql, i, f, index) ==
            if AtHole(f, sql[i]) then ":" + Itoa(index) + Scan(Oracle, sql, i + 1, f, index + 1)
            else [sql[i]] + Scan(Oracle, sql, i + 1, Next(Oracle, f, sql[i], JsonbBefore(sql, i)), index)
    ensures Next(Oracle, f, sql[i], JsonbBefore(sql, i)).tag == ""
  {
    hide JsonbBefore, Itoa;
  }

  lemma ScanNothing(fl: Flavour, s: string, i: nat, f: Flags, index: nat)
    requires i >= |s|
    ensures Scan(fl, s, i, f, index) == ""
  {}
}
