/** Texts on which the placeholder filter goes wrong, and exactly when it does. */
module FilterCorners {
  import opened Strings
  import opened Filter

  function Written(fl: Flavour, k: nat): string { (if fl.Postgres? then "$" else ":") + Itoa(k) }

  // ----- text further to the right -----

  lemma ShiftPrefix(pre: string, s: string, i: nat, p: string)
    requires i <= |s|
    ensures HasPrefixAt(pre + s, |pre| + i, p) == HasPrefixAt(s, i, p)
  {
    if i + |p| <= |s| {
      assert forall j {:trigger p[j]} :: 0 <= j < |p| ==> (pre + s)[|pre| + i + j] == s[i + j];
    }
  }

  lemma JsonbChars(w: string, j: nat)
    requires j < |w| && j < 7 && Edge(w[j])
    ensures w != "::jsonb"
  {}

  lemma NthOf(t: string, a: nat, b: nat, j: nat)
    requires a + j < b <= |t|
    ensures t[a..b][j] == t[a + j]
  {}

  lemma ShiftJsonb(pre: string, s: string, i: nat)
    requires i <= |s| && (pre != "" ==> Edge(pre[|pre| - 1]))
    ensures JsonbBefore(pre + s, |pre| + i) == JsonbBefore(s, i)
  {
    var t, n := pre + s, |pre| + i;
    if i >= 7 {
      ShiftSlice(pre, s, i - 7, i);
    } else if n >= 7 && pre != "" {
      var w := t[n - 7..n];
      NthOf(t, n - 7, n, 6 - i);
      JsonbChars(w, 6 - i);
    }
  }

  lemma {:induction false} ShiftTagEnd(pre: string, s: string, i: nat)
    ensures TagEnd(pre + s, |pre| + i) == if TagEnd(s, i) == -1 then -1 else |pre| + TagEnd(s, i)
    decreases |s| - i
  {
    if i < |s| {
      assert (pre + s)[|pre| + i] == s[i];
      ShiftTagEnd(pre, s, i + 1);
    }
  }

  lemma ShiftTag(pre: string, s: string, i: nat)
    requires i <= |s|
    ensures TagAt(pre + s, |pre| + i) == TagAt(s, i)
  {
    ShiftTagEnd(pre, s, i + 1);
    hide TagEnd;
    if i < |s| {
      assert (pre + s)[|pre| + i] == s[i];
      var e := TagEnd(s, i + 1);
      if e != -1 { ShiftSlice(pre, s, i, e + 1); }
    }
  }

  lemma ShiftSlice(pre: string, s: string, i: nat, j: nat)
    requires i <= j <= |s|
    ensures (pre + s)[|pre| + i..|pre| + j] == s[i..j]
  {}

  /** One turn of the scan: what is written, how far it goes, and the state after it. */
  datatype Turn = Turn(out: string, n: nat, f: Flags, index: nat)

  function TurnAt(fl: Flavour, s: string, i: nat, f: Flags, index: nat): (t: Turn)
    requires i < |s|
    ensures t.n > 0 && i + t.n <= |s|
  {
    if f.tag != "" then
      if s[i] == '$' && HasPrefixAt(s, i, f.tag) then Turn(f.tag, |f.tag|, f.(tag := ""), index)
      else Turn([s[i]], 1, f, index)
    else if AtHole(f, s[i]) then Turn(Written(fl, index), 1, f, index + 1)
    else if AtDollar(fl, f, s[i]) && TagAt(s, i) != "" then Turn(TagAt(s, i), |TagAt(s, i)|, f.(tag := TagAt(s, i)), index)
    else Turn([s[i]], 1, Next(fl, f, s[i], JsonbBefore(s, i)), index)
  }

  lemma ScanTurn(fl: Flavour, s: string, i: nat, f: Flags, index: nat)
    requires i < |s|
    ensures
      var t := TurnAt(fl, s, i, f, index);
      Scan(fl, s, i, f, index) == t.out + Scan(fl, s, i + t.n, t.f, t.index)
  {
    hide HasPrefixAt, JsonbBefore, Next, Itoa, TagAt, AtHole, AtDollar;
    if f.tag == "" && AtHole(f, s[i]) {
      assert Written(fl, index) == Prefix(fl) + Itoa(index);
    }
  }

  lemma ShiftTurn(fl: Flavour, pre: string, s: string, i: nat, f: Flags, index: nat)
    requires i < |s| && (pre != "" ==> Edge(pre[|pre| - 1]))
    ensures TurnAt(fl, pre + s, |pre| + i, f, index) == TurnAt(fl, s, i, f, index)
  {
    assert (pre + s)[|pre| + i] == s[i];
    ShiftJsonb(pre, s, i);
    ShiftPrefix(pre, s, i, f.tag);
    ShiftTag(pre, s, i);
    hide JsonbBefore, HasPrefixAt, TagAt, Next, Written;
  }

  /** What stands to the left does not matter, unless it could belong to `::jsonb`. */
  lemma {:induction false} ScanShift(fl: Flavour, pre: string, s: string, i: nat, f: Flags, index: nat)
    requires i <= |s| && (pre != "" ==> Edge(pre[|pre| - 1]))
    ensures Scan(fl, pre + s, |pre| + i, f, index) == Scan(fl, s, i, f, index)
    decreases |s| - i
  {
    hide Scan, TurnAt;
    if i < |s| {
      ScanTurn(fl, s, i, f, index);
      ScanTurn(fl, pre + s, |pre| + i, f, index);
      ShiftTurn(fl, pre, s, i, f, index);
      var t := TurnAt(fl, s, i, f, index);
      ScanShift(fl, pre, s, i + t.n, t.f, t.index);
    } else {
      ScanNothing(fl, s, i, f, index);
      ScanNothing(fl, pre + s, |pre| + i, f, index);
    }
  }

  // ----- an operator right before a placeholder -----

  predicate IsOperator(o: char) { o == '-' || o == '/' }

  /** The operator is still marked as a possible comment start after the placeholder. */
  function Marked(o: char): Flags { if o == '-' then CLEAR.(maybeLine := true) else CLEAR.(maybeBlock := true) }

  /** `o?` and then this text: the placeholder is numbered, and the text is filtered as it would
      be on its own. */
  predicate ReadsOn(fl: Flavour, o: char, k: nat, text: string) {
    Filtered(fl, [o] + "?" + text, k) == [o] + Written(fl, k) + Filtered(fl, text, k + 1)
  }

  /** The characters that are misread after an operator and a placeholder. */
  predicate Misread(fl: Flavour, o: char, c: char) {
    c == '-' || c == '/' || c == '\'' || c == '?' || (o == '/' && c == '*') || (fl.Postgres? && c == '$')
  }

  lemma OperatorAndHole(fl: Flavour, o: char, k: nat, text: string)
    requires IsOperator(o)
    ensures Filtered(fl, [o] + "?" + text, k) == [o] + Written(fl, k) + Scan(fl, [o] + "?" + text, 2, Marked(o), k + 1)
  {
    var s := [o] + "?" + text;
    assert s[0] == o && s[1] == '?';
    var rest := Scan(fl, s, 2, Marked(o), k + 1);
    assert Scan(fl, s, 1, Marked(o), k) == Written(fl, k) + rest;
    assert Scan(fl, s, 0, CLEAR, k) == [o] + Scan(fl, s, 1, Marked(o), k);
    hide Scan, Itoa;
    Join([o], Written(fl, k), rest);
  }

  lemma ReadsOnIff(fl: Flavour, o: char, k: nat, text: string)
    requires IsOperator(o)
    ensures ReadsOn(fl, o, k, text) <==> Scan(fl, [o] + "?" + text, 2, Marked(o), k + 1) == Filtered(fl, text, k + 1)
  {
    OperatorAndHole(fl, o, k, text);
    hide Filtered, Scan, Written;
    Cancel([o] + Written(fl, k), Scan(fl, [o] + "?" + text, 2, Marked(o), k + 1), Filtered(fl, text, k + 1));
  }

  lemma Cancel(a: string, b: string, c: string)
    ensures a + b == a + c <==> b == c
  {
    if a + b == a + c { assert b == (a + b)[|a|..] && c == (a + c)[|a|..]; }
  }

  lemma OtherCharactersReadOn(fl: Flavour, o: char, k: nat, c: char, tail: string)
    requires IsOperator(o) && !Misread(fl, o, c)
    ensures ReadsOn(fl, o, k, [c] + tail)
  {
    var text := [c] + tail;
    var s := [o] + "?" + text;
    assert s[2] == c && text[0] == c;
    ReadsOnIff(fl, o, k, text);
    assert Scan(fl, s, 2, Marked(o), k + 1) == [c] + Scan(fl, s, 3, CLEAR, k + 1);
    assert Scan(fl, text, 0, CLEAR, k + 1) == [c] + Scan(fl, text, 1, CLEAR, k + 1);
    hide Scan;
    ScanShift(fl, [o] + "?", text, 1, CLEAR, k + 1);
  }

  /** A text that starts with a misread character and comes out wrong. */
  function Witness(o: char, c: char): string {
    if c == '/' || (c == '?' && o == '/') then [c] + "*?"
    else if c == '$' then "$$?"
    else if c == '?' || (c == '-' && o == '/') then [c] + "-?"
    else [c] + "?"
  }

  /** The filter numbers a placeholder at the end of the text. */
  predicate EndsNumbered(s: string) { s != "" && '0' <= s[|s| - 1] <= '9' }

  lemma WrittenEnds(fl: Flavour, head: string, k: nat)
    ensures EndsNumbered(head + Written(fl, k)) && !EndsNumbered(head + "?")
  {
    var d := Itoa(k);
    assert d[|d| - 1] in d && (head + Written(fl, k))[|head + Written(fl, k)| - 1] == d[|d| - 1];
  }

  /** The end of a scan at a question mark. */
  lemma LastMark(fl: Flavour, s: string, f: Flags, index: nat)
    requires s != "" && s[|s| - 1] == '?' && f.tag == ""
    ensures Scan(fl, s, |s| - 1, f, index) == if AtHole(f, '?') then Written(fl, index) else "?"
  {
    assert Scan(fl, s, |s|, f, index) == "" && Written(fl, index) + "" == Written(fl, index);
    if !AtHole(f, '?') {
      var n := |s| - 1;
      assert Scan(fl, s, |s|, Next(fl, f, '?', JsonbBefore(s, n)), index) == "";
    }
  }

  lemma Two(fl: Flavour, s: string, i: nat, f: Flags, index: nat)
    requires i + 2 == |s| && s[i + 1] == '?' && f.tag == "" && s[i] != '$' && !AtHole(f, s[i]) && i < 7
    ensures
      var g := Next(fl, f, s[i], false);
      Scan(fl, s, i, f, index) == [s[i]] + if AtHole(g, '?') then Written(fl, index) else "?"
  {
    LastMark(fl, s, Next(fl, f, s[i], false), index);
    hide Itoa, TagAt;
  }

  lemma Three(fl: Flavour, s: string, i: nat, f: Flags, index: nat)
    requires i + 3 == |s| && s[i + 2] == '?' && f.tag == "" && s[i] != '$' && s[i + 1] != '$' && s[i + 1] != '?' && i < 6
    ensures
      var at := AtHole(f, s[i]);
      var g := Next(fl, if at then f else Next(fl, f, s[i], false), s[i + 1], false);
      var next := if at then index + 1 else index;
      Scan(fl, s, i, f, index) ==
        (if at then Written(fl, index) else [s[i]]) + ([s[i + 1]] + if AtHole(g, '?') then Written(fl, next) else "?")
  {
    var at := AtHole(f, s[i]);
    Two(fl, s, i + 1, if at then f else Next(fl, f, s[i], false), if at then index + 1 else index);
    hide Itoa, TagAt;
  }

  lemma Dollars(o: char, s: string, index: nat)
    requires s == [o] + "?" + "$$?" && IsOperator(o)
    ensures EndsNumbered(Scan(Postgres, s, 2, Marked(o), index)) && !EndsNumbered(Filtered(Postgres, "$$?", index))
  {
    LastMark(Postgres, s, CLEAR, index);
    assert TagEnd(s, 4) == -1 && TagAt(s, 3) == "";
    assert Scan(Postgres, s, 3, CLEAR, index) == "$" + Written(Postgres, index);
    assert Scan(Postgres, s, 2, Marked(o), index) == "$" + ("$" + Written(Postgres, index));
    WrittenEnds(Postgres, "$$", index);
    assert "$" + ("$" + Written(Postgres, index)) == "$$" + Written(Postgres, index);
    var t := "$$?";
    assert TagEnd(t, 1) == 1 && TagAt(t, 0) == "$$";
    assert Scan(Postgres, t, 2, CLEAR.(tag := "$$"), index) == "?" + Scan(Postgres, t, 3, CLEAR.(tag := "$$"), index);
    assert Scan(Postgres, t, 0, CLEAR, index) == "$$" + "?";
  }

  lemma MisreadComesOutWrong(fl: Flavour, o: char, k: nat, c: char)
    requires IsOperator(o) && Misread(fl, o, c)
    ensures Witness(o, c) != "" && Witness(o, c)[0] == c && !ReadsOn(fl, o, k, Witness(o, c))
  {
    hide Scan, Written, Filtered;
    var text := Witness(o, c);
    ReadsOnIff(fl, o, k, text);
    if c == '$' {
      Dollars(o, [o] + "?" + text, k + 1);
    } else if |text| == 2 {
      WrongInTwo(fl, o, k + 1, c);
    } else {
      WrongInThree(fl, o, k + 1, c);
    }
  }

  lemma WrongInTwo(fl: Flavour, o: char, k: nat, c: char)
    requires IsOperator(o) && Misread(fl, o, c) && |Witness(o, c)| == 2
    ensures Scan(fl, [o] + "?" + Witness(o, c), 2, Marked(o), k) != Filtered(fl, Witness(o, c), k)
  {
    hide Scan, Written;
    var text := Witness(o, c);
    var s := [o] + "?" + text;
    assert s[2] == text[0] == c && s[3] == text[1] == '?';
    Two(fl, s, 2, Marked(o), k);
    Two(fl, text, 0, CLEAR, k);
    WrittenEnds(fl, [c], k);
  }

  lemma WrongInThree(fl: Flavour, o: char, k: nat, c: char)
    requires IsOperator(o) && Misread(fl, o, c) && |Witness(o, c)| == 3 && c != '$'
    ensures Scan(fl, [o] + "?" + Witness(o, c), 2, Marked(o), k) != Filtered(fl, Witness(o, c), k)
  {
    hide Scan, Written;
    var text := Witness(o, c);
    var s := [o] + "?" + text;
    assert s[2] == text[0] == c && s[3] == text[1] && s[4] == text[2] == '?';
    Three(fl, s, 2, Marked(o), k);
    Three(fl, text, 0, CLEAR, k);
    var head, next := if c == '?' then Written(fl, k) else [c], if c == '?' then k + 1 else k;
    Join(head, [text[1]], Written(fl, next));
    Join(head, [text[1]], "?");
    WrittenEnds(fl, head + [text[1]], next);
  }

  /** After an operator and a placeholder every text that starts with `c` is filtered as on its
      own exactly unless `c` is a dash, a slash, a quote, another placeholder, for the slash a
      star, or in PostgreSQL a dollar sign. */
  lemma OperatorBeforeHoleIff(fl: Flavour, o: char, k: nat, c: char)
    requires IsOperator(o)
    ensures (forall tail :: ReadsOn(fl, o, k, [c] + tail)) <==> !Misread(fl, o, c)
  {
    hide ReadsOn, Misread, Witness, IsOperator;
    if Misread(fl, o, c) {
      MisreadComesOutWrong(fl, o, k, c);
      var w := Witness(o, c);
      assert w == [c] + w[1..];
      assert !ReadsOn(fl, o, k, [c] + w[1..]);
    } else {
      forall tail ensures ReadsOn(fl, o, k, [c] + tail) { OtherCharactersReadOn(fl, o, k, c, tail); }
    }
  }

  /** With one more placeholder right after the character: both are numbered exactly unless the
      operator and the character make a comment start. */
  lemma BothNumberedIff(fl: Flavour, o: char, k: nat, c: char)
    requires IsOperator(o) && c != '?'
    ensures Filtered(fl, [o] + "?" + [c, '?'], k) == [o] + Written(fl, k) + ([c] + Written(fl, k + 1)) <==>
              c != (if o == '-' then '-' else '*')
  {
    var text := [c, '?'];
    var s := [o] + "?" + text;
    OperatorAndHole(fl, o, k, text);
    assert s[2] == c && s[3] == '?';
    if c == '$' {
      assert Scan(fl, s, 3, CLEAR, k + 1) == Written(fl, k + 1) by { LastMark(fl, s, CLEAR, k + 1); }
      assert Scan(fl, s, 2, Marked(o), k + 1) == [c] + Written(fl, k + 1);
    } else {
      hide Scan, Written;
      Two(fl, s, 2, Marked(o), k + 1);
      WrittenEnds(fl, [c], k + 1);
      Cancel([o] + Written(fl, k), Scan(fl, s, 2, Marked(o), k + 1), [c] + Written(fl, k + 1));
    }
  }

  /** Two inputs of that kind. */
  lemma SecondPlaceholderLost(fl: Flavour)
    ensures Filtered(fl, "-?-?", 1) == "-" + Written(fl, 1) + "-?"
    ensures Filtered(fl, "/?*?", 1) == "/" + Written(fl, 1) + "*?"
  {
    hide Scan, Written;
    OperatorAndHole(fl, '-', 1, "-?");
    assert ['-'] + "?" + "-?" == "-?-?";
    Two(fl, "-?-?", 2, Marked('-'), 2);
    OperatorAndHole(fl, '/', 1, "*?");
    assert ['/'] + "?" + "*?" == "/?*?";
    Two(fl, "/?*?", 2, Marked('/'), 2);
  }

  // ----- placeholders after a cast to jsonb -----

  /** No character that the filter acts on. */
  predicate Quiet(s: string) { '?' !in s && '\'' !in s && '-' !in s && '/' !in s && '$' !in s }

  /** Some blank from `i` to `n` completes `::jsonb `. */
  predicate Casts(sql: string, i: nat, n: nat)
    requires n <= |sql|
  {
    exists j :: i <= j < n && sql[j] == ' ' && JsonbBefore(sql, j)
  }

  /** Quiet text is copied, and the flag is up in the end if it was or if a cast has been seen. */
  lemma {:induction false} ScanQuiet(sql: string, i: nat, n: nat, flag: bool, k: nat)
    requires i <= n <= |sql| && Quiet(sql[i..n])
    ensures Scan(Postgres, sql, i, CLEAR.(maybeJsonb := flag), k) ==
            sql[i..n] + Scan(Postgres, sql, n, CLEAR.(maybeJsonb := flag || Casts(sql, i, n)), k)
    decreases n - i
  {
    hide Scan, JsonbBefore, Quiet;
    if i < n {
      var next := flag || (sql[i] == ' ' && JsonbBefore(sql, i));
      QuietStep(sql, i, n, flag, k);
      ScanQuiet(sql, i + 1, n, next, k);
      CastsStep(sql, i, n);
      assert sql[i..n] == [sql[i]] + sql[i + 1..n];
      hide Casts;
      Join([sql[i]], sql[i + 1..n], Scan(Postgres, sql, n, CLEAR.(maybeJsonb := flag || Casts(sql, i, n)), k));
    } else {
      var rest := Scan(Postgres, sql, n, CLEAR.(maybeJsonb := flag), k);
      assert sql[i..n] == "" && "" + rest == rest;
    }
  }

  lemma CastsStep(sql: string, i: nat, n: nat)
    requires i < n <= |sql|
    ensures Casts(sql, i, n) <==> (sql[i] == ' ' && JsonbBefore(sql, i)) || Casts(sql, i + 1, n)
  {
    hide JsonbBefore;
  }

  lemma QuietStep(sql: string, i: nat, n: nat, flag: bool, k: nat)
    requires i < n <= |sql| && Quiet(sql[i..n])
    ensures Quiet(sql[i + 1..n])
    ensures
      var next := flag || (sql[i] == ' ' && JsonbBefore(sql, i));
      Scan(Postgres, sql, i, CLEAR.(maybeJsonb := flag), k) ==
      [sql[i]] + Scan(Postgres, sql, i + 1, CLEAR.(maybeJsonb := next), k)
  {
    hide JsonbBefore, TagAt;
    assert sql[i] == sql[i..n][0] && sql[i] in sql[i..n];
    assert forall c :: c in sql[i + 1..n] ==> c in sql[i..n] by { assert sql[i + 1..n] == sql[i..n][1..]; }
  }

  lemma CastsIsHolds(g: string, sql: string)
    requires g <= sql
    ensures Casts(sql, 0, |g|) <==> Holds(g, JSONB)
  {
    if Casts(sql, 0, |g|) {
      var j :| 0 <= j < |g| && sql[j] == ' ' && JsonbBefore(sql, j);
      var w := sql[j - 7..j];
      forall m | 0 <= m < 8 ensures g[j - 7 + m] == JSONB[m] {
        assert g[j - 7 + m] == sql[j - 7 + m] && (m < 7 ==> w[m] == sql[j - 7 + m] && JSONB[m] == "::jsonb"[m]);
      }
      assert HasPrefixAt(g, j - 7, JSONB);
    }
    if Holds(g, JSONB) {
      var j :| 0 <= j <= |g| && HasPrefixAt(g, j, JSONB);
      assert g[j + 7] == JSONB[7] == ' ';
      forall m | 0 <= m < 7 ensures sql[j..j + 7][m] == "::jsonb"[m] { assert g[j + m] == JSONB[m]; }
      assert sql[j + 7 - 7..j + 7] == "::jsonb";
      assert JsonbBefore(sql, j + 7);
    }
  }

  /** The first placeholder after quiet text is numbered, whatever follows it, exactly unless the
      text holds a cast to jsonb and a blank; then it is taken for an operator. */
  lemma HoleAfterJsonbIff(g: string, tail: string, k: nat)
    requires Quiet(g)
    ensures g + Written(Postgres, k) <= Filtered(Postgres, g + "?" + tail, k) <==> !Holds(g, JSONB)
    ensures Holds(g, JSONB) ==> g + "?" <= Filtered(Postgres, g + "?" + tail, k)
  {
    var sql, n := g + "?" + tail, |g|;
    assert g <= sql && sql[0..n] == g && sql[n] == '?';
    ScanQuiet(sql, 0, n, false, k);
    CastsIsHolds(g, sql);
    var casts := Casts(sql, 0, n);
    assert CLEAR.(maybeJsonb := false) == CLEAR;
    HoleStep(sql, n, casts, k);
    hide Scan, Casts, Holds, Written, Quiet;
    var rest := Scan(Postgres, sql, n + 1, CLEAR, if casts then k else k + 1);
    Join(g, if casts then "?" else Written(Postgres, k), rest);
    WrittenDollar(k);
    if casts {
      assert (g + "?" + rest)[n] == '?' && (g + Written(Postgres, k))[n] == '$';
    }
  }

  lemma WrittenDollar(k: nat)
    ensures Written(Postgres, k) != "" && Written(Postgres, k)[0] == '$'
  {}

  lemma HoleStep(sql: string, n: nat, casts: bool, k: nat)
    requires n < |sql| && sql[n] == '?'
    ensures Scan(Postgres, sql, n, CLEAR.(maybeJsonb := casts), k) ==
            (if casts then "?" else Written(Postgres, k)) + Scan(Postgres, sql, n + 1, CLEAR, if casts then k else k + 1)
  {
    hide JsonbBefore, Itoa;
  }

  /** A comparison with a placeholder, which is not numbered. */
  lemma HoleAfterJsonbLost()
    ensures Filtered(Postgres, "x::jsonb = ?", 1) == "x::jsonb = ?"
  {
    var g, sql := "x::jsonb = ", "x::jsonb = ?";
    hide Scan, Casts;
    assert HasPrefixAt(g, 1, JSONB);
    assert sql == g + "?" && g <= sql && sql[0..11] == g && CLEAR.(maybeJsonb := false) == CLEAR;
    ScanQuiet(sql, 0, 11, false, 1);
    CastsIsHolds(g, sql);
    HoleStep(sql, 11, true, 1);
    ScanNothing(Postgres, sql, 12, CLEAR, 1);
    assert "?" + "" == "?";
  }
}
