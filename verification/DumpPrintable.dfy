/** Which characters a dump escapes: no control character is written raw, and nothing else is escaped. */
module DumpPrintable {
  import opened Utils
  import opened Strings
  import opened DumpLiterals
  import opened DumpConcat
  import opened DumpEscapes
  import opened DumpScript
  import opened DumpCells

  /** No character below the space, and not the one with code 127. */
  predicate Printable(s: string) { forall c :: c in s ==> 32 <= c as nat && c as nat != 127 }

  lemma {:induction false} EscapePrintable(s: string)
    ensures forall c :: c in Escape(s) <==> c in s
  {
    if s != "" {
      EscapePrintable(s[1..]);
      assert s == [s[0]] + s[1..];
      assert Escape(s) == (if s[0] == '\'' then "''" else [s[0]]) + Escape(s[1..]);
    }
  }

  lemma {:induction false} ItoaPrintable(n: nat)
    ensures Printable(Itoa(n))
  {
    assert forall c :: c in Itoa(n) ==> 48 <= c as nat <= 57;
  }

  lemma {:induction false} CallsPrintable(run: string)
    requires run != ""
    ensures Printable(CharCalls(run))
    decreases |run|
  {
    ItoaPrintable(run[0] as nat);
    if |run| > 1 { CallsPrintable(run[1..]); }
  }

  lemma BeforeRunPrintable(s: string)
    ensures Printable(s[..RunStart(s)])
  {
    var a := RunStart(s);
    forall c | c in s[..a] ensures 32 <= c as nat && c as nat != 127 {
      var j :| 0 <= j < a && s[..a][j] == c;
      assert !IsControl(s[j]);
    }
  }

  lemma {:induction false} ArgsPrintable(s: string)
    ensures Printable(ConcatArgs(s))
    decreases |s|
  {
    hide CharCalls, RunStart, RunEnd, IsControl;
    if s != "" {
      var a := RunStart(s);
      BeforeRunPrintable(s);
      assert s[..|s|] == s;
      if a < |s| {
        var b := a + RunEnd(s[a..]);
        RunBounds(s, a, b);
        CallsPrintable(s[a..b]);
        if b < |s| { ArgsPrintable(s[b..]); }
      }
    }
  }

  lemma {:induction false} HexRunPrintable(run: string)
    requires forall j :: 0 <= j < |run| ==> IsControl(run[j])
    ensures Printable(HexRun(run))
    decreases |run|
  {
    if run != "" {
      assert IsControl(run[0]);
      HexPrintable(run[0]);
      HexRunPrintable(run[1..]);
      hide Hex2;
    }
  }

  lemma HexPrintable(c: char)
    requires c as nat < 256
    ensures Printable(Hex2(c))
  {
    assert forall d: nat :: d < 16 ==> Printable([Digit(d)]);
    assert Hex2(c) == [Digit(c as nat / 16)] + [Digit(c as nat % 16)];
  }

  lemma {:induction false} TermsPrintable(s: string)
    ensures Printable(PgTerms(s))
    decreases |s|
  {
    hide HexRun, RunStart, RunEnd, IsControl;
    if s != "" {
      var a := RunStart(s);
      BeforeRunPrintable(s);
      assert s[..|s|] == s;
      if a < |s| {
        var b := a + RunEnd(s[a..]);
        RunBounds(s, a, b);
        HexRunPrintable(s[a..b]);
        if b < |s| { TermsPrintable(s[b..]); }
      }
    }
  }

  lemma {:induction false} UniPrintable(v: string)
    ensures Printable(UniText(v))
    decreases |v|
  {
    if v != "" {
      var c := v[0];
      if c != '\'' && c != '\\' && IsControl(c) { HexPrintable(c); }
      UniPrintable(v[1..]);
      hide Hex2, UniText;
      assert Printable(UniRune(c));
    }
  }

  lemma ControlIff(s: string)
    ensures HasControl(s) <==> !Printable(s)
  {}

  /** Text holds no raw control character in the forms of these databases. */
  lemma WrittenPrintable(target: Target, s: string)
    requires target in {MySql, PostgreSql, Sqlite, Oracle, Dameng}
    ensures Printable(CellText(TextCell(target, s)))
  {
    ControlIff(s);
    EscapePrintable(s);
    ArgsPrintable(Escape(s));
    TermsPrintable(Escape(s));
    UniPrintable(s);
    hide Escape, ConcatArgs, PgTerms, UniText, HasControl;
    EscapeNothing();
  }

  lemma EscapeNothing()
    ensures Escape("") == ""
  {}

  /** Printable text is written as one literal everywhere, alone or as the one argument of CONCAT. */
  lemma PrintableIsOneLiteral(target: Target, s: string)
    requires Printable(s)
    ensures
      var literal := "'" + Escape(s) + "'";
      CellText(TextCell(target, s)) ==
        if s == "" then literal
        else if target in {Oracle, Dameng} then "CONCAT(" + literal + ")"
        else if target == MsSql then "N" + literal
        else literal
  {
    ControlIff(s);
    EscapePrintable(s);
    EscapePaired(s);
    NoRun(Escape(s));
    hide HasControl, Escape, RunStart, RunEnd, RunTail, PgTail;
    assert "CONCAT(" + ("'" + Escape(s) + "'") + ")" == "CONCAT(" + ("'" + Escape(s) + "')");
  }

  lemma NoRun(s: string)
    requires Printable(s)
    ensures RunStart(s) == |s|
  {
    forall j | 0 <= j < |s| ensures !IsControl(s[j]) { assert s[j] in s; }
  }
}
