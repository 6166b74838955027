/** The dump encoders as loops over the text still to check, each writing what the functions of
    DumpLiterals and DumpEscapes say. */
module DumpWriters {
  import opened Strings
  import opened DumpLiterals
  import opened DumpConcat
  import opened DumpEscapes

  method WriteConcatWithChar(value: string) returns (w: string)
    ensures w == ConcatWithChar(value)
  {
    hide Escape, CharCalls, RunTail, ConcatArgs;
    w := "CONCAT(";
    var toCheck := Escape(value);
    while |toCheck| > 0
      invariant w + ConcatArgs(toCheck) == ConcatWithChar(value)
      decreases |toCheck|
    {
      var start := RunStart(toCheck);
      if start == |toCheck| {
        ArgsOfText(toCheck);
        w := w + ("'" + toCheck + "')");
        return;
      }
      var end := start + RunEnd(toCheck[start..]);
      ArgsAtRun(toCheck, start, end);
      ghost var tail := RunTail(toCheck, start, end);
      if start > 0 {
        Join(w, "'" + toCheck[..start] + "', ", tail);
        w := w + ("'" + toCheck[..start] + "', ");
      }
      ghost var after := if end < |toCheck| then ", " + ConcatArgs(toCheck[end..]) else ")";
      RunTailIs(toCheck, start, end);
      for i := start to end - 1
        invariant w + (CharCalls(toCheck[i..end]) + after) == ConcatWithChar(value)
      {
        CharCallsStep(toCheck, i, end);
        Regroup(w, Call(toCheck[i]) + ", ", CharCalls(toCheck[i + 1..end]), after);
        Join(w + (Call(toCheck[i]) + ", "), CharCalls(toCheck[i + 1..end]), after);
        Join(Call(toCheck[i]) + ", ", CharCalls(toCheck[i + 1..end]), after);
        w := w + (Call(toCheck[i]) + ", ");
      }
      CharCallsLast(toCheck, end);
      var last := toCheck[end - 1];
      Join(w, Call(last), after);
      toCheck := toCheck[end..];
      if |toCheck| > 0 {
        Regroup(w, Call(last), ", ", ConcatArgs(toCheck));
        Join(w, Call(last), ", ");
        w := w + (Call(last) + ", ");
      } else {
        Join(w, Call(last), ")");
        w := w + (Call(last) + ")");
        ConcatArgsNothing(w);
      }
    }
    if toCheck == "" { ConcatArgsNothing(w); }
  }

  lemma ConcatArgsNothing(w: string)
    ensures ConcatArgs("") == "" && w + ConcatArgs("") == w
  {}

  lemma RunTailIs(s: string, a: nat, b: nat)
    requires a < b <= |s|
    ensures RunTail(s, a, b) == CharCalls(s[a..b]) + (if b < |s| then ", " + ConcatArgs(s[b..]) else ")")
  {}

  lemma CharCallsStep(s: string, i: nat, end: nat)
    requires i + 1 < end <= |s|
    ensures CharCalls(s[i..end]) == Call(s[i]) + ", " + CharCalls(s[i + 1..end])
  {
    assert s[i..end][1..] == s[i + 1..end];
  }

  lemma CharCallsLast(s: string, end: nat)
    requires 0 < end <= |s|
    ensures CharCalls(s[end - 1..end]) == Call(s[end - 1])
  {}

  /** The PostgreSQL branch of dumpTables for a non-empty text value. */
  method WritePostgresLiteral(value: string) returns (w: string)
    ensures w == PgLiteral(value)
  {
    hide Escape, HexRun, PgTail, PgTerms;
    w := "";
    var toCheck := Escape(value);
    assert "" + PgTerms(toCheck) == PgTerms(toCheck);
    while |toCheck| > 0
      invariant w + PgTerms(toCheck) == PgLiteral(value)
      decreases |toCheck|
    {
      var start := RunStart(toCheck);
      if start == |toCheck| {
        PgTermsOnly(toCheck);
        w := w + ("'" + toCheck + "'");
        return;
      }
      var end := start + RunEnd(toCheck[start..]);
      PgTermsStep(toCheck, start, end);
      if start > 0 {
        Join(w, "'" + toCheck[..start] + "' || ", PgTail(toCheck, start, end));
        w := w + ("'" + toCheck[..start] + "' || ");
      }
      var hex := HexOf(toCheck[start..end]);
      PgTailIs(toCheck, start, end);
      ghost var after := if end < |toCheck| then "' || " + PgTerms(toCheck[end..]) else "'";
      Regroup(w, "e'", hex, after);
      Join("e'", hex, after);
      w := w + "e'" + hex;
      toCheck := toCheck[end..];
      if |toCheck| > 0 {
        Join(w, "' || ", PgTerms(toCheck));
        w := w + "' || ";
      } else {
        w := w + "'";
        PgTermsNothing(w);
      }
    }
    PgTermsNothing(w);
  }

  /** The inner loop: `\xHH` for each byte of the run. */
  method HexOf(run: string) returns (hex: string)
    requires forall j :: 0 <= j < |run| ==> IsControl(run[j])
    ensures hex == HexRun(run)
  {
    hide HexRun;
    hex := "";
    assert run[0..] == run && "" + HexRun(run) == HexRun(run);
    for i := 0 to |run|
      invariant hex + HexRun(run[i..]) == HexRun(run)
    {
      assert IsControl(run[i]);
      HexRunStep(run, i);
      Join(hex, "\\x" + Hex2(run[i]), HexRun(run[i + 1..]));
      hex := hex + ("\\x" + Hex2(run[i]));
    }
    HexRunNothing(hex, run);
  }

  lemma HexRunStep(run: string, i: nat)
    requires i < |run| && forall j :: 0 <= j < |run| ==> IsControl(run[j])
    ensures IsControl(run[i]) && HexRun(run[i..]) == "\\x" + Hex2(run[i]) + HexRun(run[i + 1..])
  {
    assert run[i..][1..] == run[i + 1..] && run[i..][0] == run[i];
  }

  lemma HexRunNothing(hex: string, run: string)
    ensures hex + HexRun(run[|run|..]) == hex
  {}

  lemma PgTailIs(s: string, a: nat, b: nat)
    requires a < b <= |s| && forall j :: 0 <= j < b - a ==> IsControl(s[a..b][j])
    ensures PgTail(s, a, b) == "e'" + HexRun(s[a..b]) + (if b < |s| then "' || " + PgTerms(s[b..]) else "'")
  {}

  lemma PgTermsNothing(w: string)
    ensures PgTerms("") == "" && w + PgTerms("") == w
  {}

  method WriteSQLiteUniStr(value: string) returns (w: string)
    ensures w == UniStr(value)
  {
    hide UniText;
    var builder := "unistr('";
    UniTextNothing(value);
    assert value[0..] == value;
    for i := 0 to |value|
      invariant builder + UniText(value[i..]) == "unistr('" + UniText(value)
    {
      var r := value[i];
      UniTextStep(value, i);
      Join(builder, UniRune(r), UniText(value[i + 1..]));
      if r == '\'' {
        builder := builder + "''";
      } else if r == '\\' {
        builder := builder + "\\\\";
      } else if IsControl(r) {
        builder := builder + ("\\u" + Hex4(r));
      } else {
        builder := builder + [r];
      }
    }
    assert builder + "" == builder;
    w := builder + "')";
  }

  lemma UniTextStep(v: string, i: nat)
    requires i < |v|
    ensures UniText(v[i..]) == UniRune(v[i]) + UniText(v[i + 1..])
  {
    assert v[i..][1..] == v[i + 1..] && v[i..][0] == v[i];
  }

  lemma UniTextNothing(v: string)
    ensures UniText(v[|v|..]) == ""
  {}
}
