/** The PostgreSQL and SQLite forms of a dumped string, each with the reader of its own escapes. */
module DumpEscapes {
  import opened Strings
  import opened Utils
  import opened DumpLiterals

  const NUL: char := 0 as char

  // ----- 'text' || e'\x0a' -----

  function Hex2(c: char): string
    requires c as nat < 256
  { [Digit(c as nat / 16), Digit(c as nat % 16)] }

  function HexRun(run: string): string
    requires forall j :: 0 <= j < |run| ==> IsControl(run[j])
  {
    if run == "" then ""
    else
      assert IsControl(run[0]);
      "\\x" + Hex2(run[0]) + HexRun(run[1..])
  }

  function PgTerms(s: string): string
    decreases |s|, 1
  {
    if s == "" then ""
    else
      var a := RunStart(s);
      if a == |s| then "'" + s + "'"
      else
        var b := a + RunEnd(s[a..]);
        RunBounds(s, a, b);
        if a > 0 then "'" + s[..a] + "' || " + PgTail(s, a, b) else PgTail(s, a, b)
  }

  function PgTail(s: string, a: nat, b: nat): string
    requires a < b <= |s| && forall j :: 0 <= j < b - a ==> IsControl(s[a..b][j])
    decreases |s|, 0
  {
    "e'" + HexRun(s[a..b]) + (if b < |s| then "' || " + PgTerms(s[b..]) else "'")
  }

  function PgLiteral(v: string): string { PgTerms(Escape(v)) }

  /** The contents of an escape string of `\xHH` sequences (PostgreSQL manual 4.1.2.2), after
      its opening quote; the character with code zero is not allowed. */
  function ReadEscapes(s: string): Read
    decreases |s|
  {
    if s == "" then Bad
    else if s[0] == '\'' then Read("", s[1..])
    else if |s| >= 4 && s[0] == '\\' && s[1] == 'x' && DigitValue(s[2]) >= 0 && DigitValue(s[3]) >= 0 then
      var code := DigitValue(s[2]) * 16 + DigitValue(s[3]);
      if code == 0 then Bad
      else
        match ReadEscapes(s[4..])
        case Bad => Bad
        case Read(v, r) => Read([code as char] + v, r)
    else Bad
  }

  function ReadTerm(s: string): Read {
    if s != "" && s[0] == '\'' then ReadQuoted(s[1..])
    else if "e'" <= s then ReadEscapes(s[2..])
    else Bad
  }

  /** Terms joined by ` || `. */
  function EvalTerms(s: string): Option<string>
    decreases |s|
  {
    match ReadTerm(s)
    case Bad => None
    case Read(v, r) =>
      if r == "" then Some(v)
      else if " || " <= r && |r[4..]| < |s| then
        match EvalTerms(r[4..])
        case None => None
        case Some(w) => Some(v + w)
      else None
  }

  lemma HexDigits(c: char)
    requires c as nat < 256
    ensures |Hex2(c)| == 2 && DigitValue(Hex2(c)[0]) * 16 + DigitValue(Hex2(c)[1]) == c as nat
    ensures DigitValue(Hex2(c)[0]) >= 0 && DigitValue(Hex2(c)[1]) >= 0
  {
    assert forall d: nat :: d < 16 ==> DigitValue(Digit(d)) == d;
  }

  /** One `\xHH` sequence. */
  lemma ReadHex(c: char, more: string)
    requires IsControl(c)
    ensures ReadEscapes("\\x" + Hex2(c) + more) ==
            match ReadEscapes(more)
            case Bad => Bad
            case Read(v, r) => if c == NUL then Bad else Read([c] + v, r)
  {
    HexDigits(c);
    var s := "\\x" + Hex2(c) + more;
    assert s[0] == '\\' && s[1] == 'x' && s[2] == Hex2(c)[0] && s[3] == Hex2(c)[1];
    assert s[4..] == more;
    hide Hex2, DigitValue;
  }

  lemma ReadHexEnd(rest: string)
    ensures ReadEscapes(HexRun("") + ("'" + rest)) == Read("", rest)
  {
    assert HexRun("") + ("'" + rest) == "'" + rest && ("'" + rest)[1..] == rest;
  }

  lemma {:induction false} ReadHexRun(run: string, rest: string)
    requires forall j :: 0 <= j < |run| ==> IsControl(run[j])
    ensures ReadEscapes(HexRun(run) + ("'" + rest)) == if NUL in run then Bad else Read(run, rest)
    decreases |run|
  {
    if run == "" {
      ReadHexEnd(rest);
    } else {
      HexRunFirst(run);
      ReadHexRun(run[1..], rest);
      ReadHex(run[0], HexRun(run[1..]) + ("'" + rest));
      hide ReadEscapes, Hex2, HexRun, IsControl;
      Join("\\x" + Hex2(run[0]), HexRun(run[1..]), "'" + rest);
      NulFirst(run);
    }
  }

  lemma HexRunFirst(run: string)
    requires run != "" && forall j :: 0 <= j < |run| ==> IsControl(run[j])
    ensures IsControl(run[0]) && HexRun(run) == "\\x" + Hex2(run[0]) + HexRun(run[1..])
  {}

  lemma NulFirst(run: string)
    requires run != ""
    ensures run == [run[0]] + run[1..] && (NUL in run <==> run[0] == NUL || NUL in run[1..])
  {
    assert run == [run[0]] + run[1..];
  }

  lemma {:induction false} EscapesShorten(s: string)
    ensures ReadEscapes(s).Read? ==> |ReadEscapes(s).rest| < |s|
    decreases |s|
  {
    if |s| >= 4 { EscapesShorten(s[4..]); }
  }

  /** What the evaluation of a chain of terms comes to, one term at a time. */
  function Chained(first: Read, more: Option<string>): Option<string> {
    if first.Bad? || more.None? then None else Some(first.value + more.value)
  }

  lemma EvalTermLast(s: string, v: Read)
    requires ReadTerm(s) == v && (v.Read? ==> v.rest == "")
    ensures EvalTerms(s) == if v.Bad? then None else Some(v.value)
  {}

  lemma EvalTermNext(s: string, v: Read, rest: string)
    requires ReadTerm(s) == v && (v.Read? ==> v.rest == " || " + rest)
    ensures EvalTerms(s) == Chained(v, EvalTerms(rest))
  {
    assert (" || " + rest)[4..] == rest;
    if s != "" && s[0] == '\'' { ReadShortens(s[1..]); } else if "e'" <= s { EscapesShorten(s[2..]); }
    hide ReadQuoted, ReadEscapes, ReadTerm;
  }

  lemma ReadTextTerm(text: string, rest: string)
    requires Paired(text) && (rest == "" || rest[0] != '\'')
    ensures ReadTerm("'" + text + "'" + rest) == Read(Unescape(text), rest)
  {
    ReadPaired(text, rest);
    hide ReadQuoted, Paired, Unescape;
    assert ("'" + text + "'" + rest)[1..] == text + "'" + rest;
  }

  lemma ReadHexTerm(run: string, rest: string)
    requires forall j :: 0 <= j < |run| ==> IsControl(run[j])
    ensures ReadTerm("e'" + HexRun(run) + ("'" + rest)) == if NUL in run then Bad else Read(run, rest)
  {
    hide HexRun, ReadEscapes, ReadQuoted, ReadTerm;
    ReadHexRun(run, rest);
    Join("e'", HexRun(run), "'" + rest);
    ReadAfterE(HexRun(run) + ("'" + rest));
  }

  lemma ReadAfterE(t: string)
    ensures ReadTerm("e'" + t) == ReadEscapes(t)
  {
    hide ReadEscapes, ReadQuoted;
    assert ("e'" + t)[2..] == t && "e'" <= "e'" + t && ("e'" + t)[0] == 'e';
  }

  /** The value of the literal: the string itself, or an error where it holds a NUL. */
  function Allowed(v: string): Option<string> { if NUL in v then None else Some(v) }

  lemma AllowedParts(a: string, b: string)
    ensures Allowed(a + b) == if NUL in a || Allowed(b).None? then None else Some(a + b)
  {
    assert NUL in a + b <==> NUL in a || NUL in b;
  }

  lemma EvalPgTail(s: string, a: nat, b: nat)
    requires a < b <= |s| && Paired(s[b..])
    requires forall j :: 0 <= j < b - a ==> IsControl(s[a..b][j])
    requires b < |s| ==> EvalTerms(PgTerms(s[b..])) == Allowed(Unescape(s[b..]))
    ensures EvalTerms(PgTail(s, a, b)) == Allowed(s[a..b] + Unescape(s[b..]))
  {
    if b < |s| {
      EvalHexMore(s[a..b], PgTerms(s[b..]), Unescape(s[b..]));
    } else {
      EvalHexLast(s[a..b]);
      assert s[b..] == "" && Unescape("") == "" && s[a..b] + "" == s[a..b];
    }
    hide EvalTerms, PgTerms, HexRun, Unescape, Allowed;
  }

  lemma EvalHexLast(run: string)
    requires forall j :: 0 <= j < |run| ==> IsControl(run[j])
    ensures EvalTerms("e'" + HexRun(run) + "'") == Allowed(run)
  {
    ReadHexTerm(run, "");
    hide HexRun, ReadTerm;
    assert "'" + "" == "'";
    EvalTermLast("e'" + HexRun(run) + "'", if NUL in run then Bad else Read(run, ""));
  }

  lemma EvalHexMore(run: string, more: string, v: string)
    requires forall j :: 0 <= j < |run| ==> IsControl(run[j])
    requires EvalTerms(more) == Allowed(v)
    ensures EvalTerms("e'" + HexRun(run) + ("' || " + more)) == Allowed(run + v)
  {
    hide HexRun, ReadTerm, EvalTerms;
    ReadHexTerm(run, " || " + more);
    Join("'", " || ", more);
    assert "'" + " || " == "' || ";
    EvalTermNext("e'" + HexRun(run) + ("' || " + more), if NUL in run then Bad else Read(run, " || " + more), more);
    AllowedParts(run, v);
  }

  lemma CloseAndJoin(text: string, tail: string)
    ensures "'" + text + "' || " + tail == "'" + text + "'" + (" || " + tail)
  {
    assert "' || " == "'" + " || ";
  }

  lemma EvalPgText(text: string, tail: string, v: string)
    requires Paired(text) && NUL !in Unescape(text) && EvalTerms(tail) == Allowed(v)
    ensures EvalTerms("'" + text + "' || " + tail) == Allowed(Unescape(text) + v)
  {
    hide EvalTerms, Paired, Unescape;
    ReadTextTerm(text, " || " + tail);
    EvalTermNext("'" + text + "'" + (" || " + tail), Read(Unescape(text), " || " + tail), tail);
    CloseAndJoin(text, tail);
    AllowedParts(Unescape(text), v);
  }

  lemma {:induction false} NoNul(text: string)
    requires Paired(text) && forall j :: 0 <= j < |text| ==> !IsControl(text[j])
    ensures NUL !in Unescape(text)
    decreases |text|
  {
    if text != "" {
      if text[0] == '\'' {
        assert forall j :: 0 <= j < |text[2..]| ==> text[2..][j] == text[j + 2];
        NoNul(text[2..]);
      } else {
        assert !IsControl(text[0]);
        assert forall j :: 0 <= j < |text[1..]| ==> text[1..][j] == text[j + 1];
        NoNul(text[1..]);
      }
    }
  }

  lemma EvalPgOnly(s: string)
    requires Paired(s) && RunStart(s) == |s|
    ensures EvalTerms("'" + s + "'") == Allowed(Unescape(s))
  {
    NoNul(s);
    ReadTextTerm(s, "");
    assert "'" + s + "'" + "" == "'" + s + "'";
    EvalTermLast("'" + s + "'", Read(Unescape(s), ""));
  }

  lemma EvalPgCut(s: string, a: nat, b: nat, v: string)
    requires a < b <= |s| && Paired(s[..a]) && RunStart(s) == a
    requires forall j :: 0 <= j < b - a ==> IsControl(s[a..b][j])
    requires EvalTerms(PgTail(s, a, b)) == Allowed(v)
    ensures EvalTerms(if a > 0 then "'" + s[..a] + "' || " + PgTail(s, a, b) else PgTail(s, a, b)) == Allowed(Unescape(s[..a]) + v)
  {
    NoNul(s[..a]);
    if a > 0 { EvalPgText(s[..a], PgTail(s, a, b), v); } else { NothingBefore(s, v); }
  }

  lemma PgTermsNone()
    ensures PgTerms("") == ""
  {}

  lemma PgTermsOnly(s: string)
    requires s != "" && RunStart(s) == |s|
    ensures PgTerms(s) == "'" + s + "'"
  {}

  lemma PgTermsStep(s: string, a: nat, b: nat)
    requires a == RunStart(s) < |s| && b == a + RunEnd(s[a..])
    ensures a < b <= |s| && forall j :: 0 <= j < b - a ==> IsControl(s[a..b][j])
    ensures PgTerms(s) == if a > 0 then "'" + s[..a] + "' || " + PgTail(s, a, b) else PgTail(s, a, b)
  {
    RunBounds(s, a, b);
    hide PgTail, RunStart, RunEnd, IsControl;
  }

  lemma {:induction false} PgTermsEval(s: string)
    requires Paired(s) && s != ""
    ensures EvalTerms(PgTerms(s)) == Allowed(Unescape(s))
    decreases |s|
  {
    hide EvalTerms, PgTerms, PgTail, Unescape, Paired, Allowed, RunStart, RunEnd;
    var a := RunStart(s);
    if a == |s| {
      PgTermsOnly(s);
      EvalPgOnly(s);
    } else {
      var b := a + RunEnd(s[a..]);
      PgTermsStep(s, a, b);
      CutAtRun(s, a, b);
      if b < |s| { PgTermsEval(s[b..]); }
      EvalPgTail(s, a, b);
      EvalPgCut(s, a, b, s[a..b] + Unescape(s[b..]));
    }
  }

  /** A dumped PostgreSQL string reads back as itself exactly when it holds no NUL; with one,
      the server rejects the literal. */
  lemma PgRoundTripIff(v: string)
    requires v != ""
    ensures EvalTerms(PgLiteral(v)) == (if NUL in v then None else Some(v))
  {
    EscapePaired(v);
    PgTermsEval(Escape(v));
  }

  // ----- unistr('..') -----

  function Hex4(c: char): string
    requires IsControl(c)
  { "00" + Hex2(c) }

  /** One rune inside unistr: quotes doubled, backslashes doubled, controls as `\uXXXX`. */
  function UniRune(c: char): string {
    if c == '\'' then "''"
    else if c == '\\' then "\\\\"
    else if IsControl(c) then "\\u" + Hex4(c)
    else [c]
  }

  function UniText(v: string): string {
    if v == "" then "" else UniRune(v[0]) + UniText(v[1..])
  }

  function UniStr(v: string): string { "unistr('" + UniText(v) + "')" }

  /** SQLite's unistr: `\\` is a backslash, `\uXXXX` the character of that code. */
  function Unistr(s: string): Option<string>
    decreases |s|
  {
    if s == "" then Some("")
    else if s[0] != '\\' then
      match Unistr(s[1..]) case None => None case Some(w) => Some([s[0]] + w)
    else if |s| >= 2 && s[1] == '\\' then
      match Unistr(s[2..]) case None => None case Some(w) => Some("\\" + w)
    else if |s| >= 6 && s[1] == 'u' && s[2] == '0' && s[3] == '0' && DigitValue(s[4]) >= 0 && DigitValue(s[5]) >= 0 then
      match Unistr(s[6..]) case None => None case Some(w) => Some([(DigitValue(s[4]) * 16 + DigitValue(s[5])) as char] + w)
    else None
  }

  function EvalUniStr(s: string): Option<string> {
    if "unistr('" <= s then
      match ReadQuoted(s[8..])
      case Read(v, r) => if r == ")" then Unistr(v) else None
      case Bad => None
    else None
  }

  /** The argument of unistr once the SQL literal is read. */
  function Slashed(v: string): string {
    if v == "" then "" else (if v[0] == '\'' then "'" else UniRune(v[0])) + Slashed(v[1..])
  }

  lemma {:induction false} EscapeConcat(a: string, b: string)
    ensures Escape(a + b) == Escape(a) + Escape(b)
  {
    if a == "" {
      assert a + b == b;
    } else {
      var head := if a[0] == '\'' then "''" else [a[0]];
      assert (a + b)[1..] == a[1..] + b && (a + b)[0] == a[0];
      EscapeConcat(a[1..], b);
      Join(head, Escape(a[1..]), Escape(b));
    }
  }

  lemma {:induction false} EscapePlain(s: string)
    requires '\'' !in s
    ensures Escape(s) == s
  {
    if s != "" {
      assert forall c :: c in s[1..] ==> c in s;
      EscapePlain(s[1..]);
    }
  }

  lemma RuneEscapes(c: char)
    ensures Escape(if c == '\'' then "'" else UniRune(c)) == UniRune(c)
  {
    if c == '\'' {
      assert Escape("'") == "''" + Escape("'"[1..]);
    } else {
      var r := UniRune(c);
      assert forall d: nat :: d < 16 ==> Digit(d) != '\'';
      if IsControl(c) && c != '\\' { assert r == ['\\', 'u', '0', '0', Hex2(c)[0], Hex2(c)[1]]; }
      EscapePlain(r);
    }
  }

  lemma {:induction false} TextIsEscapedSlashes(v: string)
    ensures UniText(v) == Escape(Slashed(v))
  {
    if v != "" {
      TextIsEscapedSlashes(v[1..]);
      RuneEscapes(v[0]);
      EscapeConcat(if v[0] == '\'' then "'" else UniRune(v[0]), Slashed(v[1..]));
    }
  }

  lemma UnistrRune(c: char, s: string)
    ensures
      var t := (if c == '\'' then "'" else UniRune(c)) + s;
      Unistr(t) == match Unistr(s) case None => None case Some(w) => Some([c] + w)
  {
    var t := (if c == '\'' then "'" else UniRune(c)) + s;
    if c == '\\' {
      assert t[2..] == s;
    } else if c != '\'' && IsControl(c) {
      HexDigits(c);
      assert t[6..] == s && t[4] == Hex2(c)[0] && t[5] == Hex2(c)[1];
    } else {
      assert t[1..] == s;
    }
  }

  lemma {:induction false} UnistrSlashed(v: string)
    ensures Unistr(Slashed(v)) == Some(v)
  {
    if v != "" {
      UnistrSlashed(v[1..]);
      UnistrRune(v[0], Slashed(v[1..]));
      assert v == [v[0]] + v[1..];
    }
  }

  /** Every string comes back from its unistr form. */
  lemma UniStrRoundTrip(v: string)
    ensures EvalUniStr(UniStr(v)) == Some(v)
  {
    hide UniText, Slashed, Unistr, ReadQuoted, Escape;
    TextIsEscapedSlashes(v);
    QuotedRoundTrip(Slashed(v), ")");
    UnistrSlashed(v);
    AfterUnistr(UniText(v));
  }

  lemma AfterUnistr(text: string)
    ensures var s := "unistr('" + text + "')"; "unistr('" <= s && s[8..] == text + "'" + ")"
  {
    var s := "unistr('" + text + "')";
    assert s == "unistr('" + (text + "')") && s[8..] == text + "')";
    assert "')" == "'" + ")";
  }

  // ----- bytes in hexadecimal -----

  type Octets = s: string | forall c :: c in s ==> c as nat < 256

  /** Two digits for each byte. */
  function HexPairs(v: Octets): string {
    if v == "" then ""
    else
      assert v[0] in v && forall c :: c in v[1..] ==> c in v;
      Hex2(v[0]) + HexPairs(v[1..])
  }

  /** The bytes spelled by pairs of hexadecimal digits. */
  function ReadPairs(s: string): Option<string>
    decreases |s|
  {
    if s == "" then Some("")
    else if |s| >= 2 && DigitValue(s[0]) >= 0 && DigitValue(s[1]) >= 0 then
      match ReadPairs(s[2..])
      case None => None
      case Some(v) => Some([(DigitValue(s[0]) * 16 + DigitValue(s[1])) as char] + v)
    else None
  }

  lemma {:induction false} HexReadsBack(v: Octets)
    ensures ReadPairs(HexPairs(v)) == Some(v)
    decreases |v|
  {
    if v != "" {
      assert v[0] in v && forall c :: c in v[1..] ==> c in v;
      HexReadsBack(v[1..]);
      PairStep(v[0], HexPairs(v[1..]));
      hide ReadPairs, Hex2;
      assert v == [v[0]] + v[1..];
    }
  }

  lemma PairStep(c: char, more: string)
    requires c as nat < 256 && ReadPairs(more).Some?
    ensures ReadPairs(Hex2(c) + more) == Some([c] + ReadPairs(more).value)
  {
    HexDigits(c);
    var h, s := Hex2(c), Hex2(c) + more;
    hide Hex2, DigitValue;
    assert s[0] == h[0] && s[1] == h[1] && s[2..] == more;
  }

  lemma {:induction false} HexIsHex(v: Octets)
    ensures forall c :: c in HexPairs(v) ==> '0' <= c <= '9' || 'a' <= c <= 'f'
    decreases |v|
  {
    if v != "" {
      assert v[0] in v && forall c :: c in v[1..] ==> c in v;
      HexIsHex(v[1..]);
      assert forall d: nat :: d < 16 ==> '0' <= Digit(d) <= '9' || 'a' <= Digit(d) <= 'f';
    }
  }
}
