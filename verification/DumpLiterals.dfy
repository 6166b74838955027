/** String literals of a table dump, each with the SQL reader that evaluates it. */
module DumpLiterals {
  import opened Strings
  import opened Utils

  predicate IsControl(c: char) { c < ' ' || c == 127 as char }

  // ----- quoting -----

  /** strings.ReplaceAll(s, "'", "''"). */
  function Escape(s: string): string {
    if s == "" then "" else (if s[0] == '\'' then "''" else [s[0]]) + Escape(s[1..])
  }

  function Unescape(s: string): string
    requires Paired(s)
  {
    if s == "" then "" else if s[0] == '\'' then ['\''] + Unescape(s[2..]) else [s[0]] + Unescape(s[1..])
  }

  lemma {:induction false} EscapePaired(s: string)
    ensures Paired(Escape(s)) && Unescape(Escape(s)) == s
    ensures s != "" ==> Escape(s) != ""
  {
    if s != "" {
      EscapePaired(s[1..]);
      var e := Escape(s);
      if s[0] == '\'' {
        assert e == "''" + Escape(s[1..]) && e[2..] == Escape(s[1..]);
      } else {
        assert e[1..] == Escape(s[1..]);
      }
    }
  }

  lemma PairedCons(c: char, t: string)
    requires Paired(t) && c != '\''
    ensures Paired([c] + t) && Unescape([c] + t) == [c] + Unescape(t)
  {
    assert ([c] + t)[1..] == t;
  }

  lemma PairedQuotes(t: string)
    requires Paired(t)
    ensures Paired("''" + t) && Unescape("''" + t) == "'" + Unescape(t)
  {
    assert ("''" + t)[2..] == t;
  }

  lemma CutAfterQuotes(s: string, i: nat)
    requires |s| >= 2 && s[0] == '\'' && s[1] == '\'' && Paired(s[2..]) && 2 <= i <= |s|
    requires Paired(s[2..][..i - 2])
    ensures Paired(s[..i]) && Unescape(s[..i]) == "'" + Unescape(s[2..][..i - 2])
  {
    PairedQuotes(s[2..][..i - 2]);
    hide Paired, Unescape;
    assert s[..i] == "''" + s[2..][..i - 2];
  }

  lemma CutAfterChar(s: string, i: nat)
    requires s != "" && s[0] != '\'' && Paired(s[1..]) && 1 <= i <= |s| && Paired(s[1..][..i - 1])
    ensures Paired(s[..i]) && Unescape(s[..i]) == s[..1] + Unescape(s[1..][..i - 1])
  {
    PairedCons(s[0], s[1..][..i - 1]);
    hide Paired, Unescape;
    assert s[..i] == [s[0]] + s[1..][..i - 1];
  }

  /** A pairing may be cut before any character that is not a quote. */
  lemma {:induction false} CutPaired(s: string, i: nat)
    requires Paired(s) && i < |s| && s[i] != '\''
    ensures Paired(s[..i]) && Paired(s[i..]) && Unescape(s) == Unescape(s[..i]) + Unescape(s[i..])
    decreases |s|
  {
    if i == 0 {
      assert s[..0] == "" && s[0..] == s;
    } else if s[0] == '\'' {
      UnescapeQuotes(s);
      CutPaired(s[2..], i - 2);
      CutAfterQuotes(s, i);
      hide Paired, Unescape;
      assert s[2..][i - 2..] == s[i..];
      Join("'", Unescape(s[2..][..i - 2]), Unescape(s[i..]));
    } else {
      UnescapeChar(s);
      CutPaired(s[1..], i - 1);
      CutAfterChar(s, i);
      hide Paired, Unescape;
      assert s[1..][i - 1..] == s[i..];
      Join(s[..1], Unescape(s[1..][..i - 1]), Unescape(s[i..]));
    }
  }

  lemma UnescapeChar(s: string)
    requires Paired(s) && s != "" && s[0] != '\''
    ensures Paired(s[1..]) && Unescape(s) == s[..1] + Unescape(s[1..])
  {}

  lemma UnescapeQuotes(s: string)
    requires Paired(s) && s != "" && s[0] == '\''
    ensures |s| >= 2 && s[1] == '\'' && Paired(s[2..]) && Unescape(s) == "'" + Unescape(s[2..])
  {}

  // ----- control characters -----

  /** The start of the first run of control characters, or the length. */
  function RunStart(s: string): (i: nat)
    ensures i <= |s| && (forall j :: 0 <= j < i ==> !IsControl(s[j]))
    ensures i < |s| ==> IsControl(s[i])
  {
    if s == "" || IsControl(s[0]) then 0 else 1 + RunStart(s[1..])
  }

  /** The end of the run of control characters at the front. */
  function RunEnd(s: string): (i: nat)
    ensures i <= |s| && (forall j :: 0 <= j < i ==> IsControl(s[j]))
    ensures i < |s| ==> !IsControl(s[i])
  {
    if s == "" || !IsControl(s[0]) then 0 else 1 + RunEnd(s[1..])
  }

  lemma {:induction false} ControlsPaired(s: string)
    requires forall j :: 0 <= j < |s| ==> IsControl(s[j])
    ensures Paired(s) && Unescape(s) == s
  {
    if s != "" { assert IsControl(s[0]); ControlsPaired(s[1..]); }
  }

  // ----- numbers -----

  function DigitValue(c: char): (v: int)
    ensures -1 <= v < 16
  {
    if '0' <= c <= '9' then c as int - '0' as int
    else if 'a' <= c <= 'f' then c as int - 'a' as int + 10
    else -1
  }

  /** The number spelled by the decimal digits at the front, and what follows them. */
  function ReadNumber(s: string, acc: nat): (nat, string)
    decreases |s|
  {
    if s != "" && 0 <= DigitValue(s[0]) < 10 then ReadNumber(s[1..], acc * 10 + DigitValue(s[0])) else (acc, s)
  }

  lemma ReadDigit(d: nat, rest: string, acc: nat)
    requires d < 10
    ensures ReadNumber([Digit(d)] + rest, acc) == ReadNumber(rest, acc * 10 + d)
  {
    assert ([Digit(d)] + rest)[1..] == rest;
  }

  lemma ReadStop(rest: string, acc: nat)
    requires rest == "" || DigitValue(rest[0]) < 0
    ensures ReadNumber(rest, acc) == (acc, rest)
  {}

  lemma ReadTwo(n: nat, rest: string, acc: nat)
    requires n < 100 && (rest == "" || DigitValue(rest[0]) < 0)
    ensures ReadNumber([Digit(n / 10)] + ([Digit(n % 10)] + rest), acc) == (acc * 100 + n, rest)
  {
    ReadDigit(n / 10, [Digit(n % 10)] + rest, acc);
    ReadDigit(n % 10, rest, acc * 10 + n / 10);
    ReadStop(rest, acc * 100 + n);
    hide ReadNumber, DigitValue, Digit;
    assert (acc * 10 + n / 10) * 10 + n % 10 == acc * 100 + n;
  }

  lemma ReadItoa(n: nat, rest: string)
    requires n < 1000 && (rest == "" || DigitValue(rest[0]) < 0)
    ensures ReadNumber(Itoa(n) + rest, 0) == (n, rest)
  {
    if n < 10 {
      ReadDigit(n, rest, 0);
      ReadStop(rest, n);
    } else if n < 100 {
      ReadTwo(n, rest, 0);
      Join([Digit(n / 10)], [Digit(n % 10)], rest);
    } else {
      ReadThree(n, rest);
    }
  }

  lemma ReadThree(n: nat, rest: string)
    requires 100 <= n < 1000 && (rest == "" || DigitValue(rest[0]) < 0)
    ensures ReadNumber(Itoa(n) + rest, 0) == (n, rest)
  {
    var a, m := n / 100, n % 100;
    assert n / 10 / 10 == a && n / 10 % 10 == m / 10 && n % 10 == m % 10 && n == a * 100 + m;
    assert Itoa(n / 10) == [Digit(a)] + [Digit(m / 10)];
    ReadDigit(a, [Digit(m / 10)] + ([Digit(m % 10)] + rest), 0);
    ReadTwo(m, rest, a);
    hide ReadNumber, DigitValue, Digit;
    Regroup([Digit(a)], [Digit(m / 10)], [Digit(m % 10)], rest);
  }

  // ----- the reader of a quoted literal -----

  datatype Read = Read(value: string, rest: string) | Bad

  /** The contents of a literal whose opening quote is behind us. */
  function ReadQuoted(s: string): Read
    decreases |s|
  {
    if s == "" then Bad
    else if s[0] != '\'' then
      match ReadQuoted(s[1..])
      case Bad => Bad
      case Read(v, r) => Read([s[0]] + v, r)
    else if |s| >= 2 && s[1] == '\'' then
      match ReadQuoted(s[2..])
      case Bad => Bad
      case Read(v, r) => Read(['\''] + v, r)
    else Read("", s[1..])
  }

  lemma {:induction false} ReadPaired(s: string, rest: string)
    requires Paired(s) && (rest == "" || rest[0] != '\'')
    ensures ReadQuoted(s + "'" + rest) == Read(Unescape(s), rest)
    decreases |s|
  {
    var t := s + "'" + rest;
    if s == "" {
      assert t == "'" + rest && t[1..] == rest;
    } else if s[0] == '\'' {
      assert t[2..] == s[2..] + "'" + rest;
      ReadPaired(s[2..], rest);
    } else {
      assert t[1..] == s[1..] + "'" + rest;
      ReadPaired(s[1..], rest);
    }
  }

  /** The plain form `'...'`, for any string. */
  lemma QuotedRoundTrip(v: string, rest: string)
    requires rest == "" || rest[0] != '\''
    ensures ReadQuoted(Escape(v) + "'" + rest) == Read(v, rest)
  {
    EscapePaired(v);
    ReadPaired(Escape(v), rest);
  }

  lemma {:induction false} ReadShortens(s: string)
    ensures ReadQuoted(s).Read? ==> |ReadQuoted(s).rest| < |s|
    decreases |s|
  {
    if s != "" {
      ReadShortens(s[1..]);
      if |s| >= 2 { ReadShortens(s[2..]); }
    }
  }

  // ----- cutting at control characters -----

  lemma ControlTail(t: string)
    requires Paired(t) && t != "" && IsControl(t[0])
    ensures Paired(t[1..]) && Unescape(t) == t[..1] + Unescape(t[1..])
  {}

  lemma {:induction false} CutAfterControls(t: string, n: nat)
    requires Paired(t) && n <= |t| && forall j :: 0 <= j < n ==> IsControl(t[j])
    ensures Paired(t[n..]) && Unescape(t) == t[..n] + Unescape(t[n..])
    decreases n
  {
    if n == 0 {
      assert t[0..] == t;
    } else {
      var u := t[1..];
      ControlTail(t);
      hide Paired, Unescape;
      CutAfterControls(u, n - 1);
      assert u[n - 1..] == t[n..] && t[..n] == t[..1] + u[..n - 1];
    }
  }

  /** The three pieces the encoders cut: text, a run of control characters, and the rest. */
  lemma CutAtRun(s: string, a: nat, b: nat)
    requires Paired(s) && a == RunStart(s) < |s| && b == a + RunEnd(s[a..])
    ensures a < b <= |s| && Paired(s[..a]) && Paired(s[b..])
    ensures forall j :: 0 <= j < b - a ==> IsControl(s[a..b][j])
    ensures Unescape(s) == Unescape(s[..a]) + (s[a..b] + Unescape(s[b..]))
  {
    hide Paired, Unescape, RunEnd;
    assert IsControl(s[a]);
    CutPaired(s, a);
    RunBounds(s, a, b);
    var t := s[a..];
    CutAfterControls(t, b - a);
    assert t[b - a..] == s[b..] && t[..b - a] == s[a..b];
  }

  lemma RunBounds(s: string, a: nat, b: nat)
    requires a == RunStart(s) < |s| && b == a + RunEnd(s[a..])
    ensures a < b <= |s| && s[a..][..b - a] == s[a..b]
    ensures forall j :: 0 <= j < b - a ==> IsControl(s[a..b][j]) && IsControl(s[a..][j])
  {
    var t, n := s[a..], b - a;
    RunEndPositive(t);
    hide RunStart, RunEnd;
    assert t[..n] == s[a..b];
    forall j | 0 <= j < n ensures IsControl(s[a..b][j]) && IsControl(t[j]) {
      assert IsControl(t[j]) && s[a..b][j] == t[..n][j] == t[j];
    }
  }

  lemma RunEndPositive(t: string)
    requires t != "" && IsControl(t[0])
    ensures 0 < RunEnd(t) <= |t| && forall j :: 0 <= j < RunEnd(t) ==> IsControl(t[j])
  {}

  lemma NothingBefore(s: string, v: string)
    ensures Paired(s[..0]) && Unescape(s[..0]) + v == v
  {}
}
