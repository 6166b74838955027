/** The CONCAT form of a dumped string, read with or without backslash escapes. */
module DumpConcat {
  import opened Strings
  import opened Utils
  import opened DumpLiterals
  import opened DumpBackslash

  /** CHAR(n) for each control character, the last one without its separator. */
  function CharCalls(run: string): string
    requires run != ""
  {
    if |run| == 1 then Call(run[0]) else Call(run[0]) + ", " + CharCalls(run[1..])
  }

  function Call(c: char): string { "CHAR(" + Itoa(c as nat) + ")" }

  function ConcatArgs(s: string): string
    decreases |s|, 1
  {
    if s == "" then ""
    else
      var a := RunStart(s);
      if a == |s| then "'" + s + "')"
      else
        var b := a + RunEnd(s[a..]);
        RunBounds(s, a, b);
        if a > 0 then "'" + s[..a] + "', " + RunTail(s, a, b) else RunTail(s, a, b)
  }

  /** A run of CHAR calls and what follows it. */
  function RunTail(s: string, a: nat, b: nat): string
    requires a < b <= |s|
    decreases |s|, 0
  {
    CharCalls(s[a..b]) + (if b < |s| then ", " + ConcatArgs(s[b..]) else ")")
  }

  function ConcatWithChar(v: string): string { "CONCAT(" + ConcatArgs(Escape(v)) }

  // ----- evaluation -----

  /** A literal's contents; `slash` says whether the session has backslash escapes on. */
  function ReadLiteral(slash: bool, s: string): Read { if slash then ReadSlashed(s) else ReadQuoted(s) }

  function ReadArg(slash: bool, s: string): Read {
    if s != "" && s[0] == '\'' then ReadLiteral(slash, s[1..])
    else if "CHAR(" <= s then
      var (n, r) := ReadNumber(s[5..], 0);
      if r != "" && r[0] == ')' && n < 128 then Read([n as char], r[1..]) else Bad
    else Bad
  }

  function Prepend(v: string, more: Option<string>): Option<string> {
    if more.None? then None else Some(v + more.value)
  }

  /** Arguments separated by `, ` up to the closing parenthesis that ends the text. */
  function EvalArgs(slash: bool, s: string): Option<string>
    decreases |s|
  {
    match ReadArg(slash, s)
    case Bad => None
    case Read(v, r) =>
      if r == ")" then Some(v)
      else if ", " <= r && |r[2..]| < |s| then Prepend(v, EvalArgs(slash, r[2..]))
      else None
  }

  function EvalConcat(slash: bool, s: string): Option<string> {
    if "CONCAT(" <= s then EvalArgs(slash, s[7..]) else None
  }

  lemma {:induction false} NumberShortens(s: string, acc: nat)
    ensures |ReadNumber(s, acc).1| <= |s|
    decreases |s|
  {
    if s != "" && 0 <= DigitValue(s[0]) < 10 { NumberShortens(s[1..], acc * 10 + DigitValue(s[0])); }
  }

  lemma ArgShortens(slash: bool, s: string)
    ensures ReadArg(slash, s).Read? ==> |ReadArg(slash, s).rest| < |s|
  {
    if s != "" && s[0] == '\'' { ReadShortens(s[1..]); } else if "CHAR(" <= s { NumberShortens(s[5..], 0); }
    hide ReadQuoted, ReadSlashed, ReadNumber;
  }

  lemma EvalLast(slash: bool, s: string, v: string)
    requires ReadArg(slash, s) == Read(v, ")")
    ensures EvalArgs(slash, s) == Some(v)
  {}

  lemma EvalNext(slash: bool, s: string, v: string, rest: string)
    requires ReadArg(slash, s) == Read(v, ", " + rest)
    ensures EvalArgs(slash, s) == Prepend(v, EvalArgs(slash, rest))
  {
    ArgShortens(slash, s);
    hide ReadArg;
    assert (", " + rest)[2..] == rest && ", " <= ", " + rest && (", " + rest)[0] == ',';
  }

  /** Whatever follows an argument, its value is where the result begins. */
  lemma EvalBegins(slash: bool, s: string)
    ensures EvalArgs(slash, s).Some? ==> ReadArg(slash, s).Read? && ReadArg(slash, s).value <= EvalArgs(slash, s).value
  {}

  lemma ReadCall(slash: bool, c: char, rest: string)
    requires IsControl(c)
    ensures ReadArg(slash, Call(c) + rest) == Read([c], rest)
  {
    var digits := Itoa(c as nat);
    var t := "CHAR(" + digits + ")" + rest;
    assert t == "CHAR(" + (digits + (")" + rest));
    assert t[..5] == "CHAR(" && t[5..] == digits + (")" + rest);
    ReadItoa(c as nat, ")" + rest);
    assert (")" + rest)[1..] == rest;
    hide ReadNumber, Itoa;
  }

  lemma EvalCallLast(slash: bool, c: char)
    requires IsControl(c)
    ensures EvalArgs(slash, Call(c) + ")") == Some([c])
  {
    ReadCall(slash, c, ")");
    EvalLast(slash, Call(c) + ")", [c]);
  }

  lemma EvalCall(slash: bool, c: char, rest: string)
    requires IsControl(c)
    ensures EvalArgs(slash, Call(c) + (", " + rest)) == Prepend([c], EvalArgs(slash, rest))
  {
    ReadCall(slash, c, ", " + rest);
    EvalNext(slash, Call(c) + (", " + rest), [c], rest);
  }

  lemma {:induction false} EvalCalls(slash: bool, run: string, rest: string)
    requires run != "" && forall j :: 0 <= j < |run| ==> IsControl(run[j])
    ensures EvalArgs(slash, CharCalls(run) + ")") == Some(run)
    ensures EvalArgs(slash, CharCalls(run) + (", " + rest)) == Prepend(run, EvalArgs(slash, rest))
    decreases |run|
  {
    hide EvalArgs, ReadArg, Call;
    var c := run[0];
    if |run| == 1 {
      EvalCallLast(slash, c);
      EvalCall(slash, c, rest);
      assert run == [c];
    } else {
      EvalCalls(slash, run[1..], rest);
      EvalMoreCalls(slash, run, ")");
      EvalMoreCalls(slash, run, ", " + rest);
      PrependTwice(run, EvalArgs(slash, rest));
    }
  }

  lemma PrependTwice(run: string, more: Option<string>)
    requires run != ""
    ensures Prepend([run[0]], Prepend(run[1..], more)) == Prepend(run, more)
    ensures Prepend([run[0]], Some(run[1..])) == Some(run)
  {
    assert run == [run[0]] + run[1..];
    if more.Some? { Join([run[0]], run[1..], more.value); }
  }

  lemma EvalMoreCalls(slash: bool, run: string, tail: string)
    requires |run| > 1 && IsControl(run[0])
    ensures EvalArgs(slash, CharCalls(run) + tail) == Prepend([run[0]], EvalArgs(slash, CharCalls(run[1..]) + tail))
  {
    EvalCall(slash, run[0], CharCalls(run[1..]) + tail);
    hide EvalArgs, Call;
    Regroup(Call(run[0]), ", ", CharCalls(run[1..]), tail);
  }

  // ----- the text segments -----

  /** The session reads such text back as it was. */
  predicate Exact(slash: bool, u: string) { !slash || Patterned(u) }

  lemma {:induction false} EscapeUnescape(s: string)
    requires Paired(s)
    ensures Escape(Unescape(s)) == s
    decreases |s|
  {
    if s != "" {
      if s[0] == '\'' {
        EscapeUnescape(s[2..]);
        var u := Unescape(s);
        assert u[0] == '\'' && u[1..] == Unescape(s[2..]) && s == "''" + s[2..];
      } else {
        EscapeUnescape(s[1..]);
        var u := Unescape(s);
        assert u[0] == s[0] && u[1..] == Unescape(s[1..]) && s == [s[0]] + s[1..];
      }
    }
  }

  lemma TextOutcome(slash: bool, text: string, tail: string)
    requires Paired(text) && Closing(tail)
    ensures
      var r := ReadArg(slash, "'" + text + tail);
      && (Exact(slash, Unescape(text)) ==> r == Read(Unescape(text), tail[1..]))
      && (!Exact(slash, Unescape(text)) ==> Off(r, Unescape(text), tail[1..]))
  {
    var s := "'" + text + tail;
    assert s[0] == '\'' && s[1..] == text + tail;
    if slash {
      EscapeUnescape(text);
      SlashedReading(Unescape(text), tail);
    } else {
      ReadPaired(text, tail[1..]);
      assert tail == "'" + tail[1..];
      Join(text, "'", tail[1..]);
    }
    hide ReadQuoted, ReadSlashed, Patterned, Unescape, Escape;
  }

  lemma {:induction false} NoControls(text: string)
    requires Paired(text) && forall j :: 0 <= j < |text| ==> !IsControl(text[j])
    ensures forall j :: 0 <= j < |Unescape(text)| ==> !IsControl(Unescape(text)[j])
    decreases |text|
  {
    if text != "" {
      if text[0] == '\'' {
        assert forall j :: 0 <= j < |text[2..]| ==> text[2..][j] == text[j + 2];
        NoControls(text[2..]);
      } else {
        assert !IsControl(text[0]) && forall j :: 0 <= j < |text[1..]| ==> text[1..][j] == text[j + 1];
        NoControls(text[1..]);
      }
    }
  }

  /** A result that begins with a wrong reading of `u` is not `u` and more. */
  lemma OffShows(w: string, u: string, more: string, x: string)
    requires Conflict(w, u) && w <= x
    ensures x != u + more
  {
    var j :| 0 <= j < |w| && j < |u| && w[j] != u[j];
    assert x[j] == w[j] && (u + more)[j] == u[j];
  }

  /** Nor is one that stops inside `u` and goes on with a control character. */
  lemma ShortShows(w: string, u: string, more: string, x: string)
    requires Short(w, u) && (forall j :: 0 <= j < |u| ==> !IsControl(u[j]))
    requires x == w || (|x| > |w| && IsControl(x[|w|]))
    ensures x != u + more
  {
    if |x| > |w| { assert (u + more)[|w|] == u[|w|]; }
  }

  // ----- round trip -----

  /** Backslashes at the end of a text segment stand before a control character. */
  lemma {:induction false} PatternedCut(u: string, run: string, more: string)
    requires run != "" && forall j :: 0 <= j < |run| ==> IsControl(run[j])
    ensures Patterned(u + (run + more)) <==> Patterned(u) && Patterned(more)
    decreases |u|
  {
    var v := u + (run + more);
    if u == "" {
      PatternedRun(run, more);
      assert v == run + more;
    } else if u[0] != '\\' {
      assert v[0] == u[0] && v[1..] == u[1..] + (run + more);
      PatternedCut(u[1..], run, more);
    } else if |u| == 1 {
      assert v[0] == '\\' && v[1] == run[0] && IsControl(run[0]);
    } else {
      assert v[0] == '\\' && v[1] == u[1] && v[2..] == u[2..] + (run + more);
      PatternedCut(u[2..], run, more);
    }
  }

  lemma {:induction false} PatternedRun(run: string, more: string)
    requires forall j :: 0 <= j < |run| ==> IsControl(run[j])
    ensures Patterned(run + more) <==> Patterned(more)
    decreases |run|
  {
    if run == "" {
      assert run + more == more;
    } else {
      assert IsControl(run[0]) && (run + more)[0] == run[0] && (run + more)[1..] == run[1..] + more;
      PatternedRun(run[1..], more);
    }
  }

  /** The last argument, a text. */
  lemma LastTextIff(slash: bool, s: string)
    requires Paired(s)
    ensures EvalArgs(slash, "'" + s + "')") == Some(Unescape(s)) <==> Exact(slash, Unescape(s))
  {
    var u, t := Unescape(s), "'" + s + "')";
    TextOutcome(slash, s, "')");
    assert "')"[1..] == ")";
    EvalBegins(slash, t);
    var r := ReadArg(slash, t);
    if Exact(slash, u) {
      EvalLast(slash, t, u);
    } else if r.Read? && Conflict(r.value, u) {
      if EvalArgs(slash, t).Some? {
        OffShows(r.value, u, "", EvalArgs(slash, t).value);
        assert u + "" == u;
      }
    } else if r.Read? {
      EvalLast(slash, t, r.value);
    }
  }

  /** A text argument before a run of CHAR calls. */
  lemma TextThenIff(slash: bool, text: string, tail: string, v: string)
    requires Paired(text) && forall j :: 0 <= j < |text| ==> !IsControl(text[j])
    requires EvalArgs(slash, tail).Some? ==> EvalArgs(slash, tail).value != "" && IsControl(EvalArgs(slash, tail).value[0])
    ensures EvalArgs(slash, "'" + text + "', " + tail) == Some(Unescape(text) + v) <==>
            Exact(slash, Unescape(text)) && EvalArgs(slash, tail) == Some(v)
  {
    var u, t, close := Unescape(text), "'" + text + "', " + tail, "', " + tail;
    assert t == "'" + text + close && close[1..] == ", " + tail;
    NoControls(text);
    TextOutcome(slash, text, close);
    EvalBegins(slash, t);
    hide EvalArgs, ReadArg, Unescape, Exact;
    var r := ReadArg(slash, t);
    if Exact(slash, u) {
      EvalNext(slash, t, u, tail);
      if EvalArgs(slash, tail).Some? { SameEnd(u, EvalArgs(slash, tail).value, v); }
    } else if r.Read? && Conflict(r.value, u) {
      if EvalArgs(slash, t).Some? { OffShows(r.value, u, v, EvalArgs(slash, t).value); }
    } else if r.Read? {
      EvalNext(slash, t, r.value, tail);
      if EvalArgs(slash, tail).Some? { ShortShows(r.value, u, v, r.value + EvalArgs(slash, tail).value); }
    }
  }

  lemma SameEnd(u: string, a: string, b: string)
    ensures u + a == u + b <==> a == b
  {
    if u + a == u + b { assert a == (u + a)[|u|..] && b == (u + b)[|u|..]; }
  }

  /** A run of CHAR calls and the arguments after it. */
  lemma RunTailIff(slash: bool, s: string, a: nat, b: nat)
    requires a < b <= |s| && Paired(s[b..])
    requires forall j :: 0 <= j < b - a ==> IsControl(s[a..b][j])
    requires b < |s| ==> (EvalArgs(slash, ConcatArgs(s[b..])) == Some(Unescape(s[b..])) <==> Exact(slash, Unescape(s[b..])))
    ensures
      var r := EvalArgs(slash, RunTail(s, a, b));
      && (r == Some(s[a..b] + Unescape(s[b..])) <==> Exact(slash, Unescape(s[b..])))
      && (r.Some? ==> r.value != "" && IsControl(r.value[0]))
  {
    hide EvalArgs, ConcatArgs, CharCalls, Patterned;
    var run := s[a..b];
    assert IsControl(run[0]);
    if b < |s| {
      var more := EvalArgs(slash, ConcatArgs(s[b..]));
      EvalCalls(slash, run, ConcatArgs(s[b..]));
      if more.Some? { SameEnd(run, more.value, Unescape(s[b..])); }
    } else {
      EvalCalls(slash, run, "");
      NothingLeft(slash, s[b..]);
      assert run + "" == run;
    }
  }

  lemma NothingLeft(slash: bool, s: string)
    requires s == ""
    ensures Unescape(s) == "" && Exact(slash, "")
  {}

  lemma {:induction false} ConcatArgsIff(slash: bool, s: string)
    requires Paired(s) && s != ""
    ensures EvalArgs(slash, ConcatArgs(s)) == Some(Unescape(s)) <==> Exact(slash, Unescape(s))
    decreases |s|
  {
    hide EvalArgs, RunTail, Unescape, Paired, Patterned, ConcatArgs, Exact, IsControl;
    var a := RunStart(s);
    if a == |s| {
      ArgsOfText(s);
      LastTextIff(slash, s);
    } else {
      var b := a + RunEnd(s[a..]);
      CutAtRun(s, a, b);
      ArgsAtRun(s, a, b);
      if b < |s| { ConcatArgsIff(slash, s[b..]); }
      RunTailIff(slash, s, a, b);
      CutIff(slash, s, a, b);
    }
  }

  lemma ArgsOfText(s: string)
    requires s != "" && RunStart(s) == |s|
    ensures ConcatArgs(s) == "'" + s + "')"
  {}

  lemma ArgsAtRun(s: string, a: nat, b: nat)
    requires a == RunStart(s) < |s| && b == a + RunEnd(s[a..])
    ensures a < b <= |s|
    ensures ConcatArgs(s) == if a > 0 then "'" + s[..a] + "', " + RunTail(s, a, b) else RunTail(s, a, b)
  {
    RunBounds(s, a, b);
    hide RunTail, RunStart, RunEnd;
  }

  lemma CutIff(slash: bool, s: string, a: nat, b: nat)
    requires a < b <= |s| && Paired(s) && Paired(s[..a]) && Paired(s[b..])
    requires (forall j :: 0 <= j < b - a ==> IsControl(s[a..b][j])) && (forall j :: 0 <= j < a ==> !IsControl(s[j]))
    requires Unescape(s) == Unescape(s[..a]) + (s[a..b] + Unescape(s[b..]))
    requires
      var r := EvalArgs(slash, RunTail(s, a, b));
      && (r == Some(s[a..b] + Unescape(s[b..])) <==> Exact(slash, Unescape(s[b..])))
      && (r.Some? ==> r.value != "" && IsControl(r.value[0]))
    ensures
      var args := if a > 0 then "'" + s[..a] + "', " + RunTail(s, a, b) else RunTail(s, a, b);
      EvalArgs(slash, args) == Some(Unescape(s)) <==> Exact(slash, Unescape(s))
  {
    hide EvalArgs, RunTail, Unescape, Paired, Patterned;
    PatternedCut(Unescape(s[..a]), s[a..b], Unescape(s[b..]));
    if a > 0 {
      TextThenIff(slash, s[..a], RunTail(s, a, b), s[a..b] + Unescape(s[b..]));
    } else {
      NothingBefore(s, s[a..b] + Unescape(s[b..]));
      NothingLeft(slash, s[..a]);
    }
  }

  /** The CONCAT form of a non-empty string: without backslash escapes, as a dump for MySQL asks for
      at its start, the string always comes back; with them, exactly if every backslash in it stands
      before a percent sign or an underscore. */
  lemma ConcatRoundTripIff(slash: bool, v: string)
    requires v != ""
    ensures EvalConcat(slash, ConcatWithChar(v)) == Some(v) <==> !slash || Patterned(v)
  {
    EscapePaired(v);
    ConcatArgsIff(slash, Escape(v));
    assert ConcatWithChar(v)[7..] == ConcatArgs(Escape(v));
  }
}
