/** String literals under backslash escapes (MySQL manual, section 9.1.1). */
module DumpBackslash {
  import opened Strings
  import opened DumpLiterals

  /** What a backslash and a character stand for. */
  function Unslash(c: char): (r: string)
    ensures r != "" && (r[0] == '\\' <==> c == '\\' || c == '%' || c == '_')
  {
    match c
    case '0' => "\0"
    case 'b' => "\U{08}"
    case 'n' => "\n"
    case 'r' => "\r"
    case 't' => "\t"
    case 'Z' => "\U{1A}"
    case '%' => "\\%"
    case '_' => "\\_"
    case _ => [c]
  }

  function Cons(x: string, r: Read): Read { if r.Bad? then Bad else Read(x + r.value, r.rest) }

  /** The contents of a literal whose opening quote is behind us. */
  function ReadSlashed(s: string): (r: Read)
    ensures r.Read? ==> |r.rest| < |s|
    decreases |s|
  {
    if s == "" then Bad
    else if s[0] == '\\' then (if |s| < 2 then Bad else Cons(Unslash(s[1]), ReadSlashed(s[2..])))
    else if s[0] != '\'' then Cons([s[0]], ReadSlashed(s[1..]))
    else if |s| >= 2 && s[1] == '\'' then Cons("'", ReadSlashed(s[2..]))
    else Read("", s[1..])
  }

  /** Every backslash stands right before a percent sign or an underscore; only there it stays. */
  predicate Patterned(v: string)
    decreases |v|
  {
    v == "" ||
    (if v[0] == '\\' then |v| >= 2 && (v[1] == '%' || v[1] == '_') && Patterned(v[2..]) else Patterned(v[1..]))
  }

  lemma {:induction false} NoBackslashIsPatterned(v: string)
    requires '\\' !in v
    ensures Patterned(v)
    decreases |v|
  {
    if v != "" {
      assert v[0] in v && forall c :: c in v[1..] ==> c in v;
      NoBackslashIsPatterned(v[1..]);
    }
  }

  // ----- what is read instead -----

  predicate Conflict(w: string, u: string) { exists j :: 0 <= j < |w| && j < |u| && w[j] != u[j] }

  predicate Short(w: string, u: string) { |w| < |u| && w == u[..|w|] }

  /** No literal, or a value that differs from `u` somewhere, or one that stops too early. */
  predicate Off(r: Read, u: string, rest: string) {
    r.Bad? || Conflict(r.value, u) || (r.rest == rest && Short(r.value, u))
  }

  /** The quote that closes the literal. */
  predicate Closing(tail: string) { tail != "" && tail[0] == '\'' && (|tail| > 1 ==> tail[1] != '\'') }

  lemma ConflictAt(w: string, u: string, j: nat)
    requires j < |w| && j < |u| && w[j] != u[j]
    ensures Conflict(w, u)
  {}

  lemma OffCons(x: string, r: Read, u: string, rest: string)
    requires Off(r, u, rest)
    ensures Off(Cons(x, r), x + u, rest)
  {
    if r.Read? {
      if Conflict(r.value, u) {
        var j :| 0 <= j < |r.value| && j < |u| && r.value[j] != u[j];
        ConflictAt(x + r.value, x + u, |x| + j);
      } else {
        assert x + r.value == (x + u)[..|x + r.value|];
      }
    }
  }

  /** A first character that differs. */
  lemma OffAtOnce(x: string, r: Read, u: string, rest: string)
    requires x != "" && u != "" && x[0] != u[0]
    ensures Off(Cons(x, r), u, rest)
  {
    if r.Read? { ConflictAt(x + r.value, u, 0); }
  }

  /** A second character that differs. */
  lemma OffNext(x: string, r: Read, u: string, rest: string)
    requires |x| >= 2 && |u| >= 2 && x[1] != u[1]
    ensures Off(Cons(x, r), u, rest)
  {
    if r.Read? { ConflictAt(x + r.value, u, 1); }
  }

  // ----- the reader on an escaped text -----

  lemma ReadPlain(u: string, tail: string)
    requires u != "" && u[0] != '\\'
    ensures ReadSlashed(Escape(u) + tail) == Cons([u[0]], ReadSlashed(Escape(u[1..]) + tail))
  {
    hide Escape, ReadSlashed;
    var t, more := Escape(u) + tail, Escape(u[1..]) + tail;
    NextChar(u, tail);
    if u[0] == '\'' {
      assert t[1..][0] == '\'' && t[1..][1..] == more;
      assert t[1] == '\'' && t[2..] == more;
    }
    StepPlain(t);
  }

  lemma StepPlain(t: string)
    requires t != "" && t[0] != '\\' && (t[0] == '\'' ==> |t| >= 2 && t[1] == '\'')
    ensures ReadSlashed(t) == Cons([t[0]], ReadSlashed(if t[0] == '\'' then t[2..] else t[1..]))
  {}

  lemma ReadEscape(u: string, tail: string)
    requires u != "" && u[0] == '\\' && Closing(tail)
    ensures |u| == 1 ==> ReadSlashed(Escape(u) + tail) == Cons("'", ReadSlashed(tail[1..]))
    ensures |u| > 1 && u[1] == '\'' ==> ReadSlashed(Escape(u) + tail) == Cons("'", ReadSlashed("'" + (Escape(u[2..]) + tail)))
    ensures |u| > 1 && u[1] != '\'' ==> ReadSlashed(Escape(u) + tail) == Cons(Unslash(u[1]), ReadSlashed(Escape(u[2..]) + tail))
  {
    hide Escape, ReadSlashed, Unslash;
    var t, more := Escape(u) + tail, Escape(u[1..]) + tail;
    SlashFirst(u, tail);
    assert t[1] == more[0] && t[2..] == more[1..];
    StepSlash(t);
    UnslashQuote();
  }

  lemma UnslashQuote()
    ensures Unslash('\'') == "'"
  {}

  lemma StepSlash(t: string)
    requires |t| >= 2 && t[0] == '\\'
    ensures ReadSlashed(t) == Cons(Unslash(t[1]), ReadSlashed(t[2..]))
  {}

  lemma SlashFirst(u: string, tail: string)
    requires u != "" && u[0] == '\\' && Closing(tail)
    ensures Escape(u) + tail == ['\\'] + (Escape(u[1..]) + tail)
    ensures |u| == 1 ==> Escape(u[1..]) + tail == tail
    ensures |u| > 1 ==> Follows(Escape(u[1..]) + tail, u[1], Escape(u[2..]) + tail)
  {
    hide Escape, Follows, Closing;
    EscapeFirst(u);
    Join(['\\'], Escape(u[1..]), tail);
    if |u| == 1 {
      EscapeNone();
      assert u[1..] == "" && "" + tail == tail;
    } else {
      assert u[1..][0] == u[1] && u[1..][1..] == u[2..];
      NextChar(u[1..], tail);
    }
  }

  lemma EscapeNone()
    ensures Escape("") == ""
  {}

  lemma EscapeFirst(u: string)
    requires u != ""
    ensures Escape(u) == [u[0]] + if u[0] == '\'' then "'" + Escape(u[1..]) else Escape(u[1..])
  {}

  lemma HeadOff(e: string, c: char, more: string, tail: string)
    requires e == [c] + more
    ensures e + tail != "" && (e + tail)[0] == c && (e + tail)[1..] == more + tail
  {}

  /** `t` is the escaped form of `c` and then `more`. */
  predicate Follows(t: string, c: char, more: string) {
    t != "" && t[0] == c && t[1..] == if c == '\'' then "'" + more else more
  }

  /** The first character of escaped text, and what follows it. */
  lemma NextChar(u: string, tail: string)
    requires u != ""
    ensures Follows(Escape(u) + tail, u[0], Escape(u[1..]) + tail)
  {
    hide Escape;
    var more := Escape(u[1..]);
    EscapeFirst(u);
    HeadOff(Escape(u), u[0], if u[0] == '\'' then "'" + more else more, tail);
    Join("'", more, tail);
  }

  function Slashes(n: nat): (r: string)
    ensures |r| == n && forall i :: 0 <= i < n ==> r[i] == '\\'
  {
    if n == 0 then "" else Slashes(n - 1) + "\\"
  }

  lemma StopsShort(rest: string, u: string)
    requires u != ""
    ensures Off(Read("", rest), u, rest)
  {
    assert "" == u[..0];
  }

  /** Once a pair of backslashes has been read as one, the text still owes a backslash; it never
      catches up. */
  lemma {:induction false} StaysOff(d: nat, u: string, tail: string)
    requires d > 0 && Closing(tail)
    ensures Off(ReadSlashed(Escape(u) + tail), Slashes(d) + u, tail[1..])
    decreases |u|
  {
    hide Escape, ReadSlashed, Off;
    var owed := Slashes(d) + u;
    assert owed[0] == '\\';
    if u == "" {
      EmptyText(tail);
      StopsShort(tail[1..], owed);
    } else if u[0] != '\\' {
      ReadPlain(u, tail);
      OffAtOnce([u[0]], ReadSlashed(Escape(u[1..]) + tail), owed, tail[1..]);
    } else {
      ReadEscape(u, tail);
      assert owed[1] == '\\';
      if |u| == 1 {
        OffAtOnce("'", ReadSlashed(tail[1..]), owed, tail[1..]);
      } else if u[1] == '\'' {
        OffAtOnce("'", ReadSlashed("'" + (Escape(u[2..]) + tail)), owed, tail[1..]);
      } else {
        var more := ReadSlashed(Escape(u[2..]) + tail);
        if u[1] == '\\' {
          StaysOff(d + 1, u[2..], tail);
          assert "\\" + (Slashes(d + 1) + u[2..]) == owed by { SlashesTwo(d, u); }
          OffCons("\\", more, Slashes(d + 1) + u[2..], tail[1..]);
        } else if u[1] == '%' || u[1] == '_' {
          OffNext(Unslash(u[1]), more, owed, tail[1..]);
        } else {
          OffAtOnce(Unslash(u[1]), more, owed, tail[1..]);
        }
      }
    }
  }

  lemma SlashesTwo(d: nat, u: string)
    requires |u| >= 2 && u[0] == '\\' && u[1] == '\\'
    ensures "\\" + (Slashes(d + 1) + u[2..]) == Slashes(d) + u
  {
    var a, b := "\\" + (Slashes(d + 1) + u[2..]), Slashes(d) + u;
    assert |a| == |b|;
    forall i | 0 <= i < |a| ensures a[i] == b[i] {
      if i < d + 2 { assert a[i] == '\\' && b[i] == '\\'; } else { assert a[i] == u[2..][i - d - 2] && b[i] == u[i - d]; }
    }
  }

  lemma EmptyText(tail: string)
    requires Closing(tail)
    ensures ReadSlashed(Escape("") + tail) == Read("", tail[1..])
  {
    assert Escape("") + tail == tail;
  }

  /** A literal of escaped text is read as the text if every backslash in it stands before a percent
      sign or an underscore; otherwise the reading is off. */
  lemma {:induction false} SlashedReading(u: string, tail: string)
    requires Closing(tail)
    ensures Patterned(u) ==> ReadSlashed(Escape(u) + tail) == Read(u, tail[1..])
    ensures !Patterned(u) ==> Off(ReadSlashed(Escape(u) + tail), u, tail[1..])
    decreases |u|
  {
    if u == "" {
      EmptyText(tail);
    } else if u[0] != '\\' {
      ReadPlain(u, tail);
      SlashedReading(u[1..], tail);
      assert [u[0]] + u[1..] == u;
      if !Patterned(u) { OffCons([u[0]], ReadSlashed(Escape(u[1..]) + tail), u[1..], tail[1..]); }
    } else {
      ReadEscape(u, tail);
      if |u| == 1 {
        OffAtOnce("'", ReadSlashed(tail[1..]), u, tail[1..]);
      } else if u[1] == '\'' {
        OffAtOnce("'", ReadSlashed("'" + (Escape(u[2..]) + tail)), u, tail[1..]);
      } else {
        SlashedPair(u, tail);
      }
    }
  }

  lemma {:induction false} SlashedPair(u: string, tail: string)
    requires Closing(tail) && |u| >= 2 && u[0] == '\\' && u[1] != '\''
    ensures Patterned(u) ==> ReadSlashed(Escape(u) + tail) == Read(u, tail[1..])
    ensures !Patterned(u) ==> Off(ReadSlashed(Escape(u) + tail), u, tail[1..])
    decreases |u|, 0
  {
    hide Escape, ReadSlashed, Off;
    ReadEscape(u, tail);
    PairPatterned(u);
    var more := ReadSlashed(Escape(u[2..]) + tail);
    if u[1] == '\\' {
      StaysOff(1, u[2..], tail);
      SlashesOne(u);
      OffCons("\\", more, Slashes(1) + u[2..], tail[1..]);
      assert Unslash('\\') == "\\";
    } else if u[1] == '%' || u[1] == '_' {
      SlashedReading(u[2..], tail);
      PatternKept(u);
      if !Patterned(u) { OffCons(Unslash(u[1]), more, u[2..], tail[1..]); }
    } else {
      OffAtOnce(Unslash(u[1]), more, u, tail[1..]);
    }
  }

  lemma PairPatterned(u: string)
    requires |u| >= 2 && u[0] == '\\'
    ensures Patterned(u) <==> (u[1] == '%' || u[1] == '_') && Patterned(u[2..])
  {}

  lemma PatternKept(u: string)
    requires |u| >= 2 && u[0] == '\\' && (u[1] == '%' || u[1] == '_')
    ensures Unslash(u[1]) + u[2..] == u
  {
    assert Unslash(u[1]) == ['\\', u[1]];
  }

  lemma SlashesOne(u: string)
    requires |u| >= 2 && u[0] == '\\' && u[1] == '\\'
    ensures "\\" + (Slashes(1) + u[2..]) == u
  {
    assert Slashes(1) == "" + "\\" == "\\";
    assert u == ['\\'] + (['\\'] + u[2..]);
  }

  lemma OffIsNot(r: Read, u: string, rest: string)
    requires Off(r, u, rest)
    ensures r != Read(u, rest)
  {}

  /** The plain form with backslash escapes on: the value comes back exactly if every backslash in
      it stands before a percent sign or an underscore. */
  lemma QuotedRoundTripIff(v: string, rest: string)
    requires rest == "" || rest[0] != '\''
    ensures ReadSlashed(Escape(v) + "'" + rest) == Read(v, rest) <==> Patterned(v)
  {
    var tail := "'" + rest;
    assert tail[1..] == rest;
    Join(Escape(v), "'", rest);
    SlashedReading(v, tail);
    if !Patterned(v) { OffIsNot(ReadSlashed(Escape(v) + tail), v, rest); }
  }

  /** A single backslash opens an escape that swallows the closing quote. */
  lemma BackslashIsNoLiteral()
    ensures Escape("\\") + "'" == "\\'" && ReadSlashed("\\'") == Bad
  {
    assert "\\'"[2..] == "" && "\\"[1..] == "";
    assert ReadSlashed("") == Bad;
  }
}
