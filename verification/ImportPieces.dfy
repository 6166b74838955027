/** What the splitter of Import takes for a statement, piece by piece. */
module ImportPieces {
  import opened Strings
  import opened ImportSplit

  /** A character, a quoted literal, a comment to the end of its line, and a semicolon; a literal
      or a comment that the text ends in is not closed. */
  datatype Piece =
    | Char(c: char)
    | Literal(body: string, closed: bool)
    | Comment(body: string, closed: bool)
    | Semi

  function PieceText(p: Piece): string {
    match p
    case Char(c) => [c]
    case Literal(b, closed) => "'" + b + (if closed then "'" else "")
    case Comment(b, closed) => "--" + b + (if closed then "\n" else "")
    case Semi => ";"
  }

  function Text(ps: seq<Piece>): string { if ps == [] then "" else PieceText(ps[0]) + Text(ps[1..]) }

  /** Two dashes in a row are the start of a comment; `dash` says that one stands right before. */
  predicate Good(ps: seq<Piece>, dash: bool)
    decreases |ps|
  {
    ps == [] ||
    match ps[0]
    case Char(c) => c != '\'' && c != ';' && !(dash && c == '-') && Good(ps[1..], c == '-')
    case Literal(b, closed) => '\'' !in b && (closed || ps[1..] == []) && Good(ps[1..], false)
    case Comment(b, closed) => !dash && '\n' !in b && (closed || ps[1..] == []) && Good(ps[1..], false)
    case Semi => Good(ps[1..], false)
  }

  /** The texts between the semicolons. */
  function Groups(ps: seq<Piece>, cur: string): seq<string>
    decreases |ps|
  {
    if ps == [] then (if cur == "" then [] else [cur])
    else if ps[0].Semi? then [cur] + Groups(ps[1..], "")
    else Groups(ps[1..], cur + PieceText(ps[0]))
  }

  predicate Dashed(s: string) { s != "" && s[|s| - 1] == '-' }

  lemma {:induction false} RunInQuote(t: string, i: nat, j: nat)
    requires i <= j <= |t| && forall k :: i <= k < j ==> t[k] != '\''
    ensures Run(t, i, |t|, true, false) == Run(t, j, |t|, true, false)
    decreases j - i
  {
    if i < j { RunInQuote(t, i + 1, j); }
  }

  lemma {:induction false} RunInComment(t: string, i: nat, j: nat)
    requires i <= j <= |t| && forall k :: i <= k < j ==> t[k] != '\n'
    ensures Run(t, i, |t|, false, true) == Run(t, j, |t|, false, true)
    decreases j - i
  {
    if i < j { RunInComment(t, i + 1, j); }
  }

  /** Where a text in five parts has what. */
  ghost predicate Parts(t: string, n: nat, open: string, b: string, end: string) {
    && n + |open| + |b| + |end| <= |t|
    && t[n..n + |open|] == open
    && t[n + |open|..n + |open| + |b|] == b
    && t[n + |open| + |b|..n + |open| + |b| + |end|] == end
  }

  lemma InParts(cur: string, open: string, b: string, end: string, rest: string)
    ensures
      var t := cur + open + (b + (end + rest));
      && Parts(t, |cur|, open, b, end) && (rest == "" ==> |t| == |cur| + |open| + |b| + |end|)
      && (cur != "" ==> t[|cur| - 1] == cur[|cur| - 1])
  {
    var t, head := cur + open + (b + (end + rest)), cur + open;
    assert t[..|cur|] == cur && t[|cur|..|head|] == open && t[|head|..] == b + (end + rest);
    assert t[|head|..][..|b|] == b && t[|head|..][|b|..] == end + rest;
    assert t[|head|..|head| + |b|] == b && t[|head| + |b|..|head| + |b| + |end|] == end;
  }

  lemma Misses(t: string, i: nat, b: string, c: char)
    requires i + |b| <= |t| && t[i..i + |b|] == b && c !in b
    ensures forall k :: i <= k < i + |b| ==> t[k] != c
  {
    forall k | i <= k < i + |b| ensures t[k] != c { assert t[k] == t[i..i + |b|][k - i] && b[k - i] in b; }
  }

  lemma QuoteStep(t: string, i: nat, quote: bool)
    requires i < |t| && t[i] == '\''
    ensures Run(t, i, |t|, quote, false) == Run(t, i + 1, |t|, !quote, false)
  {}

  lemma DashStep(t: string, i: nat)
    requires i + 1 < |t| && t[i] == '-' && t[i + 1] == '-' && (i > 0 ==> t[i - 1] != '-')
    ensures Run(t, i, |t|, false, false) == Run(t, i + 2, |t|, false, true)
  {
    assert Run(t, i, |t|, false, false) == Run(t, i + 1, |t|, false, false);
  }

  lemma NewlineStep(t: string, i: nat)
    requires i < |t| && t[i] == '\n'
    ensures Run(t, i, |t|, false, true) == Run(t, i + 1, |t|, false, false)
  {}

  lemma EndStep(t: string, quote: bool, comment: bool)
    ensures Run(t, |t|, |t|, quote, comment) == End(quote, comment)
  {}

  lemma OverLiteral(t: string, n: nat, b: string, end: string)
    requires Parts(t, n, "'", b, end) && '\'' !in b && (end == "'" || (end == "" && |t| == n + 1 + |b|))
    ensures Run(t, n, |t|, false, false) == if end == "'" then Run(t, n + 2 + |b|, |t|, false, false) else End(true, false)
  {
    hide Run;
    var i, j := n + 1, n + 1 + |b|;
    assert t[n] == t[n..n + 1][0];
    QuoteStep(t, n, false);
    Misses(t, i, b, '\'');
    RunInQuote(t, i, j);
    if end == "'" {
      assert t[j] == t[j..j + 1][0];
      QuoteStep(t, j, true);
    } else {
      EndStep(t, true, false);
    }
  }

  lemma OverComment(t: string, n: nat, b: string, end: string)
    requires Parts(t, n, "--", b, end) && '\n' !in b && (n > 0 ==> t[n - 1] != '-')
    requires end == "\n" || (end == "" && |t| == n + 2 + |b|)
    ensures Run(t, n, |t|, false, false) == if end == "\n" then Run(t, n + 3 + |b|, |t|, false, false) else End(false, true)
  {
    hide Run;
    var i, j := n + 2, n + 2 + |b|;
    assert t[n] == t[n..n + 2][0] && t[n + 1] == t[n..n + 2][1];
    DashStep(t, n);
    Misses(t, i, b, '\n');
    RunInComment(t, i, j);
    if end == "\n" {
      assert t[j] == t[j..j + 1][0];
      NewlineStep(t, j);
    } else {
      EndStep(t, false, true);
    }
  }

  lemma OverChar(t: string, cur: string, c: char, rest: string)
    requires t == cur + [c] + rest && c != '\'' && c != ';' && !(Dashed(cur) && c == '-')
    ensures Run(t, |cur|, |t|, false, false) == Run(t, |cur| + 1, |t|, false, false)
  {
    assert t[|cur|] == c && (|cur| > 0 ==> t[|cur| - 1] == cur[|cur| - 1]);
  }

  lemma AtSemi(t: string, cur: string, rest: string)
    requires t == cur + ";" + rest
    ensures Run(t, |cur|, |t|, false, false) == At(|cur|) && t[..|cur|] == cur && t[|cur| + 1..] == rest
  {
    assert t[|cur|] == ';';
  }

  predicate Passed(t: string, cur: string, next: string, last: bool) {
    && |cur| < |next| <= |t|
    && (if last then Run(t, |cur|, |t|, false, false).End? else Run(t, |cur|, |t|, false, false) == Run(t, |next|, |t|, false, false))
  }

  /** One piece that is no semicolon is walked over. */
  lemma OverPiece(cur: string, ps: seq<Piece>)
    requires ps != [] && !ps[0].Semi? && Good(ps, Dashed(cur))
    ensures
      var t, next := cur + Text(ps), cur + PieceText(ps[0]);
      t == next + Text(ps[1..]) && Passed(t, cur, next, ps[1..] == [])
  {
    hide Run, Passed, Parts, Good, Dashed;
    Join(cur, PieceText(ps[0]), Text(ps[1..]));
    match ps[0]
    case Char(c) => PassChar(cur, c, ps);
    case Literal(b, closed) => PassLiteral(cur, b, closed, ps);
    case Comment(b, closed) => PassComment(cur, b, closed, ps);
  }

  lemma PassChar(cur: string, c: char, ps: seq<Piece>)
    requires ps != [] && ps[0] == Char(c) && Good(ps, Dashed(cur))
    ensures Passed(cur + Text(ps), cur, cur + PieceText(ps[0]), ps[1..] == [])
  {
    hide Run;
    var t, rest := cur + Text(ps), Text(ps[1..]);
    Join(cur, [c], rest);
    OverChar(t, cur, c, rest);
    EndStep(t, false, false);
  }

  lemma LiteralIs(cur: string, b: string, closed: bool, ps: seq<Piece>)
    requires ps != [] && ps[0] == Literal(b, closed) && Good(ps, Dashed(cur))
    ensures Text(ps) == ("'" + b + (if closed then "'" else "")) + Text(ps[1..])
    ensures '\'' !in b && (!closed ==> ps[1..] == [] && Text(ps[1..]) == "")
    ensures ps[1..] == [] ==> Text(ps[1..]) == ""
  {}

  lemma CommentIs(cur: string, b: string, closed: bool, ps: seq<Piece>)
    requires ps != [] && ps[0] == Comment(b, closed) && Good(ps, Dashed(cur))
    ensures Text(ps) == ("--" + b + (if closed then "\n" else "")) + Text(ps[1..])
    ensures '\n' !in b && (!closed ==> ps[1..] == [] && Text(ps[1..]) == "") && (cur != "" ==> cur[|cur| - 1] != '-')
    ensures ps[1..] == [] ==> Text(ps[1..]) == ""
  {}

  lemma PassLiteral(cur: string, b: string, closed: bool, ps: seq<Piece>)
    requires ps != [] && ps[0] == Literal(b, closed) && Good(ps, Dashed(cur))
    ensures Passed(cur + Text(ps), cur, cur + PieceText(ps[0]), ps[1..] == [])
  {
    hide Run, Parts, Text, Good, Dashed;
    LiteralIs(cur, b, closed, ps);
    var rest, end := Text(ps[1..]), if closed then "'" else "";
    var t := cur + Text(ps);
    Regroup4(cur, "'", b, end, rest);
    InParts(cur, "'", b, end, rest);
    OverLiteral(t, |cur|, b, end);
    EndStep(t, false, false);
  }

  lemma PassComment(cur: string, b: string, closed: bool, ps: seq<Piece>)
    requires ps != [] && ps[0] == Comment(b, closed) && Good(ps, Dashed(cur))
    ensures Passed(cur + Text(ps), cur, cur + PieceText(ps[0]), ps[1..] == [])
  {
    hide Run, Parts, Text, Good, Dashed;
    CommentIs(cur, b, closed, ps);
    var rest, end := Text(ps[1..]), if closed then "\n" else "";
    var t := cur + Text(ps);
    Regroup4(cur, "--", b, end, rest);
    InParts(cur, "--", b, end, rest);
    OverComment(t, |cur|, b, end);
    EndStep(t, false, false);
  }

  lemma Regroup4(a: string, b: string, c: string, d: string, e: string)
    ensures a + ((b + c + d) + e) == a + b + (c + (d + e))
  {}

  lemma GoodNext(cur: string, ps: seq<Piece>)
    requires ps != [] && ps[1..] != [] && !ps[0].Semi? && Good(ps, Dashed(cur))
    ensures Good(ps[1..], Dashed(cur + PieceText(ps[0])))
  {
    var p := PieceText(ps[0]);
    assert (cur + p)[|cur + p| - 1] == p[|p| - 1];
  }

  lemma {:induction false} GroupsFrom(cur: string, ps: seq<Piece>)
    requires Good(ps, Dashed(cur))
    requires Scan(cur + Text(ps), false) == Run(cur + Text(ps), |cur|, |cur + Text(ps)|, false, false)
    ensures Statements(cur + Text(ps)) == Groups(ps, cur)
    decreases |ps|
  {
    hide Run, Scan, Good, PieceText, Dashed;
    var t := cur + Text(ps);
    if ps == [] {
      assert t == cur;
      EndStep(t, false, false);
    } else if ps[0].Semi? {
      var rest := Text(ps[1..]);
      SemiFirst(cur, ps);
      AtSemi(t, cur, rest);
      assert "" + rest == rest;
      FromStart(rest);
      GroupsFrom("", ps[1..]);
    } else {
      OverPiece(cur, ps);
      if ps[1..] == [] {
        assert Text(ps[1..]) == "";
        assert t == cur + PieceText(ps[0]);
      } else {
        GoodNext(cur, ps);
        GroupsFrom(cur + PieceText(ps[0]), ps[1..]);
      }
    }
  }

  lemma SemiFirst(cur: string, ps: seq<Piece>)
    requires ps != [] && ps[0].Semi? && Good(ps, Dashed(cur))
    ensures cur + Text(ps) == cur + ";" + Text(ps[1..]) && Good(ps[1..], Dashed(""))
  {
    GoodSemi(cur, ps);
    TextSemi(ps);
    hide Text, Good;
    Join(cur, ";", Text(ps[1..]));
  }

  lemma GoodSemi(cur: string, ps: seq<Piece>)
    requires ps != [] && ps[0].Semi? && Good(ps, Dashed(cur))
    ensures Good(ps[1..], Dashed(""))
  {
    hide Text;
  }

  lemma TextSemi(ps: seq<Piece>)
    requires ps != [] && ps[0].Semi?
    ensures Text(ps) == ";" + Text(ps[1..])
  {
    hide Good;
  }

  lemma FromStart(t: string)
    ensures Scan(t, false) == Run(t, 0, |t|, false, false)
  {}

  /** Cut into such pieces, every text is split into what stands between its semicolons. */
  lemma SplitsAtSemis(ps: seq<Piece>)
    requires Good(ps, false)
    ensures Statements(Text(ps)) == Groups(ps, "")
  {
    assert "" + Text(ps) == Text(ps);
    GroupsFrom("", ps);
  }

  lemma CutLiteral(s: string)
    requires s != "" && s[0] == '\''
    ensures
      var n := Find(s[1..], '\'');
      var p := Literal(s[1..n + 1], n + 1 < |s|);
      && '\'' !in s[1..n + 1] && |PieceText(p)| <= |s| && PieceText(p) + s[|PieceText(p)|..] == s
      && (n + 1 == |s| ==> s[|PieceText(p)|..] == "")
  {
    var n := Find(s[1..], '\'');
    assert s[1..][..n] == s[1..n + 1];
    assert s == "'" + s[1..n + 1] + s[n + 1..];
  }

  lemma CutComment(s: string)
    requires |s| >= 2 && s[..2] == "--"
    ensures
      var n := Find(s[2..], '\n');
      var p := Comment(s[2..n + 2], n + 2 < |s|);
      && '\n' !in s[2..n + 2] && |PieceText(p)| <= |s| && PieceText(p) + s[|PieceText(p)|..] == s
      && (n + 2 == |s| ==> s[|PieceText(p)|..] == "")
  {
    var n := Find(s[2..], '\n');
    assert s[2..][..n] == s[2..n + 2];
    assert s == "--" + s[2..n + 2] + s[n + 2..];
  }

  /** And every text can be cut into such pieces. */
  lemma {:induction false} Pieces(s: string, dash: bool) returns (ps: seq<Piece>)
    requires dash ==> s == "" || s[0] != '-'
    ensures Text(ps) == s && Good(ps, dash)
    decreases |s|
  {
    if s == "" { return []; }
    var p, next := Char(s[0]), s[0] == '-';
    if s[0] == '\'' {
      CutLiteral(s);
      var n := Find(s[1..], '\'');
      p, next := Literal(s[1..n + 1], n + 1 < |s|), false;
    } else if |s| >= 2 && s[..2] == "--" {
      CutComment(s);
      var n := Find(s[2..], '\n');
      p, next := Comment(s[2..n + 2], n + 2 < |s|), false;
    } else if s[0] == ';' {
      p, next := Semi, false;
    } else {
      if |s| >= 2 { assert s[..2] == [s[0], s[1]]; }
    }
    var rest := s[|PieceText(p)|..];
    var more := Pieces(rest, next);
    ps := [p] + more;
    assert ps[1..] == more;
  }

  /** For every text, so cut, however the reader delivers it: Import sends in order what stands between
      the semicolons and is not blank, without its outer blanks, up to the first refusal. */
  lemma ImportSends(ps: seq<Piece>, chunks: seq<string>, late: bool, accepts: string -> bool)
    requires Good(ps, false) && Flat(chunks) == Text(ps) && Stable(Text(ps))
    ensures exists queries ::
              && Sends(Groups(ps, ""), queries)
              && UpToRefusal(queries, accepts, Accepted(Queries(Feed("", false, chunks, late, false)), accepts))
  {
    SplitsAtSemis(ps);
    ChunkingIsInvisible(chunks, late);
    QueriesAreSent(Groups(ps, ""));
    AcceptedIsUpToRefusal(Queries(Groups(ps, "")), accepts);
  }
}
