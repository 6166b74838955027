/** Token streams that make no reference to the scanner: what the filter does to them. */
module FilterStreams {
  import opened Strings
  import opened Utils
  import opened Filter
  import opened FilterTokens

  /** Text that opens nothing: no placeholder, quote, dash, slash or dollar, and no `::jsonb `. */
  predicate Ordinary(s: string) {
    && s != "" && '?' !in s && '\'' !in s && '-' !in s && '/' !in s && '$' !in s
    && !Holds(s, JSONB)
  }

  predicate Simple(fl: Flavour, t: Token) {
    match t
    case Plain(s) => Ordinary(s)
    case Hole => true
    case Quoted(b) => '\'' !in b
    case LineComment(b) => '\n' !in b
    case LastComment(b) => '\n' !in b
    case BlockComment(b) => '*' !in b
    case Dollar(n, b) => fl.Postgres? && IsTag(n) && Closes(n, b)
    case Param(_) => true
    case JsonbHole(_) => false
  }

  /** The tag that closes a dollar quote is the first one after it opens. */
  predicate Closes(n: string, b: string) { forall j :: 0 <= j < |b| ==> !HasPrefixAt(b + Tag(n), j, Tag(n)) }

  /** Such tokens, with plain text not cut in two, a comment without newline only at the end, and
      no parameter that reads as the start of a tag. */
  predicate Stream(fl: Flavour, toks: seq<Token>) {
    toks == [] ||
    (Simple(fl, toks[0]) && Stream(fl, toks[1..])
     && (toks[0].LastComment? ==> |toks| == 1)
     && (toks[0].Param? && fl.Postgres? ==> !TagRest(toks[1..]))
     && (toks[0].Plain? && |toks| > 1 ==> !toks[1].Plain?))
  }

  lemma {:induction false} CalmRun(fl: Flavour, sql: string, pos: nat, end: nat)
    requires pos <= end <= |sql|
    requires forall i :: pos <= i < end ==>
      sql[i] != '?' && sql[i] != '\'' && sql[i] != '-' && sql[i] != '/' && sql[i] != '$' && (sql[i] == ' ' ==> !JsonbBefore(sql, i))
    ensures PlainRun(fl, sql, pos, end, Calm, false) == Some(Calm)
    decreases end - pos
  {
    hide JsonbBefore;
    if pos < end { CalmRun(fl, sql, pos + 1, end); }
  }

  /** A blank in ordinary text does not complete `::jsonb `, even across its left edge. */
  lemma NoJsonbHere(sql: string, pos: nat, s: string, i: nat)
    requires pos + |s| <= |sql| && sql[pos..pos + |s|] == s && !Holds(s, JSONB)
    requires pos > 0 ==> Edge(sql[pos - 1])
    requires pos <= i < pos + |s| && sql[i] == ' '
    ensures !JsonbBefore(sql, i)
  {
    if JsonbBefore(sql, i) { JsonbReaches(sql, pos, s, i); }
  }

  /** It would lie in the text itself, or reach over the edge. */
  lemma JsonbReaches(sql: string, pos: nat, s: string, i: nat)
    requires pos + |s| <= |sql| && sql[pos..pos + |s|] == s
    requires pos <= i < pos + |s| && sql[i] == ' ' && JsonbBefore(sql, i)
    ensures Holds(s, JSONB) || (pos > 0 && !Edge(sql[pos - 1]))
  {
    var w := sql[i - 7..i];
    if i - 7 >= pos {
      var j := i - 7 - pos;
      assert JSONB == w + " ";
      forall m | 0 <= m < 8 ensures s[j + m] == JSONB[m] {
        assert s[j + m] == sql[i - 7 + m] && (m < 7 ==> w[m] == sql[i - 7 + m]);
      }
      assert HasPrefixAt(s, j, JSONB);
    } else {
      assert w[pos - 1 - (i - 7)] == sql[pos - 1];
    }
  }

  lemma PlainSpells(fl: Flavour, sql: string, pos: nat, s: string)
    requires pos + |s| <= |sql| && sql[pos..pos + |s|] == s && Ordinary(s)
    requires pos > 0 ==> Edge(sql[pos - 1])
    ensures PlainRun(fl, sql, pos, pos + |s|, Calm, false) == Some(Calm)
  {
    forall i | pos <= i < pos + |s|
      ensures sql[i] != '?' && sql[i] != '\'' && sql[i] != '-' && sql[i] != '/' && sql[i] != '$'
      ensures sql[i] == ' ' ==> !JsonbBefore(sql, i)
    {
      assert sql[i] == s[i - pos] && s[i - pos] in s;
      if sql[i] == ' ' { NoJsonbHere(sql, pos, s, i); }
    }
    CalmRun(fl, sql, pos, pos + |s|);
  }

  lemma LastChar(fl: Flavour, t: Token)
    requires Simple(fl, t) && !t.Plain? && !t.LastComment?
    ensures Text(fl, t) != "" && Edge(Text(fl, t)[|Text(fl, t)| - 1])
  {
    if t.Param? {
      var d := Itoa(t.k);
      assert d[|d| - 1] in d && Text(fl, t)[|Text(fl, t)| - 1] == d[|d| - 1];
    }
  }

  lemma NoStarNoEnd(b: string)
    requires '*' !in b
    ensures NoCommentEnd(b) && TrailingStars(b) == 0
  {
    assert forall i :: 0 <= i < |b| ==> b[i] in b;
  }

  /** One token of a stream, in its place. */
  lemma TokenSpells(fl: Flavour, sql: string, pos: nat, toks: seq<Token>)
    requires toks != [] && Simple(fl, toks[0]) && (toks[0].LastComment? ==> |toks| == 1)
    requires HasPrefixAt(sql, pos, Text(fl, toks[0]))
    requires sql[pos..pos + |Text(fl, toks[0])|] == Text(fl, toks[0])
    requires toks[0].LastComment? ==> pos + |Text(fl, toks[0])| == |sql|
    requires toks[0].Plain? && pos > 0 ==> Edge(sql[pos - 1])
    requires toks[0].Param? && fl.Postgres? ==> TagAt(sql, pos) == ""
    requires !toks[0].LastComment? ==> Spells(fl, sql, pos + |Text(fl, toks[0])|, toks[1..], Calm)
    ensures Spells(fl, sql, pos, toks, Calm)
  {
    hide HasPrefixAt, PlainRun, Ordinary, IsTag, NoCommentEnd, TrailingStars, TagAt, Text;
    match toks[0]
    case Plain(s) =>
      TextOfPlain(fl, toks[0]);
      PlainSpells(fl, sql, pos, s);
    case BlockComment(b) => NoStarNoEnd(b);
    case _ =>
  }

  lemma {:induction false} StreamSpells(fl: Flavour, sql: string, pos: nat, toks: seq<Token>)
    requires pos <= |sql| && sql[pos..] == Render(fl, toks) && Stream(fl, toks)
    requires toks != [] && toks[0].Plain? && pos > 0 ==> Edge(sql[pos - 1])
    ensures Spells(fl, sql, pos, toks, Calm)
    decreases |toks|
  {
    hide HasPrefixAt, Text, Simple, Ordinary;
    if toks != [] {
      hide Spells;
      var t, rest := toks[0], toks[1..];
      var text := Text(fl, t);
      RestPrefix(sql, pos, text, Render(fl, rest));
      if t.LastComment? {
        assert rest == [];
        assert Render(fl, rest) == "";
      } else {
        if rest != [] && rest[0].Plain? {
          LastChar(fl, t);
          assert sql[pos + |text| - 1] == sql[pos..pos + |text|][|text| - 1];
        }
        StreamSpells(fl, sql, pos + |text|, rest);
        if t.Param? && fl.Postgres? { ParamSpells(sql, pos, toks); }
      }
      TokenSpells(fl, sql, pos, toks);
    }
  }

  lemma {:induction false} StreamNoDollars(toks: seq<Token>)
    requires Stream(Postgres, toks)
    ensures NoDollars(toks)
    decreases |toks|
  {
    if toks != [] {
      StreamNoDollars(toks[1..]);
      NoDollarsSplit(toks);
    }
  }

  lemma ParamOfStream(toks: seq<Token>)
    requires toks != [] && toks[0].Param? && Stream(Postgres, toks)
    ensures Stream(Postgres, toks[1..]) && !TagRest(toks[1..])
  {}

  /** A parameter in its place is not read as the start of a tag. */
  lemma ParamSpells(sql: string, pos: nat, toks: seq<Token>)
    requires pos <= |sql| && toks != [] && toks[0].Param? && Stream(Postgres, toks)
    requires sql[pos..] == Render(Postgres, toks)
    ensures TagAt(sql, pos) == ""
  {
    hide TagAt, TagEnd, Render, Simple, TagRest, Text, NoDollars, NoHoles;
    var rest := toks[1..];
    ParamOfStream(toks);
    hide Stream;
    StreamNoDollars(rest);
    assert toks == [Param(toks[0].k)] + rest;
    ParamAt(sql, pos, toks[0].k, rest);
    TagRestIff(sql, pos + |Text(Postgres, Param(toks[0].k))|, rest);
  }

  /** The placeholders written, a stream is a stream if none becomes the beginning of a tag. */
  lemma {:induction false} RewrittenIsStream(fl: Flavour, toks: seq<Token>, i: nat)
    requires Stream(fl, toks) && NoTags(fl, toks)
    ensures Stream(fl, Rewrite(toks, i))
    decreases |toks|
  {
    if toks != [] {
      var rest := toks[1..];
      var next := if toks[0].Hole? then i + 1 else i;
      forall j | 0 <= j < |rest| && rest[j].Hole? ensures fl.Oracle? || !TagRest(rest[j + 1..]) {
        assert toks[j + 1].Hole? && rest[j + 1..] == toks[(j + 1) + 1..];
      }
      RewrittenIsStream(fl, rest, next);
      TagRestRewritten(rest, next);
      FirstRewritten(rest, next);
      if toks[0].Hole? && fl.Postgres? { assert toks[0 + 1..] == rest && !TagRest(rest); }
      hide TagRest, NoTags;
      assert Rewrite(toks, i)[1..] == Rewrite(rest, next);
    }
  }

  lemma FirstRewritten(toks: seq<Token>, i: nat)
    ensures |Rewrite(toks, i)| == 0 <==> toks == []
    ensures toks != [] ==> Rewrite(toks, i)[0] == if toks[0].Hole? then Param(i) else toks[0]
  {}

  /** Rendered, filtered: the k-th placeholder of the stream is the parameter start + k, and every
      other token is copied. A second pass changes nothing if no placeholder becomes the beginning
      of a dollar-quote tag, as none does on Oracle. */
  lemma FilterRewritesStream(fl: Flavour, toks: seq<Token>, start: nat, again: nat)
    requires Stream(fl, toks)
    ensures Filtered(fl, Render(fl, toks), start) == Render(fl, Rewrite(toks, start))
    ensures NoTags(fl, toks) ==>
      Filtered(fl, Filtered(fl, Render(fl, toks), start), again) == Filtered(fl, Render(fl, toks), start)
  {
    StreamFiltered(fl, toks, start);
    if NoTags(fl, toks) {
      RewrittenIsStream(fl, toks, start);
      StreamFiltered(fl, Rewrite(toks, start), again);
      WrittenStays(toks, start, again);
    }
  }

  lemma StreamFiltered(fl: Flavour, toks: seq<Token>, start: nat)
    requires Stream(fl, toks)
    ensures Filtered(fl, Render(fl, toks), start) == Render(fl, Rewrite(toks, start))
  {
    var sql := Render(fl, toks);
    assert sql[0..] == sql;
    StreamSpells(fl, sql, 0, toks);
    ScanIsRewrite(fl, sql, 0, toks, Calm, start);
  }

  lemma {:induction false} WrittenStays(toks: seq<Token>, i: nat, j: nat)
    ensures Rewrite(Rewrite(toks, i), j) == Rewrite(toks, i)
    decreases |toks|
  {
    if toks != [] {
      var next := if toks[0].Hole? then i + 1 else i;
      WrittenStays(toks[1..], next, j);
      assert Rewrite(toks, i)[1..] == Rewrite(toks[1..], next);
    }
  }

  /** How many placeholders come before the k-th token. */
  function Holes(toks: seq<Token>, k: nat): nat
    requires k <= |toks|
  {
    if k == 0 then 0 else Holes(toks, k - 1) + (if toks[k - 1].Hole? then 1 else 0)
  }

  lemma {:induction false} HolesTail(toks: seq<Token>, k: nat)
    requires 0 < k <= |toks|
    ensures Holes(toks, k) == (if toks[0].Hole? then 1 else 0) + Holes(toks[1..], k - 1)
    decreases k
  {
    if k > 1 { HolesTail(toks, k - 1); }
  }

  /** What the rewriting is, token by token. */
  lemma {:induction false} RewriteAt(toks: seq<Token>, start: nat, k: nat)
    requires k < |toks|
    ensures |Rewrite(toks, start)| == |toks|
    ensures Rewrite(toks, start)[k] == if toks[k].Hole? then Param(start + Holes(toks, k)) else toks[k]
    decreases |toks|
  {
    if k > 0 {
      RewriteAt(toks[1..], if toks[0].Hole? then start + 1 else start, k - 1);
      HolesTail(toks, k);
    } else if |toks| > 1 {
      RewriteAt(toks[1..], if toks[0].Hole? then start + 1 else start, 0);
    } else {
      assert toks[1..] == [] && Rewrite([], start + 1) == [] && Rewrite([], start) == [];
    }
  }

  // ----- where the second pass does read a tag -----

  lemma {:induction false} RenderConcat(fl: Flavour, a: seq<Token>, b: seq<Token>)
    ensures Render(fl, a + b) == Render(fl, a) + Render(fl, b)
    decreases |a|
  {
    if a == [] {
      assert a + b == b;
    } else {
      assert (a + b)[0] == a[0] && (a + b)[1..] == a[1..] + b;
      RenderConcat(fl, a[1..], b);
      hide Text;
      assert Text(fl, a[0]) + (Render(fl, a[1..]) + Render(fl, b)) == Text(fl, a[0]) + Render(fl, a[1..]) + Render(fl, b);
    }
  }

  lemma {:induction false} RewriteConcat(a: seq<Token>, b: seq<Token>, i: nat)
    ensures Rewrite(a + b, i) == Rewrite(a, i) + Rewrite(b, i + Holes(a, |a|))
    decreases |a|
  {
    if a == [] {
      assert a + b == b;
    } else {
      assert (a + b)[0] == a[0] && (a + b)[1..] == a[1..] + b;
      RewriteConcat(a[1..], b, if a[0].Hole? then i + 1 else i);
      HolesTail(a, |a|);
      hide Holes;
    }
  }

  lemma {:induction false} HolesOfPrefix(a: seq<Token>, b: seq<Token>, k: nat)
    requires k <= |a|
    ensures Holes(a + b, k) == Holes(a, k)
    decreases k
  {
    if k > 0 { HolesOfPrefix(a, b, k - 1); }
  }

  /** In the text the first pass writes, the k-th token, a placeholder, is read as the beginning of
      a tag exactly if what follows it is the rest of one. */
  lemma WrittenTagIff(pre: seq<Token>, rest: seq<Token>, start: nat)
    requires Stream(Postgres, pre + [Hole] + rest)
    ensures
      var out := Filtered(Postgres, Render(Postgres, pre + [Hole] + rest), start);
      var at := |Render(Postgres, Rewrite(pre, start))|;
      at <= |out| && (TagAt(out, at) != "" <==> TagRest(rest))
  {
    hide Filtered, Render, TagAt, Rewrite, TagRest, Stream;
    var toks, last := pre + [Hole] + rest, [Hole] + rest;
    var i := start + Holes(pre, |pre|);
    assert toks == pre + last;
    StreamFiltered(Postgres, toks, start);
    StreamNoDollars(toks);
    RewriteConcat(pre, last, start);
    var head := Render(Postgres, Rewrite(pre, start));
    RenderConcat(Postgres, Rewrite(pre, start), Rewrite(last, i));
    var out := Filtered(Postgres, Render(Postgres, toks), start);
    assert out[|head|..] == Render(Postgres, Rewrite(last, i));
    assert forall t :: t in last ==> t in toks;
    assert last[1..] == rest;
    TagReadIff(out, |head|, last, i);
  }

  /** The tag that a placeholder numbered `k` begins before the text `s` and a dollar sign. */
  function FalseTag(k: nat, s: string): string { "$" + Itoa(k) + s + "$" }

  function PlainIf(s: string): seq<Token> { if s == "" then [] else [Plain(s)] }

  /** The token whose dollar sign ends the false tag, as the first pass writes it. */
  function Ender(x: Token, k: nat): Token { if x.Hole? then Param(k) else x }

  /** A placeholder, a text or nothing, and a placeholder or a dollar quote; then a literal. */
  function Bait(s: string, x: Token, body: string): seq<Token> { [Hole] + PlainIf(s) + [x, Quoted(body)] }

  /** The literal holds the false tag, a question mark and two dashes. */
  function Trap(k: nat, s: string, x: Token): seq<Token> { Bait(s, x, FalseTag(k, s) + "?--") }

  /** How the second pass reads what the first pass made of the trap. */
  function Sprung(k: nat, s: string, x: Token): seq<Token>
    requires Ends(x)
  {
    [Dollar(Itoa(k) + s, Text(Postgres, Ender(x, k + 1))[1..] + "'"), Hole, LastComment("'")]
  }

  predicate Ends(x: Token) { x.Hole? || x.Dollar? }

  lemma {:induction false} RenderPlainIf(s: string, rest: seq<Token>)
    ensures Render(Postgres, PlainIf(s) + rest) == s + Render(Postgres, rest)
  {
    if s == "" {
      assert PlainIf(s) + rest == rest && s + Render(Postgres, rest) == Render(Postgres, rest);
    } else {
      RenderCons(Postgres, Plain(s), rest);
    }
  }

  lemma RewrittenTrap(k: nat, s: string, x: Token)
    requires Ends(x)
    ensures Rewrite(Trap(k, s, x), k) == [Param(k)] + PlainIf(s) + [Ender(x, k + 1), Quoted(FalseTag(k, s) + "?--")]
  {
    var q := Quoted(FalseTag(k, s) + "?--");
    var tail := [x, q];
    assert tail[1..] == [q] && [q][1..] == [];
    assert Rewrite([], k + 1) == [] && Rewrite([], k + 2) == [];
    var next := if x.Hole? then k + 2 else k + 1;
    assert Rewrite([q], next) == [q];
    assert Rewrite(tail, k + 1) == [Ender(x, k + 1), q];
    BaitTail(s, x, q.body);
    if s != "" {
      assert Rewrite(Trap(k, s, x)[1..], k + 1) == [Plain(s), Ender(x, k + 1), q];
    }
  }

  /** Both readings spell the same text. */
  lemma SameText(k: nat, s: string, x: Token)
    requires Ends(x)
    ensures Render(Postgres, Rewrite(Trap(k, s, x), k)) == Render(Postgres, Sprung(k, s, x))
  {
    RewrittenTrap(k, s, x);
    hide Rewrite, Trap;
    var tag := FalseTag(k, s);
    var ender := Text(Postgres, Ender(x, k + 1));
    var q := Quoted(tag + "?--");
    assert ender == "$" + ender[1..];
    RenderTwo(Ender(x, k + 1), q);
    RenderPlainIf(s, [Ender(x, k + 1), q]);
    var rest := PlainIf(s) + [Ender(x, k + 1), q];
    assert [Param(k)] + PlainIf(s) + [Ender(x, k + 1), q] == [Param(k)] + rest;
    RenderCons(Postgres, Param(k), rest);
    RenderSprung(k, s, x);
    hide Render, Text, Ender, PlainIf, Itoa;
    Pieces(Itoa(k), s, ender[1..]);
  }

  lemma RenderTwo(a: Token, b: Token)
    ensures Render(Postgres, [a, b]) == Text(Postgres, a) + Text(Postgres, b)
  {
    assert [a, b][1..] == [b] && [b][1..] == [];
    assert Render(Postgres, []) == "" && Text(Postgres, b) + "" == Text(Postgres, b);
    assert Render(Postgres, [b]) == Text(Postgres, b);
  }

  lemma RenderSprung(k: nat, s: string, x: Token)
    requires Ends(x)
    ensures
      var name := Itoa(k) + s;
      Render(Postgres, Sprung(k, s, x)) ==
      Tag(name) + (Text(Postgres, Ender(x, k + 1))[1..] + "'") + Tag(name) + ("?" + ("--" + "'"))
  {
    var t := Sprung(k, s, x);
    assert t == [t[0]] + [Hole, LastComment("'")];
    RenderCons(Postgres, t[0], [Hole, LastComment("'")]);
    RenderTwo(Hole, LastComment("'"));
  }

  lemma Pieces(digits: string, s: string, rest: string)
    ensures
      "$" + digits + (s + ("$" + rest + ("'" + (("$" + digits + s + "$") + "?--") + "'"))) ==
      ("$" + (digits + s) + "$") + (rest + "'") + ("$" + (digits + s) + "$") + ("?" + ("--" + "'"))
  {
    assert "?--" == "?" + "--";
  }

  /** The end of a stream may be exchanged, the placeholders before it being written. */
  lemma {:induction false} SwapEnd(pre: seq<Token>, a: seq<Token>, b: seq<Token>, i: nat)
    requires Stream(Postgres, pre + a) && a != [] && a[0].Hole?
    requires Stream(Postgres, b) && b != [] && b[0].Dollar?
    requires forall j :: 0 <= j < |pre| && pre[j].Hole? ==> !TagRest(pre[j + 1..] + a)
    ensures Stream(Postgres, Rewrite(pre, i) + b)
    ensures TagRest(Rewrite(pre, i) + b) == TagRest(pre + a)
    decreases |pre|
  {
    if pre == [] {
      assert pre + a == a && Rewrite(pre, i) + b == b;
      hide Stream, Simple;
    } else {
      var rest := pre[1..];
      var next := if pre[0].Hole? then i + 1 else i;
      assert (pre + a)[0] == pre[0] && (pre + a)[1..] == rest + a;
      forall j | 0 <= j < |rest| && rest[j].Hole? ensures !TagRest(rest[j + 1..] + a) {
        assert pre[j + 1].Hole? && rest[j + 1..] == pre[(j + 1) + 1..];
      }
      hide Simple, TagRest;
      SwapEnd(rest, a, b, next);
      if pre[0].Hole? { assert pre[0 + 1..] == rest; }
      assert rest != [] ==> (pre + a)[1] == rest[0];
      SwapFirst(pre, a, b, i);
    }
  }

  lemma SwapFirst(pre: seq<Token>, a: seq<Token>, b: seq<Token>, i: nat)
    requires pre != [] && b != [] && b[0].Dollar? && a != [] && a[0].Hole? && Stream(Postgres, pre + a)
    requires pre[0].Hole? ==> !TagRest(pre[1..] + a)
    requires
      var next := if pre[0].Hole? then i + 1 else i;
      && Stream(Postgres, Rewrite(pre[1..], next) + b)
      && TagRest(Rewrite(pre[1..], next) + b) == TagRest(pre[1..] + a)
    ensures Stream(Postgres, Rewrite(pre, i) + b)
    ensures TagRest(Rewrite(pre, i) + b) == TagRest(pre + a)
  {
    hide Simple, IsTag, Rewrite;
    SwapShape(pre, a, b, i);
    assert pre[0].Hole? ==> Simple(Postgres, Param(i)) by { WrittenIsSimple(i); }
  }

  lemma SwapShape(pre: seq<Token>, a: seq<Token>, b: seq<Token>, i: nat)
    requires pre != [] && b != [] && !b[0].Plain? && a != [] && !a[0].Plain?
    ensures
      var t, out := pre + a, Rewrite(pre, i) + b;
      var next := if pre[0].Hole? then i + 1 else i;
      && |t| > 1 && t[0] == pre[0] && t[1..] == pre[1..] + a
      && |out| > 1 && out[0] == (if pre[0].Hole? then Param(i) else pre[0]) && out[1..] == Rewrite(pre[1..], next) + b
      && (out[1].Plain? <==> t[1].Plain?)
  {
    hide Rewrite;
    var next := if pre[0].Hole? then i + 1 else i;
    var x := if pre[0].Hole? then Param(i) else pre[0];
    RewriteCons(pre, i);
    FirstRewritten(pre[1..], next);
    assert pre == [pre[0]] + pre[1..];
    Behind(pre[0], pre[1..], a);
    Behind(x, Rewrite(pre[1..], next), b);
  }

  lemma RewriteCons(toks: seq<Token>, i: nat)
    requires toks != []
    ensures Rewrite(toks, i) ==
            [if toks[0].Hole? then Param(i) else toks[0]] + Rewrite(toks[1..], if toks[0].Hole? then i + 1 else i)
  {}

  lemma Behind(x: Token, mid: seq<Token>, end: seq<Token>)
    requires end != []
    ensures
      var all := [x] + mid + end;
      |all| > 1 && all[0] == x && all[1..] == mid + end && all[1] == if mid == [] then end[0] else mid[0]
  {}

  lemma WrittenIsSimple(i: nat)
    ensures Simple(Postgres, Param(i))
  {}

  lemma FirstDiffers(s: string, j: nat, p: string)
    requires p != "" && j < |s| && s[j] != p[0]
    ensures !HasPrefixAt(s, j, p)
  {
    assert s[j + 0] != p[0];
  }

  lemma NoDollarNoTag(name: string, body: string)
    requires '$' !in body
    ensures Closes(name, body)
  {
    forall j | 0 <= j < |body| ensures !HasPrefixAt(body + Tag(name), j, Tag(name)) {
      assert body[j] in body && (body + Tag(name))[j] == body[j] && Tag(name)[0] == '$';
      FirstDiffers(body + Tag(name), j, Tag(name));
    }
  }

  lemma SprungIsStream(k: nat, s: string, x: Token)
    requires Ends(x) && IsTag(s) && (x.Dollar? ==> Closes(Itoa(k) + s, Text(Postgres, x)[1..] + "'"))
    ensures Stream(Postgres, Sprung(k, s, x))
  {
    var name := Itoa(k) + s;
    var body := Text(Postgres, Ender(x, k + 1))[1..] + "'";
    assert IsTag(name);
    if x.Hole? {
      assert body == Itoa(k + 1) + "'";
      NoDollarNoTag(name, body);
    }
    var t := Sprung(k, s, x);
    assert t[1..] == [Hole, LastComment("'")] && t[1..][1..] == [LastComment("'")] && [LastComment("'")][1..] == [];
    hide Closes;
    assert Stream(Postgres, [LastComment("'")]);
    assert Stream(Postgres, t[1..]);
  }

  lemma {:induction false} NoHolesLeft(toks: seq<Token>, i: nat, k: nat)
    requires k <= |Rewrite(toks, i)|
    ensures Holes(Rewrite(toks, i), k) == 0
    decreases k
  {
    if k > 0 {
      NoHolesLeft(toks, i, k - 1);
      NeverHole(toks, i, k - 1);
    }
  }

  lemma {:induction false} NeverHole(toks: seq<Token>, i: nat, k: nat)
    requires k < |Rewrite(toks, i)|
    ensures !Rewrite(toks, i)[k].Hole?
    decreases |toks|
  {
    if k > 0 { NeverHole(toks[1..], if toks[0].Hole? then i + 1 else i, k - 1); }
  }

  lemma RewriteSprung(k: nat, s: string, x: Token, again: nat)
    requires Ends(x)
    ensures Rewrite(Sprung(k, s, x), again) == [Sprung(k, s, x)[0], Param(again), LastComment("'")]
  {
    var t := Sprung(k, s, x);
    assert t[1..] == [Hole, LastComment("'")] && t[1..][1..] == [LastComment("'")] && [LastComment("'")][1..] == [];
    assert Rewrite([], again + 1) == [];
    assert Rewrite([LastComment("'")], again + 1) == [LastComment("'")];
    assert Rewrite(t[1..], again) == [Param(again), LastComment("'")];
  }

  lemma SprungGrows(k: nat, s: string, x: Token, again: nat)
    requires Ends(x)
    ensures |Render(Postgres, Rewrite(Sprung(k, s, x), again))| > |Render(Postgres, Sprung(k, s, x))|
  {
    RewriteSprung(k, s, x, again);
    var t := Sprung(k, s, x);
    hide Sprung, Rewrite;
    var d, c := t[0], LastComment("'");
    assert t == [d] + [Hole, c] && [d, Param(again), c] == [d] + [Param(again), c];
    RenderCons(Postgres, d, [Hole, c]);
    RenderCons(Postgres, d, [Param(again), c]);
    RenderTwo(Hole, c);
    RenderTwo(Param(again), c);
    hide Render;
  }

  /** Every trap springs: after any stream without a false tag so far, a placeholder that begins
      one, ended by the next placeholder or by a dollar quote in which it does not occur, lets a
      text follow that the second pass changes. */
  lemma SecondPassChanges(pre: seq<Token>, s: string, x: Token, start: nat, again: nat)
    requires IsTag(s) && Ends(x)
    requires
      var k := start + Holes(pre, |pre|);
      var trap := Trap(k, s, x);
      && Stream(Postgres, pre + trap)
      && (forall j :: 0 <= j < |pre| && pre[j].Hole? ==> !TagRest(pre[j + 1..] + trap))
      && (x.Dollar? ==> Closes(Itoa(k) + s, Text(Postgres, x)[1..] + "'"))
    ensures
      var sql := Render(Postgres, pre + Trap(start + Holes(pre, |pre|), s, x));
      Filtered(Postgres, Filtered(Postgres, sql, start), again) != Filtered(Postgres, sql, start)
  {
    hide Trap, Sprung, Stream, Filtered, Render, Rewrite, TagRest, Closes, Holes;
    var k := start + Holes(pre, |pre|);
    var trap, sprung := Trap(k, s, x), Sprung(k, s, x);
    var written := Rewrite(pre, start);
    SprungIsStream(k, s, x);
    TrapStarts(k, s, x);
    SwapEnd(pre, trap, sprung, start);
    SprungGrows(k, s, x, again);
    TrapWrites(pre, s, x, start);
    StreamFiltered(Postgres, written + sprung, again);
    NoHolesLeft(pre, start, |written|);
    RewriteConcat(written, sprung, again);
    WrittenStays(pre, start, again);
    RenderConcat(Postgres, written, sprung);
    RenderConcat(Postgres, written, Rewrite(sprung, again));
  }

  lemma TrapStarts(k: nat, s: string, x: Token)
    requires Ends(x)
    ensures Trap(k, s, x) != [] && Trap(k, s, x)[0].Hole? && Sprung(k, s, x) != [] && Sprung(k, s, x)[0].Dollar?
  {}

  /** What the first pass makes of the trap is what is sprung. */
  lemma TrapWrites(pre: seq<Token>, s: string, x: Token, start: nat)
    requires Ends(x) && Stream(Postgres, pre + Trap(start + Holes(pre, |pre|), s, x))
    ensures
      var k := start + Holes(pre, |pre|);
      Filtered(Postgres, Render(Postgres, pre + Trap(k, s, x)), start)
      == Render(Postgres, Rewrite(pre, start) + Sprung(k, s, x))
  {
    hide Trap, Sprung, Stream, Filtered, Render, Rewrite, Holes;
    var k := start + Holes(pre, |pre|);
    SameText(k, s, x);
    StreamFiltered(Postgres, pre + Trap(k, s, x), start);
    RewriteConcat(pre, Trap(k, s, x), start);
    RenderConcat(Postgres, Rewrite(pre, start), Rewrite(Trap(k, s, x), k));
    RenderConcat(Postgres, Rewrite(pre, start), Sprung(k, s, x));
  }

  lemma {:induction false} AnyBody(pre: seq<Token>, s: string, x: Token, body: string)
    requires Ends(x) && Stream(Postgres, pre + Bait(s, x, "")) && '\'' !in body
    ensures Stream(Postgres, pre + Bait(s, x, body))
    ensures TagRest(pre + Bait(s, x, body)) == TagRest(pre + Bait(s, x, ""))
    decreases |pre|
  {
    var a, b := Bait(s, x, ""), Bait(s, x, body);
    if pre == [] {
      assert pre + a == a && pre + b == b;
      hide Simple;
      BaitIsStream(s, x, body);
    } else {
      var rest := pre[1..];
      assert (pre + a)[0] == (pre + b)[0] == pre[0] && (pre + a)[1..] == rest + a && (pre + b)[1..] == rest + b;
      assert |pre + a| == |pre + b| && (|pre| > 1 ==> (pre + a)[1] == (pre + b)[1]) && a[0] == b[0] == Hole;
      hide Simple, Bait;
      AnyBody(rest, s, x, body);
    }
  }

  lemma BaitIsStream(s: string, x: Token, body: string)
    requires Ends(x) && Stream(Postgres, Bait(s, x, "")) && '\'' !in body
    ensures Stream(Postgres, Bait(s, x, body)) && TagRest(Bait(s, x, body)) && TagRest(Bait(s, x, ""))
  {
    hide Ordinary, Closes, IsTag;
    var q, e := Quoted(body), Quoted("");
    BaitTail(s, x, body);
    BaitTail(s, x, "");
    assert [x, q][1..] == [q] && [q][1..] == [] && [x, e][1..] == [e];
    assert Stream(Postgres, [q]);
    assert Stream(Postgres, Bait(s, x, "")[1..]);
    assert Stream(Postgres, [x, e]);
    assert Stream(Postgres, [x, q]);
    assert Stream(Postgres, Bait(s, x, body)[1..]);
  }

  lemma BaitTail(s: string, x: Token, body: string)
    ensures Bait(s, x, body)[0] == Hole
    ensures s == "" ==> Bait(s, x, body)[1..] == [x, Quoted(body)]
    ensures s != "" ==> |Bait(s, x, body)| == 4
    ensures s != "" ==> Bait(s, x, body)[1] == Plain(s) && Bait(s, x, body)[1..][1..] == [x, Quoted(body)]
  {}

  /** A text that is no tag keeps the placeholder before it from beginning one. */
  lemma BaitHasNoTags(pre: seq<Token>, s: string, x: Token, body: string)
    requires Ends(x) && Stream(Postgres, pre + Bait(s, x, "")) && '\'' !in body && !IsTag(s)
    requires forall j :: 0 <= j < |pre| && pre[j].Hole? ==> !TagRest(pre[j + 1..] + Bait(s, x, ""))
    ensures NoTags(Postgres, pre + Bait(s, x, body))
  {
    hide Stream, TagRest, Bait;
    var b := Bait(s, x, body);
    var toks := pre + b;
    BaitLength(s, x, body);
    forall i | 0 <= i < |toks| && toks[i].Hole? ensures !TagRest(toks[i + 1..]) {
      if i < |pre| {
        var more := pre[i + 1..];
        assert pre[i].Hole? && toks[i + 1..] == more + b;
        StreamTail(pre, Bait(s, x, ""), i + 1);
        AnyBody(more, s, x, body);
      } else {
        assert toks[i] == b[i - |pre|] && toks[i + 1..] == b[i - |pre| + 1..];
        NoTagInBait(s, x, body, i - |pre|);
      }
    }
  }

  lemma BaitLength(s: string, x: Token, body: string)
    ensures |Bait(s, x, body)| == if s == "" then 3 else 4
  {}

  lemma NoTagInBait(s: string, x: Token, body: string, i: nat)
    requires !IsTag(s) && i < |Bait(s, x, body)| && Bait(s, x, body)[i].Hole?
    ensures !TagRest(Bait(s, x, body)[i + 1..])
  {
    var b := Bait(s, x, body);
    assert b == [Hole, Plain(s), x, Quoted(body)];
    assert b[i + 1..][0] == b[i + 1];
  }

  lemma {:induction false} StreamTail(pre: seq<Token>, a: seq<Token>, n: nat)
    requires n <= |pre| && Stream(Postgres, pre + a)
    ensures Stream(Postgres, pre[n..] + a)
    decreases n
  {
    if n == 0 {
      assert pre[n..] == pre;
    } else {
      assert (pre + a)[1..] == pre[1..] + a && pre[1..][n - 1..] == pre[n..];
      StreamTail(pre[1..], a, n - 1);
    }
  }

  predicate SecondPassKeeps(sql: string, start: nat, again: nat) {
    Filtered(Postgres, Filtered(Postgres, sql, start), again) == Filtered(Postgres, sql, start)
  }

  /** After any stream without a false tag so far, a placeholder, a text, and a placeholder or a
      dollar quote: whatever a literal then says, the second pass changes nothing, exactly unless
      the text is all tag characters. */
  lemma SecondPassKeepsIff(pre: seq<Token>, s: string, x: Token, start: nat, again: nat)
    requires Ends(x) && Stream(Postgres, pre + Bait(s, x, ""))
    requires forall j :: 0 <= j < |pre| && pre[j].Hole? ==> !TagRest(pre[j + 1..] + Bait(s, x, ""))
    requires x.Dollar? ==> Closes(Itoa(start + Holes(pre, |pre|)) + s, Text(Postgres, x)[1..] + "'")
    ensures (forall body :: '\'' !in body ==> SecondPassKeeps(Render(Postgres, pre + Bait(s, x, body)), start, again)) <==> !IsTag(s)
  {
    hide Bait, Stream, TagRest, Filtered, Render, Closes, Text, Holes, NoTags;
    if IsTag(s) {
      var k := start + Holes(pre, |pre|);
      var body := FalseTag(k, s) + "?--";
      AnyBody(pre, s, x, body);
      forall j | 0 <= j < |pre| && pre[j].Hole? ensures !TagRest(pre[j + 1..] + Trap(k, s, x)) {
        StreamTail(pre, Bait(s, x, ""), j + 1);
        AnyBody(pre[j + 1..], s, x, body);
      }
      SecondPassChanges(pre, s, x, start, again);
      assert !SecondPassKeeps(Render(Postgres, pre + Bait(s, x, body)), start, again);
    } else {
      forall body | '\'' !in body ensures SecondPassKeeps(Render(Postgres, pre + Bait(s, x, body)), start, again) {
        AnyBody(pre, s, x, body);
        BaitHasNoTags(pre, s, x, body);
        FilterRewritesStream(Postgres, pre + Bait(s, x, body), start, again);
      }
    }
  }

  /** The shortest trap: two placeholders and such a literal. */
  lemma AdjacentHolesChange()
    ensures
      var sql := "??'$1$?--'";
      && Filtered(Postgres, sql, 1) == "$1$2'$1$?--'"
      && Filtered(Postgres, "$1$2'$1$?--'", 1) != "$1$2'$1$?--'"
  {
    var trap := Trap(1, "", Hole);
    ShortTrap();
    RewrittenTrap(1, "", Hole);
    ShortTexts();
    hide Stream, Trap, Filtered, Render, Rewrite, TagRest;
    assert [] + trap == trap;
    NoHolesBefore();
    SecondPassChanges([], "", Hole, 1, 1);
    StreamFiltered(Postgres, trap, 1);
  }

  lemma NoHolesBefore()
    ensures Holes([], 0) == 0 && IsTag("") && Ends(Hole)
  {}

  lemma ShortTrap()
    ensures Trap(1, "", Hole) == [Hole, Hole, Quoted("$1$?--")] && Stream(Postgres, Trap(1, "", Hole))
    ensures [Param(1)] + PlainIf("") + [Ender(Hole, 2), Quoted(FalseTag(1, "") + "?--")] == [Param(1), Param(2), Quoted("$1$?--")]
  {
    assert Itoa(1) == "1";
    assert FalseTag(1, "") == "$1$" by { assert "$" + "1" + "" + "$" == "$1$"; }
    assert "$1$" + "?--" == "$1$?--";
    var q := Quoted("$1$?--");
    assert [Hole] + [] + [Hole, q] == [Hole, Hole, q] && [Param(1)] + [] + [Param(2), q] == [Param(1), Param(2), q];
    var trap := [Hole, Hole, q];
    assert trap[1..] == [Hole, q] && trap[1..][1..] == [q] && [q][1..] == [];
    assert Stream(Postgres, [q]) && Stream(Postgres, [Hole, q]);
  }

  lemma ShortTexts()
    ensures Render(Postgres, [Hole, Hole, Quoted("$1$?--")]) == "??'$1$?--'"
    ensures Render(Postgres, [Param(1), Param(2), Quoted("$1$?--")]) == "$1$2'$1$?--'"
  {
    var q := Quoted("$1$?--");
    RenderThree(Hole, Hole, q);
    RenderThree(Param(1), Param(2), q);
    hide Render;
    assert Itoa(1) == "1" && Itoa(2) == "2";
    assert "'" + "$1$?--" + "'" == "'$1$?--'";
    assert "?" + ("?" + "'$1$?--'") == "??'$1$?--'";
    assert "$" + "1" + ("$" + "2" + "'$1$?--'") == "$1$2'$1$?--'";
  }

  lemma RenderThree(a: Token, b: Token, c: Token)
    ensures Render(Postgres, [a, b, c]) == Text(Postgres, a) + (Text(Postgres, b) + Text(Postgres, c))
  {
    assert [a, b, c] == [a] + [b, c];
    RenderCons(Postgres, a, [b, c]);
    RenderTwo(b, c);
  }
}
