/** Dollar signs: which of them open a quote, and what becomes of the text inside. */
module FilterDollars {
  import opened Strings
  import opened Filter
  import opened FilterTokens
  import Corners = FilterCorners

  lemma {:induction false} TagEndSpells(sql: string, i: nat)
    requires TagEnd(sql, i) != -1
    ensures sql[TagEnd(sql, i)] == '$' && IsTag(sql[i..TagEnd(sql, i)])
    decreases |sql| - i
  {
    var end := TagEnd(sql, i);
    if sql[i] == '$' {
      assert sql[i..i] == "";
    } else {
      TagEndSpells(sql, i + 1);
      assert sql[i..end] == [sql[i]] + sql[i + 1..end];
    }
  }

  lemma TagSpells(sql: string, i: nat) returns (n: string)
    requires TagAt(sql, i) != ""
    ensures IsTag(n) && Tag(n) == TagAt(sql, i) && HasPrefixAt(sql, i, Tag(n))
  {
    var end := TagEnd(sql, i + 1);
    TagEndSpells(sql, i + 1);
    hide TagEnd, IsTag;
    n := sql[i + 1..end];
    assert sql[i..end + 1] == [sql[i]] + n + [sql[end]];
  }

  /** A tag is read exactly where letters, digits and underscores, or nothing, stand between two
      dollar signs. */
  lemma TagOpensIff(sql: string, i: nat)
    ensures TagAt(sql, i) != "" <==> exists n :: IsTag(n) && HasPrefixAt(sql, i, Tag(n))
    ensures forall n :: IsTag(n) && HasPrefixAt(sql, i, Tag(n)) ==> TagAt(sql, i) == Tag(n)
  {
    hide TagAt, HasPrefixAt, IsTag;
    if TagAt(sql, i) != "" { var n := TagSpells(sql, i); }
    forall n | IsTag(n) && HasPrefixAt(sql, i, Tag(n)) ensures TagAt(sql, i) == Tag(n) { TagIsFound(sql, i, n); }
  }

  lemma PrefixAtStart(s: string, p: string)
    ensures HasPrefixAt(s, 0, p) <==> p <= s
  {}

  /** A dollar sign that no tag begins with is an ordinary character. */
  lemma LoneDollarIsCopied(tail: string, k: nat)
    requires forall n :: IsTag(n) ==> !(Tag(n) <= "$" + tail)
    ensures Filtered(Postgres, "$" + tail, k) == "$" + Filtered(Postgres, tail, k)
  {
    var sql := "$" + tail;
    forall n | IsTag(n) ensures !HasPrefixAt(sql, 0, Tag(n)) { PrefixAtStart(sql, Tag(n)); }
    TagOpensIff(sql, 0);
    OneDollar(sql, k);
    Corners.ScanShift(Postgres, "$", tail, 0, CLEAR, k);
  }

  lemma OneDollar(sql: string, k: nat)
    requires sql != "" && sql[0] == '$' && TagAt(sql, 0) == ""
    ensures Scan(Postgres, sql, 0, CLEAR, k) == "$" + Scan(Postgres, sql, 1, CLEAR, k)
  {
    hide TagAt, JsonbBefore;
  }

  /** The tag does not come again before the end of `b`. */
  predicate Misses(n: string, b: string) { forall j :: 0 <= j < |b| ==> !HasPrefixAt(b + Tag(n), j, Tag(n)) }

  /** What stands in a dollar quote is copied, placeholders included, and the filter goes on behind it. */
  lemma DollarQuoteIsCopied(n: string, b: string, rest: string, k: nat)
    requires IsTag(n) && Misses(n, b)
    ensures Filtered(Postgres, Tag(n) + b + Tag(n) + rest, k) == Tag(n) + b + Tag(n) + Filtered(Postgres, rest, k)
  {
    var quote := Tag(n) + b + Tag(n);
    var sql := quote + rest;
    assert HasPrefixAt(sql, 0, quote);
    hide Tag, Scan, HasPrefixAt;
    ScanDollar(sql, 0, n, b, k);
    assert quote[|quote| - 1] == '$' by { EndsInDollar(n, b); }
    Corners.ScanShift(Postgres, quote, rest, 0, CLEAR, k);
  }

  lemma EndsInDollar(n: string, b: string)
    ensures var q := Tag(n) + b + Tag(n); q != "" && q[|q| - 1] == '$'
  {
    assert Tag(n)[|Tag(n)| - 1] == '$';
  }

  lemma TwoParts(a: string, b: string)
    ensures HasPrefixAt(a + b, 0, a) && HasPrefixAt(a + b, |a|, b)
  {}

  /** If the tag never comes again, everything is copied. */
  lemma OpenDollarQuoteIsCopied(n: string, b: string, k: nat)
    requires IsTag(n) && forall j :: 0 <= j <= |b| ==> !HasPrefixAt(b, j, Tag(n))
    ensures Filtered(Postgres, Tag(n) + b, k) == Tag(n) + b
  {
    hide HasPrefixAt, TagAt, Scan, IsTag;
    var tag, sql := Tag(n), Tag(n) + b;
    TwoParts(tag, b);
    TagIsFound(sql, 0, n);
    ScanOpening(sql, 0, k);
    forall i | |tag| <= i < |tag| + |b| ensures !HasPrefixAt(sql, i, tag) {
      Corners.ShiftPrefix(tag, b, i - |tag|, tag);
    }
    ScanDollarBody(Postgres, sql, |tag|, b, tag, k);
    ScanNothing(Postgres, sql, |sql|, CLEAR.(tag := tag), k);
    assert b + "" == b;
  }
}
