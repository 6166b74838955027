/** Quoting, trimming and re-quoting of identifiers: names separated by dots, blanks and an optional AS,
    in the quote marks of a dialect or in back-ticks. */
module Quoting {
  import opened Utils
  import opened Values
  import opened Strings

  datatype Quoter = Quoter(prefix: char, suffix: char, isReserved: string -> bool) {
    predicate IsEmpty() { prefix == '\0' && suffix == '\0' }
  }

  const CommonQuoter := Quoter('`', '`', _ => true)

  // ----- one word -----

  predicate Wrapped(q: Quoter, w: string)
    requires w != ""
  {
    (w[0] == '`' && w[|w| - 1] == '`') || (w[0] == q.prefix && w[|w| - 1] == q.suffix)
  }

  /** quoteWordTo; None where the slice or index is out of range and the code panics. */
  function QuoteWord(q: Quoter, w: string): Option<string> {
    if w == "" || (Wrapped(q, w) && |w| == 1) then None
    else
      var realWord := if Wrapped(q, w) then w[1..|w| - 1] else w;
      if q.IsEmpty() then Some(realWord)
      else if q.isReserved(realWord) && realWord != "*" then Some([q.prefix] + realWord + [q.suffix])
      else Some(realWord)
  }

  /** What quoting is for: a name between the quoter's marks, if there are any and the name is to have
      them. */
  function Put(q: Quoter, name: string): string {
    if (q.prefix == 0 as char && q.suffix == 0 as char) || !q.isReserved(name) || name == "*" then name
    else [q.prefix] + name + [q.suffix]
  }

  /** findWord: up to the next dot or space. */
  function WordEnd(s: string): (n: nat)
    ensures n <= |s| && (n < |s| ==> s[n] == '.' || s[n] == ' ')
    ensures forall i :: 0 <= i < n ==> s[i] != '.' && s[i] != ' '
  {
    if s == "" || s[0] == '.' || s[0] == ' ' then 0 else 1 + WordEnd(s[1..])
  }

  function Blanks(s: string): (n: nat)
    ensures n <= |s| && (n < |s| ==> s[n] != ' ')
    ensures forall i :: 0 <= i < n ==> s[i] == ' '
  {
    if s != "" && s[0] == ' ' then 1 + Blanks(s[1..]) else 0
  }

  predicate SaysAs(s: string) { |s| >= 2 && (s[0] == 'A' || s[0] == 'a') && (s[1] == 'S' || s[1] == 's') }

  /** findStart: over a dot, or over blanks with at most one `AS` among them. */
  function WordStart(s: string): (n: nat)
    requires s != ""
    ensures n <= |s|
  {
    if s[0] == '.' then 1
    else if s[0] != ' ' then 0
    else
      var k := Blanks(s);
      if k == |s| then |s|
      else if SaysAs(s[k..]) then k + 2 + Blanks(s[k + 2..])
      else k
  }

  /** QuoteTo on what is left of the value. */
  function Quote(q: Quoter, s: string): Option<string>
    decreases |s|
  {
    if s == "" then Some("")
    else
      var start := WordStart(s);
      if start == |s| then Some(s)
      else
        var end := start + WordEnd(s[start..]);
        if start == end then None
        else
          match QuoteWord(q, s[start..end])
          case None => None
          case Some(w) =>
            match Quote(q, s[end..])
            case None => None
            case Some(more) => Some(s[..start] + w + more)
  }

  // ----- the code of QuoteTo -----

  method FindWord(v: string, start: nat) returns (end: nat)
    requires start <= |v|
    ensures end == start + WordEnd(v[start..])
  {
    end := start;
    while end < |v|
      invariant start <= end <= |v|
      invariant start + WordEnd(v[start..]) == end + WordEnd(v[end..])
    {
      if v[end] == '.' || v[end] == ' ' { return; }
      assert v[end..][1..] == v[end + 1..];
      end := end + 1;
    }
  }

  method SkipBlanks(v: string, start: nat) returns (end: nat)
    requires start <= |v|
    ensures end == start + Blanks(v[start..])
  {
    end := start;
    while end < |v|
      invariant start <= end <= |v|
      invariant start + Blanks(v[start..]) == end + Blanks(v[end..])
    {
      if v[end] != ' ' { return; }
      assert v[end..][1..] == v[end + 1..];
      end := end + 1;
    }
  }

  method FindStart(value: string, start: nat) returns (n: nat)
    requires start < |value|
    ensures n == start + WordStart(value[start..])
  {
    WordStartIs(value, start);
    hide WordStart;
    if value[start] == '.' { return start + 1; }
    if value[start] != ' ' { return start; }
    var k := SkipBlanks(value, start);
    if k == |value| { return k; }
    if k + 1 < |value| && (value[k] == 'A' || value[k] == 'a') && (value[k + 1] == 'S' || value[k + 1] == 's') {
      k := k + 2;
    }
    n := SkipBlanks(value, k);
  }

  /** findStart in terms of positions. */
  lemma WordStartIs(value: string, start: nat)
    requires start < |value|
    ensures
      var n, k := start + WordStart(value[start..]), start + Blanks(value[start..]);
      && (value[start] == '.' ==> n == start + 1) && (value[start] != '.' && value[start] != ' ' ==> n == start)
      && (value[start] == ' ' && k == |value| ==> n == k)
      && (value[start] == ' ' && k < |value| ==>
            n == if SaysAs(value[k..]) then k + 2 + Blanks(value[k + 2..]) else k + Blanks(value[k..]))
  {
    var s := value[start..];
    var b := Blanks(s);
    assert s[0] == value[start] && s[b..] == value[start + b..];
    if b < |s| {
      assert Blanks(s[b..]) == 0;
      if SaysAs(s[b..]) { assert s[b + 2..] == value[start + b + 2..]; }
    }
  }

  method QuoteTo(q: Quoter, value: string) returns (buf: Option<string>)
    ensures buf == Quote(q, value)
  {
    hide Quote, WordStart, WordEnd, QuoteWord;
    var i, out := 0, "";
    assert value[0..] == value;
    ThenNothing(Quote(q, value));
    while i < |value|
      invariant i <= |value|
      invariant Quote(q, value) == Then(out, Quote(q, value[i..]))
    {
      ghost var rest := value[i..];
      var start := FindStart(value, i);
      assert value[i..start] == rest[..start - i] && rest[start - i..] == value[start..];
      if start == |value| {
        QuoteEnds(q, rest);
        return Some(out + value[i..start]);
      }
      var nextEnd := FindWord(value, start);
      assert rest[nextEnd - i..] == value[nextEnd..] && rest[start - i..nextEnd - i] == value[start..nextEnd];
      QuoteStep(q, rest, start - i, nextEnd - i, out);
      var word := QuoteWord(q, value[start..nextEnd]);
      if word == None { return None; }
      out := out + value[i..start] + word.value;
      i := nextEnd;
    }
    assert value[i..] == "" && out + "" == out;
    QuoteNothing(q);
    return Some(out);
  }

  lemma QuoteNothing(q: Quoter)
    ensures Quote(q, "") == Some("")
  {}

  lemma ThenNothing(more: Option<string>)
    ensures Then("", more) == more
  {
    if more.Some? { assert "" + more.value == more.value; }
  }

  lemma QuoteEnds(q: Quoter, s: string)
    requires s != "" && WordStart(s) == |s|
    ensures Quote(q, s) == Some(s[..|s|])
  {
    assert s[..|s|] == s;
  }

  /** Written text, then whatever comes of the rest. */
  function Then(out: string, more: Option<string>): Option<string> {
    if more == None then None else Some(out + more.value)
  }

  lemma QuoteStep(q: Quoter, rest: string, start: nat, end: nat, before: string)
    requires rest != "" && start == WordStart(rest) < |rest| && end == start + WordEnd(rest[start..])
    ensures
      var word := QuoteWord(q, rest[start..end]);
      && (word == None ==> Quote(q, rest) == None)
      && (word != None ==> start < end)
      && (word != None ==> Then(before, Quote(q, rest)) == Then(before + rest[..start] + word.value, Quote(q, rest[end..])))
  {
    var word := QuoteWord(q, rest[start..end]);
    QuoteOnce(q, rest, start, end);
    hide Quote, QuoteWord, WordEnd, WordStart;
    var more := Quote(q, rest[end..]);
    if word.Some? && more.Some? { Regrouped(before, rest[..start], word.value, more.value); }
  }

  lemma Regrouped(a: string, b: string, c: string, d: string)
    ensures a + (b + c + d) == a + b + c + d
  {}

  lemma QuoteOnce(q: Quoter, s: string, start: nat, end: nat)
    requires s != "" && start == WordStart(s) < |s| && end == start + WordEnd(s[start..])
    ensures
      var word := QuoteWord(q, s[start..end]);
      && (word == None ==> Quote(q, s) == None)
      && (word != None ==> start < end && Quote(q, s) == Then(s[..start] + word.value, Quote(q, s[end..])))
  {
    hide WordStart, WordEnd, Put, Wrapped;
    if start == end {
      assert s[start..end] == "";
      assert QuoteWord(q, "") == None;
    } else {
      hide QuoteWord;
    }
  }

  // ----- dotted names -----

  function Dotted(words: seq<string>): string {
    if words == [] then "" else if |words| == 1 then words[0] else words[0] + "." + Dotted(words[1..])
  }

  /** Neither a dot nor a space. */
  predicate Solid(w: string) { '.' !in w && ' ' !in w }

  predicate AllSolid(words: seq<string>) { forall w :: w in words ==> Solid(w) }

  /** The words between the dots of a text without spaces. */
  function SplitDots(s: string): (words: seq<string>)
    ensures |words| > 0
    decreases |s|
  {
    var n := WordEnd(s);
    if n == |s| then [s] else [s[..n]] + SplitDots(s[n + 1..])
  }

  lemma {:induction false} SplitDotsJoins(s: string)
    requires ' ' !in s
    ensures AllSolid(SplitDots(s)) && Dotted(SplitDots(s)) == s
    decreases |s|
  {
    var n := WordEnd(s);
    SolidStart(s);
    hide WordEnd, Solid;
    if n == |s| {
      assert s[..n] == s;
    } else {
      SplitDotsJoins(s[n + 1..]);
      FirstOfMore(s[..n], SplitDots(s[n + 1..]));
      assert s == s[..n] + "." + s[n + 1..];
    }
  }

  lemma SolidStart(s: string)
    requires ' ' !in s
    ensures Solid(s[..WordEnd(s)])
    ensures WordEnd(s) < |s| ==> s[WordEnd(s)] == '.' && ' ' !in s[WordEnd(s) + 1..]
  {
    var n := WordEnd(s);
    assert forall c :: c in s[..n] ==> exists i :: 0 <= i < n && s[i] == c;
    if n < |s| { assert s[n] in s && forall c :: c in s[n + 1..] ==> c in s; }
  }

  lemma FirstOfMore(w: string, more: seq<string>)
    requires more != []
    ensures Dotted([w] + more) == w + "." + Dotted(more)
    ensures Solid(w) && AllSolid(more) ==> AllSolid([w] + more)
  {
    assert ([w] + more)[1..] == more;
  }

  /** What may follow a word. */
  predicate Broken(rest: string) { rest == "" || rest[0] == '.' || rest[0] == ' ' }

  lemma {:induction false} SolidEnd(w: string, rest: string)
    requires Solid(w) && Broken(rest)
    ensures WordEnd(w + rest) == |w|
    decreases |w|
  {
    if w == "" {
      assert w + rest == rest;
    } else {
      assert w[0] in w && forall c :: c in w[1..] ==> c in w;
      assert (w + rest)[1..] == w[1..] + rest;
      SolidEnd(w[1..], rest);
    }
  }

  /** A word, with or without the dot before it. */
  lemma QuoteSolid(q: Quoter, dot: string, w: string, rest: string)
    requires Solid(w) && w != "" && (dot == "" || dot == ".") && Broken(rest)
    ensures
      Quote(q, dot + w + rest) ==
      if QuoteWord(q, w) == None then None else Then(dot + QuoteWord(q, w).value, Quote(q, rest))
  {
    SolidAt(dot, w, rest);
    hide WordStart, WordEnd, QuoteWord, Solid;
  }

  lemma SolidAt(dot: string, w: string, rest: string)
    requires Solid(w) && w != "" && (dot == "" || dot == ".") && Broken(rest)
    ensures
      var s, start, end := dot + w + rest, |dot|, |dot| + |w|;
      && s != "" && WordStart(s) == start < |s| && WordEnd(s[start..]) == |w|
      && s[..start] == dot && s[start..end] == w && s[end..] == rest
  {
    var s := dot + w + rest;
    assert w[0] in w && s[|dot|..] == w + rest;
    assert s[0] == if dot == "" then w[0] else '.';
    SolidEnd(w, rest);
  }

  /** A word that is nothing but one quote mark. */
  predicate Lone(q: Quoter, w: string) { |w| == 1 && (w[0] == '`' || w[0] == q.prefix == q.suffix) }

  /** An empty word panics unless it is the last; a lone quote mark always does. */
  predicate TailPanics(q: Quoter, words: seq<string>) {
    exists k :: 0 <= k < |words| && (Lone(q, words[k]) || (words[k] == "" && k < |words| - 1))
  }

  function QuotedTail(q: Quoter, words: seq<string>): string {
    if words == [] then "" else "." + Word(q, words[0]) + QuotedTail(q, words[1..])
  }

  /** The quoted form of a word that does not panic. */
  function Word(q: Quoter, w: string): string {
    match QuoteWord(q, w) case None => "" case Some(x) => x
  }

  function Dots(words: seq<string>): string { if words == [] then "" else "." + words[0] + Dots(words[1..]) }

  lemma {:induction false} DottedIsDots(words: seq<string>)
    requires words != []
    ensures Dotted(words) == words[0] + Dots(words[1..])
    decreases |words|
  {
    if |words| > 1 {
      DottedIsDots(words[1..]);
      Join(words[0], ".", Dotted(words[1..]));
      Join(".", words[1], Dots(words[1..][1..]));
    }
  }

  lemma {:induction false} QuoteDots(q: Quoter, words: seq<string>)
    requires AllSolid(words)
    ensures Quote(q, Dots(words)) == if TailPanics(q, words) then None else Some(QuotedTail(q, words))
    decreases |words|
  {
    if words != [] {
      var w, more := words[0], words[1..];
      assert w in words && forall x :: x in more ==> x in words;
      assert TailPanics(q, words) <==> Lone(q, w) || (w == "" && more != []) || TailPanics(q, more) by {
        assert forall k :: 0 <= k < |more| ==> more[k] == words[k + 1];
        if TailPanics(q, more) {
          var k :| 0 <= k < |more| && (Lone(q, more[k]) || (more[k] == "" && k < |more| - 1));
          assert words[k + 1] == more[k];
        }
      }
      QuoteDots(q, more);
      if w != "" {
        QuoteSolid(q, ".", w, Dots(more));
      } else {
        QuoteNoWord(q, more);
      }
    }
  }

  lemma QuoteNoWord(q: Quoter, more: seq<string>)
    ensures Quote(q, "." + "" + Dots(more)) == if more == [] then Some(".") else None
  {
    var s := "." + "" + Dots(more);
    assert WordStart(s) == 1;
    if more == [] {
      assert s == ".";
    } else {
      assert s[1..] == Dots(more) && Dots(more)[0] == '.';
      assert WordEnd(s[1..]) == 0;
    }
  }

  predicate Panics(q: Quoter, words: seq<string>) {
    exists k :: 0 <= k < |words| && (Lone(q, words[k]) || (words[k] == "" && 0 < k < |words| - 1))
  }

  /** For every value without spaces: Quote panics exactly on an empty word between two dots or
      on a word that is a single quote mark, and otherwise quotes word by word. */
  lemma QuoteIsWordByWord(q: Quoter, s: string)
    requires ' ' !in s
    ensures
      var words := SplitDots(s);
      Quote(q, s) == if Panics(q, words) then None
                     else Some(Word(q, words[0]) + QuotedTail(q, words[1..]))
  {
    SplitDotsJoins(s);
    QuoteWords(q, SplitDots(s));
  }

  lemma QuoteWords(q: Quoter, words: seq<string>)
    requires AllSolid(words) && words != []
    ensures Quote(q, Dotted(words)) == if Panics(q, words) then None
                                       else Some(Word(q, words[0]) + QuotedTail(q, words[1..]))
  {
    hide Quote, QuoteWord, Wrapped, Solid, QuotedTail, Dotted, Dots;
    var w, more := words[0], words[1..];
    DottedIsDots(words);
    assert w in words && forall x :: x in more ==> x in words;
    QuoteDots(q, more);
    assert Panics(q, words) <==> Lone(q, w) || TailPanics(q, more) by {
      assert forall k :: 0 <= k < |more| ==> more[k] == words[k + 1];
      if TailPanics(q, more) {
        var k :| 0 <= k < |more| && (Lone(q, more[k]) || (more[k] == "" && k < |more| - 1));
        assert words[k + 1] == more[k];
      }
    }
    FirstWord(q, w, more);
  }

  lemma FirstWord(q: Quoter, w: string, more: seq<string>)
    requires Solid(w)
    ensures
      Quote(q, w + Dots(more)) ==
      if Lone(q, w) then None else Then(Word(q, w), Quote(q, Dots(more)))
  {
    var rest := Dots(more);
    assert rest == "" || rest[0] == '.';
    LoneIff(q, w);
    hide Quote, QuoteWord, Dots, Solid, Lone;
    if w != "" {
      QuoteSolid(q, "", w, rest);
      EmptyFirst(w + rest);
      EmptyFirst(Word(q, w));
      assert "" + w == w;
    } else {
      EmptyFirst(rest);
      if Quote(q, rest).Some? { EmptyFirst(Quote(q, rest).value); }
    }
  }

  lemma EmptyFirst(s: string)
    ensures "" + s == s
  {}

  lemma LoneIff(q: Quoter, w: string)
    ensures Lone(q, w) || w == "" <==> QuoteWord(q, w) == None
  {}

  // ----- one canonical form -----

  datatype Spelling = Bare | Ticked | Own

  function Spell(q: Quoter, name: string, form: Spelling): string {
    match form
    case Bare => name
    case Ticked => "`" + name + "`"
    case Own => [q.prefix] + name + [q.suffix]
  }

  function Spelled(q: Quoter, names: seq<string>, forms: seq<Spelling>): seq<string>
    requires |names| == |forms|
  {
    if names == [] then [] else [Spell(q, names[0], forms[0])] + Spelled(q, names[1..], forms[1..])
  }

  function Canonical(q: Quoter, names: seq<string>): seq<string> {
    if names == [] then [] else [Put(q, names[0])] + Canonical(q, names[1..])
  }

  /** A name on its own: not empty, no dot, no space, and not already in quotes. */
  predicate Name(q: Quoter, w: string) {
    && w != "" && Solid(w)
    && !(w[0] == '`' && w[|w| - 1] == '`') && !(w[0] == q.prefix && w[|w| - 1] == q.suffix)
  }

  predicate Names(q: Quoter, names: seq<string>) { names != [] && forall w :: w in names ==> Name(q, w) }

  predicate Marks(q: Quoter) { q.prefix != '.' && q.prefix != ' ' && q.suffix != '.' && q.suffix != ' ' }

  lemma SpellWord(q: Quoter, name: string, form: Spelling)
    requires Name(q, name) && Marks(q)
    ensures QuoteWord(q, Spell(q, name, form)) == Some(Put(q, name)) && Solid(Spell(q, name, form))
    ensures Spell(q, name, form) != "" && !Lone(q, Spell(q, name, form))
  {
    var w := Spell(q, name, form);
    if form != Bare { assert w[1..|w| - 1] == name; }
  }

  lemma {:induction false} SpelledTail(q: Quoter, names: seq<string>, forms: seq<Spelling>)
    requires |names| == |forms| && (forall w :: w in names ==> Name(q, w)) && Marks(q)
    ensures
      var words := Spelled(q, names, forms);
      && |words| == |names| && AllSolid(words)
      && (forall k :: 0 <= k < |words| ==> words[k] != "" && !Lone(q, words[k]))
      && QuotedTail(q, words) == Dots(Canonical(q, names))
    decreases |names|
  {
    if names != [] {
      assert names[0] in names && forall w :: w in names[1..] ==> w in names;
      SpellWord(q, names[0], forms[0]);
      SpelledTail(q, names[1..], forms[1..]);
      hide Lone, Name, Solid, Spell;
      assert Spelled(q, names, forms)[1..] == Spelled(q, names[1..], forms[1..]);
      assert Canonical(q, names)[1..] == Canonical(q, names[1..]);
    }
  }

  /** However each word of a dotted name is spelled, bare, in back-ticks or in the dialect's
      own quotes, Quote gives the same text: each word as the quoter puts it. */
  lemma QuoteIsCanonical(q: Quoter, names: seq<string>, forms: seq<Spelling>)
    requires |names| == |forms| && Names(q, names) && Marks(q)
    ensures Quote(q, Dotted(Spelled(q, names, forms))) == Some(Dotted(Canonical(q, names)))
  {
    var words := Spelled(q, names, forms);
    SpelledTail(q, names, forms);
    QuoteWords(q, words);
    assert names[0] in names && forall w :: w in names[1..] ==> w in names;
    SpellWord(q, names[0], forms[0]);
    SpelledTail(q, names[1..], forms[1..]);
    DottedIsDots(Canonical(q, names));
    assert words[1..] == Spelled(q, names[1..], forms[1..]);
    assert Canonical(q, names)[1..] == Canonical(q, names[1..]);
  }

  /** How the canonical form itself spells each word. */
  function Forms(q: Quoter, names: seq<string>): seq<Spelling> {
    if names == [] then [] else [if Put(q, names[0]) == names[0] then Bare else Own] + Forms(q, names[1..])
  }

  lemma {:induction false} CanonicalIsSpelled(q: Quoter, names: seq<string>)
    ensures |Forms(q, names)| == |names| && Spelled(q, names, Forms(q, names)) == Canonical(q, names)
    decreases |names|
  {
    if names != [] {
      CanonicalIsSpelled(q, names[1..]);
      assert Forms(q, names)[1..] == Forms(q, names[1..]);
    }
  }

  /** Quoting what Quote returned changes nothing. */
  lemma QuoteTwice(q: Quoter, names: seq<string>, forms: seq<Spelling>)
    requires |names| == |forms| && Names(q, names) && Marks(q)
    ensures
      var once := Quote(q, Dotted(Spelled(q, names, forms)));
      once.Some? && Quote(q, once.value) == once
  {
    QuoteIsCanonical(q, names, forms);
    CanonicalIsSpelled(q, names);
    QuoteIsCanonical(q, names, Forms(q, names));
  }

  /** For any word: quoting it again gives the same exactly if it came out with marks, or its
      name is not in quotes, or its name is a word that gets marks inside the dialect's own. */
  lemma QuoteWordTwiceIff(q: Quoter, w: string)
    requires QuoteWord(q, w).Some? && !q.IsEmpty()
    ensures
      var once := QuoteWord(q, w).value;
      var name := if Wrapped(q, w) then w[1..|w| - 1] else w;
      QuoteWord(q, once) == Some(once) <==>
        || Marked(q, name)
        || (name != "" && !Wrapped(q, name))
        || (|name| >= 2 && name[0] == q.prefix && name[|name| - 1] == q.suffix && Marked(q, name[1..|name| - 1]))
  {
    var name := if Wrapped(q, w) then w[1..|w| - 1] else w;
    var once := QuoteWord(q, w).value;
    if Marked(q, name) {
      assert once[1..|once| - 1] == name;
    } else if |name| >= 2 && Wrapped(q, name) {
      var inner := name[1..|name| - 1];
      assert name == [name[0]] + inner + [name[|name| - 1]];
      assert |Put(q, inner)| == |name| <==> Marked(q, inner);
      if Marked(q, inner) && Put(q, inner) == name {
        assert ([q.prefix] + inner + [q.suffix])[0] == q.prefix;
        assert ([q.prefix] + inner + [q.suffix])[|inner| + 1] == q.suffix;
      }
    }
  }

  predicate Marked(q: Quoter, name: string) { q.isReserved(name) && name != "*" }

  lemma AliasWords()
    ensures
      var s, t := "name asc", " asc";
      && WordStart(s) == 0 && WordEnd(s[0..]) == 4 && s[0..4] == "name" && s[4..] == t && s[..0] == ""
      && WordStart(t) == 3 && WordEnd(t[3..]) == 1 && t[3..4] == "c" && t[4..] == "" && t[..3] == " as"
  {
    var s, t := "name asc", " asc";
    WordEndIs(s, 4);
    WordEndIs("c", 1);
    assert s[0..] == s && t[1..] == "asc" && t[3..] == "c";
    assert Blanks(t) == 1 && Blanks("c") == 0;
  }

  lemma QuoteReserved(q: Quoter, w: string)
    requires w != "" && !Wrapped(q, w) && Marked(q, w) && !q.IsEmpty()
    ensures QuoteWord(q, w) == Some([q.prefix] + w + [q.suffix])
  {}

  lemma Brackets()
    ensures ['['] + "name" + [']'] == "[name]" && ['['] + "c" + [']'] == "[c]" && ['['] + "a" + [']'] == "[a]"
  {
    assert ['['] + "a" + [']'] == ['[', 'a', ']'];
    assert ['['] + "c" + [']'] == ['[', 'c', ']'];
    assert ['['] + "name" + [']'] == ['[', 'n', 'a', 'm', 'e', ']'];
  }

  lemma AliasTail(q: Quoter)
    requires q.prefix == '[' && q.suffix == ']' && q.isReserved("c")
    ensures Quote(q, " asc") == Some(" as[c]")
  {
    AliasWords();
    QuoteReserved(q, "c");
    Brackets();
    hide WordEnd, WordStart, QuoteWord, Quote, Wrapped;
    QuoteOnce(q, " asc", 3, 4);
    QuoteNothing(q);
    assert " as" + "[c]" + "" == " as[c]";
  }

  /** A column alias that only starts with `as` is cut after those two letters. */
  lemma AliasCut(q: Quoter)
    requires q.prefix == '[' && q.suffix == ']' && q.isReserved("name") && q.isReserved("c")
    ensures Quote(q, "name asc") == Some("[name] as[c]")
  {
    AliasWords();
    AliasTail(q);
    QuoteReserved(q, "name");
    Brackets();
    hide WordEnd, WordStart, QuoteWord, Quote, Wrapped;
    QuoteOnce(q, "name asc", 0, 4);
    assert "" + "[name]" + " as[c]" == "[name] as[c]";
  }

  lemma SolidIsWord(w: string)
    requires Solid(w)
    ensures WordEnd(w) == |w| && forall c :: 0 <= c < |w| ==> w[c] != '.' && w[c] != ' '
  {
    forall c | 0 <= c < |w| ensures w[c] != '.' && w[c] != ' ' { assert w[c] in w; }
    WordEndIs(w, |w|);
  }

  function Gap(n: nat): (s: string)
    ensures |s| == n && forall i :: 0 <= i < n ==> s[i] == ' '
  {
    if n == 0 then "" else " " + Gap(n - 1)
  }

  lemma {:induction false} BlanksGap(n: nat, rest: string)
    requires rest == "" || rest[0] != ' '
    ensures Blanks(Gap(n) + rest) == n
  {
    if n == 0 {
      assert "" + rest == rest;
    } else {
      var s := Gap(n) + rest;
      assert s[0] == ' ' && s[1..] == Gap(n - 1) + rest;
      BlanksGap(n - 1, rest);
    }
  }

  lemma GapStart(n: nat, w: string)
    requires n > 0 && w != "" && w[0] != ' '
    ensures
      var t := Gap(n) + w;
      t != "" && t[0] == ' ' && Blanks(t) == n && t[n..] == w && t[..n] == Gap(n)
      && WordStart(t) == if SaysAs(w) then n + 2 + Blanks(w[2..]) else n
  {
    var t := Gap(n) + w;
    BlanksGap(n, w);
    hide Blanks;
    assert t[n..] == w;
    if SaysAs(w) { assert t[n + 2..] == w[2..]; }
  }

  lemma NameStart(q: Quoter, w: string)
    requires Name(q, w)
    ensures w[0] != ' '
  {
    assert w[0] in w;
  }

  /** The word after blanks, when it does not start with `as`. */
  lemma QuoteSecond(q: Quoter, n: nat, w: string)
    requires n > 0 && Name(q, w) && !SaysAs(w)
    ensures Quote(q, Gap(n) + w) == Some(Gap(n) + Put(q, w))
  {
    var t := Gap(n) + w;
    NameStart(q, w);
    GapStart(n, w);
    SolidIsWord(w);
    NameWord(q, w);
    hide WordEnd, WordStart, QuoteWord, Quote, Gap;
    assert t[n..|t|] == w && t[|t|..] == "";
    QuoteOnce(q, t, n, |t|);
    QuoteNothing(q);
    assert Gap(n) + Put(q, w) + "" == Gap(n) + Put(q, w);
  }

  lemma NameWord(q: Quoter, w: string)
    requires Name(q, w)
    ensures QuoteWord(q, w) == Some(Put(q, w))
  {}

  /** When it does, those two letters are copied. */
  lemma QuoteAfterAs(q: Quoter, n: nat, w: string)
    requires n > 0 && Name(q, w) && SaysAs(w)
    ensures Quote(q, Gap(n) + w).Some? ==> |Quote(q, Gap(n) + w).value| > n && Quote(q, Gap(n) + w).value[n] == w[0]
  {
    var t := Gap(n) + w;
    NameStart(q, w);
    GapStart(n, w);
    NoBlanks(q, w);
    assert t[..n + 2][n] == w[0];
    hide WordEnd, WordStart, QuoteWord, Gap;
    if |w| == 2 {
      QuoteEnds(q, t);
    } else {
      assert t[n + 2..] == w[2..];
      SolidIsWord(w);
      WordGoesOn(w);
      hide Quote;
      var end := n + 2 + WordEnd(t[n + 2..]);
      QuoteOnce(q, t, n + 2, end);
    }
  }

  lemma NoBlanks(q: Quoter, w: string)
    requires Name(q, w) && |w| >= 2
    ensures Blanks(w[2..]) == 0
  {
    if |w| > 2 { assert w[2] in w && w[2..][0] == w[2]; }
  }

  lemma WordGoesOn(w: string)
    requires Solid(w) && |w| > 2
    ensures WordEnd(w[2..]) > 0
  {
    assert w[2] in w && w[2..][0] == w[2];
  }

  /** A name and blanks: the name is quoted, then what the blanks start. */
  lemma QuoteFirst(q: Quoter, name: string, n: nat, w: string)
    requires Name(q, name) && n > 0
    ensures Quote(q, name + (Gap(n) + w)) == Then(Put(q, name), Quote(q, Gap(n) + w))
  {
    var s := name + (Gap(n) + w);
    SolidIsWord(name);
    NameStart(q, name);
    assert name[0] in name;
    assert s[0] == name[0] && s[0..] == s && s[..0] == "" && s[0..|name|] == name && s[|name|..] == Gap(n) + w;
    WordEndIs(s, |name|);
    assert WordStart(s) == 0;
    NameWord(q, name);
    hide WordEnd, WordStart, QuoteWord, Quote;
    QuoteOnce(q, s, 0, |name|);
    assert "" + Put(q, name) == Put(q, name);
  }

  // ----- names with an alias after AS -----

  lemma ThenThen(a: string, b: string, more: Option<string>)
    ensures Then(a, Then(b, more)) == Then(a + b, more)
  {
    if more.Some? { Join(a, b, more.value); }
  }

  predicate Quotable(q: Quoter, words: seq<string>) {
    AllSolid(words) && forall k :: 0 <= k < |words| ==> words[k] != "" && !Lone(q, words[k])
  }

  lemma QuotableFirst(q: Quoter, words: seq<string>)
    requires Quotable(q, words) && words != []
    ensures Solid(words[0]) && words[0] != "" && QuoteWord(q, words[0]) == Some(Word(q, words[0])) && Quotable(q, words[1..])
  {
    assert words[0] in words && forall w :: w in words[1..] ==> w in words;
    LoneIff(q, words[0]);
  }

  lemma DotsBroken(words: seq<string>, tail: string)
    requires tail == "" || tail[0] == ' '
    ensures Broken(Dots(words) + tail)
  {}

  /** The words after a dot, up to a blank. */
  lemma {:induction false} QuoteDotsThen(q: Quoter, words: seq<string>, tail: string)
    requires Quotable(q, words) && (tail == "" || tail[0] == ' ')
    ensures Quote(q, Dots(words) + tail) == Then(QuotedTail(q, words), Quote(q, tail))
    decreases |words|
  {
    hide Quote, QuoteWord, Quotable, Solid, Broken;
    if words == [] {
      assert Dots(words) + tail == tail;
      ThenNothing(Quote(q, tail));
    } else {
      var w, more := words[0], words[1..];
      QuotableFirst(q, words);
      DotsBroken(more, tail);
      Join("." + w, Dots(more), tail);
      QuoteSolid(q, ".", w, Dots(more) + tail);
      QuoteDotsThen(q, more, tail);
      ThenThen("." + Word(q, w), QuotedTail(q, more), Quote(q, tail));
    }
  }

  /** A dotted name, however its words are spelled, and then what a blank starts. */
  lemma CanonicalThen(q: Quoter, names: seq<string>, forms: seq<Spelling>, tail: string)
    requires |names| == |forms| && Names(q, names) && Marks(q) && (tail == "" || tail[0] == ' ')
    ensures Quote(q, Dotted(Spelled(q, names, forms)) + tail) == Then(Dotted(Canonical(q, names)), Quote(q, tail))
  {
    var words := Spelled(q, names, forms);
    SpelledTail(q, names, forms);
    var w, more := words[0], words[1..];
    QuotableFirst(q, words);
    FirstPut(q, names, forms);
    hide Quote, QuoteWord, Quotable, Solid, Broken, Spelled, Canonical, Dotted;
    DottedIsDots(words);
    DottedIsDots(Canonical(q, names));
    DotsBroken(more, tail);
    Join(w, Dots(more), tail);
    QuoteSolid(q, "", w, Dots(more) + tail);
    EmptyFirst(w);
    EmptyFirst(Put(q, names[0]));
    QuoteDotsThen(q, more, tail);
    ThenThen(Put(q, names[0]), QuotedTail(q, more), Quote(q, tail));
  }

  lemma FirstPut(q: Quoter, names: seq<string>, forms: seq<Spelling>)
    requires |names| == |forms| && Names(q, names) && Marks(q)
    ensures
      var words, puts := Spelled(q, names, forms), Canonical(q, names);
      && words != [] && puts != []
      && Word(q, words[0]) == Put(q, names[0]) == puts[0] && QuotedTail(q, words[1..]) == Dots(puts[1..])
  {
    assert names[0] in names && forall w :: w in names[1..] ==> w in names;
    SpellWord(q, names[0], forms[0]);
    SpelledTail(q, names[1..], forms[1..]);
    hide Spell, Name, QuoteWord, Put;
    assert Spelled(q, names, forms)[1..] == Spelled(q, names[1..], forms[1..]);
    assert Canonical(q, names)[1..] == Canonical(q, names[1..]);
  }

  predicate As(kw: string) { kw == "AS" || kw == "As" || kw == "aS" || kw == "as" }

  /** Blanks, the keyword, blanks and the alias. */
  function Alias(before: nat, kw: string, after: nat, a: string): string { Gap(before) + (kw + (Gap(after) + a)) }

  lemma AliasStart(m: nat, kw: string, n: nat, w: string)
    requires m > 0 && n > 0 && As(kw) && Solid(w) && w != ""
    ensures
      var t, k := Alias(m, kw, n, w), m + 2 + n;
      && t != "" && t[0] == ' ' && WordStart(t) == k < |t| && t[..k] == Gap(m) + (kw + Gap(n)) && t[k..] == w
      && WordEnd(t[k..]) == |w|
  {
    var rest := Gap(n) + w;
    var t, k := Gap(m) + (kw + rest), m + 2 + n;
    assert w[0] in w;
    SolidIsWord(w);
    hide Gap, WordEnd;
    assert (kw + rest)[2..] == rest && (kw + rest)[0] == kw[0] && (kw + rest)[1] == kw[1];
    GapStart(m, kw + rest);
    BlanksGap(n, w);
    Regroup(Gap(m), kw, Gap(n), w);
    Join(Gap(m), kw, Gap(n));
    var head := Gap(m) + (kw + Gap(n));
    assert t == head + w && |head| == k;
    assert t[..k] == head && t[k..] == w;
  }

  /** Blanks, AS, blanks and a word: the word is quoted. */
  lemma QuoteAlias(q: Quoter, m: nat, kw: string, n: nat, w: string)
    requires m > 0 && n > 0 && As(kw) && Solid(w) && w != "" && QuoteWord(q, w).Some?
    ensures Quote(q, Alias(m, kw, n, w)) == Some(Alias(m, kw, n, QuoteWord(q, w).value))
  {
    var t, v, k := Alias(m, kw, n, w), QuoteWord(q, w).value, m + 2 + n;
    AliasStart(m, kw, n, w);
    assert t[k..|t|] == w && t[|t|..] == "";
    hide WordEnd, WordStart, QuoteWord, Quote, Alias, Gap;
    QuoteOnce(q, t, k, |t|);
    QuoteNothing(q);
    AliasPieces(m, kw, n, v);
  }

  lemma AliasPieces(m: nat, kw: string, n: nat, v: string)
    ensures Gap(m) + (kw + Gap(n)) + v + "" == Alias(m, kw, n, v)
  {
    hide Gap;
    Join(kw, Gap(n), v);
    Join(Gap(m), kw + Gap(n), v);
  }

  /** A dotted name and its alias after AS, each word in any spelling: the alias is quoted like
      the words of the name. */
  lemma AsQuotesAlias(q: Quoter, names: seq<string>, forms: seq<Spelling>, m: nat, kw: string, n: nat, a: string, form: Spelling)
    requires |names| == |forms| && Names(q, names) && Name(q, a) && Marks(q) && As(kw) && m > 0 && n > 0
    ensures Quote(q, Dotted(Spelled(q, names, forms)) + Alias(m, kw, n, Spell(q, a, form))) ==
            Some(Dotted(Canonical(q, names)) + Alias(m, kw, n, Put(q, a)))
  {
    SpellWord(q, a, form);
    hide Quote, QuoteWord, Spell, Dotted;
    AliasStart(m, kw, n, Spell(q, a, form));
    QuoteAlias(q, m, kw, n, Spell(q, a, form));
    hide Solid, Alias, Gap;
    CanonicalThen(q, names, forms, Alias(m, kw, n, Spell(q, a, form)));
  }

  /** So the alias comes out as it was written, as the comment on QuoteTo promises, exactly if the
      quoter has no marks for it. */
  lemma AsKeepsAliasIff(q: Quoter, names: seq<string>, forms: seq<Spelling>, m: nat, kw: string, n: nat, a: string)
    requires |names| == |forms| && Names(q, names) && Name(q, a) && Marks(q) && As(kw) && m > 0 && n > 0
    ensures Quote(q, Dotted(Spelled(q, names, forms)) + Alias(m, kw, n, a)) ==
              Some(Dotted(Canonical(q, names)) + Alias(m, kw, n, a)) <==>
              q.IsEmpty() || !Marked(q, a)
  {
    AsQuotesAlias(q, names, forms, m, kw, n, a, Bare);
    SameLength(q, a);
    var head := Dotted(Canonical(q, names));
    AliasLength(m, kw, n, a);
    AliasLength(m, kw, n, Put(q, a));
    hide Quote, Dotted, Alias, Gap;
    assert |head + Alias(m, kw, n, a)| == |head| + |Alias(m, kw, n, a)|;
  }

  lemma AliasLength(m: nat, kw: string, n: nat, a: string)
    ensures |Alias(m, kw, n, a)| == m + |kw| + n + |a|
  {}

  lemma SameLength(q: Quoter, a: string)
    ensures if q.IsEmpty() || !Marked(q, a) then Put(q, a) == a else |Put(q, a)| == |a| + 2
  {}

  /** The example of that comment. */
  lemma AsAliasMarked(q: Quoter)
    requires q.prefix == '[' && q.suffix == ']' && q.isReserved("name") && q.isReserved("a")
    ensures Quote(q, "name AS a") == Some("[name] AS [a]")
  {
    hide Quote, Dotted, Spelled, Canonical, Put, Alias;
    LoneName(q, "name");
    QuoteReserved(q, "name");
    QuoteReserved(q, "a");
    NameWord(q, "name");
    NameWord(q, "a");
    Brackets();
    AsQuotesAlias(q, ["name"], [Bare], 1, "AS", 1, "a", Bare);
    ExampleTexts();
  }

  lemma LoneName(q: Quoter, name: string)
    ensures Dotted(Spelled(q, [name], [Bare])) == name && Dotted(Canonical(q, [name])) == Put(q, name)
  {
    assert [name][1..] == [] && [Bare][1..] == [];
    assert Spelled(q, [], []) == [] && Canonical(q, []) == [];
    hide Put;
    assert Spelled(q, [name], [Bare]) == [name] && Canonical(q, [name]) == [Put(q, name)];
  }

  lemma ExampleTexts()
    ensures "name" + Alias(1, "AS", 1, "a") == "name AS a" && "[name]" + Alias(1, "AS", 1, "[a]") == "[name] AS [a]"
  {
    assert Gap(0) == "" && Gap(1) == " ";
    assert Alias(1, "AS", 1, "a") == " AS a" && Alias(1, "AS", 1, "[a]") == " AS [a]";
  }

  // ----- an alias without AS -----

  predicate BeginsAs(w: string) { |w| >= 2 && As(w[..2]) }

  lemma BeginsAsIff(w: string)
    ensures BeginsAs(w) <==> SaysAs(w)
  {
    if |w| >= 2 { assert w[..2] == [w[0], w[1]]; }
  }

  /** A column and its alias: the alias gets its marks exactly unless it starts with `as`, in
      capitals or not. */
  lemma AliasQuotedIff(q: Quoter, name: string, n: nat, w: string)
    requires Name(q, name) && Name(q, w) && Marked(q, w) && !q.IsEmpty() && q.prefix != 'A' && q.prefix != 'a' && n > 0
    ensures Quote(q, name + (Gap(n) + w)) == Some(Put(q, name) + (Gap(n) + Put(q, w))) <==> !BeginsAs(w)
  {
    BeginsAsIff(w);
    hide BeginsAs;
    QuoteFirst(q, name, n, w);
    if SaysAs(w) {
      QuoteAfterAs(q, n, w);
      PutBegins(q, w);
      hide Quote, Put, Name, Marked;
      var r := Quote(q, Gap(n) + w);
      if r.Some? {
        assert (Put(q, name) + r.value)[|Put(q, name)| + n] == w[0];
        assert (Put(q, name) + (Gap(n) + Put(q, w)))[|Put(q, name)| + n] == q.prefix;
      }
    } else {
      QuoteSecond(q, n, w);
    }
  }

  lemma PutBegins(q: Quoter, w: string)
    requires Marked(q, w) && !q.IsEmpty()
    ensures Put(q, w) != "" && Put(q, w)[0] == q.prefix
  {}

  lemma {:induction false} WordEndIs(s: string, n: nat)
    requires n <= |s| && (n < |s| ==> s[n] == '.' || s[n] == ' ')
    requires forall i :: 0 <= i < n ==> s[i] != '.' && s[i] != ' '
    ensures WordEnd(s) == n
  {}

  // ----- Trim -----

  /** Trim drops an opening mark after a dot or at the front, a closing mark before a dot or at
      the end. */
  function TrimFrom(q: Quoter, prev: char, s: string): string
    decreases |s|
  {
    if s == "" then ""
    else
      var drop := (s[0] == q.prefix && prev == '.') || (s[0] == q.suffix && (|s| == 1 || s[1] == '.'));
      (if drop then "" else [s[0]]) + TrimFrom(q, s[0], s[1..])
  }

  function Trim(q: Quoter, s: string): string { if |s| < 2 then s else TrimFrom(q, '.', s) }

  method TrimTo(q: Quoter, s: string) returns (buf: string)
    ensures buf == Trim(q, s)
  {
    if |s| < 2 { return s; }
    buf := "";
    assert s[0..] == s && "" + TrimFrom(q, '.', s) == TrimFrom(q, '.', s);
    for i := 0 to |s|
      invariant TrimFrom(q, '.', s) == buf + TrimFrom(q, if i == 0 then '.' else s[i - 1], s[i..])
    {
      hide TrimFrom;
      assert s[i..][1..] == s[i + 1..];
      TrimStep(q, if i == 0 then '.' else s[i - 1], s[i..], buf);
      if i == 0 && s[i] == q.prefix {
      } else if i == |s| - 1 && s[i] == q.suffix {
      } else if s[i] == q.suffix && s[i + 1] == '.' {
      } else if s[i] == q.prefix && s[i - 1] == '.' {
      } else {
        buf := buf + [s[i]];
      }
    }
    TrimEnd(q, s[|s| - 1], buf);
    assert s[|s|..] == "";
  }

  lemma TrimEnd(q: Quoter, prev: char, buf: string)
    ensures buf + TrimFrom(q, prev, "") == buf
  {}

  lemma TrimStep(q: Quoter, prev: char, s: string, buf: string)
    requires s != ""
    ensures
      var drop := (s[0] == q.prefix && prev == '.') || (s[0] == q.suffix && (|s| == 1 || s[1] == '.'));
      buf + TrimFrom(q, prev, s) == (if drop then buf else buf + [s[0]]) + TrimFrom(q, s[0], s[1..])
  {}

  function Last(s: string, none: char): char { if s == "" then none else s[|s| - 1] }

  /** A word without its closing mark. */
  function Cut(q: Quoter, w: string): string {
    if w != "" && w[|w| - 1] == q.suffix then w[..|w| - 1] else w
  }

  lemma CutFirst(q: Quoter, w: string)
    requires |w| > 1
    ensures Cut(q, w) == [w[0]] + Cut(q, w[1..])
  {}

  /** Past its first character a word loses at most a closing mark. */
  lemma {:induction false} TrimInner(q: Quoter, prev: char, w: string, rest: string)
    requires prev != '.' && Solid(w) && (rest == "" || rest[0] == '.')
    ensures TrimFrom(q, prev, w + rest) == Cut(q, w) + TrimFrom(q, Last(w, prev), rest)
    decreases |w|
  {
    if w == "" {
      assert w + rest == rest;
    } else {
      SolidTail(w);
      TrimInner(q, w[0], w[1..], rest);
      TrimChar(q, prev, w, rest);
      hide TrimFrom, Solid;
      if |w| > 1 {
        CutFirst(q, w);
        hide Cut;
        Join([w[0]], Cut(q, w[1..]), TrimFrom(q, Last(w, prev), rest));
      } else {
        assert w[1..] + rest == rest;
      }
    }
  }

  lemma SolidTail(w: string)
    requires Solid(w) && w != ""
    ensures Solid(w[1..]) && w[0] != '.' && (|w| > 1 ==> w[1] != '.')
  {
    assert w[0] in w && forall c :: c in w[1..] ==> c in w;
  }

  /** One character of a word, not its first. */
  lemma TrimChar(q: Quoter, prev: char, w: string, rest: string)
    requires prev != '.' && w != "" && (|w| > 1 ==> w[1] != '.') && (rest == "" || rest[0] == '.')
    ensures
      TrimFrom(q, prev, w + rest) ==
      (if |w| == 1 && w[0] == q.suffix then "" else [w[0]]) + TrimFrom(q, w[0], w[1..] + rest)
  {
    var t := w + rest;
    assert t[0] == w[0] && t[1..] == w[1..] + rest;
    assert |w| > 1 ==> t[1] == w[1];
  }

  lemma TrimWord(q: Quoter, w: string, rest: string)
    requires Solid(w) && w != "" && (rest == "" || rest[0] == '.')
    requires Put(q, w) == w ==> w[0] != q.prefix && w[|w| - 1] != q.suffix
    requires Marks(q)
    ensures exists prev :: TrimFrom(q, '.', Put(q, w) + rest) == w + TrimFrom(q, prev, rest)
  {
    if Put(q, w) == w { TrimBare(q, w, rest); } else { TrimMarked(q, w, rest); }
  }

  lemma TrimBare(q: Quoter, w: string, rest: string)
    requires Solid(w) && w != "" && (rest == "" || rest[0] == '.')
    requires w[0] != q.prefix && w[|w| - 1] != q.suffix
    ensures TrimFrom(q, '.', w + rest) == w + TrimFrom(q, Last(w, '.'), rest)
  {
    SolidTail(w);
    FirstKept(q, w, rest);
    TrimInner(q, w[0], w[1..], rest);
    CutNothing(q, w);
    hide TrimFrom, Cut, Last, Solid;
    Join([w[0]], w[1..], TrimFrom(q, Last(w, '.'), rest));
  }

  lemma FirstKept(q: Quoter, w: string, rest: string)
    requires w != "" && (|w| > 1 ==> w[1] != '.') && w[0] != q.prefix && w[|w| - 1] != q.suffix
    ensures TrimFrom(q, '.', w + rest) == [w[0]] + TrimFrom(q, w[0], w[1..] + rest)
  {
    var t := w + rest;
    assert t[0] == w[0] && t[1..] == w[1..] + rest;
    assert |w| > 1 ==> t[1] == w[1];
  }

  lemma CutNothing(q: Quoter, w: string)
    requires w != "" && w[|w| - 1] != q.suffix
    ensures w == [w[0]] + w[1..] && Cut(q, w[1..]) == w[1..] && Last(w[1..], w[0]) == Last(w, '.')
  {}

  lemma TrimMarked(q: Quoter, w: string, rest: string)
    requires Solid(w) && w != "" && (rest == "" || rest[0] == '.') && Marks(q)
    ensures TrimFrom(q, '.', [q.prefix] + w + [q.suffix] + rest) == w + TrimFrom(q, q.suffix, rest)
  {
    var p := w + [q.suffix];
    var t := [q.prefix] + w + [q.suffix] + rest;
    assert t[0] == q.prefix && t[1..] == p + rest;
    TrimInner(q, q.prefix, p, rest);
    TrimStep(q, '.', t, "");
    hide TrimFrom;
    assert p[..|p| - 1] == w;
  }

  /** What the bare words must not start or end with. */
  predicate Trimmable(q: Quoter, names: seq<string>) {
    forall w :: w in names && Put(q, w) == w && w != "" ==> w[0] != q.prefix && w[|w| - 1] != q.suffix
  }

  lemma TrimDot(q: Quoter, prev: char, s: string)
    requires Marks(q)
    ensures TrimFrom(q, prev, "." + s) == "." + TrimFrom(q, '.', s)
  {
    assert ("." + s)[1..] == s;
  }

  lemma TrimmableTail(q: Quoter, names: seq<string>)
    requires names != [] && Trimmable(q, names)
    ensures Trimmable(q, names[1..])
  {
    assert forall x :: x in names[1..] ==> x in names;
  }

  lemma {:induction false} TrimDots(q: Quoter, prev: char, names: seq<string>)
    requires (forall w :: w in names ==> w != "" && Solid(w)) && Trimmable(q, names) && Marks(q)
    ensures TrimFrom(q, prev, Dots(Canonical(q, names))) == Dots(names)
    decreases |names|
  {
    if names != [] {
      var w, more := names[0], names[1..];
      assert w in names && forall x :: x in more ==> x in names;
      var rest := Dots(Canonical(q, more));
      assert Canonical(q, names)[1..] == Canonical(q, more);
      TrimWord(q, w, rest);
      hide TrimFrom, Solid, Put, Trimmable;
      var p :| TrimFrom(q, '.', Put(q, w) + rest) == w + TrimFrom(q, p, rest);
      assert Trimmable(q, more) by { TrimmableTail(q, names); }
      TrimDots(q, p, more);
      TrimDot(q, prev, Put(q, w) + rest);
      Join(".", Put(q, w), rest);
      Join(".", w, Dots(more));
    }
  }

  /** Trim takes the quotes of the canonical form away again. */
  lemma TrimInvertsQuote(q: Quoter, names: seq<string>, forms: seq<Spelling>)
    requires |names| == |forms| && Names(q, names) && Marks(q) && Trimmable(q, names)
    ensures
      var quoted := Quote(q, Dotted(Spelled(q, names, forms)));
      quoted.Some? && Trim(q, quoted.value) == Dotted(names)
  {
    QuoteIsCanonical(q, names, forms);
    TrimCanonical(q, names);
    hide Trim, Quote, Dotted, Spelled, Canonical;
  }

  lemma TrimCanonical(q: Quoter, names: seq<string>)
    requires Names(q, names) && Marks(q) && Trimmable(q, names)
    ensures Trim(q, Dotted(Canonical(q, names))) == Dotted(names)
  {
    var w, more := names[0], names[1..];
    assert w in names && forall x :: x in more ==> x in names;
    DottedIsDots(names);
    DottedIsDots(Canonical(q, names));
    var rest := Dots(Canonical(q, more));
    assert Canonical(q, names)[1..] == Canonical(q, more);
    TrimWord(q, w, rest);
    var p :| TrimFrom(q, '.', Put(q, w) + rest) == w + TrimFrom(q, p, rest);
    TrimDots(q, p, more);
    hide TrimFrom, Dotted;
    if |Put(q, w) + rest| < 2 { assert more == []; }
  }

  // ----- Replace -----

  function TickEnd(s: string): (n: nat)
    ensures n <= |s| && (n < |s| ==> s[n] == '`') && forall i :: 0 <= i < n ==> s[i] != '`'
  {
    if s == "" || s[0] == '`' then 0 else 1 + TickEnd(s[1..])
  }

  /** Replace: back-ticked words outside single quotes get the dialect's marks. */
  function Replace(q: Quoter, s: string, quoted: bool): string
    decreases |s|
  {
    if s == "" then ""
    else if !quoted && s[0] == '`' then
      var j := 1 + TickEnd(s[1..]);
      Mark(q, s[1..j]) + (if j < |s| then Replace(q, s[j + 1..], quoted) else "")
    else [s[0]] + Replace(q, s[1..], if s[0] == '\'' then !quoted else quoted)
  }

  function Mark(q: Quoter, word: string): string {
    if q.isReserved(word) then [q.prefix] + word + [q.suffix] else word
  }

  method ReplaceTo(q: Quoter, sql: string) returns (buf: string)
    ensures buf == if q.IsEmpty() then sql else Replace(q, sql, false)
  {
    if q.IsEmpty() { return sql; }
    buf := "";
    var beginSingleQuote := false;
    var i := 0;
    assert sql[0..] == sql;
    while i < |sql|
      invariant i <= |sql|
      invariant Replace(q, sql, false) == buf + Replace(q, sql[i..], beginSingleQuote)
    {
      hide Replace, Mark;
      ghost var rest, before := sql[i..], buf;
      assert rest[1..] == sql[i + 1..];
      if !beginSingleQuote && sql[i] == '`' {
        var word, next := TakeTick(q, sql, i, before);
        if q.isReserved(word) { buf := buf + [q.prefix]; }
        buf := buf + word;
        if q.isReserved(word) { buf := buf + [q.suffix]; }
        MarkIs(q, word, before);
        i := next;
      } else {
        ReplaceCopy(q, rest, beginSingleQuote, before);
        if sql[i] == '\'' { beginSingleQuote := !beginSingleQuote; }
        buf := buf + [sql[i]];
        i := i + 1;
      }
    }
    assert sql[i..] == "";
    ReplaceNone(q, buf);
  }

  /** The word after the back-tick at `i`, and where to go on. */
  method TakeTick(q: Quoter, sql: string, i: nat, ghost before: string) returns (word: string, next: nat)
    requires i < |sql| && sql[i] == '`'
    ensures i < next <= |sql|
    ensures before + Replace(q, sql[i..], false) == before + Mark(q, word) + Replace(q, sql[next..], false)
  {
    hide Replace, Mark;
    ghost var rest := sql[i..];
    assert rest[1..] == sql[i + 1..];
    var j := FindTick(sql, i + 1);
    word := sql[i + 1..j];
    next := if j < |sql| then j + 1 else j;
    assert rest[1..j - i] == word;
    if j < |sql| { assert rest[j - i + 1..] == sql[j + 1..]; } else { assert sql[next..] == ""; }
    ReplaceTick(q, rest, j - i, before);
    ReplaceNone(q, "");
    ReplaceNone(q, before + Mark(q, word));
  }

  lemma MarkIs(q: Quoter, word: string, before: string)
    ensures before + Mark(q, word) ==
            if q.isReserved(word) then before + [q.prefix] + word + [q.suffix] else before + word
  {}

  lemma ReplaceNone(q: Quoter, before: string)
    ensures before + Replace(q, "", false) == before && before + Replace(q, "", true) == before && before + "" == before
  {}

  lemma ReplaceCopy(q: Quoter, s: string, quoted: bool, before: string)
    requires s != "" && (quoted || s[0] != '`')
    ensures before + Replace(q, s, quoted) ==
            before + [s[0]] + Replace(q, s[1..], if s[0] == '\'' then !quoted else quoted)
  {}

  method FindTick(sql: string, start: nat) returns (j: nat)
    requires start <= |sql|
    ensures j == start + TickEnd(sql[start..])
  {
    j := start;
    while j < |sql|
      invariant start <= j <= |sql|
      invariant start + TickEnd(sql[start..]) == j + TickEnd(sql[j..])
    {
      if sql[j] == '`' { break; }
      assert sql[j..][1..] == sql[j + 1..];
      j := j + 1;
    }
  }

  lemma ReplaceTick(q: Quoter, s: string, j: nat, before: string)
    requires s != "" && s[0] == '`' && j == 1 + TickEnd(s[1..])
    ensures before + Replace(q, s, false) ==
            before + Mark(q, s[1..j]) + (if j < |s| then Replace(q, s[j + 1..], false) else "")
  {
    hide TickEnd, Mark;
    var more := if j < |s| then Replace(q, s[j + 1..], false) else "";
    assert Replace(q, s, false) == Mark(q, s[1..j]) + more;
    hide Replace;
    Join(before, Mark(q, s[1..j]), more);
  }

  /** SQL text in pieces; `closed` says whether the closing mark is there. */
  datatype Piece =
    | Plain(c: char)
    | Literal(body: string, closed: bool)
    | Tick(word: string, closed: bool)

  predicate GoodPiece(p: Piece) {
    match p
    case Plain(c) => c != '\'' && c != '`'
    case Literal(body, _) => '\'' !in body
    case Tick(word, _) => '`' !in word
  }

  function PieceText(p: Piece): string {
    match p
    case Plain(c) => [c]
    case Literal(body, closed) => "'" + body + (if closed then "'" else "")
    case Tick(word, closed) => "`" + word + (if closed then "`" else "")
  }

  function Text(ps: seq<Piece>): string { if ps == [] then "" else PieceText(ps[0]) + Text(ps[1..]) }

  /** What Replace is for: each back-ticked word marked anew, everything else as it is. */
  function Rewritten(q: Quoter, ps: seq<Piece>): string {
    if ps == [] then ""
    else
      (if !ps[0].Tick? then PieceText(ps[0])
       else if q.isReserved(ps[0].word) then [q.prefix] + ps[0].word + [q.suffix]
       else ps[0].word)
      + Rewritten(q, ps[1..])
  }

  /** Only the last piece may lack its closing mark. */
  predicate GoodPieces(ps: seq<Piece>) {
    && (forall p :: p in ps ==> GoodPiece(p))
    && (forall k :: 0 <= k < |ps| - 1 ==> ps[k].Plain? || ps[k].closed)
  }

  lemma {:induction false} CopyLiteral(q: Quoter, body: string, rest: string)
    requires '\'' !in body
    ensures Replace(q, body + rest, true) == body + Replace(q, rest, true)
    decreases |body|
  {
    if body == "" {
      assert body + rest == rest;
    } else {
      assert body[0] in body && forall c :: c in body[1..] ==> c in body;
      hide Replace;
      assert (body + rest)[0] == body[0] && (body + rest)[1..] == body[1..] + rest;
      CopyLiteral(q, body[1..], rest);
      ReplaceQuoted(q, body + rest);
      Join([body[0]], body[1..], Replace(q, rest, true));
    }
  }

  lemma ReplaceQuoted(q: Quoter, s: string)
    requires s != "" && s[0] != '\''
    ensures Replace(q, s, true) == [s[0]] + Replace(q, s[1..], true)
  {}

  lemma {:induction false} TickEndIs(word: string, rest: string)
    requires '`' !in word && (rest == "" || rest[0] == '`')
    ensures TickEnd(word + rest) == |word|
    decreases |word|
  {
    if word == "" {
      assert word + rest == rest;
    } else {
      assert word[0] in word && forall c :: c in word[1..] ==> c in word;
      assert (word + rest)[1..] == word[1..] + rest;
      TickEndIs(word[1..], rest);
    }
  }

  lemma ReplacePiece(q: Quoter, p: Piece, rest: string)
    requires GoodPiece(p) && (rest != "" ==> p.Plain? || p.closed)
    ensures Replace(q, PieceText(p) + rest, false) ==
            (if p.Tick? then Mark(q, p.word) else PieceText(p)) + Replace(q, rest, false)
  {
    match p
    case Plain(c) => assert ([c] + rest)[1..] == rest;
    case Literal(body, closed) => ReplaceLiteral(q, body, closed, rest);
    case Tick(word, closed) =>
      var tail := if closed then "`" + rest else "";
      var s := "`" + (word + tail);
      assert PieceText(p) + rest == s;
      assert s[1..] == word + tail;
      TickEndIs(word, tail);
      var j := 1 + |word|;
      assert s[1..j] == word && (closed ==> s[j + 1..] == rest);
      ReplaceTick(q, s, j, "");
  }

  lemma ReplaceLiteral(q: Quoter, body: string, closed: bool, rest: string)
    requires '\'' !in body && (rest != "" ==> closed)
    ensures Replace(q, "'" + body + (if closed then "'" else "") + rest, false) ==
            "'" + body + (if closed then "'" else "") + Replace(q, rest, false)
  {
    var end := if closed then "'" else "";
    var tail := end + rest;
    hide Replace;
    CopyLiteral(q, body, tail);
    ReplaceQuote(q, "'" + (body + tail));
    assert ("'" + (body + tail))[1..] == body + tail;
    CloseQuote(q, closed, rest);
    Regroup("'", body, end, rest);
    Regroup("'", body, end, Replace(q, rest, false));
  }

  lemma CloseQuote(q: Quoter, closed: bool, rest: string)
    requires rest != "" ==> closed
    ensures Replace(q, (if closed then "'" else "") + rest, true) == (if closed then "'" else "") + Replace(q, rest, false)
  {
    if closed { assert ("'" + rest)[1..] == rest; }
  }

  lemma ReplaceQuote(q: Quoter, s: string)
    requires s != "" && s[0] == '\''
    ensures Replace(q, s, false) == "'" + Replace(q, s[1..], true)
  {}

  /** Whatever the quoter: Replace marks the back-ticked words outside single quotes and copies
      the rest. */
  lemma {:induction false} ReplaceRewrites(q: Quoter, ps: seq<Piece>)
    requires GoodPieces(ps)
    ensures Replace(q, Text(ps), false) == Rewritten(q, ps)
    decreases |ps|
  {
    if ps != [] {
      assert ps[0] in ps && forall p :: p in ps[1..] ==> p in ps;
      assert forall k :: 0 <= k < |ps| - 2 ==> ps[1..][k] == ps[k + 1];
      if |ps| > 1 { assert ps[0].Plain? || ps[0].closed; }
      ReplacePiece(q, ps[0], Text(ps[1..]));
      ReplaceRewrites(q, ps[1..]);
    }
  }

  function QuoteEnd(s: string): (n: nat)
    ensures n <= |s| && (n < |s| ==> s[n] == '\'') && forall i :: 0 <= i < n ==> s[i] != '\''
  {
    if s == "" || s[0] == '\'' then 0 else 1 + QuoteEnd(s[1..])
  }

  /** Every text is made of such pieces. */
  lemma {:induction false} Pieces(s: string) returns (ps: seq<Piece>)
    ensures GoodPieces(ps) && Text(ps) == s
    decreases |s|
  {
    if s == "" {
      ps := [];
    } else if s[0] == '`' || s[0] == '\'' {
      var p, n := MarkedPiece(s);
      if n < |s| {
        var more := Pieces(s[n..]);
        ps := [p] + more;
        PieceFirst(p, more);
      } else {
        ps := [p];
        PieceFirst(p, []);
        assert PieceText(p) + Text([]) == PieceText(p) && [p] + [] == [p];
      }
    } else {
      var more := Pieces(s[1..]);
      ps := [Plain(s[0])] + more;
      PieceFirst(Plain(s[0]), more);
    }
  }

  lemma MarkedPiece(s: string) returns (p: Piece, n: nat)
    requires s != "" && (s[0] == '`' || s[0] == '\'')
    ensures 0 < n <= |s| && GoodPiece(p) && !p.Plain? && (n < |s| ==> p.closed)
    ensures s == PieceText(p) + s[n..]
  {
    var t := s[1..];
    var m := if s[0] == '`' then TickEnd(t) else QuoteEnd(t);
    var body := t[..m];
    assert forall c :: c in body ==> exists i :: 0 <= i < |body| && t[i] == c;
    var closed := m < |t|;
    n := if closed then m + 2 else m + 1;
    p := if s[0] == '`' then Tick(body, closed) else Literal(body, closed);
    hide TickEnd, QuoteEnd;
    CutMark(s, m);
  }

  lemma CutMark(s: string, m: nat)
    requires s != "" && m < |s| && (m + 1 < |s| ==> s[m + 1] == s[0])
    ensures s == [s[0]] + s[1..][..m] + (if m + 1 < |s| then [s[0]] else "") + (if m + 1 < |s| then s[m + 2..] else "")
    ensures m + 1 == |s| ==> s[m + 1..] == ""
  {}

  lemma PieceFirst(p: Piece, more: seq<Piece>)
    requires GoodPiece(p) && GoodPieces(more) && (more != [] ==> p.Plain? || p.closed)
    ensures GoodPieces([p] + more) && Text([p] + more) == PieceText(p) + Text(more)
  {
    assert ([p] + more)[1..] == more;
  }

  /** No back-tick outside single quotes is left without its partner. */
  predicate Balanced(ps: seq<Piece>) { forall p :: p in ps && p.Tick? ==> p.closed }

  lemma {:induction false} RewrittenByTicks(ps: seq<Piece>)
    requires GoodPieces(ps)
    ensures Rewritten(CommonQuoter, ps) == Text(ps) + if Balanced(ps) then "" else "`"
    decreases |ps|
  {
    if ps != [] {
      GoodAfter(ps);
      RewrittenByTicks(ps[1..]);
      if ps[0].Tick? { MarkedByTicks(ps[0]); }
      hide GoodPieces, Balanced, PieceText, Mark;
      Join(PieceText(ps[0]), Text(ps[1..]), if Balanced(ps[1..]) then "" else "`");
    }
  }

  /** Only the last piece may be an open back-tick. */
  lemma GoodAfter(ps: seq<Piece>)
    requires GoodPieces(ps) && ps != []
    ensures GoodPiece(ps[0]) && GoodPieces(ps[1..])
    ensures Balanced(ps) <==> Balanced(ps[1..]) && (ps[0].Tick? ==> ps[0].closed)
    ensures ps[0].Tick? && !ps[0].closed ==> ps[1..] == [] && Balanced([])
  {
    assert forall x :: x in ps[1..] ==> x in ps;
    assert forall x :: x in ps ==> x == ps[0] || x in ps[1..];
    assert forall k :: 0 <= k < |ps| - 2 ==> ps[1..][k] == ps[k + 1];
  }

  lemma MarkedByTicks(p: Piece)
    requires p.Tick?
    ensures Mark(CommonQuoter, p.word) == PieceText(p) + if p.closed then "" else "`"
  {}

  /** With the common quoter Replace is the identity exactly on balanced text; a back-tick left
      open gets a partner at the end. */
  lemma ReplaceIsIdentityIff(ps: seq<Piece>)
    requires GoodPieces(ps)
    ensures Replace(CommonQuoter, Text(ps), false) == Text(ps) <==> Balanced(ps)
    ensures !Balanced(ps) ==> Replace(CommonQuoter, Text(ps), false) == Text(ps) + "`"
  {
    ReplaceRewrites(CommonQuoter, ps);
    RewrittenByTicks(ps);
    assert |Text(ps) + "`"| == |Text(ps)| + 1;
  }
}
