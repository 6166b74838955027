/** The snake and gonic name mappers, on ASCII names. */
module NameMapper {
  import opened Strings

  predicate IsUpper(c: char) { 'A' <= c <= 'Z' }
  predicate IsLower(c: char) { 'a' <= c <= 'z' }

  function ToLower(c: char): char { if IsUpper(c) then (c as int + 32) as char else c }
  function ToUpper(c: char): char { if IsLower(c) then (c as int - 32) as char else c }

  const Capitals := "ABCDEFGHIJKLMNOPQRSTUVWXYZ"
  const Smalls := "abcdefghijklmnopqrstuvwxyz"

  /** The letters in pairs; no other character is one or changes. */
  lemma LettersPair(c: char)
    ensures forall k :: 0 <= k < 26 ==> ToLower(Capitals[k]) == Smalls[k] && ToUpper(Smalls[k]) == Capitals[k]
    ensures (IsUpper(c) <==> c in Capitals) && (IsLower(c) <==> c in Smalls)
    ensures (c !in Capitals ==> ToLower(c) == c) && (c !in Smalls ==> ToUpper(c) == c)
  {
    assert forall k :: 0 <= k < 26 ==> Capitals[k] == (65 + k) as char && Smalls[k] == (97 + k) as char;
    if IsUpper(c) { assert Capitals[c as int - 65] == c; }
    if IsLower(c) { assert Smalls[c as int - 97] == c; }
  }

  /** strings.ToLower and strings.ToUpper on ASCII text. */
  function Lower(s: string): (r: string)
    ensures |r| == |s| && forall i :: 0 <= i < |s| ==> r[i] == ToLower(s[i])
  {
    if s == "" then "" else [ToLower(s[0])] + Lower(s[1..])
  }

  function Upper(s: string): (r: string)
    ensures |r| == |s| && forall i :: 0 <= i < |s| ==> r[i] == ToUpper(s[i])
  {
    if s == "" then "" else [ToUpper(s[0])] + Upper(s[1..])
  }

  lemma LowerConcat(a: string, b: string)
    ensures Lower(a + b) == Lower(a) + Lower(b)
  {}

  predicate Ascii(s: string) { forall i :: 0 <= i < |s| ==> s[i] < 128 as char }

  // ----- snake -----

  /** What the loop of snakeCasedName appends after the first character. */
  function SnakeTail(s: string): string {
    if s == "" then "" else (if IsUpper(s[0]) then "_" else "") + [ToLower(s[0])] + SnakeTail(s[1..])
  }

  function Snake(s: string): string { if s == "" then "" else [ToLower(s[0])] + SnakeTail(s[1..]) }

  method SnakeCasedName(name: string) returns (newstr: string)
    ensures newstr == Snake(name)
  {
    newstr := "";
    for i := 0 to |name|
      invariant i == 0 ==> newstr == ""
      invariant i > 0 ==> Snake(name) == newstr + SnakeTail(name[i..])
    {
      hide SnakeTail, Snake;
      assert name[i..][1..] == name[i + 1..];
      if i > 0 { SnakeTailStep(name[i..], newstr); } else { SnakeFirst(name); }
      var c := name[i];
      if 'A' <= c <= 'Z' {
        if i > 0 { newstr := newstr + "_"; }
        c := ToLower(c);
      }
      newstr := newstr + [c];
    }
    assert name[|name|..] == "";
    SnakeNothing(newstr);
  }

  lemma SnakeFirst(name: string)
    requires name != ""
    ensures Snake(name) == "" + [ToLower(name[0])] + SnakeTail(name[1..])
  {}

  lemma SnakeNothing(before: string)
    ensures Snake("") == "" && before + SnakeTail("") == before
  {}

  lemma SnakeTailFirst(s: string)
    requires s != ""
    ensures SnakeTail(s) == (if IsUpper(s[0]) then "_" else "") + [ToLower(s[0])] + SnakeTail(s[1..])
  {}

  lemma SnakeTailStep(s: string, before: string)
    requires s != ""
    ensures before + SnakeTail(s) == (if IsUpper(s[0]) then before + "_" else before) + [ToLower(s[0])] + SnakeTail(s[1..])
  {
    SnakeTailFirst(s);
    hide SnakeTail, ToLower, IsUpper;
    if IsUpper(s[0]) {
      Regroup(before, "_", [ToLower(s[0])], SnakeTail(s[1..]));
      Join("_", [ToLower(s[0])], SnakeTail(s[1..]));
    } else {
      assert "" + [ToLower(s[0])] == [ToLower(s[0])];
      Join(before, [ToLower(s[0])], SnakeTail(s[1..]));
    }
  }

  /** titleCasedName on text that is already lower case. */
  function Title(s: string, up: bool): string {
    if s == "" then ""
    else if up then [ToUpper(s[0])] + Title(s[1..], false)
    else if s[0] == '_' then Title(s[1..], true)
    else [s[0]] + Title(s[1..], false)
  }

  method TitleCasedName(given: string) returns (newstr: string)
    ensures newstr == Title(Lower(given), true)
  {
    newstr := "";
    var upNextChar := true;
    var name := Lower(given);
    var i := 0;
    assert name[0..] == name && "" + Title(name, true) == Title(name, true);
    while i < |name|
      invariant i <= |name|
      invariant Title(name, true) == newstr + Title(name[i..], upNextChar)
    {
      hide Title;
      assert name[i..][1..] == name[i + 1..];
      TitleStep(name[i..], upNextChar, newstr);
      var c := name[i];
      if upNextChar {
        upNextChar := false;
        if 'a' <= c <= 'z' { c := ToUpper(c); }
      } else if c == '_' {
        upNextChar := true;
        i := i + 1;
        continue;
      }
      newstr := newstr + [c];
      i := i + 1;
    }
    assert name[i..] == "" && newstr + "" == newstr;
  }

  lemma TitleStep(s: string, up: bool, before: string)
    requires s != ""
    ensures before + Title(s, up) ==
            if up then before + [ToUpper(s[0])] + Title(s[1..], false)
            else if s[0] == '_' then before + Title(s[1..], true)
            else before + [s[0]] + Title(s[1..], false)
  {}

  lemma TitleUp(c: char, rest: string)
    ensures Title([c] + rest, true) == [ToUpper(c)] + Title(rest, false)
  {
    assert ([c] + rest)[1..] == rest;
  }

  lemma TitleOn(c: char, rest: string)
    ensures Title([c] + rest, false) == if c == '_' then Title(rest, true) else [c] + Title(rest, false)
  {
    assert ([c] + rest)[1..] == rest;
  }

  /** One character through the mapper and back, past the first. */
  lemma SnakeChar(c: char, rest: string, up: bool)
    requires up ==> !IsUpper(c)
    ensures
      Title((if IsUpper(c) then "_" else "") + [ToLower(c)] + rest, up) ==
      if up then [ToUpper(c)] + Title(rest, false)
      else if c == '_' then Title(rest, true)
      else [c] + Title(rest, false)
  {
    var l := ToLower(c);
    if IsUpper(c) {
      assert "_" + [l] + rest == ['_'] + ([l] + rest);
      TitleOn('_', [l] + rest);
      TitleUp(l, rest);
    } else {
      assert "" + [l] + rest == [l] + rest;
      if up { TitleUp(l, rest); } else { TitleOn(l, rest); }
    }
  }

  lemma {:induction false} SnakeTailBack(a: string, b: string)
    requires '_' !in a
    ensures Title(SnakeTail(a + b), false) == a + Title(SnakeTail(b), false)
    decreases |a|
  {
    hide Title, SnakeTail;
    if a == "" {
      assert a + b == b && a + Title(SnakeTail(b), false) == Title(SnakeTail(b), false);
    } else {
      assert a[0] in a && forall c :: c in a[1..] ==> c in a;
      assert (a + b)[0] == a[0] && (a + b)[1..] == a[1..] + b;
      SnakeTailBack(a[1..], b);
      SnakeTailFirst(a + b);
      SnakeChar(a[0], SnakeTail(a[1..] + b), false);
      Join([a[0]], a[1..], Title(SnakeTail(b), false));
      assert [a[0]] + a[1..] == a;
    }
  }

  /** The way back is never longer. */
  lemma {:induction false} SnakeTailShrinks(s: string, up: bool)
    ensures |Title(SnakeTail(s), up)| <= |s| + (if up && s != "" && IsUpper(s[0]) then 1 else 0)
    decreases |s|
  {
    if s != "" {
      var c, rest := s[0], s[1..];
      var more := SnakeTail(rest);
      SnakeTailShrinks(rest, false);
      SnakeTailShrinks(rest, true);
      if up && IsUpper(c) {
        UpBeforeCapital(c, more);
      } else {
        SnakeChar(c, more, up);
      }
    }
  }

  lemma UpBeforeCapital(c: char, rest: string)
    requires IsUpper(c)
    ensures Title((if IsUpper(c) then "_" else "") + [ToLower(c)] + rest, true) == ['_'] + ([ToLower(c)] + Title(rest, false))
  {
    var l := ToLower(c);
    assert "_" + [l] + rest == ['_'] + ([l] + rest);
    TitleUp('_', [l] + rest);
    TitleOn(l, rest);
  }

  /** A name that holds an underscore past its first character does not come back. */
  lemma UnderscoreIsLost(b: string)
    ensures Title(SnakeTail("_" + b), false) != "_" + b
  {
    assert ("_" + b)[0] == '_' && ("_" + b)[1..] == b;
    SnakeChar('_', SnakeTail(b), false);
    if b != "" && IsUpper(b[0]) {
      UpBeforeCapital(b[0], SnakeTail(b[1..]));
      assert Title(SnakeTail(b), true)[1] == ToLower(b[0]);
      assert ("_" + b)[1] == b[0];
    } else {
      SnakeTailShrinks(b, true);
    }
  }

  /** From object to table name and back: the name returns exactly if it does not start with a
      small letter and has no underscore after its first character. */
  lemma SnakeRoundTripIff(name: string)
    requires Ascii(name)
    ensures Title(Lower(Snake(name)), true) == name <==>
            name == "" || (!IsLower(name[0]) && '_' !in name[1..])
  {
    SnakeIsLower(name);
    if name != "" {
      var rest := name[1..];
      TitleUp(ToLower(name[0]), SnakeTail(rest));
      assert name == [name[0]] + rest;
      if '_' in rest {
        var p := FirstUnderscore(rest);
        var a, b := rest[..p], rest[p + 1..];
        assert rest == a + ("_" + b);
        SnakeTailBack(a, "_" + b);
        UnderscoreIsLost(b);
      } else {
        SnakeTailBack(rest, "");
        assert rest + "" == rest && SnakeTail("") == "" && Title("", false) == "";
      }
    }
  }

  function FirstUnderscore(s: string): (p: nat)
    requires '_' in s
    ensures p < |s| && s[p] == '_' && '_' !in s[..p]
  {
    if s[0] == '_' then 0
    else
      assert forall c :: c in s ==> c == s[0] || c in s[1..];
      var p := 1 + FirstUnderscore(s[1..]);
      assert s[..p] == [s[0]] + s[1..][..p - 1];
      p
  }

  lemma {:induction false} SnakeTailIsLower(s: string)
    ensures Lower(SnakeTail(s)) == SnakeTail(s)
    decreases |s|
  {
    if s != "" {
      SnakeTailIsLower(s[1..]);
      LowerConcat((if IsUpper(s[0]) then "_" else "") + [ToLower(s[0])], SnakeTail(s[1..]));
    }
  }

  lemma SnakeIsLower(s: string)
    ensures Lower(Snake(s)) == Snake(s)
  {
    if s != "" {
      SnakeTailIsLower(s[1..]);
      LowerConcat([ToLower(s[0])], SnakeTail(s[1..]));
    }
  }

  // ----- gonic -----

  /** One turn of the loop in gonicCasedName: an underscore before a capital that follows none,
      or between the last two capitals when a small letter or digit follows them. */
  function GonicStep(newstr: string, idx: nat, chr: char): (r: string)
    requires |newstr| >= idx
    ensures |r| >= idx + 1
  {
    var l := |newstr|;
    if IsUpper(chr) then
      (if idx > 0 && !IsUpper(newstr[l - 1]) then newstr + "_" else newstr) + [chr]
    else if idx > 1 && IsUpper(newstr[l - 1]) && IsUpper(newstr[l - 2]) then
      newstr[..l - 1] + "_" + [newstr[l - 1]] + [chr]
    else newstr + [chr]
  }

  function GonicLoop(newstr: string, idx: nat, name: string): (r: string)
    requires |newstr| >= idx
    ensures |r| >= idx + |name|
    decreases |name|
  {
    if name == "" then newstr else GonicLoop(GonicStep(newstr, idx, name[0]), idx + 1, name[1..])
  }

  function GonicCased(name: string): string { Lower(GonicLoop("", 0, name)) }

  lemma LoopStep(newstr: string, idx: nat, name: string)
    requires |newstr| >= idx && name != ""
    ensures GonicLoop(newstr, idx, name) == GonicLoop(GonicStep(newstr, idx, name[0]), idx + 1, name[1..])
  {}

  /** The body of the loop, with its insertion in place. */
  method AppendGonic(given: string, idx: nat, chr: char) returns (newstr: string)
    requires |given| >= idx
    ensures newstr == GonicStep(given, idx, chr)
  {
    newstr := given;
    if IsUpper(chr) && idx > 0 {
      if !IsUpper(newstr[|newstr| - 1]) { newstr := newstr + "_"; }
    }
    if !IsUpper(chr) && idx > 1 {
      var l := |newstr|;
      if IsUpper(newstr[l - 1]) && IsUpper(newstr[l - 2]) {
        newstr := newstr + [newstr[l - 1]];
        newstr := newstr[l - 1 := '_'];
        assert newstr == given[..l - 1] + "_" + [given[l - 1]];
      }
    }
    newstr := newstr + [chr];
  }

  method GonicCasedName(name: string) returns (r: string)
    ensures r == GonicCased(name)
  {
    var newstr := "";
    assert name[0..] == name;
    for idx := 0 to |name|
      invariant |newstr| >= idx
      invariant GonicLoop(newstr, idx, name[idx..]) == GonicLoop("", 0, name)
    {
      var chr := name[idx];
      assert name[idx..][1..] == name[idx + 1..];
      LoopStep(newstr, idx, name[idx..]);
      newstr := AppendGonic(newstr, idx, chr);
    }
    assert name[|name|..] == "";
    r := Lower(newstr);
  }

  /** A word of a table name as it appears in the object name. */
  function Cased(initialisms: set<string>, w: string): (r: string)
    ensures |r| == |w|
  {
    if Upper(w) in initialisms then Upper(w)
    else if w == "" then "" else [ToUpper(w[0])] + w[1..]
  }

  function AllCased(initialisms: set<string>, words: seq<string>): string {
    if words == [] then "" else Cased(initialisms, words[0]) + AllCased(initialisms, words[1..])
  }

  function Joined(words: seq<string>): string {
    if words == [] then "" else if |words| == 1 then words[0] else words[0] + "_" + Joined(words[1..])
  }

  /** strings.Split(s, "_"). */
  function Split(s: string): (words: seq<string>)
    ensures |words| > 0
  {
    if s == "" then [""]
    else
      var more := Split(s[1..]);
      if s[0] == '_' then [""] + more else [[s[0]] + more[0]] + more[1..]
  }

  function GonicObject(initialisms: set<string>, table: string): string {
    AllCased(initialisms, Split(Lower(table)))
  }

  method GonicTable2Obj(initialisms: set<string>, table: string) returns (newstr: string)
    ensures newstr == GonicObject(initialisms, table)
  {
    newstr := "";
    var parts := Split(Lower(table));
    assert parts[0..] == parts;
    for k := 0 to |parts|
      invariant AllCased(initialisms, parts) == newstr + AllCased(initialisms, parts[k..])
    {
      hide AllCased, Split, Cased;
      assert parts[k..][1..] == parts[k + 1..];
      AllCasedFirst(initialisms, parts[k..]);
      Join(newstr, Cased(initialisms, parts[k]), AllCased(initialisms, parts[k + 1..]));
      newstr := AppendCased(initialisms, newstr, parts[k]);
    }
    assert newstr + "" == newstr;
  }

  /** The inner loop, over the characters of one part. */
  method AppendCased(initialisms: set<string>, before: string, p: string) returns (newstr: string)
    ensures newstr == before + Cased(initialisms, p)
  {
    newstr := before;
    var isInitialism := Upper(p) in initialisms;
    ghost var c := Cased(initialisms, p);
    for i := 0 to |p|
      invariant newstr == before + c[..i]
    {
      var r := p[i];
      if i == 0 || isInitialism { r := ToUpper(r); }
      assert r == c[i] && c[..i + 1] == c[..i] + [r];
      newstr := newstr + [r];
    }
    assert c[..|p|] == c;
  }

  // ----- where gonicCasedName puts its underscores -----

  /** Before a capital that follows none, and before the last of several capitals when a small
      letter or digit follows it; never at the front. */
  predicate Sep(name: string, j: nat) {
    0 < j < |name| && IsUpper(name[j])
    && (!IsUpper(name[j - 1]) || (j + 1 < |name| && !IsUpper(name[j + 1])))
  }

  /** The first `k` characters with underscores before the marked ones. */
  function Emit(s: string, sep: nat -> bool, k: nat): (r: string)
    requires k <= |s|
    ensures k > 0 ==> r != "" && r[|r| - 1] == s[k - 1]
    decreases k
  {
    if k == 0 then "" else Emit(s, sep, k - 1) + (if sep(k - 1) then "_" else "") + [s[k - 1]]
  }

  function Marks(name: string): nat -> bool { (j: nat) => Sep(name, j) }

  function Spread(name: string): string { Emit(name, Marks(name), |name|) }

  lemma {:induction false} EmitSame(s: string, t: string, p: nat -> bool, q: nat -> bool, k: nat)
    requires k <= |s| && k <= |t| && s[..k] == t[..k] && forall j :: 0 <= j < k ==> p(j) == q(j)
    ensures Emit(s, p, k) == Emit(t, q, k)
    decreases k
  {
    if k > 0 {
      assert s[k - 1] == s[..k][k - 1] == t[..k][k - 1] == t[k - 1];
      assert s[..k - 1] == s[..k][..k - 1] == t[..k][..k - 1] == t[..k - 1];
      EmitSame(s, t, p, q, k - 1);
    }
  }

  lemma EmitStep(s: string, sep: nat -> bool, k: nat)
    requires 0 < k <= |s|
    ensures Emit(s, sep, k) == Emit(s, sep, k - 1) + (if sep(k - 1) then "_" else "") + [s[k - 1]]
  {}

  /** One more character changes at most whether the one before it is marked. */
  lemma SpreadStep(s: string, c: char)
    ensures |Spread(s)| >= |s| && Spread(s + [c]) == GonicStep(Spread(s), |s|, c)
  {
    var t, n := s + [c], |s|;
    var p, q := Marks(s), Marks(t);
    EmitLength(s, p, n);
    EmitStep(t, q, n + 1);
    assert t[n] == c;
    if n == 0 {
      assert Emit(t, q, 0) == "" && Spread(s) == "";
    } else {
      assert t[..n - 1] == s[..n - 1] && t[n - 1] == s[n - 1];
      SameMarks(s, c);
      EmitSame(s, t, p, q, n - 1);
      var head := Emit(s, p, n - 1);
      EmitStep(s, p, n);
      EmitStep(t, q, n);
      if n > 1 { assert t[n - 2] == s[n - 2]; }
      EmitLength(s, p, n - 1);
      hide Emit;
      LastStep(head, p(n - 1), q(n - 1), n, s[n - 1], c, n > 1 && IsUpper(s[n - 2]));
    }
  }

  /** The end of the name: `b` is the last character so far, `upper` says whether the one before it
      is a capital, `before` and `after` whether `b` is marked without and with `c`. */
  lemma SameMarks(s: string, c: char)
    ensures forall j :: 0 <= j < |s| - 1 ==> Marks(s)(j) == Marks(s + [c])(j)
  {
    var t := s + [c];
    forall j | 0 <= j < |s| - 1 ensures Sep(s, j) == Sep(t, j) {
      assert t[j] == s[j] && t[j + 1] == s[j + 1] && (j > 0 ==> t[j - 1] == s[j - 1]);
    }
  }

  lemma LastStep(head: string, before: bool, after: bool, n: nat, b: char, c: char, upper: bool)
    requires n > 0 && |head| >= n - 1 && (n > 1 ==> head != "" && IsUpper(head[|head| - 1]) == upper)
    requires before == (n > 1 && IsUpper(b) && !upper)
    requires after == (n > 1 && IsUpper(b) && (!upper || !IsUpper(c)))
    ensures
      var newstr := head + (if before then "_" else "") + [b];
      && |newstr| >= n
      && GonicStep(newstr, n, c) == head + (if after then "_" else "") + [b] + (if IsUpper(c) && !IsUpper(b) then "_" else "") + [c]
  {
    var newstr := head + (if before then "_" else "") + [b];
    var l := |newstr|;
    assert newstr[l - 1] == b;
    if n > 1 { assert newstr[l - 2] == if before then '_' else head[|head| - 1]; }
    assert newstr[..l - 1] == head + (if before then "_" else "");
  }

  lemma {:induction false} EmitLength(s: string, sep: nat -> bool, k: nat)
    requires k <= |s|
    ensures |Emit(s, sep, k)| >= k
    decreases k
  {
    if k > 0 { EmitLength(s, sep, k - 1); }
  }

  lemma {:induction false} LoopIsSpread(done: string, name: string)
    requires |Spread(done)| >= |done|
    ensures GonicLoop(Spread(done), |done|, name) == Spread(done + name)
    decreases |name|
  {
    if name == "" {
      assert done + name == done;
    } else {
      var next := done + [name[0]];
      SpreadStep(done, name[0]);
      assert next + name[1..] == done + name;
      LoopIsSpread(next, name[1..]);
    }
  }

  /** For every name: the loop, insertion in place included, lowers the name and puts an underscore
      exactly before the characters that `Sep` marks. */
  lemma GonicIsSpread(name: string)
    ensures GonicCased(name) == Lower(Spread(name))
  {
    LoopIsSpread("", name);
    assert "" + name == name && Spread("") == "";
  }

  lemma {:induction false} LowerEmit(s: string, sep: nat -> bool, k: nat)
    requires k <= |s|
    ensures Lower(Emit(s, sep, k)) == Emit(Lower(s), sep, k)
    decreases k
  {
    if k > 0 {
      LowerEmit(s, sep, k - 1);
      var mark := if sep(k - 1) then "_" else "";
      LowerConcat(Emit(s, sep, k - 1) + mark, [s[k - 1]]);
      LowerConcat(Emit(s, sep, k - 1), mark);
      assert Lower(mark) == mark && Lower([s[k - 1]]) == [Lower(s)[k - 1]];
    }
  }

  /** Text without underscores of its own shows where they were put. */
  lemma {:induction false} EmitShows(s: string, p: nat -> bool, q: nat -> bool, k: nat)
    requires k <= |s| && '_' !in s
    ensures Emit(s, p, k) == Emit(s, q, k) <==> forall j :: 0 <= j < k ==> p(j) == q(j)
    decreases k
  {
    if k > 0 {
      EmitShows(s, p, q, k - 1);
      var a, b := Emit(s, p, k - 1), Emit(s, q, k - 1);
      if k > 1 { assert s[k - 2] in s; }
      hide Emit;
      if p(k - 1) == q(k - 1) {
        SameBefore(a, b, (if p(k - 1) then "_" else "") + [s[k - 1]]);
        var mark := if p(k - 1) then "_" else "";
        assert a + mark + [s[k - 1]] == a + (mark + [s[k - 1]]) && b + mark + [s[k - 1]] == b + (mark + [s[k - 1]]);
      } else {
        MarkShows(a, b, s[k - 1]);
        MarkShows(b, a, s[k - 1]);
        assert a + "" == a && b + "" == b;
      }
    }
  }

  lemma SameBefore(a: string, b: string, c: string)
    ensures a + c == b + c <==> a == b
  {
    if a + c == b + c { assert a == (a + c)[..|a|] && b == (b + c)[..|b|] && |a| == |b|; }
  }

  lemma MarkShows(a: string, b: string, c: char)
    requires b != "" ==> b[|b| - 1] != '_'
    ensures a + "_" + [c] != b + [c]
  {
    var x, y := a + "_" + [c], b + [c];
    if |x| == |y| { assert x[|x| - 2] == '_' && y[|x| - 2] == b[|b| - 1]; }
  }

  // ----- gonic round trip -----

  /** A word of a table name: small letters and digits, a letter first. */
  predicate Word(w: string) {
    w != "" && IsLower(w[0]) && forall i :: 0 <= i < |w| ==> IsLower(w[i]) || '0' <= w[i] <= '9'
  }

  predicate Letters(w: string) { forall i :: 0 <= i < |w| ==> IsLower(w[i]) }
  predicate LetterAndDigits(w: string) { forall i :: 1 <= i < |w| ==> '0' <= w[i] <= '9' }

  /** The word becomes all capitals. */
  predicate Shouted(initialisms: set<string>, w: string) {
    |w| == 1 || (Upper(w) in initialisms && Letters(w))
  }

  /** An initialism with digits that is more than one letter and digits after it. */
  predicate Broken(initialisms: set<string>, w: string) {
    Upper(w) in initialisms && !Letters(w) && !LetterAndDigits(w)
  }

  lemma CasedShape(initialisms: set<string>, w: string)
    requires Word(w)
    ensures
      var c := Cased(initialisms, w);
      && |c| == |w| && c != "" && IsUpper(c[0]) && Lower(c) == w
      && (Shouted(initialisms, w) ==> forall i :: 0 <= i < |c| ==> IsUpper(c[i]))
      && (!Shouted(initialisms, w) && !Broken(initialisms, w) ==> |c| > 1 && forall i :: 1 <= i < |c| ==> !IsUpper(c[i]))
      && (Broken(initialisms, w) ==> forall i :: 0 <= i < |c| ==> (IsUpper(c[i]) <==> IsLower(w[i])))
  {
    var c := Cased(initialisms, w);
    CasedLower(initialisms, w);
    hide Lower, Upper;
    assert Upper(w) !in initialisms ==> c[1..] == w[1..];
    if Upper(w) in initialisms {
      forall i | 0 <= i < |w| ensures c[i] == ToUpper(w[i]) {}
    } else {
      forall i | 1 <= i < |w| ensures c[i] == w[i] { assert c[1..][i - 1] == w[1..][i - 1]; }
    }
  }

  lemma CasedLower(initialisms: set<string>, w: string)
    requires Word(w)
    ensures Lower(Cased(initialisms, w)) == w
  {
    var c := Cased(initialisms, w);
    if Upper(w) !in initialisms { assert c[1..] == w[1..]; }
    forall i | 0 <= i < |w| ensures ToLower(c[i]) == w[i] {
      if Upper(w) !in initialisms && i > 0 { assert c[i] == c[1..][i - 1] == w[1..][i - 1] == w[i]; }
    }
  }

  function FirstDigit(w: string): (d: nat)
    requires !Letters(w)
    ensures d < |w| && !IsLower(w[d]) && forall i :: 0 <= i < d ==> IsLower(w[i])
  {
    if !IsLower(w[0]) then 0
    else
      assert exists i :: 0 <= i < |w[1..]| && !IsLower(w[1..][i]) by {
        var i :| 0 <= i < |w| && !IsLower(w[i]);
        assert w[1..][i - 1] == w[i];
      }
      var d := FirstDigit(w[1..]);
      assert forall i :: 1 <= i < d + 1 ==> w[i] == w[1..][i - 1];
      d + 1
  }

  function NextLetter(w: string, i: nat): (r: nat)
    requires exists j :: i <= j < |w| && IsLower(w[j])
    ensures i <= r < |w| && IsLower(w[r]) && forall k :: i <= k < r ==> !IsLower(w[k])
    decreases |w| - i
  {
    if IsLower(w[i]) then i else NextLetter(w, i + 1)
  }

  /** A broken word gets an underscore inside. */
  lemma BrokenShows(initialisms: set<string>, w: string) returns (o: nat)
    requires Word(w) && Broken(initialisms, w)
    ensures 1 <= o < |w| && IsLower(w[o]) && (!IsLower(w[o - 1]) || (o + 1 < |w| && !IsLower(w[o + 1])))
  {
    var d := FirstDigit(w);
    if d >= 2 { return d - 1; }
    var j :| 1 <= j < |w| && !('0' <= w[j] <= '9');
    assert IsLower(w[j]);
    o := NextLetter(w, 1);
  }

  // ----- positions in the joined words -----

  function Flat(words: seq<string>): string { if words == [] then "" else words[0] + Flat(words[1..]) }

  /** Where the k-th word begins. */
  function Begin(words: seq<string>, k: nat): nat
    requires k <= |words|
  {
    if k == 0 then 0 else Begin(words, k - 1) + |words[k - 1]|
  }

  lemma {:induction false} BeginTail(words: seq<string>, k: nat)
    requires 0 < k <= |words|
    ensures Begin(words, k) == |words[0]| + Begin(words[1..], k - 1)
    decreases k
  {
    if k > 1 { BeginTail(words, k - 1); }
  }

  lemma {:induction false} FlatAt(words: seq<string>, k: nat, o: nat)
    requires k < |words| && o < |words[k]|
    ensures Begin(words, k) + o < |Flat(words)| && Flat(words)[Begin(words, k) + o] == words[k][o]
    decreases k
  {
    if k > 0 {
      FlatAt(words[1..], k - 1, o);
      BeginTail(words, k);
    }
  }

  lemma {:induction false} FlatEnd(words: seq<string>)
    ensures Begin(words, |words|) == |Flat(words)|
    decreases |words|
  {
    if words != [] {
      FlatEnd(words[1..]);
      BeginTail(words, |words|);
    }
  }

  lemma {:induction false} BeginGrows(words: seq<string>, i: nat, k: nat)
    requires i < k <= |words|
    ensures Begin(words, i) + |words[i]| <= Begin(words, k)
    decreases k
  {
    if i < k - 1 { BeginGrows(words, i, k - 1); }
  }

  lemma {:induction false} Locate(words: seq<string>, n: nat, j: nat) returns (k: nat, o: nat)
    requires n <= |words| && j < Begin(words, n)
    ensures k < n && o < |words[k]| && j == Begin(words, k) + o
    decreases n
  {
    if j < Begin(words, n - 1) { k, o := Locate(words, n - 1, j); }
    else { k, o := n - 1, j - Begin(words, n - 1); }
  }

  /** A word other than the first begins here. */
  predicate Starts(words: seq<string>, j: nat) { exists k :: 0 < k < |words| && Begin(words, k) == j }

  lemma StartsIff(words: seq<string>, k: nat, o: nat)
    requires (forall w :: w in words ==> w != "") && k < |words| && o < |words[k]|
    ensures Starts(words, Begin(words, k) + o) <==> k > 0 && o == 0
  {
    if Starts(words, Begin(words, k) + o) {
      var i :| 0 < i < |words| && Begin(words, i) == Begin(words, k) + o;
      assert words[i] in words && words[k] in words;
      if i < k { BeginGrows(words, i, k); } else if k < i { BeginGrows(words, k, i); }
    }
  }

  function StartsOf(words: seq<string>): nat -> bool { (j: nat) => Starts(words, j) }

  /** The table name is the words with an underscore before each but the first. */
  lemma JoinedIsEmit(words: seq<string>)
    requires forall w :: w in words ==> w != ""
    ensures Joined(words) == Emit(Flat(words), StartsOf(words), |Flat(words)|)
  {
    FlatEnd(words);
    JoinedPrefix(words, |words|);
    assert words[..|words|] == words;
  }

  lemma {:induction false} JoinedPrefix(words: seq<string>, k: nat)
    requires (forall w :: w in words ==> w != "") && k <= |words| && Begin(words, |words|) == |Flat(words)|
    ensures Begin(words, k) <= |Flat(words)|
    ensures Emit(Flat(words), StartsOf(words), Begin(words, k)) == Joined(words[..k])
    decreases k
  {
    hide Emit, Joined, Starts, Flat;
    if k < |words| { BeginGrows(words, k, |words|); }
    NothingJoined(Flat(words), StartsOf(words));
    if k > 0 {
      var w := words[k - 1];
      assert w in words;
      JoinedPrefix(words, k - 1);
      EmitWord(words, k - 1, |w|);
      JoinedLast(words[..k - 1], w);
      assert words[..k] == words[..k - 1] + [w] && w[..|w|] == w;
      if k == 1 { assert words[..0] == [] && "" + "" + w == w; }
    } else {
      assert words[..0] == [];
    }
  }

  lemma NothingJoined(s: string, sep: nat -> bool)
    ensures Emit(s, sep, 0) == "" && Joined([]) == ""
  {}

  lemma {:induction false} EmitWord(words: seq<string>, k: nat, o: nat)
    requires (forall w :: w in words ==> w != "") && k < |words| && 0 < o <= |words[k]|
    requires Begin(words, k) + |words[k]| <= |Flat(words)|
    ensures
      var sep := StartsOf(words);
      Emit(Flat(words), sep, Begin(words, k) + o) ==
      Emit(Flat(words), sep, Begin(words, k)) + (if k > 0 then "_" else "") + words[k][..o]
    decreases o
  {
    var sep := StartsOf(words);
    var b, w := Begin(words, k), words[k];
    FlatAt(words, k, o - 1);
    StartsIff(words, k, o - 1);
    EmitStep(Flat(words), sep, b + o);
    hide Emit, Flat, Begin, Starts;
    assert sep(b + o - 1) == (k > 0 && o == 1);
    var head := Emit(Flat(words), sep, b) + (if k > 0 then "_" else "");
    assert w[..o] == w[..o - 1] + [w[o - 1]];
    if o > 1 {
      EmitWord(words, k, o - 1);
      assert head + w[..o - 1] + "" == head + w[..o - 1];
      Join(head, w[..o - 1], [w[o - 1]]);
    } else {
      assert w[..0] == "" && w[..1] == [w[0]];
    }
  }

  lemma {:induction false} JoinedLast(words: seq<string>, w: string)
    ensures Joined(words + [w]) == (if words == [] then w else Joined(words) + "_" + w)
    decreases |words|
  {
    if words == [] {
      assert words + [w] == [w];
    } else {
      assert (words + [w])[1..] == words[1..] + [w] && (words + [w])[0] == words[0];
      JoinedLast(words[1..], w);
    }
  }

  // ----- the object name, word by word -----

  function CasedWords(initialisms: set<string>, words: seq<string>): (r: seq<string>)
    ensures |r| == |words| && forall k :: 0 <= k < |words| ==> r[k] == Cased(initialisms, words[k])
  {
    if words == [] then [] else [Cased(initialisms, words[0])] + CasedWords(initialisms, words[1..])
  }

  lemma {:induction false} CasedIsFlat(initialisms: set<string>, words: seq<string>)
    requires forall w :: w in words ==> Word(w)
    ensures AllCased(initialisms, words) == Flat(CasedWords(initialisms, words))
    ensures Lower(AllCased(initialisms, words)) == Flat(words)
    decreases |words|
  {
    if words != [] {
      assert words[0] in words && forall w :: w in words[1..] ==> w in words;
      CasedIsFlat(initialisms, words[1..]);
      CasedShape(initialisms, words[0]);
      LowerConcat(Cased(initialisms, words[0]), AllCased(initialisms, words[1..]));
    }
  }

  lemma {:induction false} SameLengths(a: seq<string>, b: seq<string>, k: nat)
    requires |a| == |b| && k <= |a| && forall i :: 0 <= i < |a| ==> |a[i]| == |b[i]|
    ensures Begin(a, k) == Begin(b, k)
    decreases k
  {
    if k > 0 { SameLengths(a, b, k - 1); }
  }

  lemma SameBegin(initialisms: set<string>, words: seq<string>, k: nat)
    requires k <= |words|
    ensures Begin(CasedWords(initialisms, words), k) == Begin(words, k)
  {
    hide CasedWords, Begin;
    SameLengths(CasedWords(initialisms, words), words, k);
  }

  /** A character of the object name. */
  lemma CasedAt(initialisms: set<string>, words: seq<string>, k: nat, o: nat)
    requires k < |words| && o < |words[k]| && forall w :: w in words ==> Word(w)
    ensures
      var name, c := AllCased(initialisms, words), Cased(initialisms, words[k]);
      |c| == |words[k]| && Begin(words, k) + o < |name| && name[Begin(words, k) + o] == c[o]
  {
    hide AllCased, Cased, Flat, Begin, CasedWords, Word, Lower;
    CasedIsFlat(initialisms, words);
    SameBegin(initialisms, words, k);
    FlatAt(CasedWords(initialisms, words), k, o);
  }

  lemma NameLength(initialisms: set<string>, words: seq<string>)
    requires forall w :: w in words ==> Word(w)
    ensures |AllCased(initialisms, words)| == Begin(words, |words|)
  {
    CasedIsFlat(initialisms, words);
    FlatEnd(words);
  }

  function LastOf(c: string): (r: char)
    requires c != ""
  { c[|c| - 1] }

  /** The character before the o-th of the k-th word is a capital. */
  predicate AfterCapital(initialisms: set<string>, words: seq<string>, k: nat, o: nat)
    requires k < |words|
  {
    var c := Cased(initialisms, words[k]);
    if o > 0 then o <= |c| && IsUpper(c[o - 1])
    else k > 0 && Cased(initialisms, words[k - 1]) != "" && IsUpper(LastOf(Cased(initialisms, words[k - 1])))
  }

  /** What `Sep` says at a character of the k-th word. */
  lemma SepAt(initialisms: set<string>, words: seq<string>, k: nat, o: nat)
    requires k < |words| && o < |words[k]| && (k > 0 || o > 0) && forall w :: w in words ==> Word(w)
    ensures
      var c := Cased(initialisms, words[k]);
      && |c| == |words[k]|
      && (Sep(AllCased(initialisms, words), Begin(words, k) + o) <==>
            && IsUpper(c[o])
            && (!AfterCapital(initialisms, words, k, o) || (o + 1 < |c| && !IsUpper(c[o + 1]))))
  {
    hide AllCased, Cased, Word, Shouted, Broken;
    CasedAt(initialisms, words, k, o);
    CharBefore(initialisms, words, k, o);
    CharAfter(initialisms, words, k, o);
  }

  lemma CharBefore(initialisms: set<string>, words: seq<string>, k: nat, o: nat)
    requires k < |words| && o < |words[k]| && (k > 0 || o > 0) && forall w :: w in words ==> Word(w)
    ensures
      var name, j := AllCased(initialisms, words), Begin(words, k) + o;
      0 < j <= |name| && (IsUpper(name[j - 1]) <==> AfterCapital(initialisms, words, k, o))
  {
    hide AllCased, Cased;
    if o > 0 {
      CasedAt(initialisms, words, k, o - 1);
    } else {
      var w := words[k - 1];
      assert w in words && w != "";
      CasedAt(initialisms, words, k - 1, |w| - 1);
    }
  }

  /** The next character is in the same word, or a capital, or there is none. */
  lemma CharAfter(initialisms: set<string>, words: seq<string>, k: nat, o: nat)
    requires k < |words| && o < |words[k]| && forall w :: w in words ==> Word(w)
    ensures
      var name, j, c := AllCased(initialisms, words), Begin(words, k) + o, Cased(initialisms, words[k]);
      |c| == |words[k]| && (j + 1 < |name| && !IsUpper(name[j + 1]) <==> o + 1 < |c| && !IsUpper(c[o + 1]))
  {
    hide AllCased, Cased, Shouted, Broken;
    NameLength(initialisms, words);
    CasedAt(initialisms, words, k, o);
    if o + 1 < |words[k]| {
      CasedAt(initialisms, words, k, o + 1);
    } else if k + 1 < |words| {
      assert words[k + 1] in words && words[k + 1] != "";
      CasedAt(initialisms, words, k + 1, 0);
      CasedShape(initialisms, words[k + 1]);
    }
  }

  predicate NoShoutedPair(initialisms: set<string>, words: seq<string>) {
    forall k :: 0 <= k < |words| - 1 ==> !(Shouted(initialisms, words[k]) && Shouted(initialisms, words[k + 1]))
  }

  predicate NoneBroken(initialisms: set<string>, words: seq<string>) {
    forall w :: w in words ==> !Broken(initialisms, w)
  }

  /** At a word that is not broken, the marks are right but between two words of capitals. */
  lemma MarkIff(initialisms: set<string>, words: seq<string>, k: nat, o: nat)
    requires k < |words| && o < |words[k]| && (forall w :: w in words ==> Word(w)) && NoneBroken(initialisms, words)
    ensures
      var j := Begin(words, k) + o;
      (Sep(AllCased(initialisms, words), j) <==> Starts(words, j)) <==>
        !(k > 0 && o == 0 && Shouted(initialisms, words[k - 1]) && Shouted(initialisms, words[k]))
  {
    assert words[k] in words;
    StartsIff(words, k, o);
    CasedShape(initialisms, words[k]);
    if k > 0 {
      assert words[k - 1] in words;
      CasedShape(initialisms, words[k - 1]);
    }
    hide AllCased, Cased, Starts, Shouted, Broken, Word;
    if k > 0 || o > 0 { SepAt(initialisms, words, k, o); }
  }

  lemma BrokenMark(initialisms: set<string>, words: seq<string>, k: nat) returns (j: nat)
    requires k < |words| && Broken(initialisms, words[k]) && forall w :: w in words ==> Word(w)
    ensures Sep(AllCased(initialisms, words), j) && !Starts(words, j) && j < |Flat(words)|
  {
    hide AllCased, Cased, Starts, Shouted, Broken, Word, Flat, Sep;
    var w := words[k];
    assert w in words;
    var o := BrokenCapital(initialisms, w);
    j := Begin(words, k) + o;
    NamesApart(words);
    StartsIff(words, k, o);
    FlatAt(words, k, o);
    SepAt(initialisms, words, k, o);
  }

  lemma BrokenCapital(initialisms: set<string>, w: string) returns (o: nat)
    requires Word(w) && Broken(initialisms, w)
    ensures
      var c := Cased(initialisms, w);
      1 <= o < |w| == |c| && IsUpper(c[o]) && (!IsUpper(c[o - 1]) || (o + 1 < |c| && !IsUpper(c[o + 1])))
  {
    o := BrokenShows(initialisms, w);
    CasedShape(initialisms, w);
  }

  /** The marks are right everywhere exactly if no word is broken and no two words of capitals stand
      side by side. */
  lemma MarksIff(initialisms: set<string>, words: seq<string>)
    requires forall w :: w in words ==> Word(w)
    ensures
      (forall j :: 0 <= j < |Flat(words)| ==> (Sep(AllCased(initialisms, words), j) <==> Starts(words, j))) <==>
      NoShoutedPair(initialisms, words) && NoneBroken(initialisms, words)
  {
    FlatEnd(words);
    hide AllCased, Starts, Shouted, Sep;
    if !NoneBroken(initialisms, words) {
      var w :| w in words && Broken(initialisms, w);
      var k :| 0 <= k < |words| && words[k] == w;
      var j := BrokenMark(initialisms, words, k);
    } else if !NoShoutedPair(initialisms, words) {
      var k :| 0 <= k < |words| - 1 && Shouted(initialisms, words[k]) && Shouted(initialisms, words[k + 1]);
      assert words[k + 1] in words;
      MarkIff(initialisms, words, k + 1, 0);
      FlatAt(words, k + 1, 0);
      assert !(Sep(AllCased(initialisms, words), Begin(words, k + 1)) <==> Starts(words, Begin(words, k + 1)));
    } else {
      forall j | 0 <= j < |Flat(words)| ensures Sep(AllCased(initialisms, words), j) <==> Starts(words, j) {
        var k, o := Locate(words, |words|, j);
        MarkIff(initialisms, words, k, o);
        if k > 0 { assert !(Shouted(initialisms, words[k - 1]) && Shouted(initialisms, words[k - 1 + 1])); }
      }
    }
  }

  lemma {:induction false} SplitJoined(words: seq<string>)
    requires words != [] && forall w :: w in words ==> '_' !in w
    ensures Split(Joined(words)) == words
    decreases |words|
  {
    var w := words[0];
    assert w in words;
    if |words| == 1 {
      SplitWord(w, "");
      assert w + "" == w;
    } else {
      assert forall x :: x in words[1..] ==> x in words;
      SplitJoined(words[1..]);
      SplitWord(w, "_" + Joined(words[1..]));
      assert ("_" + Joined(words[1..]))[1..] == Joined(words[1..]);
      assert w + "_" + Joined(words[1..]) == w + ("_" + Joined(words[1..]));
      assert ([""] + words[1..])[1..] == words[1..] && w + "" == w && [w] + words[1..] == words;
    }
  }

  lemma {:induction false} SplitWord(w: string, rest: string)
    requires '_' !in w
    ensures Split(w + rest) == [w + Split(rest)[0]] + Split(rest)[1..]
    decreases |w|
  {
    if w == "" {
      assert w + rest == rest && "" + Split(rest)[0] == Split(rest)[0];
    } else {
      assert w[0] in w && forall c :: c in w[1..] ==> c in w;
      assert (w + rest)[1..] == w[1..] + rest;
      SplitWord(w[1..], rest);
      assert [w[0]] + (w[1..] + Split(rest)[0]) == w + Split(rest)[0];
    }
  }

  lemma {:induction false} WordsAreLower(words: seq<string>)
    requires forall w :: w in words ==> Word(w)
    ensures Lower(Joined(words)) == Joined(words) && Lower(Flat(words)) == Flat(words) && '_' !in Flat(words)
    ensures forall w :: w in words ==> '_' !in w
    decreases |words|
  {
    if words != [] {
      var w := words[0];
      assert w in words && forall x :: x in words[1..] ==> x in words;
      assert Lower(w) == w && '_' !in w;
      assert forall x :: x in words ==> x == w || x in words[1..];
      WordsAreLower(words[1..]);
      LowerConcat(w, Flat(words[1..]));
      LowerConcat(w + "_", Joined(words[1..]));
      LowerConcat(w, "_");
    }
  }

  /** From table to object name and back, for every table name of words of small letters and digits
      that start with a letter: it returns exactly if no two words that become capitals stand side by
      side, and every initialism among the words is all letters or one letter and digits. */
  lemma GonicRoundTripIff(initialisms: set<string>, words: seq<string>)
    requires words != [] && forall w :: w in words ==> Word(w)
    ensures GonicCased(GonicObject(initialisms, Joined(words))) == Joined(words) <==>
            NoShoutedPair(initialisms, words) && NoneBroken(initialisms, words)
  {
    hide AllCased, Flat, Emit, Sep, Starts, Shouted, Broken, Joined, Split, Lower, NoShoutedPair, NoneBroken;
    var name := AllCased(initialisms, words);
    NamesApart(words);
    WordsAreLower(words);
    SplitJoined(words);
    CasedIsFlat(initialisms, words);
    ReturnsIff(words, name);
    MarksIff(initialisms, words);
  }

  lemma NamesApart(words: seq<string>)
    requires forall w :: w in words ==> Word(w)
    ensures forall w :: w in words ==> w != ""
  {}

  /** An object name with these small letters returns as these words exactly if the marks are right. */
  lemma ReturnsIff(words: seq<string>, name: string)
    requires (forall w :: w in words ==> w != "") && Lower(name) == Flat(words) && '_' !in Flat(words)
    ensures GonicCased(name) == Joined(words) <==> forall j :: 0 <= j < |Flat(words)| ==> (Sep(name, j) <==> Starts(words, j))
  {
    hide Flat, Emit, Sep, Starts, Joined;
    var flat, p, q := Flat(words), Marks(name), StartsOf(words);
    GonicIsSpread(name);
    LowerEmit(name, p, |name|);
    JoinedIsEmit(words);
    EmitShows(flat, p, q, |flat|);
    forall j | 0 <= j < |flat| ensures p(j) == Sep(name, j) && q(j) == Starts(words, j) {}
  }

  /** The initialism UTF8 in the list that comes with the mapper is of the wrong kind. */
  lemma Utf8DoesNotReturn(initialisms: set<string>)
    requires "UTF8" in initialisms
    ensures Broken(initialisms, "utf8")
    ensures GonicObject(initialisms, "utf8") == "UTF8" && GonicCased("UTF8") == "ut_f8"
  {
    ObjectUtf8(initialisms);
    Utf8Broken();
    Utf8Spread();
  }

  lemma Utf8Broken()
    ensures Upper("utf8") == "UTF8" && !Letters("utf8") && !LetterAndDigits("utf8")
  {
    assert !IsLower("utf8"[3]) && !('0' <= "utf8"[1] <= '9');
  }

  lemma Utf8Spread()
    ensures GonicCased("UTF8") == "ut_f8"
  {
    var u := "UTF8";
    GonicIsSpread(u);
    Utf8Marks();
    Utf8Emit(Marks(u));
    hide Emit, Sep;
    Utf8Lower();
  }

  lemma Utf8Marks()
    ensures var sep := Marks("UTF8"); !sep(0) && !sep(1) && sep(2) && !sep(3)
  {}

  lemma Utf8Emit(sep: nat -> bool)
    requires !sep(0) && !sep(1) && sep(2) && !sep(3)
    ensures Emit("UTF8", sep, 4) == "UT_F8"
  {
    var u := "UTF8";
    assert Emit(u, sep, 0) == "";
    assert Emit(u, sep, 1) == "" + "" + ['U'] == "U";
    assert Emit(u, sep, 2) == "U" + "" + ['T'] == "UT";
    hide Emit;
    EmitStep(u, sep, 3);
    EmitStep(u, sep, 4);
    assert "UT" + "_" + ['F'] == "UT_F" && "UT_F" + "" + ['8'] == "UT_F8";
  }

  lemma Utf8Lower()
    ensures Lower("UT_F8") == "ut_f8"
  {}

  lemma ObjectUtf8(initialisms: set<string>)
    requires "UTF8" in initialisms
    ensures GonicObject(initialisms, "utf8") == "UTF8"
  {
    var t := "utf8";
    assert Lower(t) == t && Upper(t) == "UTF8";
    hide Lower, Upper;
    SplitWord(t, "");
    assert t + "" == t && [t][1..] == [];
    hide Split;
    assert AllCased(initialisms, []) == "" && "UTF8" + "" == "UTF8";
    AllCasedFirst(initialisms, [t]);
  }

  lemma AllCasedFirst(initialisms: set<string>, words: seq<string>)
    requires words != []
    ensures AllCased(initialisms, words) == Cased(initialisms, words[0]) + AllCased(initialisms, words[1..])
  {}
}
