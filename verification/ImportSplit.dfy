/** The statement splitter behind `Import`, fed by a reader in chunks. */
module ImportSplit {
  import opened Utils

  /** One scan of the buffer: the position of the semicolon that ends a statement, or the
      flags with which the scan ran out of text. */
  datatype Outcome = At(i: nat) | End(quote: bool, comment: bool)

  function Run(data: string, i: nat, end: nat, quote: bool, comment: bool): (r: Outcome)
    requires end <= |data|
    ensures r.At? ==> i <= r.i < end && data[r.i] == ';'
    decreases end - i
  {
    if i >= end then End(quote, comment)
    else
      var b := data[i];
      if comment then Run(data, i + 1, end, quote, b != '\n')
      else if !quote && i > 0 && data[i - 1] == '-' && b == '-' then Run(data, i + 1, end, quote, true)
      else
        var q := if b == '\'' then !quote else quote;
        if !q && b == ';' then At(i) else Run(data, i + 1, end, q, false)
  }

  function Scan(data: string, comment: bool): Outcome { Run(data, 0, |data|, false, comment) }

  /** The whole text at once: split at each semicolon outside quotes and comments. */
  function Statements(text: string): seq<string>
    decreases |text|
  {
    match Scan(text, false)
    case At(i) => [text[..i]] + Statements(text[i + 1..])
    case End(_, _) => if text == "" then [] else [text]
  }

  /** bufio.Scanner: call the splitter on what is buffered, and read on when it asks for more.
      Asking restores the quote flag but keeps the comment flag. A reader reports the end of the
      text after its last chunk, if it is `late`, or together with it. */
  function Feed(buf: string, comment: bool, chunks: seq<string>, late: bool, eof: bool): seq<string>
    decreases |chunks|, if eof then 0 else 1, |buf|
  {
    if buf == "" then
      if chunks == [] then [] else Feed(chunks[0], comment, chunks[1..], late, |chunks| == 1 && !late)
    else
      match Scan(buf, comment)
      case At(i) => [buf[..i]] + Feed(buf[i + 1..], false, chunks, late, eof)
      case End(_, c) =>
        if chunks != [] then Feed(buf + chunks[0], c, chunks[1..], late, |chunks| == 1 && !late)
        else if eof then [buf]
        else Feed(buf, c, [], late, true)
  }

  function Flat(chunks: seq<string>): string {
    if chunks == [] then "" else chunks[0] + Flat(chunks[1..])
  }

  // ----- the condition: no comment after a quoted newline in the same statement -----

  predicate CommentSafe(data: string, i: nat, quote: bool, comment: bool, newline: bool)
    decreases |data| - i
  {
    i >= |data| ||
    (var b := data[i];
     if comment then CommentSafe(data, i + 1, quote, b != '\n', newline)
     else if !quote && i > 0 && data[i - 1] == '-' && b == '-' then
       !newline && CommentSafe(data, i + 1, quote, true, newline)
     else
       var q := if b == '\'' then !quote else quote;
       (!q && b == ';') || CommentSafe(data, i + 1, q, false, newline || (quote && b == '\n')))
  }

  predicate SafeText(text: string)
    decreases |text|
  {
    && CommentSafe(text, 0, false, false, false)
    && match Scan(text, false)
       case At(i) => SafeText(text[i + 1..])
       case End(_, _) => true
  }

  // ----- scanning in pieces -----

  lemma {:induction false} RunOn(data: string, i: nat, mid: nat, end: nat, quote: bool, comment: bool)
    requires i <= mid <= end <= |data|
    ensures
      match Run(data, i, mid, quote, comment)
      case At(k) => Run(data, i, end, quote, comment) == At(k)
      case End(q, c) => Run(data, i, end, quote, comment) == Run(data, mid, end, q, c)
    decreases mid - i
  {
    if i < mid {
      var b := data[i];
      if comment { RunOn(data, i + 1, mid, end, quote, b != '\n'); }
      else if !quote && i > 0 && data[i - 1] == '-' && b == '-' { RunOn(data, i + 1, mid, end, quote, true); }
      else { RunOn(data, i + 1, mid, end, if b == '\'' then !quote else quote, false); }
    }
  }

  lemma {:induction false} RunSame(a: string, b: string, i: nat, end: nat, quote: bool, comment: bool)
    requires end <= |a| && end <= |b| && a[..end] == b[..end]
    ensures Run(a, i, end, quote, comment) == Run(b, i, end, quote, comment)
    decreases end - i
  {
    if i < end {
      assert a[i] == a[..end][i] == b[..end][i] == b[i];
      if i > 0 { assert a[i - 1] == a[..end][i - 1] == b[..end][i - 1] == b[i - 1]; }
      var c := a[i];
      if comment { RunSame(a, b, i + 1, end, quote, c != '\n'); }
      else if !quote && i > 0 && a[i - 1] == '-' && c == '-' { RunSame(a, b, i + 1, end, quote, true); }
      else { RunSame(a, b, i + 1, end, if c == '\'' then !quote else quote, false); }
    }
  }

  lemma {:induction false} CommentMeansUnquoted(data: string, i: nat, end: nat, quote: bool, comment: bool)
    requires end <= |data| && (comment ==> !quote)
    ensures
      var r := Run(data, i, end, quote, comment);
      r.End? && r.comment ==> !r.quote
    decreases end - i
  {
    if i < end {
      var b := data[i];
      if comment { CommentMeansUnquoted(data, i + 1, end, quote, b != '\n'); }
      else if !quote && i > 0 && data[i - 1] == '-' && b == '-' { CommentMeansUnquoted(data, i + 1, end, quote, true); }
      else { CommentMeansUnquoted(data, i + 1, end, if b == '\'' then !quote else quote, false); }
    }
  }

  /** The first newline from `i` on, or `end`. */
  function Newline(data: string, i: nat, end: nat): (p: nat)
    requires i <= end <= |data|
    ensures i <= p <= end && (forall j :: i <= j < p ==> data[j] != '\n') && (p < end ==> data[p] == '\n')
    decreases end - i
  {
    if i < end && data[i] != '\n' then Newline(data, i + 1, end) else i
  }

  lemma {:induction false} SkipComment(data: string, i: nat, end: nat)
    requires i <= end <= |data|
    ensures
      var p := Newline(data, i, end);
      Run(data, i, end, false, true) == if p < end then Run(data, p + 1, end, false, false) else End(false, true)
    decreases end - i
  {
    if i < end && data[i] != '\n' { SkipComment(data, i + 1, end); }
  }

  /** After a quoted newline a safe statement starts no comment. */
  lemma {:induction false} NoCommentAfter(data: string, i: nat, end: nat, quote: bool)
    requires i <= end <= |data| && CommentSafe(data, i, quote, false, true)
    ensures
      var r := Run(data, i, end, quote, false);
      r.End? ==> !r.comment
    decreases end - i
  {
    if i < end && !(!quote && i > 0 && data[i - 1] == '-' && data[i] == '-') {
      var q := if data[i] == '\'' then !quote else quote;
      if !(!q && data[i] == ';') { NoCommentAfter(data, i + 1, end, q); }
    }
  }

  /** A safe statement that reaches a comment is, right after its first newline, outside
      quotes and comments. */
  lemma {:induction false} PastFirstNewline(data: string, i: nat, p: nat, mid: nat, end: nat, quote: bool, comment: bool)
    requires i <= p < mid <= end <= |data| && (comment ==> !quote)
    requires (forall j :: i <= j < p ==> data[j] != '\n') && data[p] == '\n'
    requires CommentSafe(data, i, quote, comment, false)
    requires
      var r := Run(data, i, mid, quote, comment);
      r.End? && r.comment
    ensures Run(data, i, end, quote, comment) == Run(data, p + 1, end, false, false)
    decreases p - i
  {
    var b := data[i];
    if i == p {
      if !comment && quote { NoCommentAfter(data, i + 1, mid, quote); }
    } else if comment {
      PastFirstNewline(data, i + 1, p, mid, end, quote, true);
    } else if !quote && i > 0 && data[i - 1] == '-' && b == '-' {
      PastFirstNewline(data, i + 1, p, mid, end, quote, true);
    } else {
      PastFirstNewline(data, i + 1, p, mid, end, if b == '\'' then !quote else quote, false);
    }
  }

  /** A rescan that starts with the comment flag left on ends like a fresh scan. */
  lemma Resume(data: string, mid: nat, end: nat)
    requires mid <= end <= |data| && CommentSafe(data, 0, false, false, false)
    requires Run(data, 0, mid, false, false) == End(false, true)
    ensures Run(data, 0, end, false, true) == Run(data, 0, end, false, false)
  {
    var p := Newline(data, 0, end);
    SkipComment(data, 0, end);
    if p < mid {
      PastFirstNewline(data, 0, p, mid, end, false, false);
    } else {
      RunOn(data, 0, mid, end, false, false);
      SkipComment(data, mid, end);
      assert Newline(data, mid, end) == p;
    }
  }

  // ----- exactly when every chunking gives the statements of the whole text -----

  /** Some beginning of the first statement ends inside a comment. */
  ghost predicate MeetsComment(text: string) {
    exists mid: nat :: mid <= |text| && Run(text, 0, mid, false, false) == End(false, true)
  }

  /** The two scans stop at the same semicolon, or both run out of text. */
  predicate SameStop(a: Outcome, b: Outcome) { if a.At? then a == b else b.End? }

  /** Each statement with a comment ends at the same semicolon when it is scanned again with the
      comment flag left on, which skips everything up to the first newline. */
  ghost predicate Stable(text: string)
    decreases |text|
  {
    && (MeetsComment(text) ==> SameStop(Scan(text, true), Scan(text, false)))
    && match Scan(text, false)
       case At(i) => Stable(text[i + 1..])
       case End(_, _) => true
  }

  /** The comment flag is on only if a fresh scan of the buffer has met a comment. */
  ghost predicate Resumable(text: string, n: nat, comment: bool)
    requires n <= |text|
  {
    comment ==> exists mid: nat :: mid <= n && Run(text, 0, mid, false, false) == End(false, true)
  }

  lemma ScanBuffer(buf: string, comment: bool, text: string)
    requires |buf| <= |text| && text[..|buf|] == buf
    ensures Scan(buf, comment) == Run(text, 0, |buf|, false, comment)
    ensures Scan(buf, comment).At? ==> Scan(text, comment) == Scan(buf, comment)
  {
    assert buf[..|buf|] == buf;
    RunSame(buf, text, 0, |buf|, false, comment);
    RunOn(text, 0, |buf|, |text|, false, comment);
  }

  /** Asking for more leaves a flag that is off, or on for a reason. */
  lemma StillResumable(text: string, n: nat, more: nat, comment: bool)
    requires n <= more <= |text| && Resumable(text, n, comment)
    requires Run(text, 0, n, false, comment).End?
    ensures Resumable(text, more, Run(text, 0, n, false, comment).comment)
  {
    if !comment { CommentMeansUnquoted(text, 0, n, false, false); }
  }

  lemma {:induction false} FeedIsStatements(buf: string, comment: bool, chunks: seq<string>, late: bool, eof: bool)
    requires Stable(buf + Flat(chunks)) && (eof ==> chunks == [])
    requires Resumable(buf + Flat(chunks), |buf|, comment)
    ensures Feed(buf, comment, chunks, late, eof) == Statements(buf + Flat(chunks))
    decreases |chunks|, if eof then 0 else 1, |buf|
  {
    var text := buf + Flat(chunks);
    hide Run, Scan, Feed, Resumable, MeetsComment;
    FeedSteps(buf, comment, chunks, late, eof);
    MeetsIf(text, |buf|, comment);
    if buf == "" {
      NoCommentYet(text);
      NoStatements();
      if chunks != [] {
        assert text == chunks[0] + Flat(chunks[1..]) && buf + chunks[0] == chunks[0];
        FeedIsStatements(chunks[0], comment, chunks[1..], late, |chunks| == 1 && !late);
      }
    } else {
      assert text[..|buf|] == buf;
      ScanBuffer(buf, comment, text);
      match Scan(buf, comment)
      case At(i) =>
        assert text[i + 1..] == buf[i + 1..] + Flat(chunks) && text[..i] == buf[..i];
        FeedIsStatements(buf[i + 1..], false, chunks, late, eof);
      case End(_, c) =>
        if chunks != [] {
          var more := buf + chunks[0];
          assert text == more + Flat(chunks[1..]);
          StillResumable(text, |buf|, |more|, comment);
          FeedIsStatements(more, c, chunks[1..], late, |chunks| == 1 && !late);
        } else {
          assert text == buf;
          StillResumable(text, |buf|, |buf|, comment);
          if !eof {
            assert buf + Flat([]) == text;
            FeedIsStatements(buf, c, [], late, true);
          } else {
            FeedSteps(buf[|buf|..], c, [], late, true);
          }
        }
    }
  }

  lemma MeetsIf(text: string, n: nat, comment: bool)
    requires n <= |text| && Resumable(text, n, comment)
    ensures comment ==> MeetsComment(text)
    ensures forall t: string, k: nat :: k <= |t| ==> Resumable(t, k, false)
  {}

  lemma NoStatements()
    ensures Statements("") == []
  {}

  lemma NoCommentYet(text: string)
    ensures !Resumable(text, 0, true)
  {}

  /** A first statement that is not stable shows when a chunk ends inside its comment and the rest
      comes with the end of the text. */
  lemma FirstShows(text: string, mid: nat)
    requires mid <= |text| && Run(text, 0, mid, false, false) == End(false, true)
    requires !SameStop(Scan(text, true), Scan(text, false))
    ensures Feed("", false, [text[..mid], text[mid..]], false, false) != Statements(text)
  {
    var a, b := text[..mid], text[mid..];
    assert mid > 0;
    ScanBuffer(a, false, text);
    assert a + b == text && [a, b][1..] == [b] && [b][1..] == [];
    hide Run;
    assert Feed("", false, [a, b], false, false) == Feed(a, false, [b], false, false) == Feed(text, true, [], false, true);
    var fed, all := Feed(text, true, [], false, true), Statements(text);
    assert |fed[0]| == if Scan(text, true).At? then Scan(text, true).i else |text|;
    assert |all[0]| == if Scan(text, false).At? then Scan(text, false).i else |text|;
  }

  /** If some statement is not stable, some way to cut the text gives other statements. */
  lemma {:induction false} UnstableShows(text: string) returns (chunks: seq<string>)
    requires !Stable(text)
    ensures Flat(chunks) == text && Feed("", false, chunks, false, false) != Statements(text)
    decreases |text|
  {
    if MeetsComment(text) && !SameStop(Scan(text, true), Scan(text, false)) {
      var mid: nat :| mid <= |text| && Run(text, 0, mid, false, false) == End(false, true);
      FirstShows(text, mid);
      chunks := [text[..mid], text[mid..]];
      var last := [text[mid..]];
      assert chunks[1..] == last && last[1..] == [];
      assert Flat(last) == text[mid..] + "" == text[mid..];
      assert text == text[..mid] + text[mid..];
    } else {
      var i := Scan(text, false).i;
      var first := text[..i + 1];
      var rest := UnstableShows(text[i + 1..]);
      chunks := [first] + rest;
      assert chunks[1..] == rest && text == first + text[i + 1..];
      ScanPrefix(text, i);
      hide Run;
      assert first[..i] == text[..i] && first[i + 1..] == "";
      NotNothing(text[i + 1..], rest);
      assert Feed("", false, chunks, false, false) == [text[..i]] + Feed("", false, rest, false, false);
      Different(text[..i], Feed("", false, rest, false, false), Statements(text[i + 1..]));
    }
  }

  lemma NotNothing(text: string, chunks: seq<string>)
    requires !Stable(text) && Flat(chunks) == text
    ensures chunks != []
  {
    assert Stable("") && Flat([]) == "";
  }

  lemma Different(x: string, a: seq<string>, b: seq<string>)
    requires a != b
    ensures [x] + a != [x] + b
  {
    assert ([x] + a)[1..] == a && ([x] + b)[1..] == b;
  }

  /** The scan does not look past the semicolon. */
  lemma ScanPrefix(text: string, i: nat)
    requires Scan(text, false) == At(i)
    ensures Scan(text[..i + 1], false) == At(i)
  {
    var first := text[..i + 1];
    RunSame(first, text, 0, i + 1, false, false);
    RunOn(text, 0, i + 1, |text|, false, false);
  }

  /** The statements are those of the whole text for every way the reader may cut it and report its
      end, exactly if each statement is stable. */
  lemma ChunkingIsInvisibleIff(text: string)
    ensures Stable(text) <==>
      forall chunks, late :: Flat(chunks) == text ==> Feed("", false, chunks, late, false) == Statements(text)
  {
    if Stable(text) {
      forall chunks, late | Flat(chunks) == text ensures Feed("", false, chunks, late, false) == Statements(text) {
        ChunkingIsInvisible(chunks, late);
      }
    } else {
      var chunks := UnstableShows(text);
    }
  }

  lemma ChunkingIsInvisible(chunks: seq<string>, late: bool)
    requires Stable(Flat(chunks))
    ensures Feed("", false, chunks, late, false) == Statements(Flat(chunks))
  {
    assert "" + Flat(chunks) == Flat(chunks);
    FeedIsStatements("", false, chunks, late, false);
  }

  // ----- two simple sufficient conditions -----

  /** Text without a comment after a quoted newline in the same statement is stable. */
  lemma {:induction false} SafeIsStable(text: string)
    requires SafeText(text)
    ensures Stable(text)
    decreases |text|
  {
    if MeetsComment(text) {
      var mid: nat :| mid <= |text| && Run(text, 0, mid, false, false) == End(false, true);
      Resume(text, mid, |text|);
    }
    match Scan(text, false)
    case At(i) => SafeIsStable(text[i + 1..]);
    case End(_, _) =>
  }

  predicate NoDashPair(text: string) { forall i :: 0 < i < |text| ==> !(text[i] == '-' && text[i - 1] == '-') }

  lemma {:induction false} NoDashNoComment(text: string, i: nat, quote: bool, newline: bool)
    requires NoDashPair(text)
    ensures CommentSafe(text, i, quote, false, newline)
    decreases |text| - i
  {
    if i < |text| {
      var b := text[i];
      NoDashNoComment(text, i + 1, if b == '\'' then !quote else quote, newline || (quote && b == '\n'));
    }
  }

  /** Text without two dashes in a row is safe. */
  lemma {:induction false} NoDashesIsSafe(text: string)
    requires NoDashPair(text)
    ensures SafeText(text)
    decreases |text|
  {
    NoDashNoComment(text, 0, false, false);
    match Scan(text, false)
    case At(i) =>
      var more := text[i + 1..];
      assert forall k :: 0 <= k < |more| ==> more[k] == text[i + 1 + k];
      NoDashesIsSafe(more);
    case End(_, _) =>
  }

  /** The condition is needed: here a comment follows a quoted newline, and a chunk that ends
      inside the comment makes the rescan split inside the quotes. */
  lemma ChunkingShows(late: bool)
    ensures
      var a, b := "'\n;'--", "\n";
      && Feed("", false, [a + b], late, false) == [a + b]
      && Feed("", false, [a, b], late, false) == ["'\n", "'--\n"]
  {
    var a, b := "'\n;'--", "\n";
    var t, r := a + b, "'--\n";
    assert |a| == 6 && |t| == 7 && t[6] == '\n' && t[..6] == a && a[..6] == a;
    FreshScan(t);
    FreshScan(a);
    RescanShows(t);
    assert [a, b][1..] == [b] && [b][1..] == [] && [t][1..] == [];
    hide Run, Scan;
    assert Feed(t, false, [], late, true) == [t];
    assert Feed(r, false, [], late, true) == [r];
    assert t[..2] == "'\n" && t[3..] == r;
    assert Feed("", false, [a, b], late, false) == Feed(a, false, [b], late, false) == Feed(t, true, [], late, !late);
    assert Feed(t, true, [], late, !late) == [t[..2]] + Feed(r, false, [], late, !late);
  }

  lemma RescanShows(t: string)
    requires t == "'\n;'--\n"
    ensures Scan(t, true) == At(2) && Scan("'--\n", false) == End(true, false)
  {
    assert Run(t, 1, 7, false, true) == Run(t, 2, 7, false, false) == At(2);
    var r := "'--\n";
    assert Run(r, 1, 4, true, false) == Run(r, 2, 4, true, false) == Run(r, 3, 4, true, false) == Run(r, 4, 4, true, false);
  }

  lemma FreshScan(t: string)
    requires 6 <= |t| <= 7 && t[..6] == "'\n;'--" && (|t| == 7 ==> t[6] == '\n')
    ensures Scan(t, false) == if |t| == 7 then End(false, false) else End(false, true)
  {
    assert forall i :: 0 <= i < 6 ==> t[i] == "'\n;'--"[i];
    var n := |t|;
    assert Run(t, 5, n, false, false) == if n == 7 then End(false, false) else End(false, true) by {
      assert Run(t, 6, n, false, true) == if n == 7 then Run(t, 7, n, false, false) else End(false, true);
    }
    assert Run(t, 3, n, true, false) == Run(t, 4, n, false, false) == Run(t, 5, n, false, false);
    assert Run(t, 0, n, false, false) == Run(t, 1, n, true, false) == Run(t, 2, n, true, false) == Run(t, 3, n, true, false);
  }

  // ----- the code -----

  predicate IsBlank(c: char) { c == ' ' || c == '\t' || c == '\n' || c == '\r' }

  /** strings.Trim(s, " \t\n\r"). */
  function Trim(s: string): (r: string)
    ensures r != "" ==> !IsBlank(r[0]) && !IsBlank(r[|r| - 1])
  {
    if s == "" then ""
    else if IsBlank(s[0]) then Trim(s[1..])
    else if IsBlank(s[|s| - 1]) then Trim(s[..|s| - 1])
    else s
  }

  /** The statements that Import sends: trimmed, the empty ones dropped. */
  function Queries(statements: seq<string>): seq<string> {
    if statements == [] then []
    else
      var q := Trim(statements[|statements| - 1]);
      Queries(statements[..|statements| - 1]) + (if q == "" then [] else [q])
  }

  lemma {:induction false} QueriesConcat(a: seq<string>, b: seq<string>)
    ensures Queries(a + b) == Queries(a) + Queries(b)
    decreases |b|
  {
    if b == [] {
      assert a + b == a;
    } else {
      var n := |b| - 1;
      assert (a + b)[..|a + b| - 1] == a + b[..n];
      QueriesConcat(a, b[..n]);
    }
  }

  /** The closure `semiColSpliter` with the two flags it captures. */
  class Splitter {
    var inSingleQuote: bool
    var startComment: bool

    constructor ()
      ensures !inSingleQuote && !startComment
    { inSingleQuote, startComment := false, false; }

    method Split(data: string, atEOF: bool) returns (advance: nat, token: Option<string>)
      modifies this
      ensures atEOF && data == "" ==> advance == 0 && token == None && unchanged(this)
      ensures !(atEOF && data == "") ==>
                match Run(data, 0, |data|, old(inSingleQuote), old(startComment))
                case At(i) => advance == i + 1 && token == Some(data[..i]) && !inSingleQuote && !startComment
                case End(q, c) =>
                  && startComment == c
                  && (if atEOF then advance == |data| && token == Some(data) && inSingleQuote == q
                      else advance == 0 && token == None && inSingleQuote == old(inSingleQuote))
    {
      if atEOF && |data| == 0 {
        return 0, None;
      }
      var oriInSingleQuote := inSingleQuote;
      for i := 0 to |data|
        invariant Run(data, i, |data|, inSingleQuote, startComment) == Run(data, 0, |data|, old(inSingleQuote), old(startComment))
      {
        var b := data[i];
        if startComment {
          if b == '\n' {
            startComment := false;
          }
        } else {
          if !inSingleQuote && i > 0 && data[i - 1] == '-' && data[i] == '-' {
            startComment := true;
            continue;
          }
          if b == '\'' {
            inSingleQuote := !inSingleQuote;
          }
          if !inSingleQuote && b == ';' {
            return i + 1, Some(data[..i]);
          }
        }
      }
      if atEOF {
        return |data|, Some(data);
      }
      inSingleQuote := oriInSingleQuote;
      return 0, None;
    }
  }

  /** The statements executed before the first one that the database refuses. */
  function Accepted(queries: seq<string>, accepts: string -> bool): seq<string> {
    if queries == [] then []
    else
      var before := Accepted(queries[..|queries| - 1], accepts);
      if before == queries[..|queries| - 1] && accepts(queries[|queries| - 1]) then queries else before
  }

  lemma {:induction false} AcceptedStops(queries: seq<string>, more: seq<string>, accepts: string -> bool)
    requires Accepted(queries, accepts) != queries
    ensures Accepted(queries + more, accepts) == Accepted(queries, accepts)
    decreases |more|
  {
    if more == [] {
      assert queries + more == queries;
    } else {
      var n := |more| - 1;
      assert (queries + more)[..|queries + more| - 1] == queries + more[..n];
      AcceptedStops(queries, more[..n], accepts);
      AcceptedShort(queries, accepts);
    }
  }

  lemma {:induction false} AcceptedShort(queries: seq<string>, accepts: string -> bool)
    ensures |Accepted(queries, accepts)| <= |queries|
    ensures Accepted(queries, accepts) == queries || |Accepted(queries, accepts)| < |queries|
  {
    if queries != [] { AcceptedShort(queries[..|queries| - 1], accepts); }
  }

  lemma FeedSteps(buf: string, comment: bool, chunks: seq<string>, late: bool, eof: bool)
    ensures
      var r := Scan(buf, comment);
      var all := Feed(buf, comment, chunks, late, eof);
      var last := |chunks| == 1 && !late;
      if buf == "" then all == (if chunks == [] then [] else Feed(buf + chunks[0], comment, chunks[1..], late, last))
      else if r.At? then all == [buf[..r.i]] + Feed(buf[r.i + 1..], false, chunks, late, eof)
      else if chunks != [] then all == Feed(buf + chunks[0], r.comment, chunks[1..], late, last)
      else if !eof then all == Feed(buf, r.comment, [], late, true)
      else all == [buf] + Feed(buf[|buf|..], r.comment, chunks, late, eof)
  {
    if chunks != [] { assert "" + chunks[0] == chunks[0]; }
  }

  /** One more statement: its query joins the executed ones, or is refused and ends the import. */
  lemma QueryStep(done: seq<string>, token: string, rest: seq<string>, accepts: string -> bool)
    requires Accepted(Queries(done), accepts) == Queries(done)
    ensures
      var q := Trim(token);
      && (q == "" ==> Queries(done + [token]) == Queries(done))
      && (q != "" ==> Queries(done + [token]) == Queries(done) + [q])
      && (q != "" && accepts(q) ==> Accepted(Queries(done) + [q], accepts) == Queries(done) + [q])
      && (q != "" && !accepts(q) ==>
            && Accepted(Queries((done + [token]) + rest), accepts) == Queries(done)
            && Queries((done + [token]) + rest) != Queries(done))
  {
    var q := Trim(token);
    assert (done + [token])[..|done + [token]| - 1] == done;
    if q != "" {
      assert (Queries(done) + [q])[..|Queries(done)|] == Queries(done);
      if !accepts(q) {
        QueriesConcat(done + [token], rest);
        AcceptedStops(Queries(done) + [q], Queries(rest), accepts);
      }
    }
  }

  /** The scanner calls the split function when it has something to split. */
  method CallSplit(splitter: Splitter, buf: string, eof: bool) returns (advance: nat, token: Option<string>)
    requires splitter.inSingleQuote ==> buf == ""
    modifies splitter
    ensures buf != "" && splitter.inSingleQuote ==> eof && advance == |buf|
    ensures token.Some? ==> 0 < advance <= |buf|
    ensures buf == "" ==> token == None && unchanged(splitter)
    ensures buf != "" ==>
              match Scan(buf, old(splitter.startComment))
              case At(i) => advance == i + 1 && token == Some(buf[..i]) && !splitter.inSingleQuote && !splitter.startComment
              case End(_, c) =>
                splitter.startComment == c && (if eof then advance == |buf| && token == Some(buf) else token == None)
  {
    hide Run;
    advance, token := 0, None;
    if buf != "" {
      advance, token := splitter.Split(buf, eof);
    }
  }

  // ----- what is sent -----

  /** Only blanks, tabs, newlines and carriage returns. */
  predicate AllBlank(s: string) { forall c :: c in s ==> c in {' ', '\t', '\n', '\r'} }

  predicate Around(s: string, a: string, q: string, b: string) { s == a + q + b && AllBlank(a) && AllBlank(b) }

  /** The statement without its outer blanks. */
  ghost predicate Bare(s: string, q: string) {
    (exists a, b :: Around(s, a, q, b)) && (q != "" ==> !AllBlank(q[..1]) && !AllBlank(q[|q| - 1..]))
  }

  lemma BareAfter(c: char, s: string, q: string)
    requires Bare(s, q) && IsBlank(c)
    ensures Bare([c] + s, q)
  {
    var a, b :| Around(s, a, q, b);
    assert [c] + (a + q + b) == ([c] + a) + q + b;
    assert Around([c] + s, [c] + a, q, b);
  }

  lemma BareBefore(s: string, c: char, q: string)
    requires Bare(s, q) && IsBlank(c)
    ensures Bare(s + [c], q)
  {
    var a, b :| Around(s, a, q, b);
    assert (a + q + b) + [c] == a + q + (b + [c]);
    assert Around(s + [c], a, q, b + [c]);
  }

  lemma BareItself(s: string)
    requires s == "" || (!IsBlank(s[0]) && !IsBlank(s[|s| - 1]))
    ensures Bare(s, s)
  {
    assert "" + s + "" == s;
    assert Around(s, "", s, "");
    if s != "" { assert s[0] in s[..1] && s[|s| - 1] in s[|s| - 1..]; }
  }

  lemma {:induction false} TrimIsBare(s: string)
    ensures Bare(s, Trim(s))
    decreases |s|
  {
    hide Bare;
    if s == "" {
      BareItself(s);
    } else if IsBlank(s[0]) {
      TrimIsBare(s[1..]);
      BareAfter(s[0], s[1..], Trim(s));
      assert [s[0]] + s[1..] == s;
    } else if IsBlank(s[|s| - 1]) {
      var n := |s| - 1;
      TrimIsBare(s[..n]);
      BareBefore(s[..n], s[n], Trim(s));
      assert s[..n] + [s[n]] == s;
    } else {
      BareItself(s);
    }
  }

  lemma BareEmptyIff(s: string, q: string)
    requires Bare(s, q)
    ensures q == "" <==> AllBlank(s)
  {
    var a, b :| Around(s, a, q, b);
    if q != "" { assert forall c :: c in q[..1] ==> c in s; }
  }

  /** Where the outer blanks end. */
  lemma Ends(s: string, a: string, q: string, b: string)
    requires Around(s, a, q, b) && q != "" && !AllBlank(q[..1]) && !AllBlank(q[|q| - 1..])
    ensures |a| + |b| < |s| && q == s[|a|..|s| - |b|]
    ensures !IsBlank(s[|a|]) && (forall i :: 0 <= i < |a| ==> IsBlank(s[i]))
    ensures !IsBlank(s[|s| - |b| - 1]) && (forall i :: |s| - |b| <= i < |s| ==> IsBlank(s[i]))
  {
    assert s[|a|] == q[0] && q[..1] == [q[0]] && s[|s| - |b| - 1] == q[|q| - 1] && q[|q| - 1..] == [q[|q| - 1]];
    forall i | 0 <= i < |a| ensures IsBlank(s[i]) { assert s[i] == a[i] && a[i] in a; }
    forall i | |s| - |b| <= i < |s| ensures IsBlank(s[i]) {
      assert s[i] == b[i - (|s| - |b|)] && b[i - (|s| - |b|)] in b;
    }
  }

  /** Only one text is the bare statement. */
  lemma BareIsUnique(s: string, q: string, r: string)
    requires Bare(s, q) && Bare(s, r)
    ensures q == r
  {
    BareEmptyIff(s, q);
    BareEmptyIff(s, r);
    var a, b :| Around(s, a, q, b);
    var a', b' :| Around(s, a', r, b');
    if q != "" {
      Ends(s, a, q, b);
      Ends(s, a', r, b');
      assert |a| == |a'| && |b| == |b'|;
    }
  }

  /** In order, the statements that hold more than blanks, each without its outer blanks. */
  ghost predicate Sends(statements: seq<string>, queries: seq<string>)
    decreases |statements|
  {
    if statements == [] then queries == []
    else if AllBlank(statements[0]) then Sends(statements[1..], queries)
    else queries != [] && Bare(statements[0], queries[0]) && Sends(statements[1..], queries[1..])
  }

  lemma FirstQuery(s: string, rest: seq<string>)
    ensures Trim(s) == "" ==> Queries([s] + rest) == Queries(rest)
    ensures Trim(s) != "" ==> Queries([s] + rest) == [Trim(s)] + Queries(rest)
  {
    QueriesConcat([s], rest);
    assert [s][..0] == [];
  }

  lemma {:induction false} QueriesAreSent(statements: seq<string>)
    ensures Sends(statements, Queries(statements))
    decreases |statements|
  {
    if statements != [] {
      var s, rest := statements[0], statements[1..];
      QueriesAreSent(rest);
      FirstQuery(s, rest);
      assert [s] + rest == statements;
      TrimIsBare(s);
      BareEmptyIff(s, Trim(s));
      hide Queries, Bare, AllBlank;
    }
  }

  /** They are executed up to the first one that the database refuses. */
  predicate UpToRefusal(queries: seq<string>, accepts: string -> bool, executed: seq<string>) {
    && executed <= queries && (forall q :: q in executed ==> accepts(q))
    && (executed != queries ==> !accepts(queries[|executed|]))
  }

  lemma {:induction false} AcceptedIsUpToRefusal(queries: seq<string>, accepts: string -> bool)
    ensures UpToRefusal(queries, accepts, Accepted(queries, accepts))
    decreases |queries|
  {
    if queries != [] {
      AcceptedIsUpToRefusal(queries[..|queries| - 1], accepts);
      AcceptedShort(queries[..|queries| - 1], accepts);
    }
  }

  /** Import over a reader that delivers these chunks: the queries it has executed, and
      whether it got to the end. */
  method Import(chunks: seq<string>, late: bool, accepts: string -> bool) returns (executed: seq<string>, ok: bool)
    ensures executed == Accepted(Queries(Feed("", false, chunks, late, false)), accepts)
    ensures ok == (executed == Queries(Feed("", false, chunks, late, false)))
    ensures exists queries ::
              && Sends(Feed("", false, chunks, late, false), queries)
              && UpToRefusal(queries, accepts, executed) && ok == (executed == queries)
  {
    QueriesAreSent(Feed("", false, chunks, late, false));
    AcceptedIsUpToRefusal(Queries(Feed("", false, chunks, late, false)), accepts);
    hide Sends, UpToRefusal;
    hide Feed, Run, Scan, Queries, Accepted, Trim;
    ghost var all := Feed("", false, chunks, late, false);
    ghost var done: seq<string> := [];
    executed := [];
    NothingDone(accepts);
    var splitter := new Splitter();
    var buf, eof := "", false;
    var next := 0;
    assert chunks[0..] == chunks && [] + all == all;
    while true
      invariant 0 <= next <= |chunks| && (eof ==> next == |chunks|)
      invariant splitter.inSingleQuote ==> eof && buf == ""
      invariant all == done + Feed(buf, splitter.startComment, chunks[next..], late, eof)
      invariant executed == Queries(done) && Accepted(executed, accepts) == executed
      decreases |chunks| - next, if eof then 0 else 1, |buf|
    {
      FeedSteps(buf, splitter.startComment, chunks[next..], late, eof);
      var advance, token := CallSplit(splitter, buf, eof);
      if token.Some? {
        ghost var rest := Feed(buf[advance..], splitter.startComment, chunks[next..], late, eof);
        assert done + ([token.value] + rest) == (done + [token.value]) + rest;
        QueryStep(done, token.value, rest, accepts);
        buf := buf[advance..];
        done := done + [token.value];
        var query := Trim(token.value);
        if |query| > 0 {
          if !accepts(query) {
            return executed, false;
          }
          executed := executed + [query];
        }
      } else if next < |chunks| {
        assert chunks[next..][0] == chunks[next] && chunks[next..][1..] == chunks[next + 1..];
        buf := buf + chunks[next];
        next := next + 1;
        eof := next == |chunks| && !late;
      } else if buf != "" && !eof {
        eof := true;
      } else {
        assert done + [] == done;
        return executed, true;
      }
    }
  }

  lemma NothingDone(accepts: string -> bool)
    ensures Queries([]) == [] && Accepted([], accepts) == []
  {}
}
