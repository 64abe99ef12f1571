/** What filling the placeholders of a JQL template does to its characters, its scan and its tokens. */
module JqlFill {
  import opened Chars
  import opened Wrappers
  import opened Mask
  import opened Template
  import opened JqlQuery
  import opened JqlText

  /** Starts and ends with a double quote, and holds no single quote and no backslash. */
  predicate Quiet(v: string) {
    && v != "" && v[0] == '"' && v[|v| - 1] == '"'
    && forall i :: 0 <= i < |v| ==> v[i] != '\'' && v[i] != '\\'
  }

  /** A value that leaves the scanner at a depth. */
  predicate Leaves(v: string, depth: nat) {
    Run(JQL, At(depth), v) == Some(At(depth))
  }

  /** A value that leaves the scanner in the double-quoted string it is in. */
  predicate Stays(v: string, depth: nat) {
    Run(JQL, Place(In('"'), depth, false), v) == Some(Place(In('"'), depth, false))
  }

  /** Words and strings. */
  predicate Loose(tokens: seq<Token>) {
    forall i :: 0 <= i < |tokens| ==> tokens[i].Word? || tokens[i].Text?
  }

  /** Where it closes a double-quoted string, a value goes on with words and strings, and opens one again at its end. */
  ghost predicate Threads(v: string, rest: string) {
    v != "" && (Lex(v[1..] + rest).Some? ==>
      Lex("\"" + rest).Some? && exists t :: Loose(t) && Lex(v[1..] + rest).value == t + Lex("\"" + rest).value)
  }

  /** A value that leaves the scanner where it was, out of strings or in double quotes. */
  ghost predicate ScansBack(v: string) {
    && (forall d: nat {:trigger Leaves(v, d)} :: Leaves(v, d))
    && (forall d: nat {:trigger Stays(v, d)} :: Stays(v, d))
  }

  ghost predicate ThreadsOn(v: string) {
    forall rest: string {:trigger Threads(v, rest)} :: Threads(v, rest)
  }

  predicate NoOr(v: string) {
    Lex(v).Some? && Disjoin !in Lex(v).value
  }

  /** A value that fills a placeholder of a query and moves nothing of what is around it. */
  ghost predicate Fills(v: string) {
    Quiet(v) && ScansBack(v) && ThreadsOn(v) && NoOr(v)
  }

  ghost predicate AllFill(values: Values) {
    forall name :: name in values ==> Fills(values[name])
  }

  // ---------- one step of the formatter ----------

  /** A brace that opens a placeholder stands first: one that is not doubled. */
  predicate OpensHole(text: string) {
    text != "" && text[0] == '{' && !(|text| > 1 && text[1] == '{')
  }

  /** What a step of more than one character reads and writes. */
  ghost predicate WideStep(text: string, values: Values, x: string, n: nat)
    requires n <= |text|
  {
    && n > 1 && Braces(text[0]) && Braces(text[n - 1]) && Inert(text[..n])
    && (x == "{" || x == "}" || (Fills(x) && OpensHole(text)))
  }

  /** Characters the scanner passes over, in a string or not. */
  predicate Inert(s: string) {
    s != "" && forall i :: 0 <= i < |s| ==> Plain(JQL, s[i]) && s[i] != '\\'
  }

  /** The first step writes the character it reads, or is a wide one. */
  lemma FirstStep(text: string, values: Values) returns (x: string, n: nat, after: string)
    requires text != "" && Format(text, values).Some? && AllFill(values)
    ensures 0 < n <= |text| && x != "" && Step(text, values) == Some((x, n))
    ensures Format(text[n..], values) == Some(after) && Format(text, values) == Some(x + after)
    ensures (n == 1 && x == [text[0]] && !Braces(text[0])) || WideStep(text, values, x, n)
  {
    StepReads(text, values);
    x, n := Step(text, values).value.0, Step(text, values).value.1;
    after := Format(text[n..], values).value;
    if n > 1 {
      assert text[0] == '{' || text[0] == '}';
    }
  }

  // ---------- the scan ----------

  predicate Sane(at: Place) {
    (at.quote == Quote.Bare && !at.escaped) || at.quote == In('"') || at.quote == In('\'')
  }

  /** No placeholder stands right after a backslash in a double-quoted string. */
  predicate BracesUnescaped(at: Place, text: string)
    decreases |text|
  {
    text == ""
    || ((OpensHole(text) && at.escaped ==> at.quote != In('"'))
        && (Advance(JQL, at, text[0]).Some? ==> BracesUnescaped(Advance(JQL, at, text[0]).value, text[1..])))
  }

  lemma {:induction false} BracesLater(at: Place, text: string, n: nat, next: Place)
    requires BracesUnescaped(at, text) && n <= |text| && Run(JQL, at, text[..n]) == Some(next)
    ensures BracesUnescaped(next, text[n..])
    decreases |text|
  {
    if n > 0 {
      assert text[..n][1..] == text[1..][..n - 1] && text[1..][n - 1..] == text[n..];
      BracesLater(Advance(JQL, at, text[0]).value, text[1..], n - 1, next);
    } else {
      assert text[..0] == "" && text[0..] == text;
    }
  }

  /** Inside a string, characters other than its mark and the backslash only end an escape. */
  lemma {:induction false} RunInside(mark: char, depth: nat, escaped: bool, s: string)
    requires s != "" && forall i :: 0 <= i < |s| ==> s[i] != mark && s[i] != '\\'
    ensures Run(JQL, Place(In(mark), depth, escaped), s) == Some(Place(In(mark), depth, false))
    decreases |s|
  {
    if s[1..] != "" {
      RunInside(mark, depth, false, s[1..]);
    }
  }

  lemma AdvanceOne(at: Place, c: char)
    requires Sane(at)
    ensures Run(JQL, at, [c]) == Advance(JQL, at, c)
    ensures Advance(JQL, at, c).Some? ==> Sane(Advance(JQL, at, c).value)
  {
    assert [c][1..] == "";
  }

  /** A wide step moves the scanner alike in the template and in the query, but for a value escaped in double quotes. */
  lemma ScanWide(text: string, values: Values, x: string, n: nat, at: Place)
    requires n <= |text| && WideStep(text, values, x, n) && Sane(at)
    requires OpensHole(text) ==> !(at.quote == In('"') && at.escaped)
    ensures Run(JQL, at, text[..n]).Some? && Run(JQL, at, x) == Run(JQL, at, text[..n])
    ensures Sane(Run(JQL, at, x).value)
  {
    if at.quote == Quote.Bare {
      RunPlain(JQL, at, text[..n]);
      assert at == At(at.depth);
      assert Fills(x) ==> Leaves(x, at.depth);
      if x == "{" || x == "}" {
        RunPlain(JQL, at, x);
      }
    } else {
      RunInside(at.quote.mark, at.depth, at.escaped, text[..n]);
      if Fills(x) && at.quote == In('"') {
        assert Stays(x, at.depth);
      } else {
        RunInside(at.quote.mark, at.depth, at.escaped, x);
      }
    }
  }

  /** A step moves the scanner alike in the template and in the query. */
  lemma ScanStep(text: string, values: Values, x: string, n: nat, at: Place)
    requires text != "" && n <= |text| && Sane(at) && BracesUnescaped(at, text)
    requires (n == 1 && x == [text[0]]) || WideStep(text, values, x, n)
    ensures Run(JQL, at, x) == Run(JQL, at, text[..n])
    ensures Run(JQL, at, x).Some? ==> Sane(Run(JQL, at, x).value)
  {
    if n == 1 {
      assert x == text[..n];
      AdvanceOne(at, text[0]);
    } else {
      ScanWide(text, values, x, n, at);
    }
  }

  /** Filling the placeholders moves no quote and no parenthesis, when none is escaped in double quotes. */
  lemma {:induction false} ScanFill(text: string, values: Values, at: Place)
    requires Format(text, values).Some? && AllFill(values) && Sane(at) && BracesUnescaped(at, text)
    ensures Run(JQL, at, Format(text, values).value) == Run(JQL, at, text)
    decreases |text|
  {
    if text != "" {
      var x, n, after := FirstStep(text, values);
      ScanStep(text, values, x, n, at);
      assert text == text[..n] + text[n..];
      RunConcat(JQL, at, x, after);
      RunConcat(JQL, at, text[..n], text[n..]);
      if Run(JQL, at, x).Some? {
        BracesLater(at, text, n, Run(JQL, at, x).value);
        ScanFill(text[n..], values, Run(JQL, at, x).value);
      }
    }
  }

  /** A template ends the same when it is filled, but for a brace: that is one, or the end of a value. */
  lemma {:induction false} FillLast(text: string, values: Values)
    requires Format(text, values).Some? && AllFill(values) && text != ""
    ensures var filled := Format(text, values).value;
            && filled != "" && var c := filled[|filled| - 1];
            if Braces(text[|text| - 1]) then Braces(c) || c == '"' else c == text[|text| - 1]
    decreases |text|
  {
    var x, n, after := FirstStep(text, values);
    if n < |text| {
      assert text[n..][|text[n..]| - 1] == text[|text| - 1];
      FillLast(text[n..], values);
      assert (x + after)[|x + after| - 1] == after[|after| - 1];
    } else {
      assert text[n..] == "" && x + "" == x;
    }
  }

  // ---------- the first token ----------

  /** The first characters of what is filled: the same, or something else that ends a word and continues no symbol. */
  lemma FirstChar(text: string, values: Values)
    requires Format(text, values).Some? && AllFill(values)
    ensures var filled := Format(text, values).value;
            && (text == "" <==> filled == "")
            && (text != "" && !Braces(text[0]) ==>
                  filled[0] == text[0] && Format(text[1..], values) == Some(filled[1..]))
            && (text != "" && Braces(text[0]) ==> Braces(filled[0]) || filled[0] == '"')
  {
    if text != "" {
      var x, n, after := FirstStep(text, values);
      if n == 1 {
        assert (x + after)[1..] == after;
      }
    }
  }

  lemma OneMore(a: string, b: string, k: nat)
    requires a != "" && b != "" && a[0] == b[0] && k < |a| && k < |b| && a[1..][..k] == b[1..][..k]
    ensures a[..k + 1] == b[..k + 1] && a[1..][k..] == a[k + 1..] && b[1..][k..] == b[k + 1..]
  {
    assert a[..k + 1] == [a[0]] + a[1..][..k];
    assert b[..k + 1] == [b[0]] + b[1..][..k];
  }

  /** A word of the template is a word of the query. */
  lemma {:induction false} WordAlike(text: string, values: Values, filled: string)
    requires Format(text, values) == Some(filled) && AllFill(values)
    ensures var n := WordLength(text);
            && WordLength(filled) == n && filled[..n] == text[..n] && Format(text[n..], values) == Some(filled[n..])
    decreases |text|
  {
    FirstChar(text, values);
    if text != "" && !Delimiter(text[0]) {
      WordAlike(text[1..], values, filled[1..]);
      var k := WordLength(text[1..]);
      OneMore(text, filled, k);
    } else {
      assert text[0..] == text && filled[0..] == filled;
    }
  }

  lemma SymbolAlike(text: string, values: Values, filled: string)
    requires Format(text, values) == Some(filled) && AllFill(values) && text != "" && Symbol(text[0])
    ensures filled != "" && filled[0] == text[0] && SymbolLength(filled) == SymbolLength(text)
    ensures var n := SymbolLength(text);
            filled[..n] == text[..n] && Format(text[n..], values) == Some(filled[n..])
  {
    FirstChar(text, values);
    FirstChar(text[1..], values);
    var n := SymbolLength(text);
    if |text| > 1 {
      assert text[1..][0] == text[1] && filled[1..][0] == filled[1];
      assert text[1..][1..] == text[2..] && filled[1..][1..] == filled[2..];
    }
    if n == 1 {
      assert filled[..1] == [filled[0]] && text[..1] == [text[0]];
    } else {
      assert filled[..2] == [filled[0], filled[1]] && text[..2] == [text[0], text[1]];
    }
  }

  /** A token of the template that is no string and no placeholder is the token of the query. */
  lemma LiteralPiece(text: string, values: Values, filled: string) returns (n: nat)
    requires Format(text, values) == Some(filled) && AllFill(values)
    requires text != "" && !Braces(text[0]) && !Mark(text[0]) && NextToken(filled).Some?
    ensures NextToken(text) == NextToken(filled) && n == NextToken(text).value.1
    ensures n <= |filled| && filled[..n] == text[..n] && Format(text[n..], values) == Some(filled[n..])
  {
    FirstChar(text, values);
    if Symbol(text[0]) {
      SymbolAlike(text, values, filled);
      n := SymbolLength(text);
      assert n == 2 ==> text[1] == text[..n][1] == filled[1];
    } else if Delimiter(text[0]) {
      n := 1;
      assert filled[..1] == [filled[0]] && text[..1] == [text[0]];
    } else {
      WordAlike(text, values, filled);
      n := WordLength(text);
    }
  }

  // ---------- strings ----------

  /** Where a string that is being read ends, the scanner's way: 0 when it does not. */
  function StringEnd(mark: char, escaped: bool, s: string): (n: nat)
    ensures n <= |s|
    decreases |s|
  {
    if s == "" then 0
    else if !escaped && s[0] == mark then 1
    else
      var rest := StringEnd(mark, !escaped && s[0] == '\\', s[1..]);
      if rest == 0 then 0 else rest + 1
  }

  lemma {:induction false} StringEndIsLength(mark: char, s: string)
    requires Mark(mark)
    ensures StringEnd(mark, false, s) == TextLength(mark, s)
    decreases |s|
  {
    if s != "" && s[0] != mark {
      if s[0] == '\\' && |s| > 1 {
        assert s[1..][1..] == s[2..];
        StringEndIsLength(mark, s[2..]);
      } else if s[0] == '\\' {
        assert s[1..] == "";
      } else {
        StringEndIsLength(mark, s[1..]);
      }
    }
  }

  lemma {:induction false} EndPast(mark: char, escaped: bool, x: string, s: string)
    requires x != "" && forall i :: 0 <= i < |x| ==> x[i] != mark && x[i] != '\\'
    ensures StringEnd(mark, escaped, x + s) == if StringEnd(mark, false, s) == 0 then 0 else |x| + StringEnd(mark, false, s)
    decreases |x|
  {
    assert (x + s)[0] == x[0] && (x + s)[1..] == x[1..] + s;
    if |x| > 1 {
      EndPast(mark, false, x[1..], s);
    } else {
      assert x[1..] + s == s;
    }
  }

  predicate Passes(mark: char, s: string) {
    s != "" && forall i :: 0 <= i < |s| ==> s[i] != mark && s[i] != '\\'
  }

  /** The end of a string past characters that do not matter to it. */
  lemma EndShifts(mark: char, escaped: bool, x: string, s: string)
    requires Passes(mark, x)
    ensures var k := StringEnd(mark, false, s);
            && StringEnd(mark, escaped, x + s) == (if k == 0 then 0 else |x| + k)
            && (x + s)[|x| + k..] == s[k..]
  {
    EndPast(mark, escaped, x, s);
  }

  lemma EndNext(mark: char, escaped: bool, c: char, s: string)
    requires escaped || c != mark
    ensures var k := StringEnd(mark, !escaped && c == '\\', s);
            && StringEnd(mark, escaped, [c] + s) == (if k == 0 then 0 else k + 1)
            && (k > 0 ==> ([c] + s)[k + 1..] == s[k..])
  {
    assert ([c] + s)[1..] == s;
  }

  /**
   The string that is being read ends in the query where it does in the template, or earlier, and then words and
   strings lead to where it does: `t` are these, and `after` fills what the template has past the string.
   */
  ghost predicate Ends(
    mark: char, escaped: bool, text: string, values: Values, filled: string, n: nat, t: seq<Token>, after: string)
  {
    var k := StringEnd(mark, escaped, filled);
    && n == StringEnd(mark, escaped, text) > 0 && k > 0 && Loose(t)
    && Format(text[n..], values) == Some(after) && Lex(after).Some?
    && Lex(filled[k..]) == Some(t + Lex(after).value)
  }

  lemma EndsOne(
      mark: char, escaped: bool, c: char, text: string, values: Values, filled: string, n: nat, t: seq<Token>,
      after: string)
    requires escaped || c != mark
    requires Ends(mark, !escaped && c == '\\', text, values, filled, n, t, after)
    ensures Ends(mark, escaped, [c] + text, values, [c] + filled, n + 1, t, after)
  {
    EndNext(mark, escaped, c, text);
    EndNext(mark, escaped, c, filled);
  }

  /** A value that fills a placeholder in double quotes ends the string, and what comes past it was the string's. */
  lemma Threaded(x: string, filled: string) returns (t: seq<Token>)
    requires Fills(x) && Lex((x + filled)[1..]).Some?
    ensures StringEnd('"', false, x + filled) == 1 && Loose(t) && StringEnd('"', false, filled) > 0
    ensures var k := StringEnd('"', false, filled);
            Lex(filled[k..]).Some? && Lex((x + filled)[1..]).value == t + Lex(filled[k..]).value
  {
    assert (x + filled)[1..] == x[1..] + filled && (x + filled)[0] == x[0];
    assert Threads(x, filled);
    var q :| Loose(q) && Lex(x[1..] + filled).value == q + Lex("\"" + filled).value;
    assert ("\"" + filled)[1..] == filled;
    var text, k := StringStarts("\"" + filled);
    t := q + [text];
    GroupTokens(q, [text], Lex(filled[k..]).value);
  }

  /** The string that is being read ends, and what is past it has tokens. */
  predicate Closes(mark: char, escaped: bool, s: string) {
    StringEnd(mark, escaped, s) > 0 && Lex(s[StringEnd(mark, escaped, s)..]).Some?
  }

  /** What a wide step writes leads, inside a string, to the place of the query after it. */
  predicate Bridge(mark: char, escaped: bool, x: string, filled: string, q: seq<Token>) {
    var k, m := StringEnd(mark, escaped, x + filled), StringEnd(mark, false, filled);
    && k > 0 && m > 0 && Loose(q) && Lex(filled[m..]).Some?
    && Lex((x + filled)[k..]) == Some(q + Lex(filled[m..]).value)
  }

  /** What a wide step may write in a string. */
  ghost predicate Crosses(mark: char, escaped: bool, x: string) {
    Passes(mark, x) || (mark == '"' && !escaped && Fills(x))
  }

  lemma WideBridge(mark: char, escaped: bool, x: string, filled: string) returns (q: seq<Token>)
    requires Crosses(mark, escaped, x) && Closes(mark, escaped, x + filled)
    ensures Bridge(mark, escaped, x, filled, q) && Closes(mark, false, filled)
  {
    if Passes(mark, x) {
      EndShifts(mark, escaped, x, filled);
      q := [];
      assert forall tokens: seq<Token> :: [] + tokens == tokens;
    } else {
      assert (x + filled)[0] == x[0];
      q := Threaded(x, filled);
    }
  }

  lemma EndsPast(
      mark: char, escaped: bool, head: string, text: string, values: Values, x: string, filled: string, q: seq<Token>,
      n: nat, t: seq<Token>, after: string)
    returns (m: nat, all: seq<Token>)
    requires Passes(mark, head) && Bridge(mark, escaped, x, filled, q)
    requires Ends(mark, false, text, values, filled, n, t, after)
    ensures Ends(mark, escaped, head + text, values, x + filled, m, all, after)
  {
    m, all := |head| + n, q + t;
    EndShifts(mark, escaped, head, text);
    GroupTokens(q, t, Lex(after).value);
  }

  /** The placeholder a backslash escapes is in single quotes. */
  predicate StringUnescaped(mark: char, escaped: bool, text: string)
    decreases |text|
  {
    text == ""
    || ((OpensHole(text) && escaped ==> mark != '"')
        && (escaped || text[0] != mark ==> StringUnescaped(mark, !escaped && text[0] == '\\', text[1..])))
  }

  lemma {:induction false} UnescapedPast(mark: char, escaped: bool, head: string, text: string)
    requires Passes(mark, head) && StringUnescaped(mark, escaped, head + text)
    ensures StringUnescaped(mark, false, text)
    decreases |head|
  {
    assert (head + text)[0] == head[0] && (head + text)[1..] == head[1..] + text;
    if |head| > 1 {
      UnescapedPast(mark, false, head[1..], text);
    } else {
      assert head[1..] + text == text;
    }
  }

  /** A string of the template, when its rest is filled. */
  lemma {:induction false} InString(mark: char, escaped: bool, text: string, values: Values, filled: string)
    returns (n: nat, t: seq<Token>, after: string)
    requires Mark(mark) && Format(text, values) == Some(filled) && AllFill(values)
    requires StringUnescaped(mark, escaped, text) && Closes(mark, escaped, filled)
    ensures Ends(mark, escaped, text, values, filled, n, t, after)
    decreases |text|, 0
  {
    var x, m, tail := FirstStep(text, values);
    if m > 1 {
      WideCrosses(mark, escaped, text, values, x, m);
      n, t, after := InWide(mark, escaped, text[..m], text[m..], values, x, tail);
    } else if escaped || text[0] != mark {
      EndNext(mark, escaped, text[0], tail);
      n, t, after := InString(mark, !escaped && text[0] == '\\', text[1..], values, tail);
      EndsOne(mark, escaped, text[0], text[1..], values, tail, n, t, after);
      n := n + 1;
      assert [text[0]] + text[1..] == text;
    } else {
      n, t, after := 1, [], tail;
      assert ([text[0]] + tail)[1..] == tail && [] + Lex(tail).value == Lex(tail).value;
    }
  }

  lemma {:induction false} InWide(
      mark: char, escaped: bool, head: string, text: string, values: Values, x: string, tail: string)
    returns (n: nat, t: seq<Token>, after: string)
    requires Mark(mark) && AllFill(values) && Passes(mark, head) && Crosses(mark, escaped, x)
    requires Format(text, values) == Some(tail) && StringUnescaped(mark, false, text) && Closes(mark, escaped, x + tail)
    ensures Ends(mark, escaped, head + text, values, x + tail, n, t, after)
    decreases |text|, 1
  {
    var q := WideBridge(mark, escaped, x, tail);
    var k, past;
    k, past, after := InString(mark, false, text, values, tail);
    n, t := EndsPast(mark, escaped, head, text, values, x, tail, q, k, past, after);
  }

  lemma WideCrosses(mark: char, escaped: bool, text: string, values: Values, x: string, n: nat)
    requires Mark(mark) && n <= |text| && WideStep(text, values, x, n) && StringUnescaped(mark, escaped, text)
    ensures Passes(mark, text[..n]) && Crosses(mark, escaped, x) && text[..n] + text[n..] == text
    ensures StringUnescaped(mark, false, text[n..])
  {
    assert text[..n] + text[n..] == text;
    UnescapedPast(mark, escaped, text[..n], text[n..]);
  }

  /** No brace escaped in double quotes, as the scanner sees it, is none in the string read. */
  lemma {:induction false} UnescapedInString(mark: char, escaped: bool, depth: nat, text: string)
    requires Mark(mark) && BracesUnescaped(Place(In(mark), depth, escaped), text)
    ensures StringUnescaped(mark, escaped, text)
    decreases |text|
  {
    if text != "" && (escaped || text[0] != mark) {
      UnescapedInString(mark, !escaped && text[0] == '\\', depth, text[1..]);
    }
  }

  /** The scanner leaves a string where it ends. */
  lemma {:induction false} ScanString(mark: char, escaped: bool, depth: nat, text: string)
    requires Mark(mark) && StringEnd(mark, escaped, text) > 0
    ensures var n := StringEnd(mark, escaped, text);
            Run(JQL, Place(In(mark), depth, escaped), text[..n]) == Some(At(depth)) && text[n - 1] == mark
    decreases |text|
  {
    var n := StringEnd(mark, escaped, text);
    AdvanceOne(Place(In(mark), depth, escaped), text[0]);
    if !escaped && text[0] == mark {
      assert text[..1] == [text[0]];
    } else {
      ScanString(mark, !escaped && text[0] == '\\', depth, text[1..]);
      assert text[..n][1..] == text[1..][..n - 1];
    }
  }

  /** A string of the template is a string of the query, or words and strings, where a placeholder stands in it. */
  lemma StringPiece(text: string, values: Values, filled: string, depth: nat)
    returns (n: nat, t: seq<Token>, after: string)
    requires Format(text, values) == Some(filled) && AllFill(values) && text != "" && Mark(text[0])
    requires Lex(filled).Some? && BracesUnescaped(At(depth), text)
    ensures 1 < n <= |text| && text[n - 1] == text[0] && Run(JQL, At(depth), text[..n]) == Some(At(depth))
    ensures Format(text[n..], values) == Some(after) && Lex(after).Some? && Loose(t)
    ensures Lex(filled).value == t + Lex(after).value
  {
    FirstChar(text, values);
    var mark := text[0];
    AdvanceOne(At(depth), mark);
    UnescapedInString(mark, false, depth, text[1..]);
    var first, rest := StringStarts(filled);
    var e, inside;
    e, inside, after := InString(mark, false, text[1..], values, filled[1..]);
    ScanString(mark, false, depth, text[1..]);
    n, t := e + 1, [first] + inside;
    GroupTokens([first], inside, Lex(after).value);
    StringRun(text, e, depth);
    assert text[1..][e..] == text[n..];
  }

  /** A query that starts with a string. */
  lemma StringStarts(filled: string) returns (first: Token, k: nat)
    requires filled != "" && Mark(filled[0]) && Lex(filled).Some?
    ensures k == StringEnd(filled[0], false, filled[1..]) > 0 && first.Text? && Lex(filled[1..][k..]).Some?
    ensures Lex(filled).value == [first] + Lex(filled[1..][k..]).value
  {
    StringEndIsLength(filled[0], filled[1..]);
    var tokens, n := LexUnfold(NextToken, filled);
    first, k := tokens[0], n - 1;
    assert filled[1..][k..] == filled[n..];
  }

  lemma StringRun(text: string, e: nat, depth: nat)
    requires text != "" && Mark(text[0]) && 0 < e <= |text[1..]|
    requires Run(JQL, Place(In(text[0]), depth, false), text[1..][..e]) == Some(At(depth)) && text[1..][e - 1] == text[0]
    ensures Run(JQL, At(depth), text[..e + 1]) == Some(At(depth)) && text[e] == text[0]
  {
    assert text[..e + 1] == [text[0]] + text[1..][..e];
    RunConcat(JQL, At(depth), [text[0]], text[1..][..e]);
    AdvanceOne(At(depth), text[0]);
  }

  /** A brace of the template outside strings starts a placeholder. */
  lemma HolePiece(text: string, values: Values, filled: string) returns (n: nat, x: string, after: string)
    requires Format(text, values) == Some(filled) && AllFill(values) && text != "" && Braces(text[0])
    requires NextToken(filled).Some?
    ensures 1 < n <= |text| && Braces(text[n - 1]) && Inert(text[..n])
    ensures Fills(x) && filled == x + after && Format(text[n..], values) == Some(after)
  {
    x, n, after := FirstStep(text, values);
    assert (x + after)[0] == x[0];
  }
}
