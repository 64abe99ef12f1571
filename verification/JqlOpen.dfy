/**
 What a template holds outside strings decides how Jira reads its query: without a backslash there, and without a blank
 that is none for Jira, the query has the tokens the characters suggest.
 */
module JqlOpen {
  import opened Chars
  import opened Wrappers
  import opened Mask
  import opened WindowGuard
  import opened Template
  import opened JqlQuery
  import opened JqlText
  import opened JqlFill
  import opened JqlTop

  predicate NoBackslash(c: char) {
    c != '\\'
  }

  /** What the guard takes for a blank is one for Jira. */
  predicate OwnBlank(c: char) {
    IsSpace(c) ==> Blank(c)
  }

  predicate Usual(c: char) {
    NoBackslash(c) && OwnBlank(c)
  }

  lemma {:induction false} BothOpen(at: Place, text: string)
    requires OpenAll(JQL, NoBackslash, at, text) && OpenAll(JQL, OwnBlank, at, text)
    ensures OpenAll(JQL, Usual, at, text)
    decreases |text|
  {
    if text != "" && Advance(JQL, at, text[0]).Some? {
      BothOpen(Advance(JQL, at, text[0]).value, text[1..]);
    }
  }

  // ---------- the tokens ----------

  lemma {:induction false} SameWord(s: string, depth: nat)
    requires OpenAll(JQL, Usual, At(depth), s)
    ensures JiraWordLength(s) == WordLength(s)
    decreases |s|
  {
    if s != "" && !Delimiter(s[0]) {
      assert Advance(JQL, At(depth), s[0]) == Some(At(depth));
      SameWord(s[1..], depth);
    }
  }

  lemma SameToken(s: string, depth: nat)
    requires s != "" && OpenAll(JQL, Usual, At(depth), s)
    ensures JiraToken(s) == NextToken(s)
  {
    SameWord(s, depth);
  }

  /** Over its first token, the scanner goes where it goes over the characters of the token. */
  lemma RunFirst(s: string, depth: nat, t: seq<Token>, n: nat)
    requires s != "" && NextToken(s) == Some((t, n)) && Run(JQL, At(depth), s).Some?
    ensures depth + Depth(t) >= 0 && Run(JQL, At(depth), s[..n]) == Some(At(depth + Depth(t)))
  {
    JqlText.ScanToken(s, depth);
    if Mark(s[0]) {
      StringEndIsLength(s[0], s[1..]);
      JqlFill.ScanString(s[0], false, depth, s[1..]);
      StringRun(s, n - 1, depth);
      DepthOne(t[0]);
    } else {
      TokenRun(s, depth, t, n);
    }
  }

  /** Jira reads the tokens the characters suggest. */
  lemma {:induction false} SameReading(s: string, depth: nat)
    requires Run(JQL, At(depth), s).Some? && OpenAll(JQL, Usual, At(depth), s)
    ensures Read(s) == Lex(s)
    decreases |s|
  {
    if s != "" {
      SameToken(s, depth);
      if NextToken(s).Some? {
        var (t, n) := NextToken(s).value;
        RunFirst(s, depth, t, n);
        OpenLater(JQL, Usual, At(depth), s, n, At(depth + Depth(t)));
        RunRest(s, depth, t, n);
        SameReading(s[n..], depth + Depth(t));
      }
    }
  }

  /** The scanner reads such a query with tokens to its end outside strings, at the depth of its parentheses. */
  lemma ScanRead(s: string, depth: nat)
    requires Run(JQL, At(depth), s).Some? && OpenAll(JQL, Usual, At(depth), s) && Read(s).Some?
    ensures depth + Depth(Read(s).value) >= 0 && Run(JQL, At(depth), s) == Some(At(depth + Depth(Read(s).value)))
  {
    SameReading(s, depth);
    ScanTokens(s, depth);
  }

  lemma RunRest(s: string, depth: nat, t: seq<Token>, n: nat)
    requires n <= |s| && depth + Depth(t) >= 0 && Run(JQL, At(depth), s).Some?
    requires Run(JQL, At(depth), s[..n]) == Some(At(depth + Depth(t)))
    ensures Run(JQL, At(depth + Depth(t)), s[n..]) == Run(JQL, At(depth), s)
  {
    assert s == s[..n] + s[n..];
    RunConcat(JQL, At(depth), s[..n], s[n..]);
  }

  /** A word that ends in the first of two texts ends there for Jira too. */
  lemma {:induction false} WordBefore(a: string, b: string, depth: nat)
    requires OpenAll(JQL, Usual, At(depth), a) && WordLength(a) < |a|
    ensures JiraWordLength(a + b) == WordLength(a)
    decreases |a|
  {
    assert (a + b)[0] == a[0] && (a + b)[1..] == a[1..] + b;
    if !Delimiter(a[0]) {
      assert Advance(JQL, At(depth), a[0]) == Some(At(depth));
      WordBefore(a[1..], b, depth);
    }
  }

  /** A text that ends with a symbol, before another it meets, is read on its own. */
  predicate Leads(a: string, b: string, depth: nat) {
    && (a != "" ==> Symbol(a[|a| - 1])) && Meet(a, b) && OpenAll(JQL, Usual, At(depth), a)
    && Run(JQL, At(depth), a).Some? && Run(JQL, At(depth), a).value.quote == Quote.Bare
  }

  lemma TokenBefore(a: string, b: string, depth: nat)
    requires a != "" && Leads(a, b, depth)
    ensures JiraToken(a + b) == NextToken(a)
  {
    NextTokenMeet(a, b, depth);
    assert (a + b)[0] == a[0];
    if !Delimiter(a[0]) {
      WordBefore(a, b, depth);
      WordLengthConcat(a, b);
    }
  }

  lemma LeadsLater(a: string, b: string, depth: nat, t: seq<Token>, n: nat)
    requires a != "" && Leads(a, b, depth) && NextToken(a) == Some((t, n))
    ensures depth + Depth(t) >= 0 && Leads(a[n..], b, depth + Depth(t)) && (a + b)[n..] == a[n..] + b
  {
    RunFirst(a, depth, t, n);
    OpenLater(JQL, Usual, At(depth), a, n, At(depth + Depth(t)));
    RunRest(a, depth, t, n);
    MeetLater(a, b, n);
    assert n < |a| ==> a[n..][|a[n..]| - 1] == a[|a| - 1];
  }

  lemma ReadOne(s: string, t: seq<Token>, n: nat)
    requires JiraToken(s) == Some((t, n)) && n <= |s| && Read(s[n..]).Some?
    ensures Read(s) == Some(t + Read(s[n..]).value)
  {
  }

  lemma ReadFirst(a: string, b: string, depth: nat, t: seq<Token>, n: nat)
    requires a != "" && Leads(a, b, depth) && NextToken(a) == Some((t, n)) && Read(a[n..] + b).Some?
    ensures Read(a + b) == Some(t + Read(a[n..] + b).value)
  {
    TokenBefore(a, b, depth);
    LeadsLater(a, b, depth, t, n);
    ReadOne(a + b, t, n);
  }

  /** The tokens of such a text, then those of the other. */
  lemma {:induction false} ReadAfter(a: string, b: string, depth: nat)
    requires Leads(a, b, depth) && Lex(a).Some? && Read(b).Some?
    ensures Read(a + b) == Some(Lex(a).value + Read(b).value)
    decreases |a|
  {
    if a == "" {
      assert a + b == b && [] + Read(b).value == Read(b).value;
    } else {
      var t, n := LexUnfold(NextToken, a);
      LeadsLater(a, b, depth, t, n);
      ReadAfter(a[n..], b, depth + Depth(t));
      ReadFirst(a, b, depth, t, n);
      GroupTokens(t, Lex(a[n..]).value, Read(b).value);
    }
  }

  // ---------- filling ----------

  predicate AllValues(ok: char -> bool, values: Values) {
    forall name :: name in values ==> All(ok, values[name])
  }

  lemma StepOpen(ok: char -> bool, text: string, values: Values, x: string, n: nat, at: Place)
    requires text != "" && n <= |text| && OpenAll(JQL, ok, at, text) && ok('{') && ok('}') && AllValues(ok, values)
    requires Step(text, values) == Some((x, n))
    ensures OpenAll(JQL, ok, at, x)
  {
    StepReads(text, values);
    if n > 1 {
      AllOpen(JQL, ok, at, x);
    } else {
      assert [text[0]][1..] == "";
    }
  }

  /** What a template holds outside strings is what its query does, when no brace is escaped in double quotes. */
  lemma {:induction false} OpenFill(ok: char -> bool, text: string, values: Values, at: Place)
    requires Format(text, values).Some? && AllFill(values) && Sane(at) && BracesUnescaped(at, text)
    requires OpenAll(JQL, ok, at, text) && ok('{') && ok('}') && AllValues(ok, values)
    ensures OpenAll(JQL, ok, at, Format(text, values).value)
    decreases |text|
  {
    if text != "" {
      var x, n, after := FirstStep(text, values);
      ScanStep(text, values, x, n, at);
      StepOpen(ok, text, values, x, n, at);
      if Run(JQL, at, x).Some? {
        var next := Run(JQL, at, x).value;
        BracesLater(at, text, n, next);
        OpenLater(JQL, ok, at, text, n, next);
        OpenFill(ok, text[n..], values, next);
      }
      OpenConcat(JQL, ok, at, x, after);
    }
  }

  /** The query of a template with no backslash and no foreign blank outside strings, as Jira reads it. */
  lemma ReadsAlike(text: string, values: Values, query: string)
    requires Run(JQL, TOP, text).Some? && BracesUnescaped(TOP, text) && AllFill(values) && AllValues(Usual, values)
    requires OpenAll(JQL, NoBackslash, TOP, text) && OpenAll(JQL, OwnBlank, TOP, text) && Format(text, values) == Some(query)
    ensures Read(query) == Lex(query)
  {
    BothOpen(TOP, text);
    ScanFill(text, values, TOP);
    OpenFill(Usual, text, values, TOP);
    SameReading(query, 0);
  }

  /** Where the guard sees no `or` and no bar in such a template, no token of its query at depth 0 is an `or` for Jira. */
  lemma NoTopRead(alnum: char -> bool, text: string, values: Values, query: string)
    requires Run(JQL, TOP, text).Some? && BracesUnescaped(TOP, text) && AllFill(values) && AllValues(Usual, values)
    requires OpenAll(JQL, NoBackslash, TOP, text) && OpenAll(JQL, OwnBlank, TOP, text)
    requires !HasKeyword(alnum, MaskFrom(JQL, TOP, text), "or") && BarFree(MaskFrom(JQL, TOP, text))
    requires Format(text, values) == Some(query) && Read(query).Some?
    ensures NoTop(Read(query).value, 0)
  {
    ReadsAlike(text, values, query);
    NoTopOr(alnum, text, values, query);
  }
}
