/** How the tokens of a query of Jira follow its characters, and agree with the scanner of the guard. */
module JqlText {
  import opened Chars
  import opened Wrappers
  import opened Mask
  import opened JqlQuery

  // ---------- tokens and depths ----------

  lemma {:induction false} DepthConcat(a: seq<Token>, b: seq<Token>)
    ensures Depth(a + b) == Depth(a) + Depth(b)
  {
    if a == [] {
      assert a + b == b;
    } else {
      assert (a + b)[1..] == a[1..] + b;
      DepthConcat(a[1..], b);
    }
  }

  lemma DepthOne(t: Token)
    ensures Depth([t]) == TokenDepth(t)
  {
    assert [t][1..] == [];
  }

  // ---------- the scanner over one token ----------

  function At(depth: nat): Place {
    Place(Quote.Bare, depth, false)
  }

  /** Inside a string, the scanner leaves the quote for good where the string ends; one that is not closed keeps it. */
  lemma {:induction false} ScanText(mark: char, s: string, depth: nat)
    requires Mark(mark)
    ensures var n := TextLength(mark, s);
            var r := Run(JQL, Place(In(mark), depth, false), s);
            if n > 0 then r == Run(JQL, At(depth), s[n..]) else r.Some? && r.value.quote == In(mark)
    decreases |s|
  {
    if s != "" && s[0] != mark {
      if s[0] == '\\' && |s| > 1 {
        assert s[1..][1..] == s[2..];
        ScanText(mark, s[2..], depth);
      } else {
        ScanText(mark, s[1..], depth);
      }
    }
  }

  lemma ScanString(s: string, depth: nat)
    requires s != "" && Mark(s[0])
    ensures if NextToken(s).Some? then Run(JQL, At(depth), s) == Run(JQL, At(depth), s[NextToken(s).value.1..])
            else Run(JQL, At(depth), s).Some? && Run(JQL, At(depth), s).value.quote == In(s[0])
  {
    ScanText(s[0], s[1..], depth);
    var n := TextLength(s[0], s[1..]);
    assert s[1..][n..] == s[n + 1..];
  }

  predicate AllPlain(s: string) {
    forall i :: 0 <= i < |s| ==> Plain(JQL, s[i])
  }

  lemma ScanPlain(s: string, n: nat, depth: nat)
    requires n <= |s| && AllPlain(s[..n])
    ensures Run(JQL, At(depth), s) == Run(JQL, At(depth), s[n..])
  {
    RunPlain(JQL, At(depth), s[..n]);
    assert s == s[..n] + s[n..];
    RunConcat(JQL, At(depth), s[..n], s[n..]);
  }

  lemma ScanSymbol(s: string, depth: nat)
    requires s != "" && Symbol(s[0])
    ensures Run(JQL, At(depth), s) == Run(JQL, At(depth), s[SymbolLength(s)..])
  {
    var n := SymbolLength(s);
    assert n == 2 ==> Continues(s[1]);
    ScanPlain(s, n, depth);
  }

  lemma ScanWord(s: string, depth: nat)
    ensures Run(JQL, At(depth), s) == Run(JQL, At(depth), s[WordLength(s)..])
  {
    ScanPlain(s, WordLength(s), depth);
  }

  lemma ScanOne(s: string, depth: nat)
    requires s != "" && (IsSpace(s[0]) || Bracket(s[0])) && Run(JQL, At(depth), s).Some?
    ensures var d := if s[0] == '(' then 1 else if s[0] == ')' then -1 else 0;
            depth + d >= 0 && Run(JQL, At(depth), s) == Run(JQL, At(depth + d), s[1..])
  {
    assert Run(JQL, At(depth), s) == Run(JQL, Advance(JQL, At(depth), s[0]).value, s[1..]);
  }

  /** Over one token, the scanner moves as the depth does. */
  lemma ScanToken(s: string, depth: nat)
    requires s != "" && NextToken(s).Some? && Run(JQL, At(depth), s).Some?
    ensures var (t, n) := NextToken(s).value;
            depth + Depth(t) >= 0 && Run(JQL, At(depth), s) == Run(JQL, At(depth + Depth(t)), s[n..])
  {
    var (t, n) := NextToken(s).value;
    if t != [] {
      DepthOne(t[0]);
    }
    if Mark(s[0]) {
      ScanString(s, depth);
    } else if Symbol(s[0]) {
      ScanSymbol(s, depth);
    } else if Delimiter(s[0]) {
      ScanOne(s, depth);
    } else {
      ScanWord(s, depth);
    }
  }

  // ---------- texts, whatever reads the tokens ----------

  lemma LexUnfold(next: Reader, s: string) returns (t: seq<Token>, n: nat)
    requires s != "" && LexBy(next, s).Some?
    ensures next(s) == Some((t, n)) && 0 < n <= |s|
    ensures LexBy(next, s[n..]).Some? && LexBy(next, s).value == t + LexBy(next, s[n..]).value
  {
    t, n := next(s).value.0, next(s).value.1;
  }

  /** Where the scanner is after a text it reads from outside strings at a depth. */
  type Scanner = (nat, string) -> Option<Place>

  /** Over its first token, the scanner moves as the depth does. */
  predicate StepScans(next: Reader, scan: Scanner, s: string, depth: nat) {
    next(s).Some? && scan(depth, s).Some? ==>
      var (t, n) := next(s).value;
      n <= |s| && depth + Depth(t) >= 0 && scan(depth, s) == scan(depth + Depth(t), s[n..])
  }

  ghost predicate Scans(next: Reader, scan: Scanner) {
    && (forall depth: nat :: scan(depth, "") == Some(At(depth)))
    && (forall s, depth :: StepScans(next, scan, s, depth))
  }

  /** A text with tokens is scanned outside strings to its end, at the depth of its parentheses. */
  lemma {:induction false} ScanTokensBy(next: Reader, scan: Scanner, s: string, depth: nat)
    requires Scans(next, scan) && LexBy(next, s).Some? && scan(depth, s).Some?
    ensures var d := depth + Depth(LexBy(next, s).value); d >= 0 && scan(depth, s) == Some(At(d))
    decreases |s|
  {
    if s != "" {
      var t, n := LexUnfold(next, s);
      assert StepScans(next, scan, s, depth);
      ScanTokensBy(next, scan, s[n..], depth + Depth(t));
      DepthConcat(t, LexBy(next, s[n..]).value);
    }
  }

  function JqlScan(depth: nat, s: string): Option<Place> {
    Run(JQL, At(depth), s)
  }

  lemma JqlScans()
    ensures Scans(NextToken, JqlScan)
  {
    forall s, depth
      ensures StepScans(NextToken, JqlScan, s, depth)
    {
      if NextToken(s).Some? && Run(JQL, At(depth), s).Some? {
        ScanToken(s, depth);
      }
    }
  }

  lemma ScanTokens(s: string, depth: nat)
    requires Lex(s).Some? && Run(JQL, At(depth), s).Some?
    ensures depth + Depth(Lex(s).value) >= 0 && Run(JQL, At(depth), s) == Some(At(depth + Depth(Lex(s).value)))
  {
    JqlScans();
    ScanTokensBy(NextToken, JqlScan, s, depth);
  }

  /** Two texts meet where no token lies across. */
  predicate Meet(a: string, b: string) {
    || a == "" || b == ""
    || ((Delimiter(a[|a| - 1]) || Delimiter(b[0])) && !(Symbol(a[|a| - 1]) && Continues(b[0])))
  }

  lemma {:induction false} WordLengthConcat(a: string, b: string)
    ensures WordLength(a) < |a| ==> WordLength(a + b) == WordLength(a)
    ensures WordLength(a) == |a| ==> WordLength(a + b) == |a| + WordLength(b)
  {
    if a == "" {
      assert a + b == b;
    } else {
      assert (a + b)[0] == a[0] && (a + b)[1..] == a[1..] + b;
      WordLengthConcat(a[1..], b);
    }
  }

  /** A string that ends in the first of two texts ends there whatever the second is. */
  lemma {:induction false} TextLengthConcat(mark: char, a: string, b: string)
    requires TextLength(mark, a) > 0
    ensures TextLength(mark, a + b) == TextLength(mark, a)
    decreases |a|
  {
    assert (a + b)[0] == a[0];
    if a[0] != mark {
      var skip := if a[0] == '\\' && |a| > 1 then 2 else 1;
      assert (a + b)[skip..] == a[skip..] + b;
      TextLengthConcat(mark, a[skip..], b);
    }
  }

  lemma StringMeet(a: string, b: string, depth: nat)
    requires a != "" && Mark(a[0])
    requires Run(JQL, At(depth), a).Some? && Run(JQL, At(depth), a).value.quote == Quote.Bare
    ensures NextToken(a) == NextToken(a + b)
  {
    ScanString(a, depth);
    assert (a + b)[0] == a[0] && (a + b)[1..] == a[1..] + b;
    TextLengthConcat(a[0], a[1..], b);
    var n := TextLength(a[0], a[1..]);
    assert (a + b)[1..n] == a[1..n];
  }

  lemma SymbolMeet(a: string, b: string)
    requires a != "" && Symbol(a[0]) && Meet(a, b)
    ensures NextToken(a) == NextToken(a + b)
  {
    assert (a + b)[0] == a[0];
    if |a| > 1 {
      assert (a + b)[1] == a[1];
    } else {
      assert b != "" ==> (a + b)[1] == b[0];
    }
  }

  lemma PlainMeet(a: string, b: string)
    requires a != "" && !Mark(a[0]) && !Symbol(a[0]) && Meet(a, b)
    ensures NextToken(a) == NextToken(a + b)
  {
    assert (a + b)[0] == a[0];
    if !Delimiter(a[0]) {
      WordMeet(a, b);
    }
  }

  /** The first token of two texts that meet is the first token of the first. */
  lemma NextTokenMeet(a: string, b: string, depth: nat)
    requires a != "" && Meet(a, b)
    requires Run(JQL, At(depth), a).Some? && Run(JQL, At(depth), a).value.quote == Quote.Bare
    ensures NextToken(a) == NextToken(a + b)
  {
    if Mark(a[0]) {
      StringMeet(a, b, depth);
    } else if Symbol(a[0]) {
      SymbolMeet(a, b);
    } else {
      PlainMeet(a, b);
    }
  }

  lemma WordMeet(a: string, b: string)
    requires a != "" && Meet(a, b) && !Delimiter(a[0])
    ensures WordLength(a + b) == WordLength(a) && (a + b)[..WordLength(a)] == a[..WordLength(a)]
  {
    WordLengthConcat(a, b);
    assert WordLength(a) == |a| ==> WordLength(b) == 0;
  }

  lemma GroupTokens(t: seq<Token>, x: seq<Token>, y: seq<Token>)
    ensures t + (x + y) == (t + x) + y
  {
  }

  lemma MeetLater(a: string, b: string, n: nat)
    requires Meet(a, b) && n <= |a|
    ensures Meet(a[n..], b) && (a + b)[n..] == a[n..] + b
  {
    assert n < |a| ==> a[n..][|a[n..]| - 1] == a[|a| - 1];
  }

  /** Where two texts meet, the first token of both is that of the first. */
  predicate StepMeets(next: Reader, scan: Scanner, a: string, b: string, depth: nat) {
    a != "" && Meet(a, b) && scan(depth, a).Some? && scan(depth, a).value.quote == Quote.Bare ==> next(a) == next(a + b)
  }

  lemma {:induction false} LexSplitBy(next: Reader, scan: Scanner, a: string, b: string, depth: nat)
    requires Scans(next, scan) && LexBy(next, a + b).Some? && Meet(a, b)
    requires forall x, y, d :: StepMeets(next, scan, x, y, d)
    requires scan(depth, a).Some? && scan(depth, a).value.quote == Quote.Bare
    ensures LexBy(next, a).Some? && LexBy(next, b).Some?
    ensures LexBy(next, a + b).value == LexBy(next, a).value + LexBy(next, b).value
    decreases |a|
  {
    if a == "" {
      assert a + b == b && [] + LexBy(next, b).value == LexBy(next, b).value;
    } else {
      var t, n := LexUnfold(next, a + b);
      assert StepMeets(next, scan, a, b, depth) && StepScans(next, scan, a, depth);
      MeetLater(a, b, n);
      LexSplitBy(next, scan, a[n..], b, depth + Depth(t));
      GroupTokens(t, LexBy(next, a[n..]).value, LexBy(next, b).value);
    }
  }

  /** The tokens of two texts that meet, where the scanner is outside strings, are those of each. */
  lemma LexSplit(a: string, b: string, depth: nat)
    requires Lex(a + b).Some? && Meet(a, b)
    requires Run(JQL, At(depth), a).Some? && Run(JQL, At(depth), a).value.quote == Quote.Bare
    ensures Lex(a).Some? && Lex(b).Some? && Lex(a + b).value == Lex(a).value + Lex(b).value
  {
    JqlScans();
    forall x, y, d
      ensures StepMeets(NextToken, JqlScan, x, y, d)
    {
      if x != "" && Meet(x, y) && Run(JQL, At(d), x).Some? && Run(JQL, At(d), x).value.quote == Quote.Bare {
        NextTokenMeet(x, y, d);
      }
    }
    LexSplitBy(NextToken, JqlScan, a, b, depth);
  }

  /** What a text may end with that ends like an `and`: one, or a word that is none. */
  predicate Joins(t: Token) {
    t == Conjoin || t == Changed || t.Word?
  }

  /** A token that takes all of a text that ends in `c` is one of those. */
  predicate StepJoins(next: Reader, c: char, s: string) {
    s != "" && s[|s| - 1] == c && next(s).Some? && next(s).value.1 == |s| ==>
      |next(s).value.0| == 1 && Joins(next(s).value.0[0])
  }

  lemma {:induction false} LastJoinsBy(next: Reader, c: char, s: string)
    requires LexBy(next, s).Some? && s != "" && s[|s| - 1] == c && forall s :: StepJoins(next, c, s)
    ensures var tokens := LexBy(next, s).value; tokens != [] && Joins(tokens[|tokens| - 1])
    decreases |s|
  {
    var t, n := LexUnfold(next, s);
    if n < |s| {
      assert s[n..][|s[n..]| - 1] == s[|s| - 1];
      LastJoinsBy(next, c, s[n..]);
    } else {
      assert StepJoins(next, c, s);
      assert s[n..] == "" && t + [] == t;
    }
  }

  /** A text that ends like `and` or `&&` has a conjunction or another word as its last token. */
  lemma LastJoins(s: string)
    requires Lex(s).Some? && s != "" && (Lower(s[|s| - 1]) == 'd' || s[|s| - 1] == '&')
    ensures Lex(s).value != [] && Joins(Lex(s).value[|Lex(s).value| - 1])
  {
    var c := s[|s| - 1];
    forall x
      ensures StepJoins(NextToken, c, x)
    {
      if x != "" && x[|x| - 1] == c && NextToken(x).Some? && NextToken(x).value.1 == |x| {
        WholeJoins(x, NextToken(x).value.0);
      }
    }
    LastJoinsBy(NextToken, c, s);
  }

  lemma WholeJoins(s: string, t: seq<Token>)
    requires s != "" && NextToken(s) == Some((t, |s|)) && (Lower(s[|s| - 1]) == 'd' || s[|s| - 1] == '&')
    ensures |t| == 1 && Joins(t[0])
  {
    assert Symbol(s[0]) && SymbolLength(s) == 2 ==> Continues(s[1]);
    if Mark(s[0]) {
      EndsInMark(s[0], s[1..]);
    } else if !Delimiter(s[0]) {
      assert s[..|s|] == s;
      EndsInD(s, 0);
    }
  }

  /** The only keywords that end in `d` are `and` and `changed`. */
  lemma {:induction false} EndsInD(w: string, k: nat)
    requires w != "" && Lower(w[|w| - 1]) == 'd'
    ensures Joins(ClassifyFrom(w, k))
    decreases 17 - k
  {
    if k < 17 {
      LastLetter(k);
      EndsInD(w, k + 1);
    }
  }

  lemma LastLetter(k: nat)
    requires k < 17
    ensures KEYWORDS[k] != "" && (KEYWORDS[k][|KEYWORDS[k]| - 1] == 'd' ==> k == 1 || k == 8)
  {
    assert KEYWORDS[k]
           == ["or", "and", "not", "in", "is", "was", "by", "order", "changed", "from", "to", "on", "during", "before",
               "after", "asc", "desc"][k];
  }

  lemma {:induction false} EndsInMark(mark: char, s: string)
    requires TextLength(mark, s) > 0
    ensures s[TextLength(mark, s) - 1] == mark
    decreases |s|
  {
    if s[0] != mark {
      EndsInMark(mark, s[if s[0] == '\\' && |s| > 1 then 2 else 1..]);
    }
  }

}
