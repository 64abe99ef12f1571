/** How the tokens of a filter follow its characters, and agree with the scanner of the guard. */
module FilterText {
  import opened Chars
  import opened Wrappers
  import opened Mask
  import opened ODataQuery
  import FilterTokens

  predicate OneWord(w: string) {
    w != "" && forall i :: 0 <= i < |w| ==> !Delimiter(w[i])
  }

  /** Two texts meet at a space, or one is empty: no token lies across. */
  predicate MeetAtSpace(a: string, b: string) {
    a == "" || b == "" || IsSpace(a[|a| - 1]) || IsSpace(b[0])
  }

  lemma {:induction false} WordLengthConcat(a: string, b: string)
    ensures WordLength(a) < |a| ==> WordLength(a + b) == WordLength(a)
    ensures WordLength(a) == |a| ==> WordLength(a + b) == |a| + WordLength(b)
  {
    if a == "" {
      assert a + b == b;
    } else {
      assert (a + b)[0] == a[0] && (a + b)[1..] == a[1..] + b;
      WordLengthConcat(a[1..], b);
    }
  }

  lemma {:induction false} TextEndConcat(a: string, b: string)
    requires TextEnd(a).Some?
    requires TextEnd(a).value.1 < |a| || b == "" || b[0] != '\''
    ensures TextEnd(a + b) == TextEnd(a)
    decreases |a|
  {
    assert (a + b)[0] == a[0] && (a + b)[1..] == a[1..] + b;
    if a[0] != '\'' {
      TextEndConcat(a[1..], b);
    } else if |a| > 1 && a[1] == '\'' {
      assert (a + b)[1] == a[1] && (a + b)[2..] == a[2..] + b;
      TextEndConcat(a[2..], b);
    }
  }

  /** A token of `a` that ends before `a` does, or that a space follows, is the same in `a + b`. */
  lemma NextTokenConcat(a: string, b: string)
    requires a != "" && NextToken(a).Some? && MeetAtSpace(a, b)
    ensures NextToken(a + b) == NextToken(a)
  {
    assert (a + b)[0] == a[0] && (a + b)[1..] == a[1..] + b;
    if a[0] == '\'' {
      TextEndLast(a[1..]);
      TextEndConcat(a[1..], b);
    } else if !Delimiter(a[0]) {
      WordLengthConcat(a, b);
      var n := WordLength(a);
      assert n == |a| ==> WordLength(b) == 0;
      assert (a + b)[..n] == a[..n];
    }
  }

  /** The tokens of a text are its first one, if any, then those of the rest. */
  lemma LexUnfold(s: string, t: seq<Token>, n: nat)
    requires s != "" && NextToken(s) == Some((t, n))
    ensures Lex(s) == if Lex(s[n..]).Some? then Some(t + Lex(s[n..]).value) else None
  {
  }

  lemma MeetLater(a: string, b: string, n: nat)
    requires MeetAtSpace(a, b) && n <= |a|
    ensures MeetAtSpace(a[n..], b) && (a + b)[n..] == a[n..] + b
  {
    assert n < |a| ==> a[n..][|a[n..]| - 1] == a[|a| - 1];
  }

  lemma {:induction false} LexConcat(a: string, b: string)
    requires Lex(a).Some? && MeetAtSpace(a, b)
    ensures Lex(a + b) == if Lex(b).Some? then Some(Lex(a).value + Lex(b).value) else None
    decreases |a|
  {
    if a == "" {
      assert a + b == b;
      assert Lex(b).Some? ==> [] + Lex(b).value == Lex(b).value;
    } else {
      var (t, n) := NextToken(a).value;
      NextTokenConcat(a, b);
      MeetLater(a, b, n);
      LexUnfold(a, t, n);
      LexUnfold(a + b, t, n);
      LexConcat(a[n..], b);
      if Lex(b).Some? {
        FilterTokens.GroupTokens(t, Lex(a[n..]).value, Lex(b).value);
      }
    }
  }

  lemma LexWord(w: string, s: string)
    requires OneWord(w) && (s == "" || Delimiter(s[0]))
    ensures Lex(w + s) == if Lex(s).Some? then Some([Classify(w)] + Lex(s).value) else None
  {
    WholeWord(w);
    WordLengthConcat(w, s);
    assert (w + s)[0] == w[0];
    assert (w + s)[..|w|] == w && (w + s)[|w|..] == s;
  }

  lemma {:induction false} WholeWord(w: string)
    requires forall i :: 0 <= i < |w| ==> !Delimiter(w[i])
    ensures WordLength(w) == |w|
  {
    if w != "" {
      WholeWord(w[1..]);
    }
  }

  lemma {:induction false} LexSpaces(s: string)
    requires AllSpace(s)
    ensures Lex(s) == Some([])
  {
    if s != "" {
      LexSpaces(s[1..]);
      var none: seq<Token> := [];
      assert NextToken(s) == Some((none, 1)) && none + none == none;
    }
  }

  /** An `or`, in any case, stands at `k`, apart from its neighbours. */
  predicate OrAt(s: string, k: nat) {
    && k + 2 <= |s| && Lower(s[k]) == 'o' && Lower(s[k + 1]) == 'r'
    && (k > 0 ==> Delimiter(s[k - 1]))
    && (k + 2 < |s| ==> Delimiter(s[k + 2]))
  }

  /** The place of an `or` among the characters: what is before it makes the tokens before it. */
  lemma {:induction false} OrPlace(s: string, i: nat) returns (k: nat)
    requires Lex(s).Some? && i < |Lex(s).value| && Lex(s).value[i] == Disjoin
    ensures OrAt(s, k) && TokensUpTo(s, k, i)
    decreases |s|
  {
    NoTokens(s);
    var t, n := FirstOfLex(s);
    if i < |t| {
      k := 0;
      FirstPlace(s, i);
      NothingBefore(s);
    } else {
      TokenPast(t, Lex(s[n..]).value, i);
      var j := OrPlace(s[n..], i - |t|);
      k := n + j;
      LaterPlace(s, n, j);
      LaterTokens(s, i, j, t, n);
    }
  }

  /** The first `k` characters make the first `i` tokens. */
  predicate TokensUpTo(s: string, k: nat, i: nat) {
    k <= |s| && Lex(s).Some? && i <= |Lex(s).value| && Lex(s[..k]) == Some(Lex(s).value[..i])
  }

  lemma NoTokens(s: string)
    requires Lex(s).Some? && Lex(s).value != []
    ensures s != ""
  {
  }

  lemma NothingBefore(s: string)
    requires Lex(s).Some?
    ensures TokensUpTo(s, 0, 0)
  {
    assert s[..0] == "" && Lex(s).value[..0] == [];
  }

  lemma TokenPast(a: seq<Token>, b: seq<Token>, i: nat)
    requires |a| <= i < |a + b|
    ensures i - |a| < |b| && (a + b)[i] == b[i - |a|]
  {
  }

  /** The first token of a text that has tokens, and how much it takes. */
  lemma FirstOfLex(s: string) returns (t: seq<Token>, n: nat)
    requires s != "" && Lex(s).Some?
    ensures NextToken(s) == Some((t, n)) && 0 < n <= |s|
    ensures Lex(s[n..]).Some? && Lex(s).value == t + Lex(s[n..]).value
  {
    t, n := NextToken(s).value.0, NextToken(s).value.1;
  }

  lemma LaterTokens(s: string, i: nat, j: nat, t: seq<Token>, n: nat)
    requires s != "" && NextToken(s) == Some((t, n)) && Lex(s).Some? && |t| <= i <= |Lex(s).value| && n + j <= |s|
    requires TokensUpTo(s[n..], j, i - |t|)
    ensures TokensUpTo(s, n + j, i)
  {
    LexUnfold(s, t, n);
    TokensBefore(s, n, j);
    TakePast(t, Lex(s[n..]).value, i);
  }

  lemma TakePast(a: seq<Token>, b: seq<Token>, i: nat)
    requires |a| <= i <= |a + b|
    ensures (a + b)[..i] == a + b[..i - |a|]
  {
  }

  lemma FirstPlace(s: string, i: nat)
    requires s != "" && NextToken(s).Some? && i < |NextToken(s).value.0| && NextToken(s).value.0[i] == Disjoin
    ensures i == 0 && OrAt(s, 0)
  {
    var w := s[..WordLength(s)];
    assert SameFold(w, "or");
    assert Lower(w[0]) == 'o' && Lower(w[1]) == 'r';
  }

  lemma LaterPlace(s: string, n: nat, j: nat)
    requires s != "" && NextToken(s).Some? && n == NextToken(s).value.1 && OrAt(s[n..], j)
    ensures OrAt(s, n + j)
  {
    if j == 0 {
      TokenEnd(s);
    } else {
      assert s[n + j - 1] == s[n..][j - 1];
    }
  }

  lemma TokensBefore(s: string, n: nat, j: nat)
    requires s != "" && NextToken(s).Some? && NextToken(s).value.1 == n && n + j <= |s|
    requires Lex(s[n..][..j]).Some?
    ensures Lex(s[..n + j]) == Some(NextToken(s).value.0 + Lex(s[n..][..j]).value)
  {
    NextTokenPrefix(s, n + j);
    assert s[..n + j][n..] == s[n..][..j];
    LexUnfold(s[..n + j], NextToken(s).value.0, n);
  }

  /** What is read first is read first again when what follows it is cut. */
  lemma NextTokenPrefix(s: string, k: nat)
    requires s != "" && NextToken(s).Some? && NextToken(s).value.1 <= k <= |s|
    ensures NextToken(s[..k]) == NextToken(s)
  {
    if s[0] == '\'' {
      assert s[..k][1..] == s[1..][..k - 1];
      TextEndPrefix(s[1..], s[..k][1..]);
    } else if !Delimiter(s[0]) {
      WordLengthPrefix(s, s[..k]);
      var n := WordLength(s);
      assert s[..k][..n] == s[..n];
    }
  }

  /** A token is followed by a delimiter or ends with one. */
  lemma TokenEnd(s: string)
    requires s != "" && NextToken(s).Some?
    ensures var n := NextToken(s).value.1; n == |s| || Delimiter(s[n]) || Delimiter(s[n - 1])
  {
    if s[0] == '\'' {
      TextEndLast(s[1..]);
    }
  }

  lemma {:induction false} WordLengthPrefix(s: string, p: string)
    requires |p| <= |s| && s[..|p|] == p && WordLength(s) <= |p|
    ensures WordLength(p) == WordLength(s)
  {
    if p != "" && !Delimiter(s[0]) {
      assert p[0] == s[0];
      WordLengthPrefix(s[1..], p[1..]);
    }
  }

  lemma {:induction false} TextEndPrefix(s: string, p: string)
    requires TextEnd(s).Some? && TextEnd(s).value.1 <= |p| <= |s| && s[..|p|] == p
    ensures TextEnd(p) == TextEnd(s)
    decreases |s|
  {
    assert p[0] == s[0];
    if s[0] != '\'' {
      TextEndPrefix(s[1..], p[1..]);
    } else if |s| > 1 && s[1] == '\'' {
      assert p[1] == s[1];
      TextEndPrefix(s[2..], p[2..]);
    } else {
      assert |p| > 1 ==> p[1] == s[1];
    }
  }

  lemma {:induction false} TextEndLast(s: string)
    requires TextEnd(s).Some?
    ensures s[TextEnd(s).value.1 - 1] == '\''
    decreases |s|
  {
    if s[0] != '\'' {
      TextEndLast(s[1..]);
    } else if |s| > 1 && s[1] == '\'' {
      TextEndLast(s[2..]);
    }
  }

  /** The last token is the word `w`. */
  predicate EndsWith(tokens: seq<Token>, w: string) {
    |tokens| > 0 && tokens[|tokens| - 1] == Classify(w)
  }

  lemma EndsAfter(a: seq<Token>, b: seq<Token>, w: string)
    requires EndsWith(b, w)
    ensures EndsWith(a + b, w)
  {
  }

  /** A text that ends inside a word has that word as its last token. */
  lemma {:induction false} LastToken(s: string) returns (w: string)
    requires Lex(s).Some? && s != "" && !Delimiter(s[|s| - 1])
    ensures LastWord(s, w) && EndsWith(Lex(s).value, w)
    decreases |s|
  {
    var t, n := FirstOfLex(s);
    if n < |s| {
      assert s[n..][|s[n..]| - 1] == s[|s| - 1];
      w := LastToken(s[n..]);
      EndsAfter(t, Lex(s[n..]).value, w);
      TokenEnd(s);
      WordLater(s, n, w);
    } else {
      w := s;
      OnlyToken(s);
      assert s[0..] == s;
    }
  }

  /** `w` is all that no delimiter parts from the end of `s`. */
  predicate LastWord(s: string, w: string) {
    w != "" && !Delimiter(w[0]) && |w| <= |s| && s[|s| - |w|..] == w && (|w| < |s| ==> Delimiter(s[|s| - |w| - 1]))
  }

  lemma WordLater(s: string, n: nat, w: string)
    requires 0 < n < |s| && LastWord(s[n..], w) && (Delimiter(s[n]) || Delimiter(s[n - 1]))
    ensures LastWord(s, w)
  {
    assert s[n..][|s[n..]| - |w|..] == s[|s| - |w|..];
    if |w| < |s[n..]| {
      assert s[n..][|s[n..]| - |w| - 1] == s[|s| - |w| - 1];
    } else {
      assert w[0] == s[n..][0];
    }
  }

  lemma OnlyToken(s: string)
    requires s != "" && NextToken(s).Some? && NextToken(s).value.1 == |s| && !Delimiter(s[|s| - 1])
    ensures Lex(s) == Some([Classify(s)]) && !Delimiter(s[0])
  {
    DelimiterToken(s);
    LexWord(s, "");
    assert s + "" == s && [Classify(s)] + [] == [Classify(s)];
  }

  /** A token that starts with a delimiter ends with one. */
  lemma DelimiterToken(s: string)
    requires s != "" && NextToken(s).Some?
    ensures Delimiter(s[0]) ==> Delimiter(s[NextToken(s).value.1 - 1])
  {
    if s[0] == '\'' {
      TextEndLast(s[1..]);
      var n := NextToken(s).value.1;
      assert s[n - 1] == s[1..][n - 2];
    }
  }

  // ---------- the scanner sees the same strings and depths ----------

  /** Inside a string, the scanner leaves the quote for good where the string ends. */
  lemma {:induction false} ScanText(s: string, depth: nat)
    ensures TextEnd(s).Some? ==>
              Run(ODATA, Place(In('\''), depth, false), s) == Run(ODATA, Place(Bare, depth, false), s[TextEnd(s).value.1..])
    ensures TextEnd(s).None? ==> Run(ODATA, Place(In('\''), depth, false), s) == Some(Place(In('\''), depth, false))
    decreases |s|
  {
    if s != "" {
      if s[0] != '\'' {
        ScanText(s[1..], depth);
      } else if |s| > 1 && s[1] == '\'' {
        assert s[1..][1..] == s[2..];
        ScanText(s[2..], depth);
      }
    }
  }

  lemma ScanWord(s: string, depth: nat)
    requires s != "" && !Delimiter(s[0])
    ensures var at := Place(Bare, depth, false); Run(ODATA, at, s) == Run(ODATA, at, s[WordLength(s)..])
  {
    var at := Place(Bare, depth, false);
    var n := WordLength(s);
    RunPlain(ODATA, at, s[..n]);
    assert s == s[..n] + s[n..];
    RunConcat(ODATA, at, s[..n], s[n..]);
  }

  lemma ScanQuoted(s: string, depth: nat)
    requires s != "" && s[0] == '\''
    ensures var at := Place(Bare, depth, false);
            if NextToken(s).Some? then Run(ODATA, at, s) == Run(ODATA, at, s[NextToken(s).value.1..])
            else Run(ODATA, at, s) == Some(Place(In('\''), depth, false))
  {
    ScanText(s[1..], depth);
    if TextEnd(s[1..]).Some? {
      var n := TextEnd(s[1..]).value.1;
      assert s[1..][n..] == s[n + 1..];
    }
  }

  /** What is none of a string, a word and a blank moves the scanner by one depth, and a blank and a comma by none. */
  lemma ScanOne(s: string, depth: nat)
    requires s != "" && Delimiter(s[0]) && s[0] != '\'' && Run(ODATA, Place(Bare, depth, false), s).Some?
    ensures var d := depth + Depth(NextToken(s).value.0);
            && NextToken(s) == Some((NextToken(s).value.0, 1)) && d >= 0
            && Run(ODATA, Place(Bare, depth, false), s) == Run(ODATA, Place(Bare, d, false), s[1..])
  {
    var t := NextToken(s).value.0;
    if t != [] {
      assert t[1..] == [] && Depth(t[1..]) == 0;
    }
    assert Run(ODATA, Place(Bare, depth, false), s)
           == Run(ODATA, Advance(ODATA, Place(Bare, depth, false), s[0]).value, s[1..]);
  }

  lemma OneFlat(t: Token)
    requires t != Open && t != Close
    ensures Depth([t]) == 0
  {
    assert [t][1..] == [];
  }

  /** Over the first token, the scanner moves as the depth does; a string that is not closed keeps it in the quote. */
  predicate TokenScans(s: string, depth: nat)
    requires s != "" && Run(ODATA, Place(Bare, depth, false), s).Some?
  {
    match NextToken(s)
    case None => Run(ODATA, Place(Bare, depth, false), s).value.quote != Bare
    case Some((t, n)) =>
      depth + Depth(t) >= 0
      && Run(ODATA, Place(Bare, depth, false), s) == Run(ODATA, Place(Bare, depth + Depth(t), false), s[n..])
  }

  lemma ScanQuotedToken(s: string, depth: nat)
    requires s != "" && s[0] == '\'' && Run(ODATA, Place(Bare, depth, false), s).Some?
    ensures TokenScans(s, depth)
  {
    ScanQuoted(s, depth);
    if NextToken(s).Some? {
      OneFlat(NextToken(s).value.0[0]);
    }
  }

  lemma ScanWordToken(s: string, depth: nat)
    requires s != "" && !Delimiter(s[0]) && Run(ODATA, Place(Bare, depth, false), s).Some?
    ensures TokenScans(s, depth)
  {
    ScanWord(s, depth);
    OneFlat(NextToken(s).value.0[0]);
  }

  lemma ScanToken(s: string, depth: nat)
    requires s != "" && Run(ODATA, Place(Bare, depth, false), s).Some?
    ensures TokenScans(s, depth)
  {
    if s[0] == '\'' {
      ScanQuotedToken(s, depth);
    } else if !Delimiter(s[0]) {
      ScanWordToken(s, depth);
    } else {
      ScanOne(s, depth);
    }
  }

  /** A text the scanner leaves outside quotes is a text that has tokens, and the depths agree. */
  lemma {:induction false} ScanTokens(s: string, depth: nat)
    requires Run(ODATA, Place(Bare, depth, false), s).Some?
    ensures var end := Run(ODATA, Place(Bare, depth, false), s).value;
            (end.quote == Bare <==> Lex(s).Some?)
            && (end.quote == Bare ==> depth + Depth(Lex(s).value) >= 0 && end == Place(Bare, depth + Depth(Lex(s).value), false))
    decreases |s|
  {
    if s != "" {
      ScanToken(s, depth);
      if NextToken(s).Some? {
        var (t, n) := NextToken(s).value;
        ScanTokens(s[n..], depth + Depth(t));
        TokensAfter(s);
      }
    }
  }

  lemma TokensAfter(s: string)
    requires s != "" && NextToken(s).Some?
    ensures var (t, n) := NextToken(s).value;
            Lex(s) == (if Lex(s[n..]).Some? then Some(t + Lex(s[n..]).value) else None)
            && (Lex(s).Some? ==> Depth(Lex(s).value) == Depth(t) + Depth(Lex(s[n..]).value))
  {
    var (t, n) := NextToken(s).value;
    if Lex(s[n..]).Some? {
      FilterTokens.DepthConcat(t, Lex(s[n..]).value);
    }
  }

  // ---------- the tokens of the server ----------

  predicate NoMark(c: char) {
    c != '"'
  }

  lemma {:induction false} SameWord(s: string, depth: nat)
    requires OpenAll(ODATA, NoMark, Place(Bare, depth, false), s)
    ensures ServerWordLength(s) == WordLength(s)
  {
    if s != "" && !Delimiter(s[0]) {
      assert Advance(ODATA, Place(Bare, depth, false), s[0]) == Some(Place(Bare, depth, false));
      SameWord(s[1..], depth);
    }
  }

  lemma {:induction false} OpenPastText(s: string, depth: nat)
    requires TextEnd(s).Some? && OpenAll(ODATA, NoMark, Place(In('\''), depth, false), s)
    ensures OpenAll(ODATA, NoMark, Place(Bare, depth, false), s[TextEnd(s).value.1..])
    decreases |s|
  {
    if s[0] != '\'' {
      OpenPastText(s[1..], depth);
    } else if |s| > 1 && s[1] == '\'' {
      assert s[1..][1..] == s[2..];
      OpenPastText(s[2..], depth);
    }
  }

  /** Past a token there is no `"` outside strings either. */
  lemma OpenPastToken(s: string, depth: nat)
    requires s != "" && NextToken(s).Some? && OpenAll(ODATA, NoMark, Place(Bare, depth, false), s)
    requires Run(ODATA, Place(Bare, depth, false), s).Some?
    ensures var (t, n) := NextToken(s).value;
            depth + Depth(t) >= 0 && OpenAll(ODATA, NoMark, Place(Bare, depth + Depth(t), false), s[n..])
  {
    var at := Place(Bare, depth, false);
    var (t, n) := NextToken(s).value;
    if s[0] == '\'' {
      OneFlat(t[0]);
      OpenPastText(s[1..], depth);
      assert s[1..][n - 1..] == s[n..];
    } else if !Delimiter(s[0]) {
      OneFlat(t[0]);
      RunPlain(ODATA, at, s[..n]);
      OpenLater(ODATA, NoMark, at, s, n, at);
    } else {
      ScanOne(s, depth);
      OpenPastOne(s, depth);
    }
  }

  lemma OpenPastOne(s: string, depth: nat)
    requires s != "" && Delimiter(s[0]) && s[0] != '\'' && OpenAll(ODATA, NoMark, Place(Bare, depth, false), s)
    requires Run(ODATA, Place(Bare, depth, false), s).Some?
    ensures var d := depth + Depth(NextToken(s).value.0); d >= 0 && OpenAll(ODATA, NoMark, Place(Bare, d, false), s[1..])
  {
    var t := NextToken(s).value.0;
    if t != [] {
      assert t[1..] == [] && Depth(t[1..]) == 0;
    }
    assert Advance(ODATA, Place(Bare, depth, false), s[0]) == Some(Place(Bare, depth + Depth(t), false));
  }

  /** Where no `"` is outside strings, the server reads the tokens the characters suggest. */
  lemma {:induction false} SameReading(s: string, depth: nat)
    requires OpenAll(ODATA, NoMark, Place(Bare, depth, false), s) && Run(ODATA, Place(Bare, depth, false), s).Some?
    ensures Read(s) == Lex(s)
    decreases |s|
  {
    if s != "" {
      SameWord(s, depth);
      if NextToken(s).Some? {
        var (t, n) := NextToken(s).value;
        ScanToken(s, depth);
        OpenPastToken(s, depth);
        SameReading(s[n..], depth + Depth(t));
      }
    }
  }

  /** Such a text is scanned to its end outside strings exactly when the server has tokens of it, and the depths agree. */
  lemma ScanRead(s: string, depth: nat)
    requires OpenAll(ODATA, NoMark, Place(Bare, depth, false), s) && Run(ODATA, Place(Bare, depth, false), s).Some?
    ensures var end := Run(ODATA, Place(Bare, depth, false), s).value;
            (end.quote == Bare <==> Read(s).Some?)
            && (end.quote == Bare ==> depth + Depth(Read(s).value) >= 0 && end == Place(Bare, depth + Depth(Read(s).value), false))
  {
    ScanTokens(s, depth);
    SameReading(s, depth);
  }
}
