/**
 Where the guard of a JQL query fails: templates it accepts whose queries an issue satisfies that the window does not
 hold, whatever the window. Each breaks one of the conditions of `JqlGuard.JqlWindowKept` alone.
 */
module JqlLimits {
  import opened Chars
  import opened Wrappers
  import opened Mask
  import opened WindowGuard
  import opened Template
  import opened CollapsedTerms
  import opened JqlQuery
  import opened JqlText
  import opened JqlFill
  import opened JqlTop
  import opened JqlGrammar
  import opened JqlOpen
  import opened JqlWindow
  import opened JqlGuard
  import opened JqlHead

  /** A comparison, and another one after an `or` of one bar. */
  const BARRED := HEAD + BARRING
  const BARRING := "a=b|c=d"

  /** The guard takes for a string what stands between an escaped quote and one that opens a string. */
  const QUOTED := HEAD + QUOTING
  const QUOTING := "a=" + ("\\'" + ("||" + ("b=" + "'\\''")))

  /** The guard reads an ordering where a word of the query goes on over a blank that is none for Jira. */
  const FOREIGN := HEAD + MERGING
  const MERGING := "s=" + (MERGED + "||c=d")
  const MERGED := "order\U{A0}by"

  /** The guard reads an ordering where the query goes on with the end of a word and with an `||`. */
  const GLUED := HEAD + GLUING
  const GLUING := GLUE + AFTER
  const GLUE := "s was x-"
  const AFTER := "order by b||c=d"

  // ---------- what they hold outside strings ----------

  lemma HeadIsPlain()
    ensures AllPlain(HEAD)
  {
  }

  lemma HeadIsUsual()
    ensures All(Usual, HEAD) && All(NoBackslash, HEAD) && All(OwnBlank, HEAD)
  {
  }

  /** What a template of this shape holds outside strings. */
  lemma HeadOpen(ok: char -> bool, rest: string)
    requires All(ok, HEAD) && OpenAll(JQL, ok, TOP, rest)
    ensures OpenAll(JQL, ok, TOP, HEAD + rest)
  {
    AllOpen(JQL, ok, TOP, HEAD);
    HeadScan(rest);
    OpenConcat(JQL, ok, TOP, HEAD, rest);
  }

  /** A character of another kind outside strings. */
  lemma NotOpen(ok: char -> bool, text: string, n: nat)
    requires n < |text| && Run(JQL, TOP, text[..n]) == Some(TOP) && !ok(text[n])
    ensures !OpenAll(JQL, ok, TOP, text)
  {
    if OpenAll(JQL, ok, TOP, text) {
      OpenLater(JQL, ok, TOP, text, n, TOP);
    }
  }

  /** Where in a template of this shape the rest is at the top. */
  lemma HeadPlace(rest: string, n: nat)
    requires n < |rest| && Run(JQL, TOP, rest[..n]) == Some(TOP)
    ensures (HEAD + rest)[|HEAD| + n] == rest[n] && Run(JQL, TOP, (HEAD + rest)[..|HEAD| + n]) == Some(TOP)
  {
    assert (HEAD + rest)[..|HEAD| + n] == HEAD + rest[..n];
    HeadScan(rest[..n]);
  }

  // ---------- a template without an ordering ----------

  /** The guard reads clauses to the end. */
  lemma WholeAccepted(alnum: char -> bool, rest: string)
    requires Run(JQL, TOP, rest) == Some(TOP) && FieldsAllowed(HEAD + rest, {CRITERIA})
    requires Calm(MaskFrom(JQL, TOP, rest))
    ensures CheckJqlWindow(alnum, HEAD + rest) == Accepted
    ensures Run(JQL, TOP, HEAD + rest) == Some(TOP) && Cut(alnum, HEAD + rest) == |HEAD + rest|
  {
    var masked := MaskFrom(JQL, TOP, rest);
    HeadScan(rest);
    HeadCalm(masked);
    CalmHasNone(alnum, HEAD + masked);
    assert masked[..|rest|] == masked;
    HeadAccepted(alnum, rest, masked, |rest|);
  }

  /** The conditions on what is left in the open. */
  lemma WholeOpen(alnum: char -> bool, rest: string)
    requires Run(JQL, TOP, rest) == Some(TOP) == Run(JQL, TOP, HEAD + rest)
    requires Cut(alnum, HEAD + rest) == |HEAD + rest|
    ensures OrderApart(alnum, HEAD + rest)
    ensures NoBar(alnum, HEAD + rest) <==> BarFree(MaskFrom(JQL, TOP, rest))
  {
    var masked := MaskFrom(JQL, TOP, rest);
    HeadScan(rest);
    HeadClean();
    assert (HEAD + masked)[..|HEAD + rest|] == HEAD + masked;
    BarsAfter(HEAD, masked);
  }

  lemma BarsAfter(a: string, b: string)
    requires BarFree(a)
    ensures BarFree(a + b) <==> BarFree(b)
  {
    if BarFree(a + b) {
      assert forall i :: 0 <= i < |b| ==> b[i] == (a + b)[|a| + i];
    }
  }

  lemma HeadFilled(rest: string)
    requires NoBrace(rest)
    ensures FieldsAllowed(HEAD + rest, {CRITERIA})
  {
    FormatNoBrace(rest, Blanks({CRITERIA}));
    FillHead(rest, Blanks({CRITERIA}), rest);
  }

  // ---------- short comparisons ----------

  lemma {:induction false} ShortWord(w: string, k: nat)
    requires |w| == 1
    ensures ClassifyFrom(w, k) == Word(w)
    decreases 17 - k
  {
    if k < 17 {
      assert |KEYWORDS[k]| > 1;
      ShortWord(w, k + 1);
    }
  }

  /** A word of one letter. */
  lemma LexLetter(w: string, rest: string)
    requires |w| == 1 && IsLetter(w[0]) && Lex(rest).Some? && (rest == "" || Delimiter(rest[0]))
    ensures Lex(w + rest) == Some([Word(w)] + Lex(rest).value)
  {
    ShortWord(w, 0);
    LexOneWord(w, rest);
  }

  function Compared(name: string, word: string): Expr {
    Clause(Named(name), Compare(Eq), Spelled(word))
  }

  lemma ComparedInOrder(name: string, word: string, rest: seq<Token>)
    ensures [Word(name)] + ([Operator(Eq)] + ([Word(word)] + rest)) == Tokens(Compared(name, word)) + rest
  {
    assert Tokens(Compared(name, word)) == [Word(name), Operator(Eq), Word(word)];
  }

  function Other(): Expr {
    Compared("c", "d")
  }

  lemma LexEquals(name: string, rest: string)
    requires |name| == 1 && IsLetter(name[0]) && Lex(rest).Some? && (rest == "" || !Continues(rest[0]))
    ensures Lex(name + ("=" + rest)) == Some([Word(name)] + ([Operator(Eq)] + Lex(rest).value))
  {
    LexSymbol("=", rest);
    LexLetter(name, "=" + rest);
  }

  lemma LexOther()
    ensures Lex("c" + ("=" + "d")) == Some(Tokens(Other()))
  {
    LexLetter("d", "");
    assert "d" + "" == "d" && [Word("d")] + [] == [Word("d")];
    LexEquals("c", "d");
    assert Tokens(Other()) == [Word("c")] + ([Operator(Eq)] + [Word("d")]);
  }

  // ---------- a lone bar ----------

  lemma BarringText()
    ensures NoBrace(BARRING) && AllPlain(BARRING) && All(Usual, BARRING) && BARRING[3] == '|' && BARRING[0] == 'a'
    ensures Calm(BARRING)
  {
  }

  lemma BarringParts()
    ensures BARRING == "a" + ("=" + ("b" + ("|" + ("c" + ("=" + "d")))))
  {
  }

  lemma BarredIsAccepted(alnum: char -> bool)
    ensures CheckJqlWindow(alnum, BARRED) == Accepted
    ensures Run(JQL, TOP, BARRED) == Some(TOP) && Cut(alnum, BARRED) == |BARRED|
  {
    BarringText();
    MaskPlain(JQL, BARRING);
    HeadFilled(BARRING);
    WholeAccepted(alnum, BARRING);
  }

  /** A template of usual characters, outside strings or not. */
  lemma UsualKept(rest: string)
    requires All(Usual, rest) && NoBrace(rest)
    ensures OpenAll(JQL, NoBackslash, TOP, HEAD + rest) && OpenAll(JQL, OwnBlank, TOP, HEAD + rest)
  {
    HeadIsUsual();
    HeadIsPlain();
    AllOpen(JQL, NoBackslash, TOP, rest);
    AllOpen(JQL, OwnBlank, TOP, rest);
    HeadOpen(NoBackslash, rest);
    HeadOpen(OwnBlank, rest);
  }

  lemma WholeBarred(alnum: char -> bool, rest: string, n: nat)
    requires AllPlain(rest) && NoBrace(rest) && All(Usual, rest) && n < |rest| && rest[n] == '|'
    requires Run(JQL, TOP, HEAD + rest) == Some(TOP) && Cut(alnum, HEAD + rest) == |HEAD + rest|
    ensures MeetsAllBut(alnum, HEAD + rest, {NoLoneBar})
  {
    MaskPlain(JQL, rest);
    WholeOpen(alnum, rest);
    UsualKept(rest);
    AllBut(alnum, HEAD + rest, {NoLoneBar});
  }

  lemma BarredMeets(alnum: char -> bool)
    ensures MeetsAllBut(alnum, BARRED, {NoLoneBar})
  {
    BarringText();
    BarredIsAccepted(alnum);
    WholeBarred(alnum, BARRING, 3);
  }

  lemma LexBarring()
    ensures Lex(BARRING) == Some(Tokens(Compared("a", "b")) + ([Disjoin] + Tokens(Compared("c", "d"))))
  {
    LexOther();
    LexSymbol("|", "c" + ("=" + "d"));
    LexLetter("b", "|" + ("c" + ("=" + "d")));
    LexEquals("a", "b" + ("|" + ("c" + ("=" + "d"))));
    BarringParts();
    ComparedInOrder("a", "b", [Disjoin] + Tokens(Other()));
  }

  lemma OpensPlainly(rest: string, x: Expr, name: string, word: string)
    requires AllPlain(rest) && All(Usual, rest) && rest != "" && !Symbol(rest[0]) && Conjunction(x) && |name| == 1
    requires Lex(rest) == Some(Tokens(x) + ([Disjoin] + Tokens(Compared(name, word))))
    ensures Opens(rest, x, name, Spelled(word))
  {
    PlainReading(rest);
  }

  lemma BarringOpens()
    ensures NoBrace(BARRING) && Opens(BARRING, Compared("a", "b"), "c", Spelled("d"))
  {
    BarringText();
    LexBarring();
    OpensPlainly(BARRING, Compared("a", "b"), "c", "d");
  }

  /**
   With a lone bar the guard fails, whatever the window: every issue with `c = d` satisfies the query, whenever it was
   updated, and there are such issues of any date.
   */
  lemma LoneBarEscapes(alnum: char -> bool, start: string, end: string, a: int, b: int, u: int)
    returns (query: string, e: Expr, issue: Issue)
    requires StampText(start) && StampText(end) && start != end && a < b
    ensures CheckJqlWindow(alnum, BARRED) == Accepted && MeetsAllBut(alnum, BARRED, {NoLoneBar})
    ensures Escapes(BARRED, start, end, a, b, u, Other(), query, e, issue)
  {
    BarredIsAccepted(alnum);
    BarredMeets(alnum);
    BarringOpens();
    query, e, issue := HeadEscapes(BARRING, start, end, a, b, u, Compared("a", "b"), "c", Spelled("d"));
  }

  lemma PlainReading(s: string)
    requires AllPlain(s) && All(Usual, s)
    ensures Read(s) == Lex(s)
  {
    RunPlain(JQL, TOP, s);
    AllOpen(JQL, Usual, TOP, s);
    SameReading(s, 0);
  }

  // ---------- an escaped quote ----------

  /** From a place the scanner goes to the top, with a clean mask. */
  predicate ToTop(at: Place, s: string) {
    Run(JQL, at, s) == Some(TOP) && Clean(MaskFrom(JQL, at, s))
  }

  lemma OneMore(at: Place, c: char, rest: string)
    requires Advance(JQL, at, c).Some? && MaskChar(JQL, at, c) == MASK && ToTop(Advance(JQL, at, c).value, rest)
    ensures ToTop(at, [c] + rest)
  {
    assert ([c] + rest)[1..] == rest;
    CleanConcat([MASK], MaskFrom(JQL, Advance(JQL, at, c).value, rest));
  }

  lemma BothClean(at: Place, a: string, b: string)
    requires Run(JQL, at, a).Some? && Clean(MaskFrom(JQL, at, a)) && ToTop(Run(JQL, at, a).value, b)
    ensures ToTop(at, a + b)
  {
    CleanParts(at, a, b);
  }

  lemma PlainClean(s: string)
    requires AllPlain(s) && Clean(s)
    ensures ToTop(TOP, s)
  {
    MaskPlain(JQL, s);
  }

  lemma {:induction false} MaskIn(mark: char, escaped: bool, s: string)
    requires Passes(mark, s)
    ensures var at := Place(In(mark), 0, escaped);
            Run(JQL, at, s) == Some(Place(In(mark), 0, false)) && Clean(MaskFrom(JQL, at, s))
    decreases |s|
  {
    if |s| > 1 {
      MaskIn(mark, false, s[1..]);
    } else {
      assert s[1..] == "";
    }
  }

  lemma StringToTop(mark: char, inside: string)
    requires Mark(mark) && Passes(mark, inside)
    ensures ToTop(TOP, [mark] + (inside + [mark]))
  {
    var open := Place(In(mark), 0, false);
    OneMore(open, mark, "");
    assert [mark] + "" == [mark];
    MaskIn(mark, false, inside);
    BothClean(open, inside, [mark]);
    OneMore(TOP, mark, inside + [mark]);
  }

  lemma EmptyString()
    ensures ToTop(TOP, "''")
  {
    OneMore(Place(In('\''), 0, false), '\'', "");
    OneMore(TOP, '\'', "'");
    assert "''" == ['\''] + "'" && "'" == ['\''] + "";
  }

  lemma QuotingParts()
    ensures QUOTING == "a=\\" + ((['\''] + ("||b=" + ['\''])) + ("\\" + "''"))
  {
  }

  lemma QuotingMasked()
    ensures ToTop(TOP, QUOTING)
  {
    EmptyString();
    PlainClean("\\");
    BothClean(TOP, "\\", "''");
    StringToTop('\'', "||b=");
    BothClean(TOP, ['\''] + ("||b=" + ['\'']), "\\" + "''");
    PlainClean("a=\\");
    QuotingParts();
    BothClean(TOP, "a=\\", (['\''] + ("||b=" + ['\''])) + ("\\" + "''"));
  }

  lemma QuotingText()
    ensures NoBrace(QUOTING) && All(OwnBlank, QUOTING) && QUOTING[2] == '\\' && QUOTING[..2] == "a="
  {
  }

  lemma CleanIsCalm(masked: string)
    requires Clean(masked)
    ensures Calm(masked) && BarFree(masked)
  {
  }

  lemma QuotedIsAccepted(alnum: char -> bool)
    ensures CheckJqlWindow(alnum, QUOTED) == Accepted
    ensures Run(JQL, TOP, QUOTED) == Some(TOP) && Cut(alnum, QUOTED) == |QUOTED|
  {
    QuotingText();
    QuotingMasked();
    CleanIsCalm(MaskFrom(JQL, TOP, QUOTING));
    HeadFilled(QUOTING);
    WholeAccepted(alnum, QUOTING);
  }

  lemma QuotedMeets(alnum: char -> bool)
    ensures MeetsAllBut(alnum, QUOTED, {NoOpenBackslash})
  {
    QuotedIsAccepted(alnum);
    QuotingMasked();
    CleanIsCalm(MaskFrom(JQL, TOP, QUOTING));
    WholeOpen(alnum, QUOTING);
    QuotedOpen();
    AllBut(alnum, QUOTED, {NoOpenBackslash});
  }

  lemma QuotedOpen()
    ensures OpenAll(JQL, OwnBlank, TOP, QUOTED) && !OpenAll(JQL, NoBackslash, TOP, QUOTED)
  {
    QuotingText();
    HeadIsPlain();
    HeadIsUsual();
    AllOpen(JQL, OwnBlank, TOP, QUOTING);
    HeadOpen(OwnBlank, QUOTING);
    PlainClean("a=");
    HeadPlace(QUOTING, 2);
    NotOpen(NoBackslash, QUOTED, |HEAD| + 2);
  }

  /** A short text that ends with a symbol, before one that continues none. */
  lemma ReadLead(a: string, rest: string, t: seq<Token>)
    requires a != "" && AllPlain(a) && All(Usual, a) && Symbol(a[|a| - 1]) && Lex(a) == Some(t)
    requires Read(rest).Some? && rest != "" && !Continues(rest[0])
    ensures Read(a + rest) == Some(t + Read(rest).value)
  {
    RunPlain(JQL, TOP, a);
    AllOpen(JQL, Usual, TOP, a);
    ReadAfter(a, rest, 0);
  }

  lemma NamePlain(name: string)
    requires |name| == 1 && IsLetter(name[0])
    ensures AllPlain(name + "=") && All(Usual, name + "=") && Lex(name + "=") == Some([Word(name), Operator(Eq)])
  {
    LexEquals(name, "");
    assert name + ("=" + "") == name + "=";
    assert [Word(name)] + ([Operator(Eq)] + []) == [Word(name), Operator(Eq)];
  }

  lemma ReadName(name: string, rest: string)
    requires |name| == 1 && IsLetter(name[0]) && Read(rest).Some? && rest != "" && !Continues(rest[0])
    ensures Read((name + "=") + rest) == Some([Word(name), Operator(Eq)] + Read(rest).value)
  {
    NamePlain(name);
    ReadLead(name + "=", rest, [Word(name), Operator(Eq)]);
  }

  lemma ReadBars(rest: string)
    requires Read(rest).Some? && rest != "" && !Continues(rest[0])
    ensures Read("||" + rest) == Some([Disjoin] + Read(rest).value)
  {
    LexSymbol("||", "");
    assert "||" + "" == "||" && [Disjoin] + [] == [Disjoin];
    ReadLead("||", rest, [Disjoin]);
  }

  /** A word, as Jira reads it, before a symbol. */
  lemma ReadWord(w: string, rest: string)
    requires w != "" && !Stops(w[0]) && JiraWordLength(w + rest) == |w| && Read(rest).Some?
    ensures Read(w + rest) == Some([Classify(w)] + Read(rest).value)
  {
    assert (w + rest)[0] == w[0] && (w + rest)[..|w|] == w && (w + rest)[|w|..] == rest;
    ReadOne(w + rest, [Classify(w)], |w|);
  }

  /** The string of an escaped quote. */
  lemma ReadQuoteString()
    ensures Read("'\\''") == Some([Text("\\'")])
  {
    var s := "'\\''";
    assert s[1..] == "\\''" && s[1..][2..] == "'";
    assert TextLength('\'', s[1..][2..]) == 1;
    assert TextLength('\'', s[1..]) == 3;
    assert s[1..3] == "\\'" && s[4..] == "";
    assert [Text("\\'")] + [] == [Text("\\'")];
    ReadOne(s, [Text("\\'")], 4);
  }

  lemma ReadEscapedQuote(rest: string)
    requires rest != "" && Stops(rest[0]) && Read(rest).Some?
    ensures Read("\\'" + rest) == Some([Word("\\'")] + Read(rest).value)
  {
    assert ("\\'" + rest)[2..] == rest;
    NoKeyword("\\'", 0);
    ReadWord("\\'", rest);
  }

  function QuoteClause(name: string): Expr {
    Clause(Named(name), Compare(Eq), Quoted("\\'"))
  }

  lemma ReadQuoting()
    ensures Read(QUOTING) == Some(Tokens(Compared("a", "\\'")) + ([Disjoin] + Tokens(QuoteClause("b"))))
  {
    var last := "b=" + "'\\''";
    ReadQuoteString();
    ReadName("b", "'\\''");
    assert "b" + "=" == "b=" && "a" + "=" == "a=";
    assert Tokens(QuoteClause("b")) == [Word("b"), Operator(Eq)] + [Text("\\'")];
    ReadBars(last);
    ReadEscapedQuote("||" + last);
    ReadName("a", "\\'" + ("||" + last));
    ComparedTokens("a", "\\'", [Disjoin] + Tokens(QuoteClause("b")));
  }

  /**
   With a backslash outside strings the guard fails, whatever the window: every issue for which `b` is a quote satisfies
   the query, whenever it was updated, and there are such issues of any date.
   */
  lemma EscapedQuoteEscapes(alnum: char -> bool, start: string, end: string, a: int, b: int, u: int)
    returns (query: string, e: Expr, issue: Issue)
    requires StampText(start) && StampText(end) && start != end && a < b
    ensures CheckJqlWindow(alnum, QUOTED) == Accepted && MeetsAllBut(alnum, QUOTED, {NoOpenBackslash})
    ensures Escapes(QUOTED, start, end, a, b, u, QuoteClause("b"), query, e, issue)
  {
    QuotedIsAccepted(alnum);
    QuotedMeets(alnum);
    QuotingText();
    ReadQuoting();
    query, e, issue := HeadEscapes(QUOTING, start, end, a, b, u, Compared("a", "\\'"), "b", Quoted("\\'"));
  }

  // ---------- an ordering that is none ----------

  /** The first `order by` is after a clean text. */
  lemma CutAt(alnum: char -> bool, s: string, cut: nat)
    requires cut <= |s| && OrderByAt(alnum, s, cut) && Clean(s[..cut])
    ensures FirstOrderBy(alnum, s, 0) == cut
  {
    forall j | 0 <= j < cut
      ensures !OrderByAt(alnum, s, j)
    {
      assert s[j] == s[..cut][j];
      assert j + 5 <= |s| ==> s[j..j + 5][0] == s[j];
    }
  }

  lemma OrderByHere(alnum: char -> bool, a: string, blank: char, b: string)
    requires a != "" && !IsWord(alnum, a[|a| - 1]) && IsSpace(blank) && b != "" && !IsWord(alnum, b[0])
    ensures OrderByAt(alnum, a + ("order" + ([blank] + ("by" + b))), |a|)
  {
    var rest := "by" + b;
    OrderSlices(a, blank, rest);
    ByFirst(b);
    SkipAll([blank], rest);
    OrderByFrom(alnum, a + ("order" + ([blank] + rest)), |a|, rest);
  }

  lemma ByFirst(b: string)
    requires b != ""
    ensures var rest := "by" + b; rest[..2] == "by" && rest[2] == b[0] && !IsSpace(rest[0])
  {
  }

  lemma OrderByFrom(alnum: char -> bool, s: string, i: nat, rest: string)
    requires 0 < i && i + 5 < |s| && s[i..i + 5] == "order" && IsSpace(s[i + 5]) && !IsWord(alnum, s[i - 1])
    requires SkipSpaces(s[i + 5..]) == rest && |rest| > 2 && rest[..2] == "by" && !IsWord(alnum, rest[2])
    ensures OrderByAt(alnum, s, i)
  {
  }

  lemma OrderSlices(a: string, blank: char, rest: string)
    requires a != ""
    ensures var s := a + ("order" + ([blank] + rest));
            && s[|a|..|a| + 5] == "order" && s[|a| + 5..] == [blank] + rest && s[|a| - 1] == a[|a| - 1]
            && s[|a| + 5] == blank
  {
  }

  /** The same in a template of this shape. */
  lemma OrdersAfter(alnum: char -> bool, a: string, blank: char, b: string)
    requires a != "" && !IsWord(alnum, a[|a| - 1]) && IsSpace(blank) && b != "" && !IsWord(alnum, b[0])
    ensures OrderByAt(alnum, HEAD + (a + ("order" + ([blank] + ("by" + b)))), |HEAD| + |a|)
  {
    var order := "order" + ([blank] + ("by" + b));
    assert (HEAD + a)[|HEAD + a| - 1] == a[|a| - 1];
    OrderByHere(alnum, HEAD + a, blank, b);
    Assoc(HEAD, a, order);
  }

  /** A template of this shape whose clauses the guard reads up to an ordering. */
  lemma CutAccepted(alnum: char -> bool, rest: string, cut: nat)
    requires AllPlain(rest) && NoBrace(rest) && 0 < cut < |rest| && Clean(rest[..cut])
    requires OrderByAt(alnum, HEAD + rest, |HEAD| + cut)
    ensures CheckJqlWindow(alnum, HEAD + rest) == Accepted && NoBar(alnum, HEAD + rest)
    ensures OrderApart(alnum, HEAD + rest) <==> Separates(rest[cut - 1])
  {
    MaskPlain(JQL, rest);
    HeadScan(rest);
    HeadFilled(rest);
    CutPrefix(rest, cut);
    CutAt(alnum, HEAD + rest, |HEAD| + cut);
    CleanIsCalm(rest[..cut]);
    HeadAccepted(alnum, rest, rest, cut);
    assert (HEAD + rest)[|HEAD| + cut - 1] == rest[cut - 1];
  }

  lemma CutPrefix(rest: string, cut: nat)
    requires cut <= |rest| && Clean(rest[..cut])
    ensures (HEAD + rest)[..|HEAD| + cut] == HEAD + rest[..cut] && Clean((HEAD + rest)[..|HEAD| + cut])
    ensures BarFree((HEAD + rest)[..|HEAD| + cut])
  {
    HeadClean();
    CleanConcat(HEAD, rest[..cut]);
    assert (HEAD + rest)[..|HEAD| + cut] == HEAD + rest[..cut];
  }

  // ---------- the glued ordering ----------

  lemma KeywordsHere()
    ensures Classify("was") == Was && Classify("by") == By && Classify("x-order") == Word("x-order")
  {
    assert KEYWORDS[5] == "was" && KEYWORDS[6] == "by" && KEYWORDS[1] == "and" && KEYWORDS[2] == "not";
    assert "was"[0] == 'w' && "and"[0] == 'a' && "not"[0] == 'n' && "by"[0] == 'b';
    LaterWord("was", 0, 5);
    LaterWord("by", 0, 6);
    LongWord("x-order", 0);
  }

  lemma {:induction false} LaterWord(w: string, k: nat, m: nat)
    requires k <= m < 17 && forall j :: k <= j < m ==> !SameFold(w, KEYWORDS[j])
    ensures ClassifyFrom(w, k) == ClassifyFrom(w, m)
    decreases m - k
  {
    if k < m {
      LaterWord(w, k + 1, m);
    }
  }

  lemma LexSpaced(w: string, rest: string, t: Token)
    requires OneWord(w) && Classify(w) == t && Lex(rest).Some?
    ensures Lex(w + (" " + rest)) == Some([t] + Lex(rest).value)
  {
    LexSpace(' ', rest);
    LexOneWord(w, " " + rest);
  }

  function Moved(): Expr {
    History(Named("s"), Having(false, false, Spelled("x-order")), [ByAuthor(Spelled("b"))])
  }

  lemma LexMoved(rest: string)
    requires rest != "" && Delimiter(rest[0]) && Lex(rest).Some?
    ensures Lex("s" + (" " + ("was" + (" " + ("x-order" + (" " + ("by" + (" " + ("b" + rest)))))))))
            == Some(Tokens(Moved()) + Lex(rest).value)
  {
    LexLetter("b", rest);
    LexMovedWords("b" + rest);
    MovedInOrder(Lex(rest).value);
  }

  lemma LexMovedWords(rest: string)
    requires Lex(rest).Some?
    ensures Lex("s" + (" " + ("was" + (" " + ("x-order" + (" " + ("by" + (" " + rest))))))))
            == Some([Word("s")] + ([Was] + ([Word("x-order")] + ([By] + Lex(rest).value))))
  {
    KeywordsHere();
    ShortWord("s", 0);
    WordsHere();
    LexFourWords("s", "was", "x-order", "by", rest);
  }

  lemma WordsHere()
    ensures OneWord("s") && OneWord("was") && OneWord("x-order") && OneWord("by")
  {
  }

  lemma MovedInOrder(rest: seq<Token>)
    ensures [Word("s")] + ([Was] + ([Word("x-order")] + ([By] + ([Word("b")] + rest)))) == Tokens(Moved()) + rest
  {
    MovedSpelled();
  }

  lemma MovedSpelled()
    ensures Tokens(Moved()) == [Word("s"), Was, Word("x-order"), By, Word("b")]
  {
    var author := ByAuthor(Spelled("b"));
    assert [author][1..] == [] && DetailTokens([author]) == author.Tokens() == [By, Word("b")];
    assert Having(false, false, Spelled("x-order")).Tokens() == [Was, Word("x-order")];
  }

  lemma LexFourWords(a: string, b: string, c: string, d: string, rest: string)
    requires OneWord(a) && OneWord(b) && OneWord(c) && OneWord(d) && Lex(rest).Some?
    ensures Lex(a + (" " + (b + (" " + (c + (" " + (d + (" " + rest))))))))
            == Some([Classify(a)] + ([Classify(b)] + ([Classify(c)] + ([Classify(d)] + Lex(rest).value))))
  {
    LexSpaced(d, rest, Classify(d));
    var three := d + (" " + rest);
    LexSpaced(c, three, Classify(c));
    var two := c + (" " + three);
    LexSpaced(b, two, Classify(b));
    LexSpaced(a, b + (" " + two), Classify(a));
  }

  lemma GluingText()
    ensures GLUING == "s" + (" " + ("was" + (" " + ("x-order" + (" " + ("by" + (" " + ("b" + ("||" + ("c" + ("=" + "d")))))))))))
  {
  }

  lemma LexGluing()
    ensures Lex(GLUING) == Some(Tokens(Moved()) + ([Disjoin] + Tokens(Other())))
  {
    LexOther();
    LexSymbol("||", "c" + ("=" + "d"));
    LexMoved("||" + ("c" + ("=" + "d")));
    GluingText();
  }

  lemma GlueText()
    ensures NoBrace(GLUE) && AllPlain(GLUE) && All(Usual, GLUE) && Clean(GLUE) && GLUE[|GLUE| - 1] == '-'
  {
  }

  lemma GluedAfterText()
    ensures NoBrace(AFTER) && AllPlain(AFTER) && All(Usual, AFTER)
    ensures AFTER == "order" + ([' '] + ("by" + " b||c=d"))
  {
  }

  lemma GluingIsPlain()
    ensures NoBrace(GLUING) && AllPlain(GLUING) && All(Usual, GLUING) && GLUING[..|GLUE|] == GLUE && Clean(GLUE)
    ensures GLUING[|GLUE| - 1] == '-' && GLUING[0] == 's'
  {
    GlueText();
    GluedAfterText();
    assert forall i :: 0 <= i < |GLUING| ==> GLUING[i] == if i < |GLUE| then GLUE[i] else AFTER[i - |GLUE|];
  }

  lemma GluedOrders(alnum: char -> bool)
    ensures OrderByAt(alnum, GLUED, |HEAD| + |GLUE|)
  {
    GlueText();
    GluedAfterText();
    OrdersAfter(alnum, GLUE, ' ', " b||c=d");
  }

  lemma CutGlued(alnum: char -> bool, rest: string, cut: nat)
    requires AllPlain(rest) && NoBrace(rest) && All(Usual, rest) && 0 < cut < |rest| && Clean(rest[..cut])
    requires OrderByAt(alnum, HEAD + rest, |HEAD| + cut) && !Separates(rest[cut - 1])
    ensures CheckJqlWindow(alnum, HEAD + rest) == Accepted && MeetsAllBut(alnum, HEAD + rest, {OrderStandsApart})
  {
    CutAccepted(alnum, rest, cut);
    UsualKept(rest);
    AllBut(alnum, HEAD + rest, {OrderStandsApart});
  }

  lemma GluedIsAccepted(alnum: char -> bool)
    ensures CheckJqlWindow(alnum, GLUED) == Accepted && MeetsAllBut(alnum, GLUED, {OrderStandsApart})
  {
    GluingIsPlain();
    GluedOrders(alnum);
    CutGlued(alnum, GLUING, |GLUE|);
  }

  lemma GluingOpens()
    ensures NoBrace(GLUING) && Opens(GLUING, Moved(), "c", Spelled("d"))
  {
    GluingIsPlain();
    LexGluing();
    MovedShape();
    OpensPlainly(GLUING, Moved(), "c", "d");
  }

  lemma MovedShape()
    ensures Conjunction(Moved())
  {
    var author := ByAuthor(Spelled("b"));
    assert [author][1..] == [] && ValidDetails([author]);
  }

  /**
   With an ordering that goes on from a word the guard fails, whatever the window: every issue with `c = d` satisfies the
   query, whenever it was updated, and there are such issues of any date.
   */
  lemma GluedOrderEscapes(alnum: char -> bool, start: string, end: string, a: int, b: int, u: int)
    returns (query: string, e: Expr, issue: Issue)
    requires StampText(start) && StampText(end) && start != end && a < b
    ensures CheckJqlWindow(alnum, GLUED) == Accepted && MeetsAllBut(alnum, GLUED, {OrderStandsApart})
    ensures Escapes(GLUED, start, end, a, b, u, Other(), query, e, issue)
  {
    GluedIsAccepted(alnum);
    GluingOpens();
    query, e, issue := HeadEscapes(GLUING, start, end, a, b, u, Moved(), "c", Spelled("d"));
  }

  // ---------- the merged ordering ----------

  lemma {:induction false} WholeJiraWord(w: string, rest: string)
    requires (forall i :: 0 <= i < |w| ==> !Stops(w[i]) && w[i] != '\\') && rest != "" && Stops(rest[0])
    ensures JiraWordLength(w + rest) == |w|
  {
    if w != "" {
      assert (w + rest)[0] == w[0] && (w + rest)[1..] == w[1..] + rest;
      WholeJiraWord(w[1..], rest);
    } else {
      assert w + rest == rest;
    }
  }

  lemma MergedText()
    ensures forall i :: 0 <= i < |MERGED| ==> !Stops(MERGED[i]) && MERGED[i] != '\\'
    ensures AllPlain(MERGED) && NoBrace(MERGED) && MERGED[5] == '\U{A0}'
    ensures MERGED == "order" + (['\U{A0}'] + "by")
  {
  }

  lemma MergingText()
    ensures NoBrace(MERGING) && AllPlain(MERGING) && All(NoBackslash, MERGING)
    ensures MERGING[..2] == "s=" && MERGING[7] == MERGED[5]
  {
    MergedText();
    assert forall i :: 0 <= i < |MERGING| ==>
        MERGING[i] == if i < 2 then "s="[i] else if i < 2 + |MERGED| then MERGED[i - 2] else "||c=d"[i - 2 - |MERGED|];
  }

  lemma MergingOrder()
    ensures MERGING == "s=" + ("order" + (['\U{A0}'] + ("by" + "||c=d")))
  {
    MergedText();
    assert ("order" + (['\U{A0}'] + "by")) + "||c=d" == "order" + (['\U{A0}'] + ("by" + "||c=d"));
  }

  lemma MergedOrders(alnum: char -> bool)
    ensures OrderByAt(alnum, FOREIGN, |HEAD| + 2)
  {
    OrdersAfter(alnum, "s=", '\U{A0}', "||c=d");
    MergingOrder();
  }

  lemma CutForeign(alnum: char -> bool, rest: string, cut: nat)
    requires AllPlain(rest) && NoBrace(rest) && 0 < cut < |rest| && Clean(rest[..cut])
    requires OrderByAt(alnum, HEAD + rest, |HEAD| + cut) && Separates(rest[cut - 1])
    requires OpenAll(JQL, NoBackslash, TOP, HEAD + rest) && !OpenAll(JQL, OwnBlank, TOP, HEAD + rest)
    ensures CheckJqlWindow(alnum, HEAD + rest) == Accepted && MeetsAllBut(alnum, HEAD + rest, {OwnBlanks})
  {
    CutAccepted(alnum, rest, cut);
    OnlyBlanks(alnum, HEAD + rest);
  }

  lemma OnlyBlanks(alnum: char -> bool, jql: string)
    requires NoBar(alnum, jql) && OrderApart(alnum, jql) && OpenAll(JQL, NoBackslash, TOP, jql)
    requires !OpenAll(JQL, OwnBlank, TOP, jql)
    ensures MeetsAllBut(alnum, jql, {OwnBlanks})
  {
    AllBut(alnum, jql, {OwnBlanks});
  }

  lemma ForeignIsAccepted(alnum: char -> bool)
    ensures CheckJqlWindow(alnum, FOREIGN) == Accepted && MeetsAllBut(alnum, FOREIGN, {OwnBlanks})
  {
    MergingText();
    MergedOrders(alnum);
    ForeignOpen();
    CutForeign(alnum, MERGING, 2);
  }

  lemma ForeignOpen()
    ensures OpenAll(JQL, NoBackslash, TOP, FOREIGN) && !OpenAll(JQL, OwnBlank, TOP, FOREIGN)
  {
    MergingText();
    MergedText();
    HeadIsPlain();
    HeadIsUsual();
    AllOpen(JQL, NoBackslash, TOP, MERGING);
    HeadOpen(NoBackslash, MERGING);
    RunPlain(JQL, TOP, MERGING[..7]);
    HeadPlace(MERGING, 7);
    NotOpen(OwnBlank, FOREIGN, |HEAD| + 7);
  }

  lemma ReadMerging()
    ensures Read(MERGING) == Some(Tokens(Compared("s", MERGED)) + ([Disjoin] + Tokens(Other())))
  {
    LexOther();
    OtherIsPlain();
    PlainReading("c" + ("=" + "d"));
    ReadBars("c" + ("=" + "d"));
    MergedText();
    LongWord(MERGED, 0);
    WholeJiraWord(MERGED, "||c=d");
    ReadWord(MERGED, "||c=d");
    ReadName("s", MERGED + "||c=d");
    assert "s" + "=" == "s=";
    ComparedTokens("s", MERGED, [Disjoin] + Tokens(Other()));
  }

  lemma OtherIsPlain()
    ensures var s := "c" + ("=" + "d"); AllPlain(s) && All(Usual, s) && "||" + s == "||c=d"
  {
  }

  lemma ComparedTokens(name: string, word: string, rest: seq<Token>)
    ensures [Word(name), Operator(Eq)] + ([Word(word)] + rest) == Tokens(Compared(name, word)) + rest
  {
    assert Tokens(Compared(name, word)) == [Word(name), Operator(Eq), Word(word)];
  }

  /**
   With a blank that is none for Jira the guard fails, whatever the window: every issue with `c = d` satisfies the query,
   whenever it was updated, and there are such issues of any date.
   */
  lemma ForeignBlankEscapes(alnum: char -> bool, start: string, end: string, a: int, b: int, u: int)
    returns (query: string, e: Expr, issue: Issue)
    requires StampText(start) && StampText(end) && start != end && a < b
    ensures CheckJqlWindow(alnum, FOREIGN) == Accepted && MeetsAllBut(alnum, FOREIGN, {OwnBlanks})
    ensures Escapes(FOREIGN, start, end, a, b, u, Other(), query, e, issue)
  {
    ForeignIsAccepted(alnum);
    MergingText();
    ReadMerging();
    query, e, issue := HeadEscapes(MERGING, start, end, a, b, u, Compared("s", MERGED), "c", Spelled("d"));
  }
}
