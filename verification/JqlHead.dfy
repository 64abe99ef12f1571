/** Templates that start with the window term: when the guard accepts them, and how their queries read. */
module JqlHead {
  import opened Chars
  import opened Wrappers
  import opened Mask
  import opened WindowGuard
  import opened Template
  import opened CollapsedTerms
  import opened JqlQuery
  import opened JqlText
  import opened JqlFill
  import opened JqlTop
  import opened JqlGrammar
  import opened JqlOpen
  import opened JqlWindow
  import opened JqlGuard

  const TERM := "updated > {date_criteria}"
  const HEAD := "updated > {date_criteria}&&"

  // ---------- accepted ----------

  /** No `or`, no `||` and no ordering can stand in it. */
  predicate Clean(masked: string) {
    forall i :: 0 <= i < |masked| ==> Lower(masked[i]) != 'o' && masked[i] != '|'
  }

  /** No `or`, no `||` and no ordering are in it. */
  predicate Calm(masked: string) {
    (forall i :: 0 <= i < |masked| ==> Lower(masked[i]) != 'o') && !HasBars(masked)
  }

  lemma CleanConcat(a: string, b: string)
    requires Clean(a) && Clean(b)
    ensures Clean(a + b)
  {
  }

  /** The masks of two parts. */
  lemma CleanParts(at: Place, a: string, b: string)
    requires Run(JQL, at, a).Some? && Clean(MaskFrom(JQL, at, a)) && Clean(MaskFrom(JQL, Run(JQL, at, a).value, b))
    ensures Clean(MaskFrom(JQL, at, a + b)) && Run(JQL, at, a + b) == Run(JQL, Run(JQL, at, a).value, b)
  {
    RunConcat(JQL, at, a, b);
    MaskConcat(JQL, at, a, b);
    CleanConcat(MaskFrom(JQL, at, a), MaskFrom(JQL, Run(JQL, at, a).value, b));
  }

  lemma HeadScan(rest: string)
    ensures Run(JQL, TOP, HEAD) == Some(TOP) && MaskFrom(JQL, TOP, HEAD) == HEAD
    ensures Run(JQL, TOP, HEAD + rest) == Run(JQL, TOP, rest)
    ensures MaskFrom(JQL, TOP, HEAD + rest) == HEAD + MaskFrom(JQL, TOP, rest)
  {
    MaskPlain(JQL, HEAD);
    RunConcat(JQL, TOP, HEAD, rest);
    MaskConcat(JQL, TOP, HEAD, rest);
  }

  lemma TermText()
    ensures TERM == "updated" + " " + ">" + " " + Hole(CRITERIA) && JiraTerm(TERM)
  {
    assert TERM[7..] == " > {date_criteria}";
  }

  lemma CollapseTerm()
    ensures Collapse(TERM) == TERM && JiraTerm(TERM)
  {
    TermText();
    CriteriaName();
    WordsCollapse("", "updated", " ", ">", " ", Hole(CRITERIA), "");
    Gathered("", "updated", ">", Hole(CRITERIA), "");
    assert "" + ((TERM) + "") == TERM;
  }

  lemma StartsWithTerm(text: string)
    requires |text| >= |HEAD| && text[..|HEAD|] == HEAD
    ensures text[0..|TERM|] == TERM
  {
    assert text[0..|TERM|] == text[..|HEAD|][..|TERM|];
    assert HEAD == TERM + "&&";
  }

  lemma HeadTerm(alnum: char -> bool, text: string, masked: string)
    requires |text| == |masked| >= |HEAD| && text[..|HEAD|] == HEAD && masked[..|HEAD|] == HEAD
    ensures var terms := Terms(alnum, true, text, masked); exists i :: 0 <= i < |terms| && JiraTerm(terms[i])
  {
    var p := |TERM|;
    HeadSeparators(alnum, masked);
    TermsFirst(Separators(alnum, true, masked), text, 0, 0, p);
    CollapseTerm();
    StartsWithTerm(text);
    assert JiraTerm(Terms(alnum, true, text, masked)[0]);
  }

  lemma HeadSeparators(alnum: char -> bool, masked: string)
    requires |masked| >= |HEAD| && masked[..|HEAD|] == HEAD
    ensures forall j :: 0 <= j < |TERM| ==> SeparatorAt(alnum, true, masked, j) == 0
    ensures SeparatorAt(alnum, true, masked, |TERM|) > 0
  {
    assert forall j :: 0 <= j < |HEAD| ==> masked[j] == HEAD[j];
    forall j | 0 <= j <= |TERM|
      ensures !KeywordAt(alnum, masked, j, "and")
    {
      assert Lower(HEAD[j + 1]) != 'n';
      assert j + 3 <= |masked| ==> masked[j..j + 3][1] == masked[j + 1];
    }
    assert forall j :: 0 <= j < |TERM| ==> HEAD[j] != '&';
  }

  lemma CalmHasNone(alnum: char -> bool, masked: string)
    requires Calm(masked)
    ensures !HasKeyword(alnum, masked, "or") && FirstOrderBy(alnum, masked, 0) == |masked|
  {
    forall i | 0 <= i <= |masked|
      ensures !KeywordAt(alnum, masked, i, "or") && !OrderByAt(alnum, masked, i)
    {
      assert i + 2 <= |masked| ==> masked[i..i + 2][0] == masked[i];
      assert i + 5 <= |masked| ==> masked[i..i + 5][0] == masked[i];
    }
  }

  lemma HeadCalm(masked: string)
    requires Calm(masked)
    ensures Calm(HEAD + masked)
  {
    HeadClean();
    CalmAfter(HEAD, masked);
  }

  lemma CalmAfter(a: string, b: string)
    requires Clean(a) && Calm(b)
    ensures Calm(a + b)
  {
    assert forall i :: 0 <= i < |a + b| ==> (a + b)[i] == if i < |a| then a[i] else b[i - |a|];
  }

  lemma HeadClean()
    ensures Clean(HEAD)
  {
  }

  lemma AcceptedBy(alnum: char -> bool, jql: string, masked: string, cut: nat)
    requires FieldsAllowed(jql, {CRITERIA}) && Masked(JQL, jql) == Success(masked)
    requires FirstOrderBy(alnum, masked, 0) == cut && |HEAD| <= cut <= |jql| == |masked| && Calm(masked[..cut])
    requires jql[..|HEAD|] == HEAD && masked[..|HEAD|] == HEAD
    ensures CheckJqlWindow(alnum, jql) == Accepted
  {
    CalmHasNone(alnum, masked[..cut]);
    assert jql[..cut][..|HEAD|] == jql[..|HEAD|] && masked[..cut][..|HEAD|] == masked[..|HEAD|];
    HeadTerm(alnum, jql[..cut], masked[..cut]);
  }

  lemma HeadMasked(rest: string)
    requires Run(JQL, TOP, rest) == Some(TOP)
    ensures Masked(JQL, HEAD + rest) == Success(HEAD + MaskFrom(JQL, TOP, rest)) && |MaskFrom(JQL, TOP, rest)| == |rest|
  {
    HeadScan(rest);
  }

  lemma HeadPrefix(masked: string, cut: nat)
    requires cut <= |masked| && Calm(masked[..cut])
    ensures Calm((HEAD + masked)[..|HEAD| + cut])
  {
    HeadCalm(masked[..cut]);
    assert (HEAD + masked)[..|HEAD| + cut] == HEAD + masked[..cut];
  }

  lemma StartsWhole(head: string, rest: string)
    ensures (head + rest)[..|head|] == head
  {
  }

  lemma AcceptedAfter(alnum: char -> bool, head: string, rest: string, masked: string, cut: nat)
    requires head == HEAD && FieldsAllowed(head + rest, {CRITERIA}) && Masked(JQL, head + rest) == Success(head + masked)
    requires FirstOrderBy(alnum, head + masked, 0) == cut && |head| <= cut <= |head + rest| == |head + masked|
    requires Calm((head + masked)[..cut])
    ensures CheckJqlWindow(alnum, head + rest) == Accepted
  {
    StartsWhole(head, rest);
    StartsWhole(head, masked);
    AcceptedBy(alnum, head + rest, head + masked, cut);
  }

  /** A template of this shape is accepted, when what is read of it before the cut is calm. */
  lemma HeadAccepted(alnum: char -> bool, rest: string, masked: string, cut: nat)
    requires FieldsAllowed(HEAD + rest, {CRITERIA}) && Run(JQL, TOP, rest) == Some(TOP)
    requires masked == MaskFrom(JQL, TOP, rest) && cut <= |rest| == |masked| && Calm(masked[..cut])
    requires FirstOrderBy(alnum, HEAD + masked, 0) == |HEAD| + cut
    ensures CheckJqlWindow(alnum, HEAD + rest) == Accepted
  {
    HeadMasked(rest);
    HeadPrefix(masked, cut);
    AcceptedAfter(alnum, HEAD, rest, masked, |HEAD| + cut);
  }

  // ---------- read ----------

  lemma FillHead(rest: string, values: Values, filled: string)
    requires CRITERIA in values && Format(rest, values) == Some(filled)
    ensures Format(HEAD + rest, values) == Some("updated > " + (values[CRITERIA] + ("&&" + filled)))
  {
    HeadParts(rest);
    FillParts("updated > ", "&&", rest, values, filled);
  }

  lemma HeadParts(rest: string)
    ensures HEAD + rest == "updated > " + (Hole(CRITERIA) + ("&&" + rest))
  {
  }

  lemma FillParts(a: string, b: string, rest: string, values: Values, filled: string)
    requires NoBrace(a) && NoBrace(b) && CRITERIA in values && Format(rest, values) == Some(filled)
    ensures Format(a + (Hole(CRITERIA) + (b + rest)), values) == Some(a + (values[CRITERIA] + (b + filled)))
  {
    FormatNoBrace(a, values);
    FormatNoBrace(b, values);
    FormatConcat(b, rest, values);
    CriteriaName();
    HoleStep(CRITERIA, b + rest, values);
    FormatConcat(a, Hole(CRITERIA) + (b + rest), values);
  }

  /** The criteria from its link on. */
  lemma LexLink(end: string, rest: string)
    requires StampText(end) && Lex(rest).Some?
    ensures Lex(LINK + (InQuotes(end) + rest)) == Some(LinkTokens(end) + Lex(rest).value)
  {
    var q := InQuotes(end) + rest;
    LexQuote(end, rest);
    LexLe(q);
    var le := " " + ("<=" + (" " + q));
    LexUpdated(le);
    LexAnd("updated" + le);
    LinkText(q);
    LinkInOrder(end, Lex(rest).value);
  }

  lemma LinkText(q: string)
    ensures LINK + q == " " + ("AND" + (" " + ("updated" + (" " + ("<=" + (" " + q))))))
  {
  }

  function LinkTokens(end: string): seq<Token> {
    [Conjoin, Word("updated"), Operator(Le), Text(end)]
  }

  lemma LinkInOrder(end: string, rest: seq<Token>)
    ensures [Conjoin] + ([Word("updated")] + ([Operator(Le)] + ([Text(end)] + rest))) == LinkTokens(end) + rest
  {
  }

  lemma LexSymbol(symbol: string, rest: string)
    requires symbol == "&&" || symbol == "||" || symbol == "=" || symbol == "|"
    requires Lex(rest).Some? && (rest == "" || !Continues(rest[0]))
    ensures Lex(symbol + rest)
            == Some([if symbol == "&&" then Conjoin else if symbol == "=" then Operator(Eq) else Disjoin] + Lex(rest).value)
  {
    var s := symbol + rest;
    assert |symbol| == 1 && rest != "" ==> s[1] == rest[0];
    assert s[0] == symbol[0] && s[|symbol|..] == rest && (|symbol| == 2 ==> s[1] == symbol[1]);
  }

  lemma LexHead(filled: string, start: string, end: string)
    requires StampText(start) && StampText(end) && Lex(filled).Some? && (filled == "" || !Continues(filled[0]))
    ensures Lex("updated > " + (Between(start, end) + ("&&" + filled)))
            == Some(WindowTokens("updated", start, end) + ([Conjoin] + Lex(filled).value))
  {
    var tail := "&&" + filled;
    LexSymbol("&&", filled);
    LexLink(end, tail);
    var link := LINK + (InQuotes(end) + tail);
    LexQuote(start, link);
    var bound := InQuotes(start) + link;
    LexSpace(' ', bound);
    LexRelation(">", " " + bound);
    LexSpace(' ', ">" + (" " + bound));
    LexUpdated(" " + (">" + (" " + bound)));
    HeadText(filled, start, end);
    HeadInOrder(start, end, [Conjoin] + Lex(filled).value);
  }

  lemma HeadText(filled: string, start: string, end: string)
    ensures "updated > " + (Between(start, end) + ("&&" + filled))
            == "updated" + (" " + (">" + (" " + (InQuotes(start) + (LINK + (InQuotes(end) + ("&&" + filled)))))))
  {
  }

  lemma HeadInOrder(start: string, end: string, rest: seq<Token>)
    ensures [Word("updated")] + ([Operator(Gt)] + ([Text(start)] + (LinkTokens(end) + rest)))
            == WindowTokens("updated", start, end) + rest
  {
  }

  /** The query up to the `&&` of the template. */
  function Window(start: string, end: string): string {
    "updated > " + (Between(start, end) + "&&")
  }

  lemma WindowText(start: string, end: string, filled: string)
    ensures Window(start, end) + filled == "updated > " + (Between(start, end) + ("&&" + filled))
    ensures Window(start, end)[|Window(start, end)| - 1] == '&'
  {
  }

  lemma LexWindow(start: string, end: string)
    requires StampText(start) && StampText(end)
    ensures Lex(Window(start, end)) == Some(WindowTokens("updated", start, end) + [Conjoin])
  {
    LexHead("", start, end);
    assert "&&" + "" == "&&" && [Conjoin] + [] == [Conjoin];
  }

  lemma WindowOpen(start: string, end: string)
    requires StampText(start) && StampText(end)
    ensures Run(JQL, TOP, Window(start, end)) == Some(TOP) && OpenAll(JQL, Usual, TOP, Window(start, end))
  {
    BetweenLeaves(start, end, 0);
    BetweenUsual(start, end);
    StartOpen();
    RunConcat(JQL, TOP, Between(start, end), "&&");
    RunConcat(JQL, TOP, "updated > ", Between(start, end) + "&&");
    AllOpen(JQL, Usual, TOP, Window(start, end));
  }

  lemma StartOpen()
    ensures Run(JQL, TOP, "updated > ") == Some(TOP) && Run(JQL, TOP, "&&") == Some(TOP)
    ensures All(Usual, "updated > ") && All(Usual, "&&")
  {
    StartPlain();
    StartUsual();
    RunPlain(JQL, TOP, "updated > ");
    RunPlain(JQL, TOP, "&&");
  }

  lemma StartPlain()
    ensures AllPlain("updated > ") && AllPlain("&&")
  {
  }

  lemma StartUsual()
    ensures All(Usual, "updated > ") && All(Usual, "&&")
  {
  }

  lemma ReadHead(filled: string, start: string, end: string)
    requires StampText(start) && StampText(end) && Read(filled).Some? && (filled == "" || !Continues(filled[0]))
    ensures Read("updated > " + (Between(start, end) + ("&&" + filled)))
            == Some(WindowTokens("updated", start, end) + ([Conjoin] + Read(filled).value))
  {
    WindowOpen(start, end);
    LexWindow(start, end);
    WindowText(start, end, filled);
    ReadAfter(Window(start, end), filled, 0);
    GroupTokens(WindowTokens("updated", start, end), [Conjoin], Read(filled).value);
  }

  // ---------- what an issue outside the window satisfies ----------

  function After(start: string): Expr {
    Clause(Named("updated"), Compare(Gt), Quoted(start))
  }

  function UpTo(end: string): Expr {
    Clause(Named("updated"), Compare(Le), Quoted(end))
  }

  function Escape(start: string, end: string, x: Expr, y: Expr): Expr {
    Or(And(After(start), And(UpTo(end), x)), y)
  }

  lemma EscapeShape(start: string, end: string, x: Expr, y: Expr)
    requires Conjunction(x) && Disjunction(y)
    ensures Disjunction(Escape(start, end, x, y))
  {
    assert Conjunction(And(UpTo(end), x));
  }

  lemma HeadParses(filled: string, start: string, end: string, x: Expr, y: Expr)
    requires StampText(start) && StampText(end) && Conjunction(x) && Disjunction(y)
    requires Read(filled) == Some(Tokens(x) + ([Disjoin] + Tokens(y))) && filled != "" && !Continues(filled[0])
    ensures Parses("updated > " + (Between(start, end) + ("&&" + filled)), Escape(start, end, x, y), [])
  {
    ReadHead(filled, start, end);
    Spell(start, end, x, y);
    EscapeShape(start, end, x, y);
  }

  lemma Spell(start: string, end: string, x: Expr, y: Expr)
    ensures Tokens(Escape(start, end, x, y)) + []
            == WindowTokens("updated", start, end) + ([Conjoin] + (Tokens(x) + ([Disjoin] + Tokens(y))))
  {
    var a, b := Tokens(After(start)), Tokens(UpTo(end));
    assert a == [Word("updated"), Operator(Gt), Text(start)] && b == [Word("updated"), Operator(Le), Text(end)];
    assert a + [Conjoin] + b == WindowTokens("updated", start, end);
    assert Tokens(And(UpTo(end), x)) == b + [Conjoin] + Tokens(x);
    assert Tokens(And(After(start), And(UpTo(end), x))) == a + [Conjoin] + (b + [Conjoin] + Tokens(x));
    Beside(a, b, Tokens(x), Tokens(y));
  }

  lemma Beside(a: seq<Token>, b: seq<Token>, x: seq<Token>, y: seq<Token>)
    ensures (a + [Conjoin] + (b + [Conjoin] + x)) + [Disjoin] + y + []
            == (a + [Conjoin] + b) + ([Conjoin] + (x + ([Disjoin] + y)))
  {
    var p := a + [Conjoin];
    GroupTokens(p, b + [Conjoin], x);
    GroupTokens(p, b, [Conjoin]);
    GroupTokens(p + b, [Conjoin], x);
    GroupTokens(p + b, [Conjoin] + x, [Disjoin]);
    GroupTokens(p + b, [Conjoin] + x + [Disjoin], y);
    GroupTokens([Conjoin] + x, [Disjoin], y);
    GroupTokens([Conjoin], x, [Disjoin] + y);
  }

  /** The server reads the bounds as a proper window. */
  predicate ReadsWindow(issue: Issue, start: string, end: string) {
    && issue.read(Quoted(start)).Number? && issue.read(Quoted(end)).Number?
    && issue.read(Quoted(start)).n < issue.read(Quoted(end)).n
  }

  /** Whatever the window and the date, there is an issue of that date for which a given comparison holds. */
  lemma AnyDate(start: string, end: string, a: int, b: int, u: int, name: string, value: Operand) returns (issue: Issue)
    requires start != end && a < b && LowerAll(name) != "updated"
    ensures ReadsWindow(issue, start, end) && issue.read(Quoted(start)) == Number(a) && issue.read(Quoted(end)) == Number(b)
    ensures issue.field("updated") == Number(u) && issue.Satisfies(Clause(Named(name), Compare(Eq), value))
  {
    issue := Issue(
      name => if name == "updated" then Number(u) else Null,
      property => Null,
      v => if v == Quoted(start) then Number(a) else if v == Quoted(end) then Number(b) else Null,
      (x, relation, y) => true,
      (field, past, limits) => true);
  }

  // ---------- how a template escapes ----------

  /**
   The query of the template reads as an expression that whatever satisfies `y` satisfies, such as an issue updated at
   `u`, when the window goes from `a` to `b`.
   */
  ghost predicate Escapes(
    template: string, start: string, end: string, a: int, b: int, u: int, y: Expr, query: string, e: Expr, issue: Issue)
  {
    && Format(template, Filling(start, end)) == Some(query) && Parses(query, e, [])
    && (forall x: Issue :: x.Satisfies(y) ==> x.Satisfies(e))
    && issue.read(Quoted(start)) == Number(a) && issue.read(Quoted(end)) == Number(b)
    && issue.field("updated") == Number(u) && issue.Satisfies(e)
  }

  /** What follows the window term reads as something or a comparison. */
  predicate Opens(rest: string, x: Expr, name: string, value: Operand) {
    && Conjunction(x) && value.Valid() && |name| == 1 && rest != "" && !Continues(rest[0])
    && Read(rest) == Some(Tokens(x) + ([Disjoin] + Tokens(Clause(Named(name), Compare(Eq), value))))
  }

  /** A template without braces past its window term escapes any window when what follows it opens one. */
  lemma HeadEscapes(
      rest: string, start: string, end: string, a: int, b: int, u: int, x: Expr, name: string, value: Operand)
    returns (query: string, e: Expr, issue: Issue)
    requires StampText(start) && StampText(end) && start != end && a < b && NoBrace(rest) && Opens(rest, x, name, value)
    ensures Escapes(HEAD + rest, start, end, a, b, u, Clause(Named(name), Compare(Eq), value), query, e, issue)
  {
    var y := Clause(Named(name), Compare(Eq), value);
    FormatNoBrace(rest, Filling(start, end));
    FillHead(rest, Filling(start, end), rest);
    HeadParses(rest, start, end, x, y);
    query := "updated > " + (Between(start, end) + ("&&" + rest));
    e := Escape(start, end, x, y);
    assert |LowerAll(name)| == 1;
    issue := AnyDate(start, end, a, b, u, name, value);
  }

  /** All conditions of a sound reading are met, but some. */
  predicate MeetsAllBut(alnum: char -> bool, jql: string, broken: set<Condition>) {
    forall c: Condition :: Meets(alnum, jql, c) <==> c !in broken
  }

  lemma AllBut(alnum: char -> bool, jql: string, broken: set<Condition>)
    requires NoBar(alnum, jql) <==> NoLoneBar !in broken
    requires OrderApart(alnum, jql) <==> OrderStandsApart !in broken
    requires OpenAll(JQL, NoBackslash, TOP, jql) <==> NoOpenBackslash !in broken
    requires OpenAll(JQL, OwnBlank, TOP, jql) <==> OwnBlanks !in broken
    ensures MeetsAllBut(alnum, jql, broken)
  {
    forall c: Condition
      ensures Meets(alnum, jql, c) <==> c !in broken
    {
      match c
      case NoLoneBar =>
      case OrderStandsApart =>
      case NoOpenBackslash =>
      case OwnBlanks =>
    }
  }
}
