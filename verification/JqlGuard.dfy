/** The guard of a JQL query: what it accepts keeps the replay window, where Jira reads a template as the guard does. */
module JqlGuard {
  import opened Chars
  import opened Wrappers
  import opened Mask
  import opened WindowGuard
  import opened Template
  import opened JqlQuery
  import opened JqlText
  import opened JqlFill
  import opened JqlTop
  import opened JqlGrammar
  import opened JqlOpen
  import JqlStrings
  import opened JqlWindow

  /** What an accepted template is, up to its `order by`. */
  predicate Guarded(alnum: char -> bool, main: string) {
    && Run(JQL, TOP, main) == Some(TOP)
    && !HasKeyword(alnum, MaskFrom(JQL, TOP, main), "or") && BarFree(MaskFrom(JQL, TOP, main))
    && var terms := Terms(alnum, true, main, MaskFrom(JQL, TOP, main));
       exists i :: 0 <= i < |terms| && JiraTerm(terms[i])
  }

  lemma BalancedIsTop(jql: string)
    requires Masked(JQL, jql).Success?
    ensures Run(JQL, TOP, jql) == Some(TOP)
  {
    BareUnescaped(TOP, jql);
  }

  lemma MaskPrefix(jql: string, cut: nat)
    requires Run(JQL, TOP, jql).Some? && cut <= |jql| && Run(JQL, TOP, jql[..cut]).Some?
    ensures MaskFrom(JQL, TOP, jql)[..cut] == MaskFrom(JQL, TOP, jql[..cut])
  {
    assert jql == jql[..cut] + jql[cut..];
    MaskConcat(JQL, TOP, jql[..cut], jql[cut..]);
  }

  lemma CutAtTop(alnum: char -> bool, jql: string)
    requires Run(JQL, TOP, jql) == Some(TOP)
    ensures Run(JQL, TOP, jql[..Cut(alnum, jql)]) == Some(TOP)
  {
    if Cut(alnum, jql) < |jql| {
      CutIsOrder(alnum, jql);
    } else {
      assert jql[..|jql|] == jql;
    }
  }

  /** No bar is left in the open before the `order by`: the guard refuses two of them, Jira reads one alike. */
  predicate NoBar(alnum: char -> bool, jql: string) {
    Run(JQL, TOP, jql).Some? ==> BarFree(MaskFrom(JQL, TOP, jql)[..Cut(alnum, jql)])
  }

  /** What a caller can check of a template. */
  datatype Condition = NoLoneBar | OrderStandsApart | NoOpenBackslash | OwnBlanks

  /**
   No lone bar is an `or`, the `order by` is no part of a word, no backslash makes characters part of a word, and every
   blank is one for Jira.
   */
  predicate Meets(alnum: char -> bool, jql: string, c: Condition) {
    match c
    case NoLoneBar => NoBar(alnum, jql)
    case OrderStandsApart => OrderApart(alnum, jql)
    case NoOpenBackslash => OpenAll(JQL, NoBackslash, TOP, jql)
    case OwnBlanks => OpenAll(JQL, OwnBlank, TOP, jql)
  }

  /** Jira reads the template as the guard does. */
  predicate ReadByBoth(alnum: char -> bool, jql: string) {
    forall c: Condition :: Meets(alnum, jql, c)
  }

  lemma AllMet(alnum: char -> bool, jql: string)
    requires ReadByBoth(alnum, jql)
    ensures NoBar(alnum, jql) && OrderApart(alnum, jql)
    ensures OpenAll(JQL, NoBackslash, TOP, jql) && OpenAll(JQL, OwnBlank, TOP, jql)
  {
    assert Meets(alnum, jql, NoLoneBar) && Meets(alnum, jql, OrderStandsApart);
    assert Meets(alnum, jql, NoOpenBackslash) && Meets(alnum, jql, OwnBlanks);
  }

  lemma AcceptedIsGuarded(alnum: char -> bool, jql: string)
    requires CheckJqlWindow(alnum, jql) == Accepted && NoBar(alnum, jql)
    ensures Run(JQL, TOP, jql) == Some(TOP) && Guarded(alnum, jql[..Cut(alnum, jql)])
  {
    BalancedIsTop(jql);
    CutAtTop(alnum, jql);
    MaskPrefix(jql, Cut(alnum, jql));
  }

  /** An accepted query is filled, whatever the criteria. */
  lemma AcceptedIsFilled(alnum: char -> bool, jql: string, journal: Journal, stamp: int -> string)
    requires CheckJqlWindow(alnum, jql) == Accepted
    ensures JqlFor(jql, journal, stamp).Some?
  {
    assert Blanks({CRITERIA}).Keys == {CRITERIA};
    FilledWhenAllowed(jql, Blanks({CRITERIA}), map[CRITERIA := Criteria(journal, stamp)]);
  }

  // ---------- the clauses and the ordering ----------

  /** A template may be cut after a character, before another one. */
  predicate Apart(a: string, b: string) {
    a == "" || b == "" || (Separates(a[|a| - 1]) && IsLetter(b[0]))
  }

  lemma ApartIsOutside(a: string, b: string)
    requires Apart(a, b)
    ensures CutOutside(a, b)
  {
  }

  /** A template cut so fills to two texts that meet. */
  lemma FillSplit(a: string, b: string, values: Values, query: string) returns (q1: string, q2: string)
    requires Apart(a, b) && AllFill(values) && Format(a + b, values) == Some(query)
    ensures Format(a, values) == Some(q1) && Format(b, values) == Some(q2) && query == q1 + q2 && Meet(q1, q2)
  {
    ApartIsOutside(a, b);
    FormatSplit(a, b, values);
    q1, q2 := Format(a, values).value, Format(b, values).value;
    FillMeets(a, b, values, q1, q2);
  }

  lemma FillMeets(a: string, b: string, values: Values, q1: string, q2: string)
    requires Apart(a, b) && AllFill(values) && Format(a, values) == Some(q1) && Format(b, values) == Some(q2)
    ensures Meet(q1, q2)
  {
    if a != "" && b != "" {
      FillLast(a, values);
      FirstChar(b, values);
    }
  }

  lemma FillSplitAt(text: string, cut: nat, values: Values, query: string) returns (q1: string, q2: string)
    requires cut <= |text| && (cut == 0 || cut == |text| || (Separates(text[cut - 1]) && IsLetter(text[cut])))
    requires AllFill(values) && Format(text, values) == Some(query)
    ensures Format(text[..cut], values) == Some(q1) && Format(text[cut..], values) == Some(q2)
    ensures query == q1 + q2 && Meet(q1, q2)
  {
    assert text == text[..cut] + text[cut..];
    q1, q2 := FillSplit(text[..cut], text[cut..], values, query);
  }

  lemma CutLetter(alnum: char -> bool, jql: string)
    requires Run(JQL, TOP, jql).Some? && Cut(alnum, jql) < |jql|
    ensures IsLetter(jql[Cut(alnum, jql)])
  {
    var cut := Cut(alnum, jql);
    CutIsOrder(alnum, jql);
    OrderLetters(jql[cut..cut + 5]);
    assert jql[cut] == jql[cut..cut + 5][0];
  }

  /** Of an expression and its ordering, the expression is made of the clauses alone. */
  lemma ExpressionInMain(e: Expr, ordering: seq<Token>, main: seq<Token>, tail: seq<Token>)
    requires Disjunction(e) && Tokens(e) + ordering == main + tail && (tail == [] || tail[0] == Order)
    ensures |Tokens(e)| <= |main| && Tokens(e) == main[..|Tokens(e)|]
  {
    NoOrder(e);
    if |Tokens(e)| > |main| {
      FirstOfTail(Tokens(e), ordering, main, tail);
    }
    assert Tokens(e) == (Tokens(e) + ordering)[..|Tokens(e)|];
  }

  lemma FirstOfTail(a: seq<Token>, b: seq<Token>, c: seq<Token>, d: seq<Token>)
    requires a + b == c + d && |c| < |a|
    ensures d != [] && d[0] in a
  {
    assert (a + b)[|c|] == a[|c|] && |a + b| == |c + d|;
    assert (c + d)[|c|] == d[0];
  }

  /** A query without a top-level `or` among its clauses is a conjunction. */
  lemma NoTopIsConjunction(e: Expr, main: seq<Token>)
    requires Disjunction(e) && |Tokens(e)| <= |main| && Tokens(e) == main[..|Tokens(e)|] && NoTop(main, 0)
    ensures Conjunction(e)
  {
    if !Conjunction(e) {
      var i := DisjoinPlace(e);
      assert main[i] == Tokens(e)[i] && main[..i] == Tokens(e)[..i];
      NoTopAt(main, 0, i);
    }
  }

  /** A bound among the clauses is in the expression: an ordering has no operator, and starts with `order`. */
  lemma BoundInExpression(
      e: Expr, ordering: seq<Token>, main: seq<Token>, tail: seq<Token>, j: nat, field: string, op: Op, content: string)
    requires OrderClause(ordering) && Tokens(e) + ordering == main + tail
    requires |Tokens(e)| <= |main| && Tokens(e) == main[..|Tokens(e)|] && TermAt(main, j, field, op, content)
    ensures TermAt(Tokens(e), j, field, op, content)
  {
    var n := |Tokens(e)|;
    assert forall i :: n <= i < |main| ==> main[i] == (main + tail)[i] == ordering[i - n];
    assert j + 1 < n;
    assert j + 2 < n;
    assert Tokens(e)[..j] == main[..j];
  }

  // ---------- soundness ----------

  /** The clauses of the query, from a guarded template: no top-level `or`, and both bounds as terms. */
  lemma GuardedTokens(alnum: char -> bool, main: string, start: string, end: string, query: string)
    returns (field: string, j: nat)
    requires Guarded(alnum, main) && BracesUnescaped(TOP, main) && StampText(start) && StampText(end)
    requires Format(main, Filling(start, end)) == Some(query) && Lex(query).Some?
    ensures NoTop(Lex(query).value, 0) && LowerAll(field) == "updated"
    ensures Bounded(Lex(query).value, j, field, start, end)
  {
    BetweenFills(start, end);
    NoTopOr(alnum, main, Filling(start, end), query);
    var p := TermParts(alnum, main);
    field := p.field;
    FieldWord(field);
    j := BoundsOfParts(p, start, end, query);
  }

  predicate Bounded(tokens: seq<Token>, j: nat, field: string, start: string, end: string) {
    TermAt(tokens, j, field, Gt, start) && TermAt(tokens, j + 4, "updated", Le, end)
  }

  lemma BoundsOfParts(p: Parts, start: string, end: string, query: string) returns (j: nat)
    requires p.Valid() && BracesUnescaped(TOP, p.Text()) && Run(JQL, TOP, p.before) == Some(TOP)
    requires StampText(start) && StampText(end)
    requires Format(p.Text(), Filling(start, end)) == Some(query) && Lex(query).Some?
    ensures Bounded(Lex(query).value, j, p.field, start, end)
  {
    var head, rest := FormatParts(p, start, end);
    PrefixApart(p.Text(), p.before, TOP);
    var left, right := TokensOfParts(p, start, end, head, rest, query);
    j := |left|;
    BoundsJoined(left, p.field, start, end, right);
  }

  lemma BoundsJoined(before: seq<Token>, field: string, start: string, end: string, rest: seq<Token>)
    requires Depth(before) == 0 && (before != [] ==> Joins(before[|before| - 1])) && (rest == [] || rest[0] != Open)
    ensures Bounded(before + ([Word(field), Operator(Gt)] + (CriteriaTokens(start, end) + rest)), |before|, field, start, end)
  {
    var window := WindowTokens(field, start, end);
    WindowJoined(field, start, end, rest);
    BoundsInWindow(field, start, end);
    TermFollowed(window, rest, 0, field, Gt, start);
    TermFollowed(window, rest, 4, "updated", Le, end);
    TermAfter(before, window + rest, 0, field, Gt, start);
    TermAfter(before, window + rest, 4, "updated", Le, end);
  }

  /** What satisfying a bound means when dates are numbers. */
  lemma BoundMeaning(issue: Issue, field: string, op: Op, content: string)
    requires LowerAll(field) == "updated" && (op == Gt || op == Le)
    requires issue.field("updated").Number? && issue.read(Quoted(content)).Number?
    requires issue.Satisfies(Clause(Named(field), Compare(op), Quoted(content)))
    ensures op == Gt ==> issue.read(Quoted(content)).n < issue.field("updated").n
    ensures op == Le ==> issue.field("updated").n <= issue.read(Quoted(content)).n
  {
  }

  lemma BetweenUsual(start: string, end: string)
    requires StampText(start) && StampText(end)
    ensures All(Usual, Between(start, end))
  {
    LinkUsual();
  }

  lemma LinkUsual()
    ensures All(Usual, LINK)
  {
  }

  /** The query of such a template parses only when no placeholder is escaped in double quotes. */
  lemma ParsedIsUnescaped(
      alnum: char -> bool, jql: string, start: string, end: string, query: string, e: Expr, ordering: seq<Token>)
    requires Run(JQL, TOP, jql) == Some(TOP) && ReadByBoth(alnum, jql) && StampText(start) && StampText(end)
    requires Format(jql, Filling(start, end)) == Some(query) && Parses(query, e, ordering)
    ensures BracesUnescaped(TOP, jql)
  {
    AllMet(alnum, jql);
    assert JqlStrings.IsCriteria(Between(start, end));
    JqlStrings.ParsedIsUnescaped(jql, Filling(start, end), query, e, ordering);
  }

  /** The query of an accepted template that both read alike has the tokens its characters suggest. */
  lemma ReadIsLexed(alnum: char -> bool, jql: string, start: string, end: string, query: string)
    requires Run(JQL, TOP, jql).Some? && ReadByBoth(alnum, jql) && BracesUnescaped(TOP, jql)
    requires StampText(start) && StampText(end)
    requires Format(jql, Filling(start, end)) == Some(query)
    ensures Read(query) == Lex(query)
  {
    AllMet(alnum, jql);
    BetweenFills(start, end);
    BetweenUsual(start, end);
    ReadsAlike(jql, Filling(start, end), query);
  }

  /** The two bounds, of any reading of the query. */
  lemma BoundsKept(
      alnum: char -> bool, jql: string, start: string, end: string, query: string, e: Expr, ordering: seq<Token>,
      issue: Issue)
    returns (field: string)
    requires CheckJqlWindow(alnum, jql) == Accepted && ReadByBoth(alnum, jql)
    requires StampText(start) && StampText(end)
    requires Format(jql, Filling(start, end)) == Some(query) && Parses(query, e, ordering) && issue.Satisfies(e)
    ensures LowerAll(field) == "updated"
    ensures issue.Satisfies(Clause(Named(field), Compare(Gt), Quoted(start)))
    ensures issue.Satisfies(Clause(Named("updated"), Compare(Le), Quoted(end)))
  {
    AllMet(alnum, jql);
    AcceptedIsGuarded(alnum, jql);
    ParsedIsUnescaped(alnum, jql, start, end, query, e, ordering);
    ReadIsLexed(alnum, jql, start, end, query);
    BetweenFills(start, end);
    var main, tail := SplitQuery(alnum, jql, start, end, query);
    var j;
    field, j := GuardedTokens(alnum, jql[..Cut(alnum, jql)], start, end, main);
    var left, right := Lex(main).value, Lex(tail).value;
    ExpressionInMain(e, ordering, left, right);
    NoTopIsConjunction(e, left);
    BoundInExpression(e, ordering, left, right, j, field, Gt, start);
    BoundInExpression(e, ordering, left, right, j + 4, "updated", Le, end);
    TermIsConjunct(e, j, field, Gt, start, issue);
    TermIsConjunct(e, j + 4, "updated", Le, end, issue);
  }

  /** The query, cut where the guard stopped reading: its tokens are those of both sides, the second ones an ordering. */
  lemma SplitQuery(alnum: char -> bool, jql: string, start: string, end: string, query: string)
    returns (main: string, tail: string)
    requires Run(JQL, TOP, jql) == Some(TOP) && BracesUnescaped(TOP, jql) && OrderApart(alnum, jql)
    requires StampText(start) && StampText(end)
    requires Format(jql, Filling(start, end)) == Some(query) && Lex(query).Some?
    ensures Format(jql[..Cut(alnum, jql)], Filling(start, end)) == Some(main) && BracesUnescaped(TOP, jql[..Cut(alnum, jql)])
    ensures Lex(main).Some? && Lex(tail).Some? && Lex(query).value == Lex(main).value + Lex(tail).value
    ensures Lex(tail).value == [] || Lex(tail).value[0] == Order
  {
    var values := Filling(start, end);
    var cut := Cut(alnum, jql);
    BetweenFills(start, end);
    if cut < |jql| {
      CutLetter(alnum, jql);
    }
    main, tail := FillSplitAt(jql, cut, values, query);
    CutAtTop(alnum, jql);
    PrefixApart(jql, jql[..cut], TOP);
    HeadAtTop(jql[..cut], values, main);
    LexSplit(main, tail, 0);
    TailOrders(alnum, jql, values, tail);
  }

  lemma TailOrders(alnum: char -> bool, jql: string, values: Values, tail: string)
    requires Run(JQL, TOP, jql) == Some(TOP) && AllFill(values)
    requires Format(jql[Cut(alnum, jql)..], values) == Some(tail) && Lex(tail).Some?
    ensures Lex(tail).value == [] || Lex(tail).value[0] == Order
  {
    var cut := Cut(alnum, jql);
    if cut < |jql| {
      CutIsOrder(alnum, jql);
      assert jql[cut..][..5] == jql[cut..cut + 5] && jql[cut..][5] == jql[cut + 5];
      OrderFirst(jql[cut..], values, tail);
    } else {
      assert jql[cut..] == "";
    }
  }

  /**
   The guard of a replay is sound of the templates Jira reads as it does: however the query of the replay is read, an
   issue that satisfies it was updated in the window, from where the replay resumes.
   */
  lemma JqlWindowKept(
      alnum: char -> bool, jql: string, journal: Journal, stamp: int -> string, query: string, e: Expr,
      ordering: seq<Token>, issue: Issue)
    requires CheckJqlWindow(alnum, jql) == Accepted && ReadByBoth(alnum, jql)
    requires journal.Replay? && StampText(stamp(StartOf(journal))) && StampText(stamp(journal.end))
    requires JqlFor(jql, journal, stamp) == Some(query) && Parses(query, e, ordering)
    requires issue.field("updated").Number?
    requires issue.read(Quoted(stamp(StartOf(journal)))).Number? && issue.read(Quoted(stamp(journal.end))).Number?
    requires issue.Satisfies(e)
    ensures issue.read(Quoted(stamp(StartOf(journal)))).n < issue.field("updated").n
    ensures issue.field("updated").n <= issue.read(Quoted(stamp(journal.end))).n
  {
    var start, end := stamp(StartOf(journal)), stamp(journal.end);
    var field := BoundsKept(alnum, jql, start, end, query, e, ordering, issue);
    BoundMeaning(issue, field, Gt, start);
    BoundMeaning(issue, "updated", Le, end);
  }
}
