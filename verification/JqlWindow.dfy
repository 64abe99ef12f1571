/** The criteria of a replay, and the window term of a query of Jira the guard accepts, as tokens of the query. */
module JqlWindow {
  import opened Chars
  import opened Wrappers
  import opened Mask
  import opened WindowGuard
  import opened Template
  import opened CollapsedTerms
  import opened JqlQuery
  import opened JqlText
  import opened JqlFill
  import opened JqlTop
  import opened JqlGrammar

  // ---------- the query of a collect ----------

  /** The journal of a collect: live, or the replay of a window. */
  datatype Journal = Live(lastDate: Option<int>) | Replay(start: int, end: int, lastDate: Option<int>)

  /** A replay resumes at the last date when it is past the start of the window. */
  function StartOf(journal: Journal): (start: int)
    requires journal.Replay?
    ensures start >= journal.start && (journal.lastDate.Some? ==> start >= journal.lastDate.value)
    ensures start == journal.start || journal.lastDate == Some(start)
  {
    if journal.lastDate.Some? && journal.lastDate.value > journal.start then journal.lastDate.value else journal.start
  }

  function InQuotes(stamp: string): string {
    "\"" + stamp + "\""
  }

  const LINK := " AND updated <= "

  function Between(start: string, end: string): string {
    InQuotes(start) + (LINK + InQuotes(end))
  }

  function Criteria(journal: Journal, stamp: int -> string): string {
    match journal
    case Replay(_, end, _) => Between(stamp(StartOf(journal)), stamp(end))
    case Live(Some(last)) => InQuotes(stamp(last))
    case Live(None) => "-30d"
  }

  /** `jql_for`: the template with its criteria. */
  function JqlFor(template: string, journal: Journal, stamp: int -> string): Option<string> {
    Format(template, map[CRITERIA := Criteria(journal, stamp)])
  }

  /** A formatted date: digits, `-`, `:` and blanks. */
  predicate StampText(s: string) {
    forall i :: 0 <= i < |s| ==> IsDigit(s[i]) || s[i] == '-' || s[i] == ':' || s[i] == ' '
  }

  // ---------- the criteria of a replay ----------

  /** Without its mark and backslashes, a string is as long as it looks. */
  predicate Unmarked(s: string) {
    forall i :: 0 <= i < |s| ==> s[i] != '"' && s[i] != '\\'
  }

  lemma {:induction false} QuotedLength(s: string, rest: string)
    requires Unmarked(s) && rest != "" && rest[0] == '"'
    ensures TextLength('"', s + rest) == |s| + 1
    decreases |s|
  {
    assert s != "" ==> (s + rest)[0] == s[0] && (s + rest)[1..] == s[1..] + rest;
    if s != "" {
      QuotedLength(s[1..], rest);
    } else {
      assert s + rest == rest;
    }
  }

  /** A quoted text is a string. */
  lemma QuoteToken(content: string, rest: string)
    requires Unmarked(content)
    ensures var s := InQuotes(content) + rest; NextToken(s) == Some(([Text(content)], |content| + 2)) && s[|content| + 2..] == rest
  {
    var s := InQuotes(content) + rest;
    assert s[0] == '"' && s[1..] == content + ("\"" + rest);
    QuotedLength(content, "\"" + rest);
    assert s[1..|content| + 1] == content;
  }

  lemma LexQuote(content: string, rest: string)
    requires Unmarked(content) && Lex(rest).Some?
    ensures Lex(InQuotes(content) + rest) == Some([Text(content)] + Lex(rest).value)
  {
    QuoteToken(content, rest);
  }

  lemma LexSpace(c: char, rest: string)
    requires IsSpace(c) && Lex(rest).Some?
    ensures Lex([c] + rest) == Lex(rest)
  {
    assert ([c] + rest)[1..] == rest;
    assert [] + Lex(rest).value == Lex(rest).value;
  }

  predicate OneWord(w: string) {
    w != "" && forall i :: 0 <= i < |w| ==> !Delimiter(w[i])
  }

  lemma {:induction false} WholeLength(w: string, rest: string)
    requires (forall i :: 0 <= i < |w| ==> !Delimiter(w[i])) && (rest == "" || Delimiter(rest[0]))
    ensures WordLength(w + rest) == |w|
  {
    if w != "" {
      assert (w + rest)[0] == w[0] && (w + rest)[1..] == w[1..] + rest;
      WholeLength(w[1..], rest);
    } else {
      assert w + rest == rest;
    }
  }

  lemma LexOneWord(w: string, rest: string)
    requires OneWord(w) && Lex(rest).Some? && (rest == "" || Delimiter(rest[0]))
    ensures Lex(w + rest) == Some([Classify(w)] + Lex(rest).value)
  {
    WholeLength(w, rest);
    assert (w + rest)[0] == w[0] && (w + rest)[..|w|] == w && (w + rest)[|w|..] == rest;
  }

  /** The operator `<=` or `>` before a blank. */
  lemma LexRelation(symbol: string, rest: string)
    requires (symbol == "<=" || symbol == ">") && rest != "" && IsSpace(rest[0]) && Lex(rest).Some?
    ensures Lex(symbol + rest) == Some([Operator(if symbol == ">" then Gt else Le)] + Lex(rest).value)
  {
    var s := symbol + rest;
    assert s[0] == symbol[0] && s[|symbol|..] == rest;
    assert symbol == ">" ==> s[1] == rest[0];
    assert symbol == "<=" ==> s[1] == '=';
  }

  /** A word of seven letters or more is no keyword, but `changed`. */
  lemma {:induction false} LongWord(w: string, k: nat)
    requires |w| > 6 && Lower(w[0]) != 'c'
    ensures ClassifyFrom(w, k) == Word(w)
    decreases 17 - k
  {
    if k < 17 {
      LongKeyword(k);
      LongWord(w, k + 1);
    }
  }

  lemma LongKeyword(k: nat)
    requires k < 17
    ensures |KEYWORDS[k]| <= 6 || KEYWORDS[k][0] == 'c'
  {
  }

  lemma AndWord()
    ensures Classify("AND") == Conjoin
  {
    assert KEYWORDS[0] == "or" && KEYWORDS[1] == "and";
    assert SameFold("AND", "and");
    assert ClassifyFrom("AND", 1) == Meaning(1);
  }

  function CriteriaTokens(start: string, end: string): seq<Token> {
    [Text(start), Conjoin, Word("updated"), Operator(Le), Text(end)]
  }

  lemma LexLe(q: string)
    requires Lex(q).Some?
    ensures Lex(" " + ("<=" + (" " + q))) == Some([Operator(Le)] + Lex(q).value)
  {
    LexSpace(' ', q);
    LexRelation("<=", " " + q);
    LexSpace(' ', "<=" + (" " + q));
  }

  lemma LexUpdated(x: string)
    requires Lex(x).Some? && x != "" && x[0] == ' '
    ensures Lex("updated" + x) == Some([Word("updated")] + Lex(x).value)
  {
    LongWord("updated", 0);
    LexOneWord("updated", x);
  }

  lemma LexAnd(x: string)
    requires Lex(x).Some?
    ensures Lex(" " + ("AND" + (" " + x))) == Some([Conjoin] + Lex(x).value)
  {
    LexSpace(' ', x);
    AndWord();
    LexOneWord("AND", " " + x);
    LexSpace(' ', "AND" + (" " + x));
  }

  lemma BetweenText(start: string, end: string)
    ensures Between(start, end)
            == InQuotes(start) + (" " + ("AND" + (" " + ("updated" + (" " + ("<=" + (" " + InQuotes(end))))))))
  {
    var q := InQuotes(end);
    assert " AND updated <= " + q == " " + ("AND" + (" " + ("updated" + (" " + ("<=" + (" " + q))))));
  }

  lemma LexBetween(start: string, end: string)
    requires StampText(start) && StampText(end)
    ensures Lex(Between(start, end)) == Some(CriteriaTokens(start, end))
  {
    var q := InQuotes(end);
    LexQuote(end, "");
    assert q + "" == q && Lex(q).value == [Text(end)];
    var le := " " + ("<=" + (" " + q));
    LexLe(q);
    LexUpdated(le);
    LexAnd("updated" + le);
    var middle := " " + ("AND" + (" " + ("updated" + le)));
    LexQuote(start, middle);
    BetweenText(start, end);
    TokensInOrder(start, end);
  }

  lemma TokensInOrder(start: string, end: string)
    ensures [Text(start)] + ([Conjoin] + ([Word("updated")] + ([Operator(Le)] + [Text(end)])))
            == CriteriaTokens(start, end)
  {
  }

  lemma RunQuote(stamp: string, depth: nat)
    requires StampText(stamp)
    ensures Run(JQL, At(depth), InQuotes(stamp)) == Some(At(depth))
  {
    var inside := stamp + "\"";
    assert InQuotes(stamp) == ['"'] + inside;
    AdvanceOne(At(depth), '"');
    RunConcat(JQL, At(depth), ['"'], inside);
    RunOut(stamp, depth);
  }

  /** Over the rest of a string and its mark, the scanner leaves the string. */
  lemma RunOut(s: string, depth: nat)
    requires Unmarked(s)
    ensures Run(JQL, Place(In('"'), depth, false), s + "\"") == Some(At(depth))
  {
    if s != "" {
      RunInside('"', depth, false, s);
    }
    RunConcat(JQL, Place(In('"'), depth, false), s, "\"");
    AdvanceOne(Place(In('"'), depth, false), '"');
  }

  /** Over a date and the mark that opens a string, the scanner enters the string. */
  lemma RunIn(s: string, depth: nat)
    requires StampText(s)
    ensures Run(JQL, At(depth), s + "\"") == Some(Place(In('"'), depth, false))
  {
    RunPlain(JQL, At(depth), s);
    RunConcat(JQL, At(depth), s, "\"");
    AdvanceOne(At(depth), '"');
  }

  lemma BetweenLeaves(start: string, end: string, depth: nat)
    requires StampText(start) && StampText(end)
    ensures Leaves(Between(start, end), depth)
  {
    RunQuote(start, depth);
    RunQuote(end, depth);
    RunPlain(JQL, At(depth), LINK);
    RunConcat(JQL, At(depth), LINK, InQuotes(end));
    RunConcat(JQL, At(depth), InQuotes(start), LINK + InQuotes(end));
  }

  lemma BetweenStays(start: string, end: string, depth: nat)
    requires StampText(start) && StampText(end)
    ensures Stays(Between(start, end), depth)
  {
    var inside := Place(In('"'), depth, false);
    AdvanceOne(inside, '"');
    RunIn(start, depth);
    RunOut(LINK, depth);
    RunIn(end, depth);
    BetweenApart(start, end);
    RunConcat(JQL, At(depth), end + "\"", "");
    RunConcat(JQL, inside, LINK + "\"", end + "\"");
    RunConcat(JQL, At(depth), start + "\"", (LINK + "\"") + (end + "\""));
    RunConcat(JQL, inside, "\"", (start + "\"") + ((LINK + "\"") + (end + "\"")));
  }

  lemma BetweenApart(start: string, end: string)
    ensures Between(start, end) == "\"" + ((start + "\"") + ((LINK + "\"") + (end + "\"")))
  {
  }

  /** The criteria, from inside a double-quoted string they close. */
  lemma BetweenThreads(start: string, end: string, rest: string)
    requires StampText(start) && StampText(end)
    ensures Threads(Between(start, end), rest)
  {
    var v := Between(start, end);
    var last := end + ("\"" + rest);
    BetweenTail(start, end, rest);
    if Lex(v[1..] + rest).Some? {
      var a := StampSplit(start, InQuotes(LINK) + last);
      var first := Text(LINK);
      QuoteToken(LINK, last);
      var t, n := LexUnfold(NextToken, InQuotes(LINK) + last);
      var b := StampSplit(end, "\"" + rest);
      var all := a + ([first] + b);
      ThreadTokens(a, first, b, Lex("\"" + rest).value);
      assert Loose(all);
    }
  }

  lemma ThreadTokens(a: seq<Token>, first: Token, b: seq<Token>, rest: seq<Token>)
    ensures a + ([first] + (b + rest)) == (a + ([first] + b)) + rest
  {
  }

  lemma BetweenTail(start: string, end: string, rest: string)
    ensures Between(start, end)[1..] + rest == start + (InQuotes(LINK) + (end + ("\"" + rest)))
  {
    assert Between(start, end)[1..] == start + ("\"" + (LINK + InQuotes(end)));
  }

  /** A date before a double quote is words. */
  lemma StampSplit(stamp: string, rest: string) returns (t: seq<Token>)
    requires StampText(stamp) && rest != "" && rest[0] == '"' && Lex(stamp + rest).Some?
    ensures Lex(rest).Some? && Lex(stamp + rest).value == t + Lex(rest).value && Loose(t)
  {
    RunPlain(JQL, At(0), stamp);
    LexSplit(stamp, rest, 0);
    StampLoose(stamp);
    t := Lex(stamp).value;
  }

  lemma {:induction false} StampLoose(s: string)
    requires StampText(s) && Lex(s).Some?
    ensures Loose(Lex(s).value)
    decreases |s|
  {
    if s != "" {
      var t, n := LexUnfold(NextToken, s);
      StampLoose(s[n..]);
      StampToken(s);
    }
  }

  lemma StampToken(s: string)
    requires s != "" && StampText(s) && NextToken(s).Some?
    ensures Loose(NextToken(s).value.0)
  {
    if !IsSpace(s[0]) {
      NoKeyword(s[..WordLength(s)], 0);
    }
  }

  /** A word that starts with no letter is no keyword. */
  lemma {:induction false} NoKeyword(w: string, k: nat)
    requires w != "" && !IsLetter(w[0])
    ensures ClassifyFrom(w, k) == Word(w)
    decreases 17 - k
  {
    if k < 17 {
      assert IsLetter(KEYWORDS[k][0]);
      NoKeyword(w, k + 1);
    }
  }

  lemma BetweenQuiet(start: string, end: string)
    requires StampText(start) && StampText(end)
    ensures Quiet(Between(start, end))
  {
    var v := Between(start, end);
    assert v[|v| - 1] == InQuotes(end)[|end| + 1];
  }

  lemma BetweenScans(start: string, end: string)
    requires StampText(start) && StampText(end)
    ensures ScansBack(Between(start, end))
  {
    forall d: nat
      ensures Leaves(Between(start, end), d) && Stays(Between(start, end), d)
    {
      BetweenLeaves(start, end, d);
      BetweenStays(start, end, d);
    }
  }

  lemma BetweenThreadsOn(start: string, end: string)
    requires StampText(start) && StampText(end)
    ensures ThreadsOn(Between(start, end))
  {
    forall rest
      ensures Threads(Between(start, end), rest)
    {
      BetweenThreads(start, end, rest);
    }
  }

  /** The criteria of a replay leave the scanner where they find it. */
  lemma BetweenFills(start: string, end: string)
    requires StampText(start) && StampText(end)
    ensures Fills(Between(start, end))
  {
    BetweenQuiet(start, end);
    BetweenScans(start, end);
    BetweenThreadsOn(start, end);
    LexBetween(start, end);
  }

  // ---------- the window term ----------

  /** A text is empty, or ends like `and` or `&&`. */
  predicate EndsJoined(s: string) {
    s == "" || Lower(s[|s| - 1]) == 'd' || s[|s| - 1] == '&'
  }

  /** Past its blanks, a text goes on with a letter or an `&`, if at all. */
  predicate GoesOn(s: string) {
    s == "" || (IsSpace(s[0]) && GoesOn(s[1..])) || IsLetter(s[0]) || s[0] == '&'
  }

  lemma {:induction false} BlanksGoOn(s: string, rest: string)
    requires AllSpace(s) && GoesOn(rest)
    ensures GoesOn(s + rest)
  {
    if s == "" {
      assert s + rest == rest;
    } else {
      assert (s + rest)[0] == s[0] && (s + rest)[1..] == s[1..] + rest;
      BlanksGoOn(s[1..], rest);
    }
  }

  /** A text that goes on so starts with no parenthesis. */
  lemma {:induction false} NoneOpens(text: string, values: Values, filled: string)
    requires GoesOn(text) && Format(text, values) == Some(filled) && AllFill(values) && Lex(filled).Some?
    ensures Lex(filled).value == [] || Lex(filled).value[0] != Open
    decreases |text|
  {
    FirstChar(text, values);
    if text != "" {
      var t, n := LexUnfold(NextToken, filled);
      if IsSpace(text[0]) {
        NoneOpens(text[1..], values, filled[1..]);
      } else {
        assert |t| == 1 && t[0] != Open;
      }
    }
  }

  /** The parts of a template around the window term. */
  datatype Parts = Parts(before: string, s0: string, field: string, s1: string, s2: string, after: string) {
    function Words(): string {
      s0 + (field + (s1 + (">" + s2)))
    }

    function Text(): string {
      before + (Words() + (Hole(CRITERIA) + after))
    }

    predicate Valid() {
      && GoesOn(after) && SameFold(field, "updated") && AllSpace(s0) && AllSpace(s1) && AllSpace(s2) && s1 != "" && s2 != ""
      && EndsJoined(before) && (before != "" && before[|before| - 1] != '&' ==> s0 != "")
    }
  }

  lemma {:induction false} LexSpaces(s: string)
    requires AllSpace(s)
    ensures Lex(s) == Some([])
  {
    if s != "" {
      LexSpaces(s[1..]);
      LexSpace(s[0], s[1..]);
      assert [s[0]] + s[1..] == s;
    }
  }

  lemma {:induction false} LexSpacesBefore(s: string, rest: string)
    requires AllSpace(s) && Lex(rest).Some?
    ensures Lex(s + rest) == Lex(rest)
  {
    if s != "" {
      LexSpacesBefore(s[1..], rest);
      LexSpace(s[0], s[1..] + rest);
      assert [s[0]] + (s[1..] + rest) == s + rest;
    } else {
      assert s + rest == rest;
    }
  }

  lemma FieldWord(field: string)
    requires SameFold(field, "updated")
    ensures OneWord(field) && NoBrace(field) && NoSpace(field) && AllPlain(field) && Classify(field) == Word(field)
    ensures LowerAll(field) == "updated" && !FieldChar(' ')
  {
    forall i | 0 <= i < |field|
      ensures IsLetter(field[i]) && !Delimiter(field[i]) && !Braces(field[i]) && Plain(JQL, field[i])
    {
      assert Lower(field[i]) == "updated"[i];
      assert 'a' <= "updated"[i] <= 'z';
    }
    assert LowerAll(field) == "updated";
    LongWord(field, 0);
  }

  /** The tokens of the term up to its placeholder. */
  lemma LexWords(p: Parts)
    requires p.Valid()
    ensures Lex(p.Words()) == Some([Word(p.field), Operator(Gt)])
  {
    FieldWord(p.field);
    LexSpaces(p.s2);
    LexRelation(">", p.s2);
    LexSpacesBefore(p.s1, ">" + p.s2);
    LexOneWord(p.field, p.s1 + (">" + p.s2));
    LexSpacesBefore(p.s0, p.field + (p.s1 + (">" + p.s2)));
    assert [Word(p.field)] + ([Operator(Gt)] + []) == [Word(p.field), Operator(Gt)];
  }

  lemma WordsPlain(p: Parts)
    requires p.Valid()
    ensures AllPlain(p.Words()) && NoBrace(p.Words())
    ensures p.Words() != "" && p.Words()[|p.Words()| - 1] == p.s2[|p.s2| - 1]
    ensures p.Words()[0] == if p.s0 != "" then p.s0[0] else p.field[0]
  {
    FieldWord(p.field);
  }

  lemma CriteriaName()
    ensures CRITERIA != "" && PlaceholderName(CRITERIA) && NoSpace(Hole(CRITERIA))
  {
  }

  function Filling(start: string, end: string): Values {
    map[CRITERIA := Between(start, end)]
  }

  /** The query around the criteria, from the template around the placeholder. */
  lemma FormatParts(p: Parts, start: string, end: string) returns (head: string, rest: string)
    requires p.Valid() && Format(p.Text(), Filling(start, end)).Some?
    ensures Format(p.before, Filling(start, end)) == Some(head) && Format(p.after, Filling(start, end)) == Some(rest)
    ensures Format(p.Text(), Filling(start, end)) == Some(head + (p.Words() + (Between(start, end) + rest)))
  {
    var values := Filling(start, end);
    var tail := Hole(CRITERIA) + p.after;
    CriteriaName();
    WordsPlain(p);
    FieldWord(p.field);
    assert (p.Words() + tail)[0] == p.Words()[0];
    FormatSplit(p.before, p.Words() + tail, values);
    FormatSplit(p.Words(), tail, values);
    FormatNoBrace(p.Words(), values);
    HoleStep(CRITERIA, p.after, values);
    head := Format(p.before, values).value;
    rest := Format(p.after, values).value;
  }

  lemma PrefixApart(text: string, a: string, at: Place)
    requires BracesUnescaped(at, text) && |a| <= |text| && text[..|a|] == a
    requires a == "" || a[|a| - 1] != '{' || |a| == |text|
    ensures BracesUnescaped(at, a)
    decreases |a|
  {
    if a != "" {
      assert a[0] == text[0] && text[1..][..|a| - 1] == a[1..];
      if Advance(JQL, at, a[0]).Some? {
        PrefixApart(text[1..], a[1..], Advance(JQL, at, a[0]).value);
      }
    }
  }

  lemma HeadAtTop(text: string, values: Values, head: string)
    requires AllFill(values) && Format(text, values) == Some(head) && BracesUnescaped(TOP, text)
    requires Run(JQL, TOP, text) == Some(TOP)
    ensures Run(JQL, At(0), head) == Some(At(0)) && (Lex(head).Some? ==> Depth(Lex(head).value) == 0)
  {
    ScanFill(text, values, TOP);
    if Lex(head).Some? {
      ScanTokens(head, 0);
    }
  }

  lemma FillEndsJoined(text: string, values: Values, filled: string)
    requires AllFill(values) && Format(text, values) == Some(filled) && EndsJoined(text)
    ensures EndsJoined(filled)
  {
    if text != "" {
      FillLast(text, values);
    }
  }

  /** What precedes the window term has no token, or ends with an `and` or another word. */
  lemma HeadJoins(head: string)
    requires EndsJoined(head) && Lex(head).Some?
    ensures Lex(head).value != [] ==> Joins(Lex(head).value[|Lex(head).value| - 1])
  {
    if head != "" {
      LastJoins(head);
    }
  }

  /** Where the template is before the term, the query and the term meet. */
  lemma HeadMeets(p: Parts, values: Values, head: string, tail: string)
    requires p.Valid() && AllFill(values) && Format(p.before, values) == Some(head)
    ensures Meet(head, p.Words() + tail)
  {
    WordsPlain(p);
    FieldWord(p.field);
    assert (p.Words() + tail)[0] == p.Words()[0];
    if p.before != "" {
      FillLast(p.before, values);
    }
  }

  lemma WordsMeet(p: Parts, tail: string)
    requires p.Valid() && Lex(p.Words() + tail).Some?
    ensures Lex(tail).Some? && Lex(p.Words() + tail).value == [Word(p.field), Operator(Gt)] + Lex(tail).value
  {
    WordsPlain(p);
    RunPlain(JQL, At(0), p.Words());
    LexSplit(p.Words(), tail, 0);
    LexWords(p);
  }

  /** The tokens of the query: those before the term, the term, those of the criteria, the rest. */
  lemma TokensOfParts(p: Parts, start: string, end: string, head: string, rest: string, query: string)
    returns (left: seq<Token>, right: seq<Token>)
    requires p.Valid() && StampText(start) && StampText(end)
    requires Format(p.before, Filling(start, end)) == Some(head) && Format(p.after, Filling(start, end)) == Some(rest)
    requires BracesUnescaped(TOP, p.before) && Run(JQL, TOP, p.before) == Some(TOP)
    requires query == head + (p.Words() + (Between(start, end) + rest)) && Lex(query).Some?
    ensures Lex(query).value == left + ([Word(p.field), Operator(Gt)] + (CriteriaTokens(start, end) + right))
    ensures Depth(left) == 0 && (left != [] ==> Joins(left[|left| - 1])) && (right == [] || right[0] != Open)
  {
    BetweenFills(start, end);
    HeadMeets(p, Filling(start, end), head, Between(start, end) + rest);
    HeadAtTop(p.before, Filling(start, end), head);
    LexSplit(head, p.Words() + (Between(start, end) + rest), 0);
    FillEndsJoined(p.before, Filling(start, end), head);
    HeadJoins(head);
    WordsMeet(p, Between(start, end) + rest);
    FillTokens(Between(start, end), rest);
    LexBetween(start, end);
    NoneOpens(p.after, Filling(start, end), rest);
    left, right := Lex(head).value, Lex(rest).value;
  }

  /** The tokens of the term and of its criteria. */
  function WindowTokens(field: string, start: string, end: string): seq<Token> {
    [Word(field), Operator(Gt), Text(start), Conjoin, Word("updated"), Operator(Le), Text(end)]
  }

  lemma WindowJoined(field: string, start: string, end: string, rest: seq<Token>)
    ensures [Word(field), Operator(Gt)] + (CriteriaTokens(start, end) + rest) == WindowTokens(field, start, end) + rest
  {
  }

  lemma TermFollowed(window: seq<Token>, rest: seq<Token>, k: nat, field: string, op: Op, content: string)
    requires TermAt(window, k, field, op, content) && (rest == [] || rest[0] != Open)
    ensures TermAt(window + rest, k, field, op, content)
  {
    assert (window + rest)[..k] == window[..k];
    assert forall i :: 0 <= i < |window| ==> (window + rest)[i] == window[i];
  }

  lemma DepthPast(before: seq<Token>, w: seq<Token>, k: nat)
    requires k <= |w|
    ensures Depth((before + w)[..|before| + k]) == Depth(before) + Depth(w[..k])
  {
    assert (before + w)[..|before| + k] == before + w[..k];
    DepthConcat(before, w[..k]);
  }

  lemma TermAfter(before: seq<Token>, w: seq<Token>, k: nat, field: string, op: Op, content: string)
    requires Depth(before) == 0 && (before != [] ==> Joins(before[|before| - 1])) && TermAt(w, k, field, op, content)
    ensures TermAt(before + w, |before| + k, field, op, content)
  {
    DepthPast(before, w, k);
  }

  lemma BoundsInWindow(field: string, start: string, end: string)
    ensures TermAt(WindowTokens(field, start, end), 0, field, Gt, start)
    ensures TermAt(WindowTokens(field, start, end), 4, "updated", Le, end)
  {
    var window := WindowTokens(field, start, end);
    assert window[..0] == [];
    FlatDepth(window[..4]);
  }

  // ---------- from the verdict to the parts ----------

  /** The characters of a separator are in the open, and leave the scanner at the top. */
  lemma {:induction false} OpenRun(text: string, m: nat, n: nat)
    requires Run(JQL, TOP, text).Some? && m + n <= |text| && n > 0
    requires forall i :: m <= i < m + n ==> MaskFrom(JQL, TOP, text)[i] != MASK
    ensures Run(JQL, TOP, text[..m + n]) == Some(TOP)
    ensures forall i :: m <= i < m + n ==> MaskFrom(JQL, TOP, text)[i] == text[i]
  {
    OpenAt(text, m + n - 1);
    forall i | m <= i < m + n
      ensures MaskFrom(JQL, TOP, text)[i] == text[i]
    {
      OpenAt(text, i);
    }
  }

  lemma {:induction false} BareUnescaped(at: Place, s: string)
    requires Sane(at) && Run(JQL, at, s).Some?
    ensures Sane(Run(JQL, at, s).value)
    decreases |s|
  {
    if s != "" {
      AdvanceOne(at, s[0]);
      BareUnescaped(Advance(JQL, at, s[0]).value, s[1..]);
    }
  }

  lemma OpenAt(text: string, m: nat)
    requires Run(JQL, TOP, text).Some? && m < |text| && MaskFrom(JQL, TOP, text)[m] != MASK
    ensures MaskFrom(JQL, TOP, text)[m] == text[m]
    ensures Run(JQL, TOP, text[..m]) == Some(TOP) && Run(JQL, TOP, text[..m + 1]) == Some(TOP)
  {
    assert text == text[..m] + text[m..];
    RunConcat(JQL, TOP, text[..m], text[m..]);
    Shown(text, m);
    BareUnescaped(TOP, text[..m]);
    NextPlace(text, m);
  }

  /** A separator ends with `&`, or with a `d` that no word character follows. */
  lemma SeparatorShape(alnum: char -> bool, masked: string, m: nat)
    requires m < |masked| && SeparatorAt(alnum, true, masked, m) > 0
    ensures var b := m + SeparatorAt(alnum, true, masked, m);
            masked[b - 1] == '&' || (Lower(masked[b - 1]) == 'd' && (b < |masked| ==> !IsWord(alnum, masked[b])))
  {
    if KeywordAt(alnum, masked, m, "and") {
      assert masked[m..m + 3][2] == masked[m + 2];
      assert Lower(masked[m..m + 3][2]) == "and"[2];
    }
  }

  /** What the masked text shows at the end of a separator. */
  predicate EndsSeparator(alnum: char -> bool, masked: string, b: nat) {
    && 0 < b <= |masked| && masked[b - 1] != MASK
    && (masked[b - 1] == '&' || (Lower(masked[b - 1]) == 'd' && (b < |masked| ==> !IsWord(alnum, masked[b]))))
  }

  lemma SeparatorPlace(alnum: char -> bool, masked: string, b: nat)
    requires SeparatorEnds(Separators(alnum, true, masked), b)
    ensures EndsSeparator(alnum, masked, b)
  {
    var lengths := Separators(alnum, true, masked);
    var m :| 0 <= m < |lengths| && b == m + lengths[m] && lengths[m] > 0;
    assert lengths[m] == SeparatorAt(alnum, true, masked, m);
    SeparatorShape(alnum, masked, m);
  }

  /** After a separator in the open the scanner is at the top, and no letter follows an `and`. */
  lemma AfterSeparator(alnum: char -> bool, text: string, b: nat)
    requires Run(JQL, TOP, text).Some? && EndsSeparator(alnum, MaskFrom(JQL, TOP, text), b)
    ensures 0 < b <= |text| && Run(JQL, TOP, text[..b]) == Some(TOP)
    ensures text[b - 1] == '&' || (Lower(text[b - 1]) == 'd' && (b < |text| ==> !IsLetter(text[b])))
  {
    OpenAt(text, b - 1);
    if b < |text| && IsLetter(text[b]) {
      LetterOpen(alnum, text, b);
    }
  }

  /** A letter at the top shows as a word character. */
  lemma LetterOpen(alnum: char -> bool, text: string, b: nat)
    requires Run(JQL, TOP, text).Some? && b < |text| && Run(JQL, TOP, text[..b]) == Some(TOP) && IsLetter(text[b])
    ensures IsWord(alnum, MaskFrom(JQL, TOP, text)[b])
  {
    Shown(text, b);
  }

  /** A separator of the template goes on with an `and` or an `&`. */
  lemma SeparatorGoesOn(alnum: char -> bool, text: string, e: nat)
    requires Run(JQL, TOP, text).Some? && SeparatorStarts(Separators(alnum, true, MaskFrom(JQL, TOP, text)), e)
    ensures e < |text| && GoesOn(text[e..])
  {
    var masked := MaskFrom(JQL, TOP, text);
    assert SeparatorAt(alnum, true, masked, e) > 0;
    if KeywordAt(alnum, masked, e, "and") {
      assert masked[e..e + 3][0] == masked[e] && Lower(masked[e..e + 3][0]) == "and"[0];
    }
    OpenAt(text, e);
  }

  /** A term that matches the clause, its words apart. */
  lemma TermWords(raw: string) returns (s0: string, field: string, s1: string, s2: string, s3: string)
    requires JiraTerm(Collapse(raw))
    ensures raw == s0 + (field + (s1 + (">" + (s2 + (Hole(CRITERIA) + s3)))))
    ensures AllSpace(s0) && AllSpace(s1) && AllSpace(s2) && AllSpace(s3) && s1 != "" && s2 != ""
    ensures SameFold(field, "updated")
  {
    var term := Collapse(raw);
    field := term[..7];
    FieldWord(field);
    CriteriaName();
    assert term == field + term[7..];
    assert field + (" > {" + CRITERIA + "}") == field + " " + ">" + " " + Hole(CRITERIA);
    s0, s1, s2, s3 := ThreeWords(raw, field, ">", Hole(CRITERIA));
  }

  /** The parts of a template around the term that stands between two of its places. */
  lemma PartsBetween(text: string, b: nat, e: nat) returns (p: Parts)
    requires b <= e <= |text| && JiraTerm(Collapse(text[b..e])) && GoesOn(text[e..])
    requires b == 0 || text[b - 1] == '&' || (Lower(text[b - 1]) == 'd' && (b < |text| ==> !IsLetter(text[b])))
    ensures p.Valid() && p.Text() == text && p.before == text[..b]
  {
    var s0, field, s1, s2, s3 := TermWords(text[b..e]);
    p := Parts(text[..b], s0, field, s1, s2, s3 + text[e..]);
    BlanksGoOn(s3, text[e..]);
    FirstLetter(text, b, e, p, s3);
    PlaceJoined(text, b);
    WholeText(text, b, e, p, s3);
  }

  lemma PlaceJoined(text: string, b: nat)
    requires b <= |text| && (b == 0 || text[b - 1] == '&' || Lower(text[b - 1]) == 'd')
    ensures EndsJoined(text[..b]) && (b > 0 ==> text[..b] != "" && text[..b][b - 1] == text[b - 1])
  {
  }

  lemma FirstLetter(text: string, b: nat, e: nat, p: Parts, s3: string)
    requires b <= e <= |text| && SameFold(p.field, "updated")
    requires text[b..e] == p.s0 + (p.field + (p.s1 + (">" + (p.s2 + (Hole(CRITERIA) + s3)))))
    ensures b < |text| && (p.s0 == "" ==> IsLetter(text[b]))
  {
    assert text[b] == text[b..e][0];
    assert Lower(p.field[0]) == 'u';
  }

  lemma WholeText(text: string, b: nat, e: nat, p: Parts, s3: string)
    requires b <= e <= |text| && p.before == text[..b] && p.after == s3 + text[e..]
    requires text[b..e] == p.s0 + (p.field + (p.s1 + (">" + (p.s2 + (Hole(CRITERIA) + s3)))))
    ensures p.Text() == text
  {
    assert text == text[..b] + (text[b..e] + text[e..]);
    assert text[b..e] + text[e..] == p.Words() + (Hole(CRITERIA) + (s3 + text[e..]));
  }

  /** The window term the guard found, its parts apart. */
  lemma TermParts(alnum: char -> bool, text: string) returns (p: Parts)
    requires Run(JQL, TOP, text).Some?
    requires var terms := Terms(alnum, true, text, MaskFrom(JQL, TOP, text));
             exists i :: 0 <= i < |terms| && JiraTerm(terms[i])
    ensures p.Valid() && p.Text() == text && Run(JQL, TOP, p.before) == Some(TOP)
  {
    var masked := MaskFrom(JQL, TOP, text);
    var terms := Terms(alnum, true, text, masked);
    var k :| 0 <= k < |terms| && JiraTerm(terms[k]);
    var b, e := TermPlace(Separators(alnum, true, masked), text, 0, 0, k);
    if b > 0 {
      SeparatorPlace(alnum, masked, b);
      AfterSeparator(alnum, text, b);
    }
    if e < |text| {
      SeparatorGoesOn(alnum, text, e);
    }
    p := PartsBetween(text, b, e);
  }

  // ---------- the ordering ----------

  /** Where the guard stops reading clauses: at the first `order by` in the open, or the end. */
  function Cut(alnum: char -> bool, jql: string): (cut: nat)
    requires Run(JQL, TOP, jql).Some?
    ensures cut <= |jql|
  {
    FirstOrderBy(alnum, MaskFrom(JQL, TOP, jql), 0)
  }

  predicate Separates(c: char) {
    Delimiter(c) && c != '{'
  }

  /** The `order by` stands apart: what is before it, if anything, is no word of Jira's language. */
  predicate OrderApart(alnum: char -> bool, jql: string) {
    Run(JQL, TOP, jql).Some? ==>
      var cut := Cut(alnum, jql); cut == 0 || cut == |jql| || Separates(jql[cut - 1])
  }

  lemma OrderWord(w: string)
    requires SameFold(w, "order")
    ensures Classify(w) == Order
  {
    assert KEYWORDS[7] == "order";
    LongerWord(w, 0);
  }

  lemma {:induction false} LongerWord(w: string, k: nat)
    requires |w| == 5 && k <= 7
    ensures ClassifyFrom(w, k) == ClassifyFrom(w, 7)
    decreases 7 - k
  {
    if k < 7 {
      assert |KEYWORDS[k]| < 5;
      LongerWord(w, k + 1);
    }
  }

  lemma OrderLetters(s: string)
    requires SameFold(s, "order")
    ensures forall i :: 0 <= i < 5 ==> !Delimiter(s[i]) && s[i] != MASK && IsLetter(s[i])
  {
    forall i | 0 <= i < 5
      ensures !Delimiter(s[i]) && s[i] != MASK && IsLetter(s[i])
    {
      assert Lower(s[i]) == "order"[i];
      assert 'a' <= "order"[i] <= 'z';
    }
  }

  /** At the cut, the template is outside strings at depth 0 and reads `order`, then a blank. */
  predicate OrderAt(text: string, cut: nat) {
    && cut + 5 < |text| && SameFold(text[cut..cut + 5], "order") && IsSpace(text[cut + 5])
    && Run(JQL, TOP, text[..cut]) == Some(TOP)
  }

  lemma OrderOpen(text: string, cut: nat)
    requires Run(JQL, TOP, text).Some?
    requires var masked := MaskFrom(JQL, TOP, text);
             cut + 5 < |masked| && SameFold(masked[cut..cut + 5], "order") && IsSpace(masked[cut + 5])
    ensures OrderAt(text, cut)
  {
    var masked := MaskFrom(JQL, TOP, text);
    OrderShows(masked, cut);
    OpenRun(text, cut, 6);
    OpenAt(text, cut);
  }

  lemma OrderShows(masked: string, cut: nat)
    requires cut + 5 < |masked| && SameFold(masked[cut..cut + 5], "order") && IsSpace(masked[cut + 5])
    ensures forall i :: cut <= i < cut + 6 ==> masked[i] != MASK
  {
    OrderLetters(masked[cut..cut + 5]);
    assert forall i :: cut <= i < cut + 5 ==> masked[i] == masked[cut..cut + 5][i - cut];
  }

  lemma CutIsOrder(alnum: char -> bool, jql: string)
    requires Run(JQL, TOP, jql).Some? && Cut(alnum, jql) < |jql|
    ensures OrderAt(jql, Cut(alnum, jql))
  {
    assert OrderByAt(alnum, MaskFrom(JQL, TOP, jql), Cut(alnum, jql));
    OrderOpen(jql, Cut(alnum, jql));
  }

  /** The rest of the query after the cut starts with `order`. */
  lemma OrderFirst(tail: string, values: Values, filled: string)
    requires |tail| > 5 && SameFold(tail[..5], "order") && IsSpace(tail[5])
    requires Format(tail, values) == Some(filled) && AllFill(values) && Lex(filled).Some?
    ensures Lex(filled).value != [] && Lex(filled).value[0] == Order
  {
    OrderLetters(tail[..5]);
    assert tail[0] == tail[..5][0];
    assert tail == tail[..5] + tail[5..];
    WholeLength(tail[..5], tail[5..]);
    OrderWord(tail[..5]);
    var n, t, after := LiteralText(tail, values, filled);
    assert t == [Order];
  }
}
