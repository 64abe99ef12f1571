/**
 What the two guards accept, exactly, said of the text of the query alone: its fields, its balance, the words and the
 clauses it holds in the open. A query that meets all of it is accepted, whatever the case of its words and its blanks.
 */
module GuardExact {
  import opened Chars
  import opened Wrappers
  import opened Mask
  import opened OpenText
  import opened GuardTerms
  import opened WindowGuard
  import opened CollapsedTerms
  import opened Template

  // ---------- what both guards look at ----------

  /** The formatter finds no field but these. */
  ghost predicate OnlyFields(text: string, names: set<string>) {
    exists values: Values :: values.Keys == names && Format(text, values).Some?
  }

  lemma FieldsExactly(text: string, names: set<string>)
    ensures FieldsAllowed(text, names) <==> OnlyFields(text, names)
  {
    assert Blanks(names).Keys == names;
    if OnlyFields(text, names) {
      var values: Values :| values.Keys == names && Format(text, values).Some?;
      FilledWhenAllowed(text, values, Blanks(names));
    }
  }

  /** Every quote and every parenthesis is closed. */
  predicate Balanced(lex: Lexicon, text: string) {
    OpenHere(lex, text, |text|)
  }

  lemma BalancedExactly(lex: Lexicon, text: string)
    ensures Masked(lex, text).Success? <==> Balanced(lex, text)
    ensures Balanced(lex, text) ==> Masked(lex, text) == Success(MaskFrom(lex, TOP, text)) && Run(lex, TOP, text) == Some(TOP)
  {
    assert text[..|text|] == text;
    if Run(lex, TOP, text).Some? {
      RunSane(lex, TOP, text);
    }
  }

  ghost predicate HoldsWord(lex: Lexicon, alnum: char -> bool, text: string, w: string) {
    exists i: nat :: OpenWord(lex, alnum, text, i, w)
  }

  // ---------- the words of a clause ----------

  /** `<field> <op> {<placeholder>}`, the operator in any case, with any blanks. */
  ghost predicate BoundClause(clause: string, field: string, op: string, placeholder: string) {
    exists s: Spelling ::
      s.Blanks() && s.first == field && SameFold(s.second, op) && clause == s.Text(Hole(placeholder))
  }

  /** `updated > {date_criteria}`, the field in any case, with any blanks. */
  ghost predicate UpdatedClause(clause: string) {
    exists s: Spelling ::
      s.Blanks() && SameFold(s.first, "updated") && s.second == ">" && clause == s.Text(Hole(CRITERIA))
  }

  lemma FoldedHasNoSpace(s: string, w: string)
    requires SameFold(s, w) && SmallLetters(w)
    ensures NoSpace(s) && s != ""
  {
    FoldedLetters(JQL, s, w);
  }

  lemma TermText(term: string, field: string, op: string, placeholder: string) returns (word: string)
    requires WindowTerm(term, field, op, placeholder)
    ensures SameFold(word, op) && term == field + " " + word + " " + Hole(placeholder)
  {
    var at := |field| + 1;
    word := term[at..at + |op|];
    assert term == term[..at] + term[at..at + |op|] + term[at + |op|..];
    assert " {" + placeholder + "}" == " " + Hole(placeholder);
  }

  lemma TextTerm(field: string, word: string, op: string, placeholder: string)
    requires SameFold(word, op)
    ensures WindowTerm(field + " " + word + " " + Hole(placeholder), field, op, placeholder)
  {
    var term := field + " " + word + " " + Hole(placeholder);
    var at := |field| + 1;
    assert term[..at] == field + " " && term[at..at + |op|] == word;
    assert term[at + |op|..] == " " + Hole(placeholder) == " {" + placeholder + "}";
  }

  lemma BoundExactly(clause: string, field: string, op: string, placeholder: string)
    requires NoSpace(field) && field != "" && SmallLetters(op) && NoSpace(placeholder)
    ensures WindowTerm(Collapse(clause), field, op, placeholder) <==> BoundClause(clause, field, op, placeholder)
  {
    assert NoSpace(Hole(placeholder)) && Hole(placeholder) != "";
    if WindowTerm(Collapse(clause), field, op, placeholder) {
      var word := TermText(Collapse(clause), field, op, placeholder);
      FoldedHasNoSpace(word, op);
      var s := ClauseOf(clause, field, word, Hole(placeholder));
    }
    if BoundClause(clause, field, op, placeholder) {
      var s: Spelling :|
        s.Blanks() && s.first == field && SameFold(s.second, op) && clause == s.Text(Hole(placeholder));
      FoldedHasNoSpace(s.second, op);
      CollapseOf(s, Hole(placeholder));
      TextTerm(field, s.second, op, placeholder);
    }
  }

  lemma UpdatedText(term: string)
    requires JiraTerm(term)
    ensures SameFold(term[..7], "updated") && term == term[..7] + " " + ">" + " " + Hole(CRITERIA)
  {
    assert term == term[..7] + term[7..];
    CriteriaText(term[..7]);
  }

  lemma CriteriaText(field: string)
    ensures field + (" > {" + CRITERIA + "}") == field + " " + ">" + " " + Hole(CRITERIA)
  {
  }

  lemma TextUpdated(field: string)
    requires SameFold(field, "updated")
    ensures JiraTerm(field + " " + ">" + " " + Hole(CRITERIA))
  {
    var term := field + " " + ">" + " " + Hole(CRITERIA);
    CriteriaText(field);
    assert term[..7] == field && term[7..] == " > {" + CRITERIA + "}";
  }

  lemma CriteriaIsWord()
    ensures NoSpace(Hole(CRITERIA)) && Hole(CRITERIA) != ""
  {
  }

  lemma UpdatedIsClause(clause: string)
    requires JiraTerm(Collapse(clause))
    ensures UpdatedClause(clause)
  {
    CriteriaIsWord();
    var field := Collapse(clause)[..7];
    UpdatedText(Collapse(clause));
    FoldedHasNoSpace(field, "updated");
    GreaterIsWord();
    var s := ClauseOf(clause, field, ">", Hole(CRITERIA));
  }

  /** A text that collapses to three words spells them with some blanks. */
  lemma ClauseOf(clause: string, first: string, second: string, third: string) returns (s: Spelling)
    requires Collapse(clause) == first + " " + second + " " + third
    requires NoSpace(first) && NoSpace(second) && NoSpace(third)
    ensures s.Blanks() && s.first == first && s.second == second && clause == s.Text(third)
  {
    var s0, s1, s2, s3 := ThreeWords(clause, first, second, third);
    s := Spelling(s0, first, s1, second, s2, s3);
  }

  /** And the other way round. */
  lemma CollapseOf(s: Spelling, third: string)
    requires s.Blanks() && NoSpace(s.first) && NoSpace(s.second) && NoSpace(third)
    requires s.first != "" && s.second != "" && third != ""
    ensures Collapse(s.Text(third)) == s.first + " " + s.second + " " + third
  {
    WordsCollapse(s.s0, s.first, s.s1, s.second, s.s2, third, s.s3);
  }

  lemma GreaterIsWord()
    ensures NoSpace(">") && ">" != ""
  {
  }

  lemma ClauseIsUpdated(clause: string)
    requires UpdatedClause(clause)
    ensures JiraTerm(Collapse(clause))
  {
    CriteriaIsWord();
    GreaterIsWord();
    var s: Spelling :|
      s.Blanks() && SameFold(s.first, "updated") && s.second == ">" && clause == s.Text(Hole(CRITERIA));
    FoldedHasNoSpace(s.first, "updated");
    CollapseOf(s, Hole(CRITERIA));
    TextUpdated(s.first);
  }

  lemma UpdatedExactly(clause: string)
    ensures JiraTerm(Collapse(clause)) <==> UpdatedClause(clause)
  {
    if JiraTerm(Collapse(clause)) {
      UpdatedIsClause(clause);
    }
    if UpdatedClause(clause) {
      ClauseIsUpdated(clause);
    }
  }

  // ---------- an OData filter ----------

  /** A clause of the filter in the open bounds the field. */
  ghost predicate HoldsBound(alnum: char -> bool, text: string, field: string, op: string, placeholder: string) {
    exists b: nat, e: nat ::
      Between(ODATA, alnum, false, text, b, e) && BoundClause(text[b..e], field, op, placeholder)
  }

  lemma HoldsBoundExactly(alnum: char -> bool, text: string, field: string, op: string, placeholder: string)
    requires Run(ODATA, TOP, text).Some? && |MaskFrom(ODATA, TOP, text)| == |text|
    requires NoSpace(field) && field != "" && SmallLetters(op) && NoSpace(placeholder)
    ensures var terms := Terms(alnum, false, text, MaskFrom(ODATA, TOP, text));
            (exists i :: 0 <= i < |terms| && WindowTerm(terms[i], field, op, placeholder))
            <==> HoldsBound(alnum, text, field, op, placeholder)
  {
    var terms := Terms(alnum, false, text, MaskFrom(ODATA, TOP, text));
    if i :| 0 <= i < |terms| && WindowTerm(terms[i], field, op, placeholder) {
      TermsAreClauses(ODATA, alnum, false, text, terms[i]);
      var b: nat, e: nat :| Between(ODATA, alnum, false, text, b, e) && Collapse(text[b..e]) == terms[i];
      BoundExactly(text[b..e], field, op, placeholder);
    }
    if HoldsBound(alnum, text, field, op, placeholder) {
      var b: nat, e: nat :|
        Between(ODATA, alnum, false, text, b, e) && BoundClause(text[b..e], field, op, placeholder);
      BoundExactly(text[b..e], field, op, placeholder);
      TermsAreClauses(ODATA, alnum, false, text, Collapse(text[b..e]));
      var i :| 0 <= i < |terms| && terms[i] == Collapse(text[b..e]);
    }
  }

  predicate NoDelimiter(text: string) {
    forall i :: 0 <= i < |text| ==> text[i] !in "&#?"
  }

  /** What makes a filter acceptable, in any order. */
  ghost predicate KeepsODataWindow(alnum: char -> bool, text: string, field: string) {
    && NoDelimiter(text) && OnlyFields(text, {START, END}) && Balanced(ODATA, text)
    && !HoldsWord(ODATA, alnum, text, "or")
    && HoldsBound(alnum, text, field, "ge", START) && HoldsBound(alnum, text, field, "le", END)
  }

  /** What a refusal says is so. */
  ghost predicate ODataRefusal(alnum: char -> bool, text: string, field: string, why: Refusal) {
    match why
    case QueryDelimiter => !NoDelimiter(text)
    case ReplacementField => !OnlyFields(text, {START, END})
    case Structure(_) => !Balanced(ODATA, text)
    case TopLevelOr => HoldsWord(ODATA, alnum, text, "or")
    case TopLevelBars => false
    case MissingTerm(placeholder) =>
      || (placeholder == START && !HoldsBound(alnum, text, field, "ge", START))
      || (placeholder == END && !HoldsBound(alnum, text, field, "le", END))
  }

  lemma WindowNames()
    ensures NoSpace(START) && NoSpace(END) && SmallLetters("ge") && SmallLetters("le") && SmallLetters("or")
  {
  }

  lemma DelimiterExactly(text: string)
    ensures (exists i :: 0 <= i < |text| && EndsQuery(text[i])) <==> !NoDelimiter(text)
  {
  }

  lemma ODataTermsExactly(alnum: char -> bool, text: string, field: string, verdict: Verdict)
    requires NoSpace(field) && field != "" && Balanced(ODATA, text) && verdict == CheckODataTerms(alnum, text, field)
    requires OnlyFields(text, {START, END})
    ensures verdict == Accepted <==>
              && !HoldsWord(ODATA, alnum, text, "or")
              && HoldsBound(alnum, text, field, "ge", START) && HoldsBound(alnum, text, field, "le", END)
    ensures verdict != Accepted ==> ODataRefusal(alnum, text, field, verdict.why)
  {
    WindowNames();
    FieldsExactly(text, {START, END});
    BalancedExactly(ODATA, text);
    HasWord(ODATA, alnum, text, "or");
    HoldsBoundExactly(alnum, text, field, "ge", START);
    HoldsBoundExactly(alnum, text, field, "le", END);
  }

  /**
   The guard of an OData filter, exactly: it accepts the filters without delimiter, with no field but the bounds, balanced,
   that hold no `or` in the open and, between the `and`s they hold in the open, a clause for each bound. A refusal tells
   what is missing.
   */
  lemma ODataGuardExactly(alnum: char -> bool, text: string, field: string)
    requires NoSpace(field) && field != ""
    ensures CheckODataWindow(alnum, text, field) == Accepted <==> KeepsODataWindow(alnum, text, field)
    ensures CheckODataWindow(alnum, text, field) != Accepted ==>
              ODataRefusal(alnum, text, field, CheckODataWindow(alnum, text, field).why)
  {
    DelimiterExactly(text);
    FieldsExactly(text, {START, END});
    BalancedExactly(ODATA, text);
    if NoDelimiter(text) && OnlyFields(text, {START, END}) && Balanced(ODATA, text) {
      ODataTermsExactly(alnum, text, field, CheckODataTerms(alnum, text, field));
    }
  }

  // ---------- a JQL query ----------

  /** An ordering stands there in the open. */
  ghost predicate OrderStarts(lex: Lexicon, alnum: char -> bool, text: string, i: nat) {
    exists blanks: nat :: OpenOrder(lex, alnum, text, i, blanks)
  }

  /** The first ordering in the open is there, or there is none and it is the end. */
  ghost predicate Ordered(lex: Lexicon, alnum: char -> bool, text: string, cut: nat) {
    && cut <= |text| && (cut < |text| ==> OrderStarts(lex, alnum, text, cut))
    && forall i: nat :: i < cut ==> !OrderStarts(lex, alnum, text, i)
  }

  lemma ReadsFold(s: string, i: nat, w: string)
    requires i + |w| <= |s|
    ensures SameFold(s[i..i + |w|], w) <==> Reads(s, i, w)
  {
    if SameFold(s[i..i + |w|], w) {
      forall k | 0 <= k < |w|
        ensures Lower(s[i + k]) == w[k]
      {
        assert Lower(s[i..i + |w|][k]) == w[k];
      }
    }
  }

  lemma ReadLetters(lex: Lexicon, s: string, i: nat, w: string, k: nat)
    requires Reads(s, i, w) && SmallLetters(w) && i <= k < i + |w|
    ensures s[k] != MASK && Plain(lex, s[k]) && !IsSpace(s[k])
  {
    assert Lower(s[i + (k - i)]) == w[k - i];
  }

  lemma OrderChars(lex: Lexicon, s: string, i: nat, blanks: nat, k: nat)
    requires OrderText(s, i, blanks) && i <= k < i + 7 + blanks
    ensures s[k] != MASK && Plain(lex, s[k])
  {
    if k < i + 5 {
      ReadLetters(lex, s, i, "order", k);
    } else if k >= i + 5 + blanks {
      ReadLetters(lex, s, i + 5 + blanks, "by", k);
    }
  }

  /** Two texts alike in a stretch spell the same there. */
  lemma SameStretch(s: string, t: string, i: nat, blanks: nat)
    requires |s| == |t| && OrderText(s, i, blanks) && forall k :: i <= k < i + 7 + blanks ==> s[k] == t[k]
    ensures OrderText(t, i, blanks)
  {
  }

  lemma SlicesAlike(s: string, t: string, i: nat, j: nat)
    requires i <= j <= |s| == |t| && s[i..j] == t[i..j]
    ensures forall k :: i <= k < j ==> s[k] == t[k]
  {
    forall k | i <= k < j
      ensures s[k] == t[k]
    {
      assert s[i..j][k - i] == t[i..j][k - i];
    }
  }

  /** What the mask shows of an ordering. */
  lemma OrderShown(lex: Lexicon, text: string, masked: string, i: nat, blanks: nat)
    requires Run(lex, TOP, text).Some? && masked == MaskFrom(lex, TOP, text) && |masked| == |text|
    requires OrderText(masked, i, blanks)
    ensures OrderText(text, i, blanks) && OpenHere(lex, text, i) && OpenHere(lex, text, i + 7 + blanks)
  {
    forall k | i <= k < i + 7 + blanks
      ensures masked[k] != MASK
    {
      OrderChars(lex, masked, i, blanks, k);
    }
    StretchShows(lex, text, i, i + 7 + blanks);
    SlicesAlike(masked, text, i, i + 7 + blanks);
    SameStretch(masked, text, i, blanks);
  }

  lemma OrderShows(lex: Lexicon, text: string, masked: string, i: nat, blanks: nat)
    requires Run(lex, TOP, text).Some? && masked == MaskFrom(lex, TOP, text) && |masked| == |text|
    requires OrderText(text, i, blanks) && OpenHere(lex, text, i)
    ensures OrderText(masked, i, blanks) && OpenHere(lex, text, i + 7 + blanks)
  {
    forall k | i <= k < i + 7 + blanks
      ensures Plain(lex, text[k])
    {
      OrderChars(lex, text, i, blanks, k);
    }
    StretchShows(lex, text, i, i + 7 + blanks);
    SlicesAlike(masked, text, i, i + 7 + blanks);
    SameStretch(text, masked, i, blanks);
  }

  /** No word character is against a stretch. */
  predicate Alone(alnum: char -> bool, s: string, i: nat, j: nat) {
    i <= j <= |s| && (i > 0 ==> !IsWord(alnum, s[i - 1])) && (j < |s| ==> !IsWord(alnum, s[j]))
  }

  /** An ordering the guard reads, its blanks counted. */
  lemma OrderRead(alnum: char -> bool, s: string, i: nat) returns (blanks: nat)
    requires OrderByAt(alnum, s, i)
    ensures OrderText(s, i, blanks) && Alone(alnum, s, i, i + 7 + blanks)
  {
    ReadsFold(s, i, "order");
    var from := s[i + 5..];
    var rest := SkipSpaces(from);
    blanks := |from| - |rest|;
    assert rest == s[i + 5 + blanks..];
    forall k | i + 5 <= k < i + 5 + blanks
      ensures IsSpace(s[k])
    {
      assert from[..blanks][k - i - 5] == s[k];
    }
    ReadsFold(rest, 0, "by");
    ReadsShifted(s, rest, i + 5 + blanks, "by");
  }

  lemma ReadsShifted(s: string, rest: string, n: nat, w: string)
    requires n <= |s| && rest == s[n..]
    ensures Reads(rest, 0, w) <==> Reads(s, n, w)
  {
    if n + |w| <= |s| {
      assert forall k :: 0 <= k < |w| ==> rest[k] == s[n + k];
      assert forall k :: 0 <= k < |w| ==> rest[0 + k] == rest[k];
    }
  }

  lemma OrderGiven(lex: Lexicon, alnum: char -> bool, s: string, i: nat, blanks: nat)
    requires OrderText(s, i, blanks) && Alone(alnum, s, i, i + 7 + blanks)
    ensures OrderByAt(alnum, s, i)
  {
    var between, rest := s[i + 5..i + 5 + blanks], s[i + 5 + blanks..];
    ReadsFold(s, i, "order");
    ReadsShifted(s, rest, i + 5 + blanks, "by");
    ReadsFold(rest, 0, "by");
    ReadLetters(lex, rest, 0, "by", 0);
    assert s[i + 5..] == between + rest;
    SkipAll(between, rest);
    assert rest[0..2] == rest[..2];
    assert |rest| > 2 ==> rest[2] == s[i + 7 + blanks];
  }

  /** What is against a stretch in the open shows. */
  lemma OrderSides(lex: Lexicon, alnum: char -> bool, text: string, masked: string, i: nat, j: nat)
    requires Run(lex, TOP, text).Some? && masked == MaskFrom(lex, TOP, text) && |masked| == |text|
    requires OpenHere(lex, text, i) && OpenHere(lex, text, j)
    ensures i > 0 ==> IsWord(alnum, masked[i - 1]) == IsWord(alnum, text[i - 1])
    ensures j < |text| ==> IsWord(alnum, masked[j]) == IsWord(alnum, text[j])
  {
    WordShows(lex, alnum, text, i);
    WordShows(lex, alnum, text, j);
  }

  lemma OrderIsOpen(lex: Lexicon, alnum: char -> bool, text: string, masked: string, i: nat) returns (blanks: nat)
    requires Run(lex, TOP, text).Some? && masked == MaskFrom(lex, TOP, text) && |masked| == |text|
    requires OrderByAt(alnum, masked, i)
    ensures OpenOrder(lex, alnum, text, i, blanks)
  {
    blanks := OrderRead(alnum, masked, i);
    ShownIsOpen(lex, alnum, text, masked, i, blanks);
  }

  lemma ShownIsOpen(lex: Lexicon, alnum: char -> bool, text: string, masked: string, i: nat, blanks: nat)
    requires Run(lex, TOP, text).Some? && masked == MaskFrom(lex, TOP, text) && |masked| == |text|
    requires OrderText(masked, i, blanks) && Alone(alnum, masked, i, i + 7 + blanks)
    ensures OpenOrder(lex, alnum, text, i, blanks)
  {
    OrderShown(lex, text, masked, i, blanks);
    OrderSides(lex, alnum, text, masked, i, i + 7 + blanks);
  }

  lemma OpenIsShown(lex: Lexicon, alnum: char -> bool, text: string, masked: string, i: nat, blanks: nat)
    requires Run(lex, TOP, text).Some? && masked == MaskFrom(lex, TOP, text) && |masked| == |text|
    requires OpenOrder(lex, alnum, text, i, blanks)
    ensures OrderText(masked, i, blanks) && Alone(alnum, masked, i, i + 7 + blanks)
  {
    OrderShows(lex, text, masked, i, blanks);
    OrderSides(lex, alnum, text, masked, i, i + 7 + blanks);
  }

  lemma OpenIsOrder(lex: Lexicon, alnum: char -> bool, text: string, masked: string, i: nat, blanks: nat)
    requires Run(lex, TOP, text).Some? && masked == MaskFrom(lex, TOP, text) && |masked| == |text|
    requires OpenOrder(lex, alnum, text, i, blanks)
    ensures OrderByAt(alnum, masked, i)
  {
    OpenIsShown(lex, alnum, text, masked, i, blanks);
    OrderGiven(lex, alnum, masked, i, blanks);
  }

  lemma OrderExactly(lex: Lexicon, alnum: char -> bool, text: string, i: nat)
    requires Run(lex, TOP, text).Some?
    ensures OrderByAt(alnum, MaskFrom(lex, TOP, text), i) <==> OrderStarts(lex, alnum, text, i)
  {
    var masked := MaskFrom(lex, TOP, text);
    if OrderByAt(alnum, masked, i) {
      var blanks := OrderIsOpen(lex, alnum, text, masked, i);
    }
    if blanks: nat :| OpenOrder(lex, alnum, text, i, blanks) {
      OpenIsOrder(lex, alnum, text, masked, i, blanks);
    }
  }

  lemma CutExactly(lex: Lexicon, alnum: char -> bool, text: string, cut: nat)
    requires Run(lex, TOP, text).Some?
    ensures |MaskFrom(lex, TOP, text)| == |text|
    ensures cut == FirstOrderBy(alnum, MaskFrom(lex, TOP, text), 0) <==> Ordered(lex, alnum, text, cut)
  {
    var masked := MaskFrom(lex, TOP, text);
    var first := FirstOrderBy(alnum, masked, 0);
    if first < |text| {
      OrderExactly(lex, alnum, text, first);
    }
    forall i: nat | i < first
      ensures !OrderStarts(lex, alnum, text, i)
    {
      OrderExactly(lex, alnum, text, i);
    }
    assert Ordered(lex, alnum, text, first);
  }

  /** The mask of what is before a place is what is before it in the mask. */
  lemma MaskPrefix(lex: Lexicon, text: string, cut: nat)
    requires Run(lex, TOP, text).Some? && cut <= |text|
    ensures Run(lex, TOP, text[..cut]).Some? && |MaskFrom(lex, TOP, text)| == |text|
    ensures MaskFrom(lex, TOP, text)[..cut] == MaskFrom(lex, TOP, text[..cut])
  {
    assert text == text[..cut] + text[cut..];
    RunConcat(lex, TOP, text[..cut], text[cut..]);
    MaskConcat(lex, TOP, text[..cut], text[cut..]);
  }

  /** A clause of the query in the open asks for the window. */
  ghost predicate HoldsUpdated(alnum: char -> bool, text: string) {
    exists b: nat, e: nat :: Between(JQL, alnum, true, text, b, e) && UpdatedClause(text[b..e])
  }

  lemma HoldsUpdatedExactly(alnum: char -> bool, text: string)
    requires Run(JQL, TOP, text).Some? && |MaskFrom(JQL, TOP, text)| == |text|
    ensures var terms := Terms(alnum, true, text, MaskFrom(JQL, TOP, text));
            (exists i :: 0 <= i < |terms| && JiraTerm(terms[i])) <==> HoldsUpdated(alnum, text)
  {
    var terms := Terms(alnum, true, text, MaskFrom(JQL, TOP, text));
    if i :| 0 <= i < |terms| && JiraTerm(terms[i]) {
      TermsAreClauses(JQL, alnum, true, text, terms[i]);
      var b: nat, e: nat :| Between(JQL, alnum, true, text, b, e) && Collapse(text[b..e]) == terms[i];
      UpdatedExactly(text[b..e]);
    }
    if HoldsUpdated(alnum, text) {
      var b: nat, e: nat :| Between(JQL, alnum, true, text, b, e) && UpdatedClause(text[b..e]);
      UpdatedExactly(text[b..e]);
      TermsAreClauses(JQL, alnum, true, text, Collapse(text[b..e]));
      var i :| 0 <= i < |terms| && terms[i] == Collapse(text[b..e]);
    }
  }

  ghost predicate HoldsBars(text: string) {
    exists i: nat :: OpenTwice(JQL, text, i, '|')
  }

  /** What makes the clauses of a query acceptable. */
  ghost predicate KeepsUpdated(alnum: char -> bool, clauses: string) {
    !HoldsWord(JQL, alnum, clauses, "or") && !HoldsBars(clauses) && HoldsUpdated(alnum, clauses)
  }

  /** What makes a query acceptable, in any order: `cut` is where its ordering starts. */
  ghost predicate KeepsJqlWindow(alnum: char -> bool, jql: string, cut: nat)
    requires cut <= |jql|
  {
    OnlyFields(jql, {CRITERIA}) && Balanced(JQL, jql) && KeepsUpdated(alnum, jql[..cut])
  }

  ghost predicate JqlRefusal(alnum: char -> bool, jql: string, cut: nat, why: Refusal)
    requires cut <= |jql|
  {
    match why
    case ReplacementField => !OnlyFields(jql, {CRITERIA})
    case Structure(_) => !Balanced(JQL, jql)
    case TopLevelOr => HoldsWord(JQL, alnum, jql[..cut], "or")
    case TopLevelBars => HoldsBars(jql[..cut])
    case MissingTerm(placeholder) => placeholder == CRITERIA && !HoldsUpdated(alnum, jql[..cut])
    case QueryDelimiter => false
  }

  /** The verdict once the clauses are cut off. */
  function ClausesVerdict(alnum: char -> bool, clauses: string, masked: string): Verdict
    requires |masked| == |clauses|
  {
    if HasKeyword(alnum, masked, "or") then Refused(TopLevelOr)
    else if HasBars(masked) then Refused(TopLevelBars)
    else
      var terms := Terms(alnum, true, clauses, masked);
      if exists i :: 0 <= i < |terms| && JiraTerm(terms[i]) then Accepted else Refused(MissingTerm(CRITERIA))
  }

  lemma ClausesExactly(alnum: char -> bool, clauses: string, masked: string)
    requires Run(JQL, TOP, clauses).Some? && masked == MaskFrom(JQL, TOP, clauses) && |masked| == |clauses|
    ensures ClausesVerdict(alnum, clauses, masked) == Accepted <==> KeepsUpdated(alnum, clauses)
    ensures ClausesVerdict(alnum, clauses, masked) == Refused(TopLevelOr) ==> HoldsWord(JQL, alnum, clauses, "or")
    ensures ClausesVerdict(alnum, clauses, masked) == Refused(TopLevelBars) ==> HoldsBars(clauses)
    ensures ClausesVerdict(alnum, clauses, masked) == Refused(MissingTerm(CRITERIA)) ==> !HoldsUpdated(alnum, clauses)
  {
    WindowNames();
    HasWord(JQL, alnum, clauses, "or");
    HasDouble(JQL, clauses);
    HoldsUpdatedExactly(alnum, clauses);
  }

  lemma JqlVerdict(alnum: char -> bool, jql: string, cut: nat)
    requires FieldsAllowed(jql, {CRITERIA}) && Masked(JQL, jql) == Success(MaskFrom(JQL, TOP, jql))
    requires |MaskFrom(JQL, TOP, jql)| == |jql| && cut == FirstOrderBy(alnum, MaskFrom(JQL, TOP, jql), 0)
    ensures CheckJqlWindow(alnum, jql) == ClausesVerdict(alnum, jql[..cut], MaskFrom(JQL, TOP, jql)[..cut])
  {
  }

  /**
   The guard of a JQL query, exactly: it accepts the queries with no field but the criteria, balanced, that hold no `or`
   and no bars in the open before their ordering and, between the joints they hold in the open there, `updated >` the
   criteria. A refusal tells what is missing.
   */
  lemma JqlGuardExactly(alnum: char -> bool, jql: string, cut: nat)
    requires Ordered(JQL, alnum, jql, cut)
    ensures CheckJqlWindow(alnum, jql) == Accepted <==> KeepsJqlWindow(alnum, jql, cut)
    ensures CheckJqlWindow(alnum, jql) != Accepted ==> JqlRefusal(alnum, jql, cut, CheckJqlWindow(alnum, jql).why)
  {
    FieldsExactly(jql, {CRITERIA});
    BalancedExactly(JQL, jql);
    if OnlyFields(jql, {CRITERIA}) && Balanced(JQL, jql) {
      CutExactly(JQL, alnum, jql, cut);
      MaskPrefix(JQL, jql, cut);
      JqlVerdict(alnum, jql, cut);
      ClausesExactly(alnum, jql[..cut], MaskFrom(JQL, TOP, jql)[..cut]);
    }
  }
}
