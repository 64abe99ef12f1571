/** The structural checks of a custom query: top-level `and` terms, no top-level `or`, the window terms. */
module WindowGuard {
  import opened Chars
  import opened Wrappers
  import opened Mask
  import Template

  /** A word `w` of letters stands at `i`, in any case, with no word character against it. */
  predicate KeywordAt(alnum: char -> bool, s: string, i: nat, w: string) {
    && i + |w| <= |s|
    && SameFold(s[i..i + |w|], w)
    && (i > 0 ==> !IsWord(alnum, s[i - 1]))
    && (i + |w| < |s| ==> !IsWord(alnum, s[i + |w|]))
  }

  predicate HasKeyword(alnum: char -> bool, s: string, w: string) {
    exists i :: 0 <= i <= |s| && KeywordAt(alnum, s, i, w)
  }

  /** Length of the separator at `i`, 0 when there is none: `and`, and `&&` too in JQL. */
  function SeparatorAt(alnum: char -> bool, symbols: bool, masked: string, i: nat): (n: nat)
    requires i < |masked|
    ensures i + n <= |masked|
    ensures n > 0 ==> forall j :: i <= j < i + n ==> masked[j] != MASK
  {
    if KeywordAt(alnum, masked, i, "and") then
      assert forall j :: i <= j < i + 3 ==> masked[j] == masked[i..i + 3][j - i];
      3
    else if symbols && i + 2 <= |masked| && masked[i] == '&' && masked[i + 1] == '&' then 2
    else 0
  }

  /** Runs of whitespace become one blank. */
  function Squeeze(text: string): string
    decreases |text|
  {
    if text == "" then ""
    else if IsSpace(text[0]) then " " + Squeeze(SkipSpaces(text))
    else [text[0]] + Squeeze(text[1..])
  }

  function SkipSpaces(text: string): (rest: string)
    ensures |rest| <= |text| && rest == text[|text| - |rest|..] && AllSpace(text[..|text| - |rest|])
    ensures rest != "" ==> !IsSpace(rest[0])
    ensures text != "" && IsSpace(text[0]) ==> |rest| < |text|
  {
    if text != "" && IsSpace(text[0]) then SkipSpaces(text[1..]) else text
  }

  function Collapse(text: string): string {
    Strip(Squeeze(text))
  }

  /** The length of the separator at every place of the masked text. */
  function Separators(alnum: char -> bool, symbols: bool, masked: string): (lengths: seq<nat>)
    ensures Fitting(lengths) && |lengths| == |masked|
  {
    seq(|masked|, i requires 0 <= i < |masked| => SeparatorAt(alnum, symbols, masked, i))
  }

  predicate Fitting(lengths: seq<nat>) {
    forall i :: 0 <= i < |lengths| ==> i + lengths[i] <= |lengths|
  }

  /** The terms from the one that starts at `start`, `i` being the place the separators are searched from. */
  function TermsFrom(lengths: seq<nat>, text: string, start: nat, i: nat): seq<string>
    requires |lengths| == |text| && Fitting(lengths) && start <= i <= |text|
    decreases |text| - i
  {
    if i == |text| then [Collapse(text[start..])]
    else if lengths[i] > 0 then
      [Collapse(text[start..i])] + TermsFrom(lengths, text, i + lengths[i], i + lengths[i])
    else TermsFrom(lengths, text, start, i + 1)
  }

  function Terms(alnum: char -> bool, symbols: bool, text: string, masked: string): seq<string>
    requires |masked| == |text|
  {
    TermsFrom(Separators(alnum, symbols, masked), text, 0, 0)
  }

  /** The terms found so far, and those from `start` on, are the terms. */
  predicate SplitSoFar(lengths: seq<nat>, text: string, terms: seq<string>, start: nat, i: nat)
    requires |lengths| == |text| && Fitting(lengths) && start <= i <= |text|
  {
    terms + TermsFrom(lengths, text, start, i) == TermsFrom(lengths, text, 0, 0)
  }

  lemma SplitMore(lengths: seq<nat>, text: string, terms: seq<string>, start: nat, i: nat)
    requires |lengths| == |text| && Fitting(lengths) && start <= i < |text|
    requires SplitSoFar(lengths, text, terms, start, i)
    ensures if lengths[i] > 0
            then SplitSoFar(lengths, text, terms + [Collapse(text[start..i])], i + lengths[i], i + lengths[i])
            else SplitSoFar(lengths, text, terms, start, i + 1)
  {
    if lengths[i] > 0 {
      var rest := TermsFrom(lengths, text, i + lengths[i], i + lengths[i]);
      assert terms + ([Collapse(text[start..i])] + rest) == (terms + [Collapse(text[start..i])]) + rest;
    }
  }

  /** The splitting loop: `terms` and `start` move at every separator found. */
  method SplitAt(lengths: seq<nat>, text: string) returns (terms: seq<string>)
    requires |lengths| == |text| && Fitting(lengths)
    ensures terms == TermsFrom(lengths, text, 0, 0)
  {
    terms := [];
    var start: nat, i: nat := 0, 0;
    while i < |text|
      invariant start <= i <= |text| && SplitSoFar(lengths, text, terms, start, i)
    {
      SplitMore(lengths, text, terms, start, i);
      if lengths[i] > 0 {
        terms := terms + [Collapse(text[start..i])];
        start := i + lengths[i];
        i := start;
      } else {
        i := i + 1;
      }
    }
    terms := terms + [Collapse(text[start..])];
  }

  /** `<field> <op> {<placeholder>}`, the operator in any case. */
  predicate WindowTerm(term: string, field: string, op: string, placeholder: string) {
    var at := |field| + 1;
    && |term| == at + |op| + |placeholder| + 3
    && term[..at] == field + " "
    && SameFold(term[at..at + |op|], op)
    && term[at + |op|..] == " {" + placeholder + "}"
  }

  /** `updated > {date_criteria}`, the field in any case. */
  predicate JiraTerm(term: string) {
    |term| >= 7 && SameFold(term[..7], "updated") && term[7..] == " > {" + CRITERIA + "}"
  }

  const START := "publication_start_date"
  const END := "publication_end_date"
  const CRITERIA := "date_criteria"

  datatype Refusal =
    | QueryDelimiter
    | ReplacementField
    | Structure(problem: Unbalanced)
    | TopLevelOr
    | TopLevelBars
    | MissingTerm(placeholder: string)

  datatype Verdict = Accepted | Refused(why: Refusal)

  function Blanks(names: set<string>): Template.Values {
    map name | name in names :: ""
  }

  /** The only replacement fields of `text` are the placeholders `names`. */
  predicate FieldsAllowed(text: string, names: set<string>) {
    Template.Format(text, Blanks(names)).Some?
  }

  /** What would end the filter in the URL. */
  predicate EndsQuery(c: char) {
    c == '&' || c == '#' || c == '?'
  }

  function CheckODataWindow(alnum: char -> bool, filter: string, dateField: string): Verdict {
    if exists i :: 0 <= i < |filter| && EndsQuery(filter[i]) then Refused(QueryDelimiter)
    else CheckODataTerms(alnum, filter, dateField)
  }

  /** The check of what the filter asks for, once nothing ends it in the URL. */
  function CheckODataTerms(alnum: char -> bool, filter: string, dateField: string): Verdict {
    if !FieldsAllowed(filter, {START, END}) then Refused(ReplacementField)
    else match Masked(ODATA, filter)
      case Failure(problem) => Refused(Structure(problem))
      case Success(masked) =>
        if HasKeyword(alnum, masked, "or") then Refused(TopLevelOr)
        else
          var terms := Terms(alnum, false, filter, masked);
          if !exists i :: 0 <= i < |terms| && WindowTerm(terms[i], dateField, "ge", START) then Refused(MissingTerm(START))
          else if !exists i :: 0 <= i < |terms| && WindowTerm(terms[i], dateField, "le", END) then Refused(MissingTerm(END))
          else Accepted
  }

  // ---------- the check of a JQL query ----------

  /** `order`, blanks and `by` stand at `i`, in any case, with no word character against them. */
  predicate OrderByAt(alnum: char -> bool, s: string, i: nat) {
    && i + 5 < |s| && SameFold(s[i..i + 5], "order") && IsSpace(s[i + 5])
    && (i > 0 ==> !IsWord(alnum, s[i - 1]))
    && var rest := SkipSpaces(s[i + 5..]);
       |rest| >= 2 && SameFold(rest[..2], "by") && (|rest| > 2 ==> !IsWord(alnum, rest[2]))
  }

  /** Where the first `order by` from `i` on starts, or the end. */
  function FirstOrderBy(alnum: char -> bool, s: string, i: nat): (cut: nat)
    requires i <= |s|
    ensures i <= cut <= |s|
    ensures cut < |s| ==> OrderByAt(alnum, s, cut)
    ensures forall j :: i <= j < cut ==> !OrderByAt(alnum, s, j)
    decreases |s| - i
  {
    if i == |s| || OrderByAt(alnum, s, i) then i else FirstOrderBy(alnum, s, i + 1)
  }

  predicate HasBars(s: string) {
    exists i :: 0 <= i < |s| - 1 && s[i] == '|' && s[i + 1] == '|'
  }

  function CheckJqlWindow(alnum: char -> bool, jql: string): Verdict {
    if !FieldsAllowed(jql, {CRITERIA}) then Refused(ReplacementField)
    else match Masked(JQL, jql)
      case Failure(problem) => Refused(Structure(problem))
      case Success(masked) =>
        var cut := FirstOrderBy(alnum, masked, 0);
        if HasKeyword(alnum, masked[..cut], "or") then Refused(TopLevelOr)
        else if HasBars(masked[..cut]) then Refused(TopLevelBars)
        else
          var terms := Terms(alnum, true, jql[..cut], masked[..cut]);
          if exists i :: 0 <= i < |terms| && JiraTerm(terms[i]) then Accepted else Refused(MissingTerm(CRITERIA))
  }
}
