/**
 Where the guard of an OData filter fails: a template with percent escapes and one with JSON strings that it accepts, and
 whose filters entities satisfy that the window does not hold, whatever the window. Each breaks one of the two conditions
 of `ODataServer.ODataWindowKept`.
 */
module ODataLimits {
  import opened Chars
  import opened Wrappers
  import opened Mask
  import opened WindowGuard
  import opened Template
  import opened CollapsedTerms
  import opened ODataQuery
  import opened FilterTokens
  import opened FilterText
  import opened ODataWindow
  import opened ODataPlus
  import opened ODataServer

  const FIELD := "PublicationDate"

  function Words(op: string): string {
    FIELD + " " + op + " "
  }

  function Term(op: string, placeholder: string): string {
    Words(op) + Hole(placeholder)
  }

  /** To the guard one word, to the server a property, an `or` and a property. */
  const HIDING := " a%20or%20b"

  const FROM := Term("ge", START)
  const TO := " " + Term("le", END)
  const HIDDEN := FROM + (" and" + (TO + (" and" + HIDING)))

  /** To the guard a call, most of it in a string, to the server a call, an `or`, a property, an `or` and a call. */
  const MASKING := CALL + (" or g or " + CALL)
  const CALL := "f([\"'\"])"

  const JSON := MASKING + (" and" + (" " + (FROM + (" and" + TO))))

  // ---------- it is accepted ----------

  predicate Either(c: char, small: char, big: char) {
    c == small || c == big
  }

  /** Where an `or` stands, a `0` is before it: the guard takes it for the end of a word. */
  predicate OrGlued(s: string) {
    && (forall i :: 0 <= i < |s| - 1 && Either(s[i], 'o', 'O') && Either(s[i + 1], 'r', 'R') ==> i > 0 && s[i - 1] == '0')
    && (s != "" ==> !Either(s[|s| - 1], 'o', 'O'))
  }

  lemma OrGluedConcat(a: string, b: string)
    requires OrGlued(a) && OrGlued(b)
    ensures OrGlued(a + b)
  {
    assert forall i :: 0 <= i < |a + b| ==> (a + b)[i] == if i < |a| then a[i] else b[i - |a|];
  }

  lemma GluedIsNoKeyword(alnum: char -> bool, s: string)
    requires OrGlued(s)
    ensures !HasKeyword(alnum, s, "or")
  {
    forall i | 0 <= i <= |s|
      ensures !KeywordAt(alnum, s, i, "or")
    {
      assert i + 2 <= |s| ==> s[i..i + 2][0] == s[i] && s[i..i + 2][1] == s[i + 1];
    }
  }

  /** No `and` can start in it. */
  predicate NoAnd(s: string) {
    forall i :: 0 <= i < |s| && Either(s[i], 'a', 'A') ==> i + 1 < |s| && !Either(s[i + 1], 'n', 'N')
  }

  /** Nothing refused and no keyword but those looked for. */
  predicate Passed(s: string) {
    OrGlued(s) && forall i :: 0 <= i < |s| ==> Plain(ODATA, s[i]) && !EndsQuery(s[i])
  }

  lemma PassedConcat(a: string, b: string)
    requires Passed(a) && Passed(b)
    ensures Passed(a + b)
  {
    OrGluedConcat(a, b);
  }

  lemma NoAndConcat(a: string, b: string)
    requires NoAnd(a) && NoAnd(b)
    ensures NoAnd(a + b)
  {
    assert forall i :: 0 <= i < |a + b| ==> (a + b)[i] == if i < |a| then a[i] else b[i - |a|];
  }

  /** What a term is made of passes, and holds no `and`. */
  predicate Quiet(s: string) {
    Passed(s) && NoAnd(s)
  }

  lemma CapitalIsQuiet()
    ensures Quiet("Public")
  {
  }

  lemma DayIsQuiet()
    ensures Quiet("Date")
  {
  }

  lemma AtionIsQuiet()
    ensures Quiet("ation")
  {
  }

  lemma FieldParts()
    ensures FIELD == "Public" + "ation" + "Date"
  {
  }

  lemma FieldIsQuiet()
    ensures Quiet(FIELD)
  {
    CapitalIsQuiet();
    AtionIsQuiet();
    DayIsQuiet();
    BothQuiet("Public", "ation");
    BothQuiet("Public" + "ation", "Date");
    FieldParts();
  }

  lemma PublicIsQuiet()
    ensures Quiet("public")
  {
  }

  lemma SuffixIsQuiet()
    ensures Quiet("_date")
  {
  }

  lemma NameIsQuiet(middle: string)
    requires Quiet(middle)
    ensures Quiet("public" + "ation" + middle + "_date")
  {
    PublicIsQuiet();
    AtionIsQuiet();
    SuffixIsQuiet();
    BothQuiet("public", "ation");
    BothQuiet("public" + "ation", middle);
    BothQuiet("public" + "ation" + middle, "_date");
  }

  lemma StartIsQuiet()
    ensures Quiet("_start")
  {
  }

  lemma EndIsQuiet()
    ensures Quiet("_end")
  {
  }

  lemma NamesAreQuiet()
    ensures Quiet(START) && Quiet(END)
  {
    NameParts();
    StartIsQuiet();
    EndIsQuiet();
    NameIsQuiet("_start");
    NameIsQuiet("_end");
  }

  lemma NameParts()
    ensures START == "public" + "ation" + "_start" + "_date" && END == "public" + "ation" + "_end" + "_date"
  {
  }

  lemma OperatorsAreQuiet()
    ensures Quiet("ge") && Quiet("le")
  {
  }

  lemma MarksAreQuiet()
    ensures Quiet(" ") && Quiet("{") && Quiet("}")
  {
  }

  lemma TermIsQuiet(op: string, placeholder: string)
    requires Quiet(op) && Quiet(placeholder)
    ensures Quiet(Term(op, placeholder))
  {
    FieldIsQuiet();
    MarksAreQuiet();
    BothQuiet(FIELD, " ");
    BothQuiet(FIELD + " ", op);
    BothQuiet(FIELD + " " + op, " ");
    BothQuiet("{", placeholder);
    BothQuiet("{" + placeholder, "}");
    BothQuiet(Words(op), Hole(placeholder));
  }

  lemma BothQuiet(a: string, b: string)
    requires Quiet(a) && Quiet(b)
    ensures Quiet(a + b)
  {
    PassedConcat(a, b);
    NoAndConcat(a, b);
  }

  lemma BoundsAreQuiet()
    ensures Quiet(FROM) && Quiet(TO) && TO[0] == ' '
  {
    MarksAreQuiet();
    OperatorsAreQuiet();
    NamesAreQuiet();
    TermIsQuiet("ge", START);
    TermIsQuiet("le", END);
    BothQuiet(" ", Term("le", END));
  }

  /** From a place on, a text is another one. */
  predicate From(text: string, p: nat, s: string) {
    p <= |text| && text[p..] == s
  }

  lemma AndHere(text: string, p: nat, a: string, rest: string)
    requires From(text, p, a + (" and" + rest)) && rest != "" && rest[0] == ' '
    ensures var k := p + |a| + 1;
            && k + 3 < |text| && text[k..k + 3] == "and" && text[k - 1] == ' ' && text[k + 3] == ' '
            && text[p..k] == a + " " && From(text, k + 3, rest)
  {
    var s := text[p..];
    var k := |a| + 1;
    assert s[k..k + 3] == "and" && s[..k] == a + " " && s[k + 3..] == rest;
    assert text[p + k..p + k + 3] == s[k..k + 3] && text[p..p + k] == s[..k] && text[p + k + 3..] == s[k + 3..];
    assert text[p + k - 1] == s[k - 1] && text[p + k + 3] == s[k + 3];
  }

  lemma LettersHere(text: string, p: nat, a: string, rest: string)
    requires From(text, p, a + rest)
    ensures forall i :: 0 <= i < |a| ==> text[p + i] == a[i]
  {
    assert forall i :: 0 <= i < |a| ==> text[p..][i] == a[i];
  }

  lemma SeparatorHere(alnum: char -> bool, text: string, p: nat, a: string, rest: string)
    requires From(text, p, a + (" and" + rest)) && NoAnd(a) && rest != "" && rest[0] == ' '
    ensures var k := p + |a| + 1;
            && k < |text| && (forall j :: p <= j < k ==> SeparatorAt(alnum, false, text, j) == 0)
            && SeparatorAt(alnum, false, text, k) == 3
  {
    AndHere(text, p, a, rest);
    LettersHere(text, p, a, " and" + rest);
    var k := p + |a| + 1;
    forall j | p <= j < k
      ensures !KeywordAt(alnum, text, j, "and")
    {
      NoKeywordHere(alnum, text, p, a, j);
    }
  }

  lemma NoKeywordHere(alnum: char -> bool, text: string, b: nat, a: string, j: nat)
    requires NoAnd(a) && b <= j <= b + |a| <= |text| && (b + |a| < |text| ==> text[b + |a|] == ' ')
    requires forall i :: 0 <= i < |a| ==> text[b + i] == a[i]
    ensures !KeywordAt(alnum, text, j, "and")
  {
    assert j < b + |a| ==> text[j] == a[j - b];
    assert j + 1 < b + |a| ==> text[j + 1] == a[j + 1 - b];
    if j + 3 <= |text| {
      assert text[j..j + 3][0] == text[j] && text[j..j + 3][1] == text[j + 1];
    }
  }

  function TermsAt(alnum: char -> bool, text: string, masked: string, p: nat): seq<string>
    requires |text| == |masked| && p <= |text|
  {
    TermsFrom(Separators(alnum, false, masked), text, p, p)
  }

  /** The term up to an `and`, in a text and its mask. */
  lemma NextTerm(
    alnum: char -> bool, text: string, masked: string, p: nat, a: string, rest: string, m: string, mrest: string, q: nat)
    requires |text| == |masked| && From(text, p, a + (" and" + rest)) && From(masked, p, m + (" and" + mrest))
    requires |a| == |m| && NoAnd(m) && mrest != "" && rest != "" && mrest[0] == ' ' == rest[0] && q == p + |a| + 4
    ensures From(text, q, rest) && From(masked, q, mrest)
    ensures TermsAt(alnum, text, masked, p) == [Collapse(a + " ")] + TermsAt(alnum, text, masked, q)
  {
    SeparatorHere(alnum, masked, p, m, mrest);
    AndHere(masked, p, m, mrest);
    AndHere(text, p, a, rest);
    TermsFirst(Separators(alnum, false, masked), text, p, p, p + |a| + 1);
  }

  lemma {:induction false} NoMoreTerms(lengths: seq<nat>, text: string, start: nat, i: nat)
    requires |lengths| == |text| && Fitting(lengths) && start <= i <= |text|
    requires forall j :: i <= j < |text| ==> lengths[j] == 0
    ensures TermsFrom(lengths, text, start, i) == [Collapse(text[start..])]
    decreases |text| - i
  {
    if i < |text| {
      NoMoreTerms(lengths, text, start, i + 1);
    }
  }

  /** The term after the last `and`, of which the mask hides nothing. */
  lemma LastTerm(alnum: char -> bool, text: string, masked: string, p: nat, a: string)
    requires |text| == |masked| && From(text, p, a) && From(masked, p, a) && NoAnd(a)
    ensures TermsAt(alnum, text, masked, p) == [Collapse(a)]
  {
    assert a + "" == a;
    LettersHere(masked, p, a, "");
    forall j | p <= j < |text|
      ensures SeparatorAt(alnum, false, masked, j) == 0
    {
      NoKeywordHere(alnum, masked, p, a, j);
    }
    NoMoreTerms(Separators(alnum, false, masked), text, p, p);
  }

  /** A text of three parts with `and`s between them. */
  predicate Parted(text: string, a: string, b: string, c: string) {
    From(text, 0, a + (" and" + (b + (" and" + c)))) && b != "" && b[0] == ' ' && c != "" && c[0] == ' '
  }

  lemma FirstTerm(alnum: char -> bool, text: string, masked: string, a: string, b: string, c: string, m: string, n: string)
    requires |text| == |masked| && Parted(text, a, b, c) && Parted(masked, m, n, c) && |a| == |m| && NoAnd(m)
    ensures From(text, |a| + 4, b + (" and" + c)) && From(masked, |a| + 4, n + (" and" + c))
    ensures Terms(alnum, false, text, masked) == [Collapse(a + " ")] + TermsAt(alnum, text, masked, |a| + 4)
  {
    NextTerm(alnum, text, masked, 0, a, b + (" and" + c), m, n + (" and" + c), |a| + 4);
  }

  lemma SecondTerm(alnum: char -> bool, text: string, masked: string, p: nat, b: string, c: string, n: string, q: nat)
    requires |text| == |masked| && From(text, p, b + (" and" + c)) && From(masked, p, n + (" and" + c))
    requires |b| == |n| && NoAnd(n) && c != "" && c[0] == ' ' && q == p + |b| + 4
    ensures From(text, q, c) && From(masked, q, c)
    ensures TermsAt(alnum, text, masked, p) == [Collapse(b + " ")] + TermsAt(alnum, text, masked, q)
  {
    NextTerm(alnum, text, masked, p, b, c, n, c, q);
  }

  lemma LinkPasses()
    ensures Passed(" and")
  {
  }

  lemma HidingPasses()
    ensures Passed(HIDING)
  {
    assert HIDING[4] == '0' && HIDING[5] == 'o';
  }

  lemma PassesBetween(a: string, b: string, c: string, d: string)
    requires Passed(a) && Passed(b) && Passed(c) && Passed(d)
    ensures Passed(a + (b + (c + (b + d))))
  {
    PassedConcat(b, d);
    PassedConcat(c, b + d);
    PassedConcat(b, c + (b + d));
    PassedConcat(a, b + (c + (b + d)));
  }

  lemma HiddenPasses()
    ensures Passed(HIDDEN)
  {
    BoundsAreQuiet();
    LinkPasses();
    HidingPasses();
    PassesBetween(FROM, " and", TO, HIDING);
  }

  lemma TermIsWindow(op: string, placeholder: string)
    requires |op| == 2 && SameFold(op, op)
    ensures WindowTerm(Term(op, placeholder), FIELD, op, placeholder)
  {
    var term := Term(op, placeholder);
    var at := |FIELD| + 1;
    assert term[..at] == FIELD + " " && term[at..at + 2] == op;
    assert term[at + 2..] == " {" + placeholder + "}";
  }

  lemma CollapseBound(before: string, op: string, placeholder: string)
    requires AllSpace(before) && op != "" && NoSpace(op) && NoSpace(placeholder)
    ensures Collapse(before + Term(op, placeholder) + " ") == Term(op, placeholder)
  {
    FieldIsWord();
    WordsCollapse(before, FIELD, " ", op, " ", Hole(placeholder), " ");
    Around(before, FIELD, op, Hole(placeholder));
  }

  lemma Around(before: string, u: string, v: string, w: string)
    ensures before + (u + (" " + (v + (" " + (w + " "))))) == before + ((u + " " + v + " ") + w) + " "
    ensures u + " " + v + " " + w == (u + " " + v + " ") + w
  {
  }

  lemma FieldIsWord()
    ensures NoSpace(FIELD) && NoBrace(FIELD) && OneWord(FIELD) && PropertyPath(FIELD) && Classify(FIELD) == Word(FIELD)
  {
  }

  lemma TermsFound(alnum: char -> bool, a: string, b: string, rest: string, text: string, field: string)
    requires NoAnd(a) && NoAnd(b) && Parted(text, a, b, rest)
    requires WindowTerm(Collapse(a + " "), field, "ge", START) && WindowTerm(Collapse(b + " "), field, "le", END)
    ensures BothFound(Terms(alnum, false, text, text), field)
  {
    var more := FirstTwoTerms(alnum, a, b, rest, text);
    FirstTwoFound(Collapse(a + " "), Collapse(b + " "), more, field);
  }

  lemma FirstTwoTerms(alnum: char -> bool, a: string, b: string, rest: string, text: string) returns (more: seq<string>)
    requires NoAnd(a) && NoAnd(b) && Parted(text, a, b, rest)
    ensures Terms(alnum, false, text, text) == [Collapse(a + " ")] + ([Collapse(b + " ")] + more)
  {
    var p := |a| + 4;
    FirstTerm(alnum, text, text, a, b, rest, a, b);
    SecondTerm(alnum, text, text, p, b, rest, b, p + |b| + 4);
    more := TermsAt(alnum, text, text, p + |b| + 4);
  }

  lemma FirstTwoFound(x: string, y: string, rest: seq<string>, field: string)
    requires WindowTerm(x, field, "ge", START) && WindowTerm(y, field, "le", END)
    ensures BothFound([x] + ([y] + rest), field)
  {
    var terms := [x] + ([y] + rest);
    assert terms[0] == x && terms[1] == y;
  }

  predicate BothFound(terms: seq<string>, field: string) {
    && (exists i :: 0 <= i < |terms| && WindowTerm(terms[i], field, "ge", START))
    && (exists i :: 0 <= i < |terms| && WindowTerm(terms[i], field, "le", END))
  }

  lemma FirstBound()
    ensures WindowTerm(Collapse(FROM + " "), FIELD, "ge", START)
  {
    Names();
    CollapseBound("", "ge", START);
    assert "" + FROM + " " == FROM + " ";
    TermIsWindow("ge", START);
  }

  lemma SecondBound()
    ensures WindowTerm(Collapse(TO + " "), FIELD, "le", END)
  {
    Names();
    CollapseBound(" ", "le", END);
    TermIsWindow("le", END);
  }

  lemma HiddenTerms(alnum: char -> bool)
    ensures BothFound(Terms(alnum, false, HIDDEN, HIDDEN), FIELD)
  {
    BoundsAreQuiet();
    FirstBound();
    SecondBound();
    WholeFrom(HIDDEN);
    TermsFound(alnum, FROM, TO, HIDING, HIDDEN, FIELD);
  }

  lemma HiddenMasked()
    ensures Masked(ODATA, HIDDEN) == Success(HIDDEN)
  {
    HiddenPasses();
    MaskPlain(ODATA, HIDDEN);
  }

  lemma AcceptedWhole(alnum: char -> bool, text: string, masked: string, field: string)
    requires EndsNothing(text) && Masked(ODATA, text) == Success(masked) && OrGlued(masked) && |masked| == |text|
    requires FieldsAllowed(text, {START, END}) && BothFound(Terms(alnum, false, text, masked), field)
    ensures CheckODataWindow(alnum, text, field) == Accepted
  {
    GluedIsNoKeyword(alnum, masked);
  }

  predicate EndsNothing(s: string) {
    forall i :: 0 <= i < |s| ==> !EndsQuery(s[i])
  }

  lemma HiddenIsAccepted(alnum: char -> bool)
    ensures CheckODataWindow(alnum, HIDDEN, FIELD) == Accepted
  {
    HiddenPasses();
    HiddenMasked();
    HiddenTerms(alnum);
    HiddenFills(Blanks({START, END}));
    AcceptedWhole(alnum, HIDDEN, HIDDEN, FIELD);
  }

  // ---------- its filter ----------

  function Filled(start: string, end: string, rest: string): string {
    Words("ge") + (start + (" and" + (" " + (Words("le") + (end + (" and" + rest))))))
  }

  lemma FillWords(words: string, placeholder: string, rest: string, values: Values)
    requires NoBrace(words) && placeholder in values && placeholder != "" && PlaceholderName(placeholder)
    requires Format(rest, values).Some?
    ensures Format((words + Hole(placeholder)) + rest, values)
            == Some(words + (values[placeholder] + Format(rest, values).value))
  {
    HoleStep(placeholder, rest, values);
    FormatPast(words, Hole(placeholder) + rest, values);
    Assoc(words, Hole(placeholder), rest);
  }

  lemma WordsBraceless(op: string)
    requires NoBrace(op)
    ensures NoBrace(Words(op))
  {
    FieldIsWord();
  }

  lemma FillBoth(x: string, y: string, rest: string, values: Values)
    requires NoBrace(x) && NoBrace(y) && NoBrace(rest) && START in values && END in values
    ensures Format((x + Hole(START)) + (" and" + (" " + ((y + Hole(END)) + (" and" + rest)))), values)
            == Some(x + (values[START] + (" and" + (" " + (y + (values[END] + (" and" + rest)))))))
  {
    Names();
    FormatNoBrace(rest, values);
    FormatPast(" and", rest, values);
    FillWords(y, END, " and" + rest, values);
    var tail := (y + Hole(END)) + (" and" + rest);
    FormatPast(" ", tail, values);
    FormatPast(" and", " " + tail, values);
    FillWords(x, START, " and" + (" " + tail), values);
  }

  lemma HiddenText()
    ensures HIDDEN == Term("ge", START) + (" and" + (" " + (Term("le", END) + (" and" + HIDING))))
  {
    assert TO + (" and" + HIDING) == " " + (Term("le", END) + (" and" + HIDING));
  }

  lemma HiddenFills(values: Values)
    requires START in values && END in values
    ensures Format(HIDDEN, values) == Some(Filled(values[START], values[END], HIDING))
  {
    WordsBraceless("ge");
    WordsBraceless("le");
    FillBoth(Words("ge"), Words("le"), HIDING, values);
    HiddenText();
  }

  lemma DecodeBlank(server: Server, rest: string)
    requires Decode(server, rest).Some?
    ensures Decode(server, "%20" + rest) == Some(" " + Decode(server, rest).value)
  {
    var text := "%20" + rest;
    assert text[1] == '2' && text[2] == '0' && text[3..] == rest;
    assert HexValue('2') == 2 && HexValue('0') == 0;
    assert Piece(server, text) == Some((" ", 3));
  }

  lemma HidingParts()
    ensures HIDING == " a" + ("%20" + ("or" + ("%20" + "b"))) && " a" + (" " + ("or" + (" " + "b"))) == " a or b"
  {
  }

  /** Read as it is written. */
  predicate Sent(server: Server, s: string) {
    NoPercent(s) && (server.plus ==> NoPlus(s))
  }

  lemma DecodeSent(server: Server, a: string, b: string)
    requires Sent(server, a) && Decode(server, b).Some?
    ensures Decode(server, a + b) == Some(a + Decode(server, b).value)
  {
    DecodePast(server, a, b);
    PlainSame(server, a);
  }

  lemma HidingDecoded(server: Server)
    ensures Decode(server, HIDING) == Some(" a or b")
  {
    DecodeSent(server, "b", "");
    assert "b" + "" == "b";
    DecodeBlank(server, "b");
    DecodeSent(server, "or", "%20" + "b");
    DecodeBlank(server, "or" + ("%20" + "b"));
    DecodeSent(server, " a", "%20" + ("or" + ("%20" + "b")));
    HidingParts();
  }

  lemma WordsSent(server: Server, op: string)
    requires Sent(server, op)
    ensures Sent(server, Words(op))
  {
  }

  lemma FilledDecoded(server: Server, start: string, end: string)
    requires Sent(server, start) && Sent(server, end)
    ensures Decode(server, Filled(start, end, HIDING)) == Some(Filled(start, end, " a or b"))
  {
    HidingDecoded(server);
    WordsSent(server, "ge");
    WordsSent(server, "le");
    FilledDecodedBy(server, Words("ge"), start, Words("le"), end, HIDING);
  }

  lemma FilledDecodedBy(server: Server, x: string, start: string, y: string, end: string, rest: string)
    requires Sent(server, x) && Sent(server, start) && Sent(server, y) && Sent(server, end) && Decode(server, rest).Some?
    ensures Decode(server, x + (start + (" and" + (" " + (y + (end + (" and" + rest)))))))
            == Some(x + (start + (" and" + (" " + (y + (end + (" and" + Decode(server, rest).value)))))))
  {
    DecodeSent(server, " and", rest);
    DecodeSent(server, end, " and" + rest);
    var tail := end + (" and" + rest);
    DecodeSent(server, y, tail);
    DecodeSent(server, " ", y + tail);
    DecodeSent(server, " and", " " + (y + tail));
    DecodeSent(server, start, " and" + (" " + (y + tail)));
    DecodeSent(server, x, start + (" and" + (" " + (y + tail))));
  }

  // ---------- what the server reads ----------

  lemma LexSpaced(w: string, rest: string)
    requires OneWord(w) && Lex(rest).Some?
    ensures Lex(w + (" " + rest)) == Some([Classify(w)] + Lex(rest).value)
  {
    SpacesBefore(" ", rest);
    LexWord(w, " " + rest);
  }

  /** A comparison and an `and`, in words, and what follows. */
  function Line(field: string, op: string, date: string, link: string, rest: string): string {
    field + (" " + (op + (" " + (date + (" " + (link + (" " + rest)))))))
  }

  function LineTokens(field: string, op: string, date: string, link: string): seq<Token> {
    [Classify(field), Classify(op), Classify(date), Classify(link)]
  }

  lemma LexLine(field: string, op: string, date: string, link: string, rest: string)
    requires OneWord(field) && OneWord(op) && OneWord(date) && OneWord(link) && Lex(rest).Some?
    ensures Lex(Line(field, op, date, link, rest)) == Some(LineTokens(field, op, date, link) + Lex(rest).value)
  {
    LexSpaced(link, rest);
    var three := link + (" " + rest);
    LexSpaced(date, three);
    var two := date + (" " + three);
    LexSpaced(op, two);
    LexSpaced(field, op + (" " + two));
    FourTokens(Classify(field), Classify(op), Classify(date), Classify(link), Lex(rest).value);
  }

  lemma FourTokens(a: Token, b: Token, c: Token, d: Token, rest: seq<Token>)
    ensures [a] + ([b] + ([c] + ([d] + rest))) == [a, b, c, d] + rest
  {
  }

  lemma DateWordAlone(date: string)
    requires DateText(date)
    ensures OneWord(date) && Classify(date) == Word(date)
  {
    DateIsWord(date, "");
    assert date + "" == date;
  }

  lemma ReadText(start: string, end: string)
    ensures Filled(start, end, " a or b") == Line(FIELD, "ge", start, "and", Line(FIELD, "le", end, "and", "a or b"))
  {
    ReadTextBy(FIELD, start, end, "a or b");
    assert " " + "a or b" == " a or b";
  }

  lemma ReadTextBy(f: string, start: string, end: string, rest: string)
    ensures (f + " " + "ge" + " ") + (start + (" and" + (" " + ((f + " " + "le" + " ") + (end + (" and" + (" " + rest)))))))
            == Line(f, "ge", start, "and", Line(f, "le", end, "and", rest))
  {
    LineText(f, "le", end, rest);
    LineText(f, "ge", start, Line(f, "le", end, "and", rest));
  }

  lemma LineText(f: string, op: string, date: string, rest: string)
    ensures (f + " " + op + " ") + (date + (" and" + (" " + rest))) == Line(f, op, date, "and", rest)
  {
    assert " and" + (" " + rest) == " " + ("and" + (" " + rest));
  }

  lemma FlagWords()
    ensures OneWord("a") && OneWord("or") && OneWord("b")
    ensures Classify("a") == Word("a") && Classify("or") == Disjoin && Classify("b") == Word("b")
    ensures "a or b" == "a" + (" " + ("or" + (" " + "b"))) && "b" + "" == "b"
  {
    assert |"a"| == 1 && |"b"| == 1;
  }

  lemma LexFlags()
    ensures Lex("a or b") == Some([Word("a"), Disjoin, Word("b")])
  {
    FlagWords();
    LexThree("a", "or", "b");
    assert [Word("a")] + ([Disjoin] + ([Word("b")] + [])) == [Word("a"), Disjoin, Word("b")];
  }

  lemma LexThree(a: string, b: string, c: string)
    requires OneWord(a) && OneWord(b) && OneWord(c)
    ensures Lex(a + (" " + (b + (" " + c)))) == Some([Classify(a)] + ([Classify(b)] + ([Classify(c)] + [])))
  {
    LexWord(c, "");
    assert c + "" == c;
    LexSpaced(b, c);
    LexSpaced(a, b + (" " + c));
  }

  function Bound(op: Op, date: string): Expr {
    Comparison(FIELD, op, date)
  }

  function Flag(name: string): Expr {
    Condition(Spelled(name), [])
  }

  /** The filter as the server reads it: the window beside another flag. */
  function Reading(start: string, end: string): Expr {
    Or(And(Bound(Ge, start), And(Bound(Le, end), Flag("a"))), Flag("b"))
  }

  lemma KeywordsHere()
    ensures OneWord("ge") && OneWord("le") && OneWord("and")
    ensures Classify("ge") == Operator(Ge) && Classify("le") == Operator(Le) && Classify("and") == Conjoin
  {
    assert "ge"[0] == 'g' && "ge"[1] == 'e' && "le"[0] == 'l' && "le"[1] == 'e' && "and"[0] == 'a';
    assert Lower('g') == 'g' && Lower('l') == 'l' && Lower('e') == 'e' && Lower('a') == 'a';
    assert "or"[0] == 'o' && "eq"[0] == 'e' && "ne"[0] == 'n' && "gt"[1] == 't' && "lt"[0] == 'l';
    assert SameFold("and", "and") && SameFold("ge", "ge") && SameFold("le", "le");
  }

  lemma LexRead(start: string, end: string)
    requires DateText(start) && DateText(end)
    ensures Lex(Filled(start, end, " a or b")) == Some(Tokens(Reading(start, end)))
  {
    FieldIsWord();
    KeywordsHere();
    DateWordAlone(start);
    DateWordAlone(end);
    LexFlags();
    LexLine(FIELD, "le", end, "and", "a or b");
    LexLine(FIELD, "ge", start, "and", Line(FIELD, "le", end, "and", "a or b"));
    ReadText(start, end);
    ReadingTokens(start, end);
  }

  lemma ReadingTokens(start: string, end: string)
    ensures Tokens(Reading(start, end))
            == [Word(FIELD), Operator(Ge), Word(start), Conjoin]
               + ([Word(FIELD), Operator(Le), Word(end), Conjoin] + [Word("a"), Disjoin, Word("b")])
  {
    BoundTokens(Ge, start);
    BoundTokens(Le, end);
    FlagTokens("a");
    FlagTokens("b");
    assert Tokens(And(Bound(Le, end), Flag("a"))) == Tokens(Bound(Le, end)) + [Conjoin] + [Word("a")];
  }

  lemma BoundTokens(op: Op, date: string)
    ensures Tokens(Bound(op, date)) == [Word(FIELD), Operator(op), Word(date)]
  {
    var link := Link(Operator(op), Spelled(date));
    assert [link][1..] == [] && LinkTokens([link]) == [Operator(op)] + ([Word(date)] + []);
  }

  lemma FlagTokens(name: string)
    ensures Tokens(Flag(name)) == [Word(name)]
  {
    assert [Word(name)] + LinkTokens([]) == [Word(name)];
  }

  lemma BoundIsUnary(op: Op, date: string)
    requires DateText(date)
    ensures Unary(Bound(op, date))
  {
    FieldIsWord();
    var link := Link(Operator(op), Spelled(date));
    assert NumberText(date) && link.Valid() && [link][1..] == [];
  }

  lemma ReadShape(start: string, end: string)
    requires DateText(start) && DateText(end)
    ensures Disjunction(Reading(start, end))
  {
    BoundIsUnary(Ge, start);
    BoundIsUnary(Le, end);
    assert Unary(Flag("a")) && Unary(Flag("b"));
    assert Conjunction(And(Bound(Le, end), Flag("a")));
  }

  /** A text without quotes and parentheses, outside strings or not, is read as its characters suggest. */
  lemma PlainReading(s: string)
    requires Flat(s)
    ensures Read(s) == Lex(s)
  {
    RunPlain(ODATA, TOP, s);
    AllOpen(ODATA, NoMark, TOP, s);
    SameReading(s, 0);
  }

  predicate Flat(s: string) {
    All(NoMark, s) && forall i :: 0 <= i < |s| ==> Plain(ODATA, s[i])
  }

  lemma FlatConcat(a: string, b: string)
    requires Flat(a) && Flat(b)
    ensures Flat(a + b)
  {
    assert forall i :: 0 <= i < |a + b| ==> (a + b)[i] == if i < |a| then a[i] else b[i - |a|];
  }

  lemma FieldIsFlat()
    ensures Flat(FIELD)
  {
  }

  lemma WordsFlat(op: string)
    requires Flat(op)
    ensures Flat(Words(op))
  {
    FieldIsFlat();
    BlankIsFlat();
    FlatConcat(FIELD, " ");
    FlatConcat(FIELD + " ", op);
    FlatConcat(FIELD + " " + op, " ");
  }

  lemma BlankIsFlat()
    ensures Flat(" ") && Flat(" and") && Flat("ge") && Flat("le")
  {
  }

  lemma DateIsFlat(date: string)
    requires DateText(date)
    ensures Flat(date)
  {
  }

  lemma ReadingRead(start: string, end: string)
    requires DateText(start) && DateText(end)
    ensures var s := Filled(start, end, " a or b"); Read(s) == Lex(s)
  {
    DateIsFlat(start);
    DateIsFlat(end);
    BlankIsFlat();
    WordsFlat("ge");
    WordsFlat("le");
    FlagsAreFlat();
    FilledFlat(Words("ge"), start, Words("le"), end, " a or b");
    PlainReading(Filled(start, end, " a or b"));
  }

  lemma FlagsAreFlat()
    ensures Flat(" a or b")
  {
  }

  lemma FilledFlat(x: string, start: string, y: string, end: string, rest: string)
    requires Flat(x) && Flat(start) && Flat(y) && Flat(end) && Flat(rest)
    ensures Flat(x + (start + (" and" + (" " + (y + (end + (" and" + rest)))))))
  {
    BlankIsFlat();
    FlatConcat(" and", rest);
    FlatConcat(end, " and" + rest);
    var tail := end + (" and" + rest);
    FlatConcat(y, tail);
    FlatConcat(" ", y + tail);
    FlatConcat(" and", " " + (y + tail));
    FlatConcat(start, " and" + (" " + (y + tail)));
    FlatConcat(x, start + (" and" + (" " + (y + tail))));
  }

  /** The filter of the window, as it is sent, as it is read, and what it means. */
  lemma HiddenIsRead(server: Server, start: string, end: string) returns (filled: string, read: string)
    requires SentDate(server, start) && SentDate(server, end)
    ensures Format(HIDDEN, Bounds(start, end)) == Some(filled) && Decode(server, filled) == Some(read)
    ensures Parses(read, Reading(start, end))
  {
    Names();
    HiddenFills(Bounds(start, end));
    FilledDecoded(server, start, end);
    LexRead(start, end);
    ReadingRead(start, end);
    ReadShape(start, end);
    filled, read := Filled(start, end, HIDING), Filled(start, end, " a or b");
  }

  // ---------- how a template escapes ----------

  /** Whatever the window and the date, there is an entity of that date with a given flag. */
  lemma AnyDate(start: string, end: string, a: int, b: int, u: int, flag: string) returns (entity: Entity)
    requires start != end && flag != FIELD
    ensures entity.literal(start) == Number(a) && entity.literal(end) == Number(b)
    ensures entity.property(FIELD) == Number(u) && entity.property(flag) == Bool(true)
  {
    entity := Entity(
      path => if path == FIELD then Number(u) else Bool(true),
      text => if text == start then Number(a) else Number(b),
      operand => Null,
      (operand, links) => Null,
      (x, y) => false);
  }

  /**
   Filled and decoded, the template reads as an expression that every entity with the flag satisfies, such as one of the
   date `u`, when the window goes from `a` to `b`.
   */
  ghost predicate Escapes(
    server: Server, template: string, start: string, end: string, a: int, b: int, u: int, flag: string, filled: string,
    read: string, e: Expr, entity: Entity)
  {
    && Format(template, Bounds(start, end)) == Some(filled) && Decode(server, filled) == Some(read) && Parses(read, e)
    && (forall x: Entity :: x.property(flag) == Bool(true) ==> x.Satisfies(e))
    && entity.literal(start) == Number(a) && entity.literal(end) == Number(b)
    && entity.property(FIELD) == Number(u) && entity.Satisfies(e)
  }

  lemma HiddenEscapes(server: Server, start: string, end: string, a: int, b: int, u: int)
    returns (filled: string, read: string, e: Expr, entity: Entity)
    requires SentDate(server, start) && SentDate(server, end) && start != end && a < b
    ensures Escapes(server, HIDDEN, start, end, a, b, u, "b", filled, read, e, entity)
  {
    filled, read := HiddenIsRead(server, start, end);
    e := Reading(start, end);
    assert FIELD[0] == 'P';
    entity := AnyDate(start, end, a, b, u, "b");
    FlagHolds("b");
  }

  lemma FlagHolds(name: string)
    requires PropertyPath(name)
    ensures forall x: Entity :: x.property(name) == Bool(true) ==> x.Satisfies(Flag(name))
  {
  }

  lemma HiddenConditions()
    ensures !NoPercent(HIDDEN) && NoJson(HIDDEN)
  {
    HiddenPasses();
    HidingMarks();
    BoundsUnmarked();
    assert HIDDEN[|FROM| + 4 + |TO| + 4 + 2] == HIDING[2];
    AllOpen(ODATA, NoMark, TOP, HIDDEN);
  }

  lemma HidingMarks()
    ensures All(NoMark, HIDING) && HIDING[2] == '%' && |HIDING| > 2 && All(NoMark, " and")
  {
  }

  lemma BoundsUnmarked()
    ensures All(NoMark, FROM) && All(NoMark, TO)
  {
    TermUnmarked("ge", START);
    TermUnmarked("le", END);
  }

  lemma TermUnmarked(op: string, placeholder: string)
    requires All(NoMark, op) && PlaceholderName(placeholder)
    ensures All(NoMark, Term(op, placeholder))
  {
    FieldIsFlat();
  }

  /**
   With a `%` the guard fails, whatever the window: every entity with the flag `b` satisfies the filter as the server
   reads it, whatever its date, and there are such entities of any date.
   */
  lemma PercentEscapes(alnum: char -> bool, server: Server, start: string, end: string, a: int, b: int, u: int)
    returns (filled: string, read: string, e: Expr, entity: Entity)
    requires SentDate(server, start) && SentDate(server, end) && start != end && a < b
    ensures CheckODataWindow(alnum, HIDDEN, FIELD) == Accepted && DateField(FIELD) && !NoPercent(HIDDEN) && NoJson(HIDDEN)
    ensures Escapes(server, HIDDEN, start, end, a, b, u, "b", filled, read, e, entity)
  {
    HiddenIsAccepted(alnum);
    HiddenConditions();
    FieldIsWord();
    filled, read, e, entity := HiddenEscapes(server, start, end, a, b, u);
  }

  // ---------- strings of JSON values: the mask ----------

  /** Between its two quotes. */
  const INSIDE := "\"]) or g or f([\""

  /** The scanner goes from one place to another, and masks all. */
  predicate Hid(at: Place, s: string, end: Place) {
    Run(ODATA, at, s) == Some(end) && AllMasked(MaskFrom(ODATA, at, s))
  }

  predicate AllMasked(s: string) {
    forall i :: 0 <= i < |s| ==> s[i] == MASK
  }

  lemma HidConcat(at: Place, a: string, next: Place, b: string, end: Place)
    requires Hid(at, a, next) && Hid(next, b, end)
    ensures Hid(at, a + b, end)
  {
    RunConcat(ODATA, at, a, b);
    MaskConcat(ODATA, at, a, b);
  }

  lemma HidOne(at: Place, c: char, end: Place)
    requires Advance(ODATA, at, c) == Some(end) && MaskChar(ODATA, at, c) == MASK
    ensures Hid(at, [c], end)
  {
    assert [c][1..] == "" && MaskFrom(ODATA, at, [c]) == [MASK] + "";
  }

  /** Characters that move the scanner nowhere, where it masks them. */
  lemma {:induction false} HidStaying(at: Place, s: string)
    requires forall i :: 0 <= i < |s| ==> Advance(ODATA, at, s[i]) == Some(at) && MaskChar(ODATA, at, s[i]) == MASK
    ensures Hid(at, s, at)
  {
    if s != "" {
      HidStaying(at, s[1..]);
      HidOne(at, s[0], at);
      HidConcat(at, [s[0]], at, s[1..], at);
      assert [s[0]] + s[1..] == s;
    }
  }

  const DEEP := Place(Bare, 1, false)
  const QUOTED := Place(In('\''), 1, false)

  lemma InsideStays()
    ensures forall i :: 0 <= i < |INSIDE| ==>
              Advance(ODATA, QUOTED, INSIDE[i]) == Some(QUOTED) && MaskChar(ODATA, QUOTED, INSIDE[i]) == MASK
  {
  }

  lemma BracketsStay(s: string)
    requires s == "[\"" || s == "\"]"
    ensures Hid(DEEP, s, DEEP)
  {
    HidStaying(DEEP, s);
  }

  lemma MaskingText()
    ensures MASKING == "f" + ("(" + ("[\"" + ("'" + (INSIDE + ("'" + ("\"]" + ")"))))))
  {
  }

  lemma EndHid()
    ensures Hid(QUOTED, "'" + ("\"]" + ")"), TOP)
  {
    HidOne(DEEP, ')', TOP);
    BracketsStay("\"]");
    HidConcat(DEEP, "\"]", DEEP, ")", TOP);
    HidOne(QUOTED, '\'', DEEP);
    HidConcat(QUOTED, "'", DEEP, "\"]" + ")", TOP);
  }

  lemma RestHid()
    ensures Hid(TOP, "(" + ("[\"" + ("'" + (INSIDE + ("'" + ("\"]" + ")"))))), TOP)
  {
    var end := "'" + ("\"]" + ")");
    EndHid();
    InsideThen(end);
    QuoteThen(INSIDE + end);
    BracketsThen("'" + (INSIDE + end));
    ParenthesisThen("[\"" + ("'" + (INSIDE + end)));
  }

  lemma InsideThen(rest: string)
    requires Hid(QUOTED, rest, TOP)
    ensures Hid(QUOTED, INSIDE + rest, TOP)
  {
    InsideStays();
    HidStaying(QUOTED, INSIDE);
    HidConcat(QUOTED, INSIDE, QUOTED, rest, TOP);
  }

  lemma QuoteThen(rest: string)
    requires Hid(QUOTED, rest, TOP)
    ensures Hid(DEEP, "'" + rest, TOP)
  {
    HidOne(DEEP, '\'', QUOTED);
    HidConcat(DEEP, "'", QUOTED, rest, TOP);
  }

  lemma BracketsThen(rest: string)
    requires Hid(DEEP, rest, TOP)
    ensures Hid(DEEP, "[\"" + rest, TOP)
  {
    BracketsStay("[\"");
    HidConcat(DEEP, "[\"", DEEP, rest, TOP);
  }

  lemma ParenthesisThen(rest: string)
    requires Hid(DEEP, rest, TOP)
    ensures Hid(TOP, "(" + rest, TOP)
  {
    HidOne(TOP, '(', DEEP);
    HidConcat(TOP, "(", DEEP, rest, TOP);
  }

  /** The scanner hides all of it but the first letter. */
  lemma MaskingMask() returns (masked: string)
    ensures Run(ODATA, TOP, MASKING) == Some(TOP) && masked == MaskFrom(ODATA, TOP, MASKING) && |masked| == |MASKING|
    ensures OrGlued(masked) && NoAnd(masked)
  {
    var rest := "(" + ("[\"" + ("'" + (INSIDE + ("'" + ("\"]" + ")")))));
    RestHid();
    MaskingText();
    MaskPlain(ODATA, "f");
    RunConcat(ODATA, TOP, "f", rest);
    MaskConcat(ODATA, TOP, "f", rest);
    masked := MaskFrom(ODATA, TOP, MASKING);
    LetterAndMask('f', MaskFrom(ODATA, TOP, rest));
  }

  lemma LetterAndMask(c: char, hidden: string)
    requires AllMasked(hidden) && c == 'f'
    ensures OrGlued([c] + hidden) && NoAnd([c] + hidden)
  {
    assert forall i :: 0 < i < |[c] + hidden| ==> ([c] + hidden)[i] == MASK;
  }

  // ---------- it is accepted ----------

  /** What follows it in the template. */
  function Rest(): string {
    " and" + (" " + (FROM + (" and" + TO)))
  }

  lemma RestPasses()
    ensures Passed(Rest())
  {
    BoundsAreQuiet();
    LinkPasses();
    MarksAreQuiet();
    PassedConcat(" and", TO);
    PassedConcat(FROM, " and" + TO);
    PassedConcat(" ", FROM + (" and" + TO));
    PassedConcat(" and", " " + (FROM + (" and" + TO)));
  }

  lemma JsonMask() returns (masked: string)
    ensures Masked(ODATA, JSON) == Success(masked + Rest()) && |masked| == |MASKING|
    ensures NoAnd(masked) && OrGlued(masked + Rest())
  {
    masked := MaskingMask();
    RestPasses();
    MaskThenPlain(MASKING, Rest());
    OrGluedConcat(masked, Rest());
  }

  lemma MaskThenPlain(a: string, b: string)
    requires Run(ODATA, TOP, a) == Some(TOP) && forall i :: 0 <= i < |b| ==> Plain(ODATA, b[i])
    ensures Masked(ODATA, a + b) == Success(MaskFrom(ODATA, TOP, a) + b)
  {
    MaskPlain(ODATA, b);
    RunConcat(ODATA, TOP, a, b);
    MaskConcat(ODATA, TOP, a, b);
  }

  lemma MaskingEndsNothing()
    ensures EndsNothing(MASKING)
  {
  }

  lemma JsonEndsNothing()
    ensures EndsNothing(JSON)
  {
    MaskingEndsNothing();
    RestPasses();
    assert forall i :: 0 <= i < |JSON| ==> JSON[i] == if i < |MASKING| then MASKING[i] else Rest()[i - |MASKING|];
  }

  /** The terms of a text of three parts, of which only the first is masked. */
  lemma LastTwoTerms(alnum: char -> bool, a: string, b: string, c: string, m: string, text: string, masked: string, field: string)
    requires |text| == |masked| && Parted(text, a, b, c) && Parted(masked, m, b, c)
    requires |a| == |m| && NoAnd(m) && NoAnd(b) && NoAnd(c)
    requires WindowTerm(Collapse(b + " "), field, "ge", START) && WindowTerm(Collapse(c), field, "le", END)
    ensures BothFound(Terms(alnum, false, text, masked), field)
  {
    AllTerms(alnum, a, b, c, m, text, masked);
    BothInThree(Collapse(a + " "), Collapse(b + " "), Collapse(c), field);
  }

  lemma AllTerms(alnum: char -> bool, a: string, b: string, c: string, m: string, text: string, masked: string)
    requires |text| == |masked| && Parted(text, a, b, c) && Parted(masked, m, b, c)
    requires |a| == |m| && NoAnd(m) && NoAnd(b) && NoAnd(c)
    ensures Terms(alnum, false, text, masked) == [Collapse(a + " ")] + ([Collapse(b + " ")] + [Collapse(c)])
  {
    FirstTerm(alnum, text, masked, a, b, c, m, b);
    LaterTerms(alnum, b, c, text, masked, |a| + 4);
  }

  lemma LaterTerms(alnum: char -> bool, b: string, c: string, text: string, masked: string, p: nat)
    requires |text| == |masked| && From(text, p, b + (" and" + c)) && From(masked, p, b + (" and" + c))
    requires NoAnd(b) && NoAnd(c) && c != "" && c[0] == ' '
    ensures TermsAt(alnum, text, masked, p) == [Collapse(b + " ")] + [Collapse(c)]
  {
    var q := p + |b| + 4;
    SecondTerm(alnum, text, masked, p, b, c, b, q);
    LastTerm(alnum, text, masked, q, c);
  }

  lemma BothInThree(x: string, y: string, z: string, field: string)
    requires WindowTerm(y, field, "ge", START) && WindowTerm(z, field, "le", END)
    ensures BothFound([x] + ([y] + [z]), field)
  {
    var terms := [x] + ([y] + [z]);
    assert terms[1] == y && terms[2] == z;
  }

  lemma MiddleBound()
    ensures WindowTerm(Collapse((" " + FROM) + " "), FIELD, "ge", START)
  {
    Names();
    CollapseBound(" ", "ge", START);
    TermIsWindow("ge", START);
  }

  lemma LastBound()
    ensures WindowTerm(Collapse(TO), FIELD, "le", END)
  {
    Names();
    FieldIsWord();
    WordsCollapse(" ", FIELD, " ", "le", " ", Hole(END), "");
    AroundLast(" ", FIELD, "le", Hole(END));
    TermIsWindow("le", END);
  }

  lemma AroundLast(before: string, u: string, v: string, w: string)
    ensures before + (u + (" " + (v + (" " + (w + ""))))) == before + ((u + " " + v + " ") + w)
    ensures u + " " + v + " " + w == (u + " " + v + " ") + w
  {
  }

  lemma JsonTerms(alnum: char -> bool, masked: string)
    requires |masked| == |MASKING| && NoAnd(masked)
    ensures |JSON| == |masked + Rest()| && BothFound(Terms(alnum, false, JSON, masked + Rest()), FIELD)
  {
    BoundsAreQuiet();
    MarksAreQuiet();
    NoAndConcat(" ", FROM);
    MiddleBound();
    LastBound();
    JsonParted(masked);
    LastTwoTerms(alnum, MASKING, " " + FROM, TO, masked, JSON, masked + Rest(), FIELD);
  }

  lemma JsonParted(masked: string)
    requires |masked| == |MASKING|
    ensures |JSON| == |masked + Rest()|
    ensures Parted(JSON, MASKING, " " + FROM, TO) && Parted(masked + Rest(), masked, " " + FROM, TO)
  {
    RestText();
    BoundsAreQuiet();
    WholeFrom(MASKING + Rest());
    WholeFrom(masked + Rest());
  }

  lemma WholeFrom(s: string)
    ensures From(s, 0, s)
  {
    assert s[0..] == s;
  }

  lemma RestText()
    ensures Rest() == " and" + ((" " + FROM) + (" and" + TO)) && JSON == MASKING + Rest()
  {
    Assoc(" ", FROM, " and" + TO);
  }

  lemma JsonIsAccepted(alnum: char -> bool)
    ensures CheckODataWindow(alnum, JSON, FIELD) == Accepted
  {
    var masked := JsonMask();
    JsonEndsNothing();
    JsonTerms(alnum, masked);
    JsonFills(Blanks({START, END}));
    AcceptedWhole(alnum, JSON, masked + Rest(), FIELD);
  }

  lemma JsonConditions()
    ensures NoPercent(JSON) && !NoJson(JSON)
  {
    MaskingNoPercent();
    BoundsNoPercent();
    MaskingOpens();
    assert JSON[..3] == MASKING[..3] && JSON[3] == MASKING[3];
    if NoJson(JSON) {
      OpenLater(ODATA, NoMark, TOP, JSON, 3, DEEP);
    }
  }

  lemma MaskingNoPercent()
    ensures NoPercent(MASKING) && NoPlus(MASKING)
  {
  }

  lemma BoundsNoPercent()
    ensures NoPercent(Rest())
  {
    FromNoPercent("ge", START);
    FromNoPercent("le", END);
  }

  lemma FromNoPercent(op: string, placeholder: string)
    requires NoPercent(op) && PlaceholderName(placeholder)
    ensures NoPercent(Term(op, placeholder))
  {
    FieldIsWord();
  }

  lemma MaskingOpens()
    ensures MASKING[..3] == "f([" && MASKING[3] == '"' && Run(ODATA, TOP, "f([") == Some(DEEP)
  {
    assert "f(["[1..] == "([" && "(["[1..] == "[" && "["[1..] == "";
  }

  // ---------- its filter ----------

  function JsonFilled(start: string, end: string): string {
    MASKING + (" and" + (" " + (Words("ge") + (start + (" and" + (" " + (Words("le") + end)))))))
  }

  lemma JsonFills(values: Values)
    requires START in values && END in values
    ensures Format(JSON, values) == Some(JsonFilled(values[START], values[END]))
  {
    WordsBraceless("ge");
    WordsBraceless("le");
    MaskingBraceless();
    FillLast(MASKING, Words("ge"), Words("le"), values);
    JsonText();
  }

  lemma MaskingBraceless()
    ensures NoBrace(MASKING)
  {
  }

  lemma JsonText()
    ensures JSON == MASKING + (" and" + (" " + (Term("ge", START) + (" and" + (" " + Term("le", END))))))
  {
  }

  lemma FillLast(head: string, x: string, y: string, values: Values)
    requires NoBrace(head) && NoBrace(x) && NoBrace(y) && START in values && END in values
    ensures Format(head + (" and" + (" " + ((x + Hole(START)) + (" and" + (" " + (y + Hole(END))))))), values)
            == Some(head + (" and" + (" " + (x + (values[START] + (" and" + (" " + (y + values[END]))))))))
  {
    Names();
    var last := y + Hole(END);
    FillWords(y, END, "", values);
    assert last + "" == last && values[END] + "" == values[END];
    FormatPast(" ", last, values);
    FormatPast(" and", " " + last, values);
    FillWords(x, START, " and" + (" " + last), values);
    var tail := (x + Hole(START)) + (" and" + (" " + last));
    FormatPast(" ", tail, values);
    FormatPast(" and", " " + tail, values);
    FormatPast(head, " and" + (" " + tail), values);
  }

  lemma SentConcat(server: Server, a: string, b: string)
    requires Sent(server, a) && Sent(server, b)
    ensures Sent(server, a + b)
  {
  }

  lemma JsonSent(server: Server, x: string, start: string, y: string, end: string)
    requires Sent(server, x) && Sent(server, start) && Sent(server, y) && Sent(server, end)
    ensures Sent(server, MASKING + (" and" + (" " + (x + (start + (" and" + (" " + (y + end))))))))
  {
    MaskingNoPercent();
    SentConcat(server, y, end);
    SentConcat(server, " ", y + end);
    SentConcat(server, " and", " " + (y + end));
    var tail := " and" + (" " + (y + end));
    SentConcat(server, start, tail);
    SentConcat(server, x, start + tail);
    SentConcat(server, " ", x + (start + tail));
    SentConcat(server, " and", " " + (x + (start + tail)));
    SentConcat(server, MASKING, " and" + (" " + (x + (start + tail))));
  }

  lemma JsonDecoded(server: Server, start: string, end: string)
    requires Sent(server, start) && Sent(server, end)
    ensures Decode(server, JsonFilled(start, end)) == Some(JsonFilled(start, end))
  {
    WordsSent(server, "ge");
    WordsSent(server, "le");
    JsonSent(server, Words("ge"), start, Words("le"), end);
    DecodeSent(server, JsonFilled(start, end), "");
    assert JsonFilled(start, end) + "" == JsonFilled(start, end);
  }

  // ---------- what the server reads ----------

  lemma ReadOne(s: string, t: seq<Token>, n: nat)
    requires s != "" && ServerToken(s) == Some((t, n)) && n <= |s| && Read(s[n..]).Some?
    ensures Read(s) == Some(t + Read(s[n..]).value)
  {
  }

  lemma {:induction false} ServerWord(w: string, rest: string)
    requires (forall i :: 0 <= i < |w| ==> !Stops(w[i])) && rest != "" && Stops(rest[0])
    ensures ServerWordLength(w + rest) == |w|
  {
    if w != "" {
      assert (w + rest)[0] == w[0] && (w + rest)[1..] == w[1..] + rest;
      ServerWord(w[1..], rest);
    } else {
      assert w + rest == rest;
    }
  }

  lemma ReadWord(w: string, rest: string)
    requires w != "" && (forall i :: 0 <= i < |w| ==> !Stops(w[i])) && rest != "" && Stops(rest[0]) && Read(rest).Some?
    ensures Read(w + rest) == Some([Classify(w)] + Read(rest).value)
  {
    ServerWord(w, rest);
    assert (w + rest)[0] == w[0] && (w + rest)[..|w|] == w && (w + rest)[|w|..] == rest;
    ReadOne(w + rest, [Classify(w)], |w|);
  }

  lemma ReadBracket(c: char, rest: string)
    requires (c == '(' || c == ')') && Read(rest).Some?
    ensures Read([c] + rest) == Some([if c == '(' then Open else Close] + Read(rest).value)
  {
    assert ([c] + rest)[1..] == rest;
    ReadOne([c] + rest, [if c == '(' then Open else Close], 1);
  }

  lemma ReadBlank(rest: string)
    requires Read(rest).Some?
    ensures Read(" " + rest) == Read(rest)
  {
    assert (" " + rest)[1..] == rest && [] + Read(rest).value == Read(rest).value;
    ReadOne(" " + rest, [], 1);
  }

  lemma ReadSpaced(w: string, rest: string)
    requires w != "" && (forall i :: 0 <= i < |w| ==> !Stops(w[i])) && Read(rest).Some?
    ensures Read(w + (" " + rest)) == Some([Classify(w)] + Read(rest).value)
  {
    ReadBlank(rest);
    ReadWord(w, " " + rest);
  }

  /** A quote in a JSON string. */
  lemma ReadJson(rest: string)
    requires Read(rest).Some?
    ensures Read("\"'\"" + rest) == Some([Json("'")] + Read(rest).value)
  {
    var s := "\"'\"" + rest;
    assert s[1..] == "'\"" + rest && s[1..][1..] == "\"" + rest;
    assert JsonLength(s[1..][1..]) == 1;
    assert s[1..2] == "'" && s[3..] == rest;
    ReadOne(s, [Json("'")], 3);
  }

  const ARGS := [Word("["), Json("'"), Word("]")]

  function CallTokens(): seq<Token> {
    [Word("f"), Open] + ARGS + [Close]
  }

  lemma CallText(rest: string)
    ensures CALL + rest == "f" + ("(" + ("[" + ("\"'\"" + ("]" + (")" + rest)))))
  {
  }

  lemma CallWords()
    ensures Classify("f") == Word("f") && Classify("[") == Word("[") && Classify("]") == Word("]")
    ensures !Stops('f') && !Stops('[') && !Stops(']')
  {
    assert |"f"| == 1 && |"["| == 1 && |"]"| == 1;
  }

  lemma ReadCall(rest: string)
    requires Read(rest).Some?
    ensures Read(CALL + rest) == Some(CallTokens() + Read(rest).value)
  {
    CallWords();
    ReadBracket(')', rest);
    var end := ")" + rest;
    ReadWord("]", end);
    ReadJson("]" + end);
    var args := "\"'\"" + ("]" + end);
    ReadWord("[", args);
    ReadBracket('(', "[" + args);
    ReadWord("f", "(" + ("[" + args));
    CallText(rest);
    CallInOrder(Read(rest).value);
  }

  lemma CallInOrder(rest: seq<Token>)
    ensures [Word("f")] + ([Open] + ([Word("[")] + ([Json("'")] + ([Word("]")] + ([Close] + rest))))) == CallTokens() + rest
  {
  }

  lemma OrWords()
    ensures Classify("or") == Disjoin && Classify("g") == Word("g") && !Stops('o') && !Stops('r') && !Stops('g')
  {
    assert |"g"| == 1;
  }

  lemma ReadOrs(rest: string)
    requires Read(rest).Some?
    ensures Read(" or g or " + rest) == Some([Disjoin, Word("g"), Disjoin] + Read(rest).value)
  {
    OrWords();
    ReadSpaced("or", rest);
    var two := "or" + (" " + rest);
    ReadSpaced("g", two);
    var one := "g" + (" " + two);
    ReadSpaced("or", one);
    ReadBlank("or" + (" " + one));
    OrsText(rest);
    OrsInOrder(Read(rest).value);
  }

  lemma OrsText(rest: string)
    ensures " or g or " + rest == " " + ("or" + (" " + ("g" + (" " + ("or" + (" " + rest))))))
  {
    assert " or g or " == " " + ("or" + (" " + ("g" + (" " + ("or" + " ")))));
  }

  lemma OrsInOrder(rest: seq<Token>)
    ensures [Disjoin] + ([Word("g")] + ([Disjoin] + rest)) == [Disjoin, Word("g"), Disjoin] + rest
  {
  }

  /** The two bounds, after an `and`. */
  function Tail(start: string, end: string): string {
    " and" + (" " + (Words("ge") + (start + (" and" + (" " + (Words("le") + end))))))
  }

  lemma TailText(start: string, end: string)
    ensures Tail(start, end)
            == " " + ("and" + (" " + Line(FIELD, "ge", start, "and", FIELD + (" " + ("le" + (" " + end))))))
  {
    var last := FIELD + (" " + ("le" + (" " + end)));
    LineText(FIELD, "ge", start, last);
    WordsText(FIELD, "le", end);
    TailTextBy(Words("ge") + (start + (" and" + (" " + (Words("le") + end)))));
  }

  lemma TailTextBy(rest: string)
    ensures " and" + (" " + rest) == " " + ("and" + (" " + rest))
  {
  }

  lemma WordsText(f: string, op: string, date: string)
    ensures (f + " " + op + " ") + date == f + (" " + (op + (" " + date)))
  {
  }

  lemma LexTail(start: string, end: string)
    requires DateText(start) && DateText(end)
    ensures Lex(Tail(start, end))
            == Some([Conjoin] + ([Word(FIELD), Operator(Ge), Word(start), Conjoin] + [Word(FIELD), Operator(Le), Word(end)]))
  {
    FieldIsWord();
    KeywordsHere();
    DateWordAlone(start);
    DateWordAlone(end);
    LexThree(FIELD, "le", end);
    var last := FIELD + (" " + ("le" + (" " + end)));
    assert [Word(FIELD)] + ([Operator(Le)] + ([Word(end)] + [])) == [Word(FIELD), Operator(Le), Word(end)];
    LexLine(FIELD, "ge", start, "and", last);
    var line := Line(FIELD, "ge", start, "and", last);
    LexSpaced("and", line);
    SpacesBefore(" ", "and" + (" " + line));
    TailText(start, end);
  }

  lemma ReadTail(start: string, end: string)
    requires DateText(start) && DateText(end)
    ensures Read(Tail(start, end)) == Lex(Tail(start, end))
  {
    DateIsFlat(start);
    DateIsFlat(end);
    BlankIsFlat();
    WordsFlat("ge");
    WordsFlat("le");
    TailFlat(Words("ge"), start, Words("le"), end);
    PlainReading(Tail(start, end));
  }

  lemma TailFlat(x: string, start: string, y: string, end: string)
    requires Flat(x) && Flat(start) && Flat(y) && Flat(end)
    ensures Flat(" and" + (" " + (x + (start + (" and" + (" " + (y + end)))))))
  {
    BlankIsFlat();
    FlatConcat(y, end);
    FlatConcat(" ", y + end);
    FlatConcat(" and", " " + (y + end));
    var tail := " and" + (" " + (y + end));
    FlatConcat(start, tail);
    FlatConcat(x, start + tail);
    FlatConcat(" ", x + (start + tail));
    FlatConcat(" and", " " + (x + (start + tail)));
  }

  function Called(): Expr {
    Condition(Call("f", ARGS), [])
  }

  /** The filter as the server reads it: the window beside another flag. */
  function JsonReading(start: string, end: string): Expr {
    Or(Called(), Or(Flag("g"), And(Called(), And(Bound(Ge, start), Bound(Le, end)))))
  }

  lemma JsonReadingTokens(start: string, end: string)
    ensures Tokens(JsonReading(start, end))
            == CallTokens() + ([Disjoin, Word("g"), Disjoin] + (CallTokens()
               + ([Conjoin] + ([Word(FIELD), Operator(Ge), Word(start), Conjoin] + [Word(FIELD), Operator(Le), Word(end)]))))
  {
    BoundTokens(Ge, start);
    BoundTokens(Le, end);
    FlagTokens("g");
    assert Tokens(Called()) == CallTokens() + [] == CallTokens();
    NestedTokens(Called(), Flag("g"), Bound(Ge, start), Bound(Le, end));
    SpellJson(Tokens(Called()), Tokens(Flag("g")), Tokens(Bound(Ge, start)), Tokens(Bound(Le, end)));
    assert Tokens(Bound(Ge, start)) + [Conjoin] == [Word(FIELD), Operator(Ge), Word(start), Conjoin];
    assert [Disjoin] + Tokens(Flag("g")) + [Disjoin] == [Disjoin, Word("g"), Disjoin];
  }

  lemma NestedTokens(c: Expr, g: Expr, x: Expr, y: Expr)
    ensures Tokens(Or(c, Or(g, And(c, And(x, y)))))
            == Tokens(c) + [Disjoin] + (Tokens(g) + [Disjoin] + (Tokens(c) + [Conjoin] + (Tokens(x) + [Conjoin] + Tokens(y))))
  {
    assert Tokens(And(x, y)) == Tokens(x) + [Conjoin] + Tokens(y);
    assert Tokens(And(c, And(x, y))) == Tokens(c) + [Conjoin] + Tokens(And(x, y));
    assert Tokens(Or(g, And(c, And(x, y)))) == Tokens(g) + [Disjoin] + Tokens(And(c, And(x, y)));
  }

  lemma SpellJson(c: seq<Token>, g: seq<Token>, x: seq<Token>, y: seq<Token>)
    ensures c + [Disjoin] + (g + [Disjoin] + (c + [Conjoin] + (x + [Conjoin] + y)))
            == c + (([Disjoin] + g + [Disjoin]) + (c + ([Conjoin] + ((x + [Conjoin]) + y))))
  {
    var bounds := x + [Conjoin] + y;
    GroupTokens(c, [Conjoin], bounds);
    var rest := c + [Conjoin] + bounds;
    GroupTokens([Disjoin], g + [Disjoin], rest);
    GroupTokens([Disjoin], g, [Disjoin]);
    GroupTokens(c, [Disjoin], g + [Disjoin] + rest);
  }

  lemma JsonShape(start: string, end: string)
    requires DateText(start) && DateText(end)
    ensures Disjunction(JsonReading(start, end))
  {
    BoundIsUnary(Ge, start);
    BoundIsUnary(Le, end);
    ArgsBalanced();
    assert Unary(Called()) && Unary(Flag("g"));
    assert Conjunction(And(Bound(Ge, start), Bound(Le, end)));
    assert Conjunction(And(Called(), And(Bound(Ge, start), Bound(Le, end))));
  }

  lemma ArgsBalanced()
    ensures Balanced(ARGS)
  {
    BalancedOne(Word("["));
    BalancedOne(Json("'"));
    BalancedOne(Word("]"));
    BalancedConcat([Word("[")], [Json("'")]);
    BalancedConcat([Word("[")] + [Json("'")], [Word("]")]);
    assert ARGS == ([Word("[")] + [Json("'")]) + [Word("]")];
  }

  lemma JsonFilledText(start: string, end: string)
    ensures JsonFilled(start, end) == CALL + (" or g or " + (CALL + Tail(start, end)))
  {
    MaskingThen(CALL, " or g or ", Tail(start, end));
  }

  lemma MaskingThen(c: string, ors: string, tail: string)
    ensures (c + (ors + c)) + tail == c + (ors + (c + tail))
  {
  }

  lemma JsonParses(start: string, end: string)
    requires DateText(start) && DateText(end)
    ensures Parses(JsonFilled(start, end), JsonReading(start, end))
  {
    LexTail(start, end);
    ReadTail(start, end);
    var tail := Tail(start, end);
    ReadCall(tail);
    ReadOrs(CALL + tail);
    ReadCall(" or g or " + (CALL + tail));
    JsonFilledText(start, end);
    JsonReadingTokens(start, end);
    JsonShape(start, end);
  }

  lemma JsonEscapesBy(server: Server, start: string, end: string, a: int, b: int, u: int)
    returns (filled: string, read: string, e: Expr, entity: Entity)
    requires SentDate(server, start) && SentDate(server, end) && start != end && a < b
    ensures Escapes(server, JSON, start, end, a, b, u, "g", filled, read, e, entity)
  {
    Names();
    JsonFills(Bounds(start, end));
    JsonDecoded(server, start, end);
    JsonParses(start, end);
    filled, read, e := JsonFilled(start, end), JsonFilled(start, end), JsonReading(start, end);
    assert FIELD[0] == 'P';
    entity := AnyDate(start, end, a, b, u, "g");
    FlagHolds("g");
  }

  /**
   With a `"` outside strings the guard fails, whatever the window: every entity with the flag `g` satisfies the filter as
   the server reads it, whatever its date, and there are such entities of any date.
   */
  lemma JsonStringEscapes(alnum: char -> bool, server: Server, start: string, end: string, a: int, b: int, u: int)
    returns (filled: string, read: string, e: Expr, entity: Entity)
    requires SentDate(server, start) && SentDate(server, end) && start != end && a < b
    ensures CheckODataWindow(alnum, JSON, FIELD) == Accepted && DateField(FIELD) && NoPercent(JSON) && !NoJson(JSON)
    ensures Escapes(server, JSON, start, end, a, b, u, "g", filled, read, e, entity)
  {
    JsonIsAccepted(alnum);
    JsonConditions();
    FieldIsWord();
    filled, read, e, entity := JsonEscapesBy(server, start, end, a, b, u);
  }
}
