/**
 The strings of a query of Jira, and those of its template. A placeholder that a backslash escapes in a double-quoted
 string, filled, ends the string early: from there on the strings of the query are none of the template, up to the next
 such placeholder, where two names come to stand side by side. Such a query does not parse.
 */
module JqlStrings {
  import opened Chars
  import opened Wrappers
  import opened Mask
  import opened Template
  import opened JqlQuery
  import opened JqlText
  import opened JqlFill
  import opened JqlOpen
  import opened JqlGrammar
  import opened JqlWindow

  // ---------- a reader of characters ----------

  /**
   Between tokens, or in a word, or in a string: `named` says that a name is right before. In a word, `escaped` says that
   the last character was a backslash.
   */
  datatype Reading =
    | Outside(named: bool)
    | Spelling(word: string, named: bool, escaped: bool)
    | Inside(mark: char, escaped: bool)

  /** Between tokens, over the first character of one. */
  function Begin(named: bool, c: char): Option<Reading> {
    if Blank(c) then Some(Outside(named))
    else if Mark(c) then if named then None else Some(Inside(c, false))
    else if Bracket(c) || Symbol(c) then Some(Outside(false))
    else if c == '{' || c == '}' then None
    else Some(Spelling([c], named, c == '\\'))
  }

  predicate Spells(w: string) {
    Classify(w).Word?
  }

  /** Over a character; None where a name would follow a name. */
  function Next(r: Reading, c: char): Option<Reading> {
    match r
    case Outside(named) => Begin(named, c)
    case Spelling(w, named, escaped) =>
      if escaped || !Stops(c) then Some(Spelling(w + [c], named, !escaped && c == '\\'))
      else if Spells(w) then if named then None else Begin(true, c)
      else Begin(false, c)
    case Inside(mark, escaped) =>
      if escaped then Some(Inside(mark, false))
      else if c == mark then Some(Outside(true))
      else Some(Inside(mark, c == '\\'))
  }

  function Over(r: Reading, s: string): Option<Reading>
    decreases |s|
  {
    if s == "" then Some(r)
    else
      var next :- Next(r, s[0]);
      Over(next, s[1..])
  }

  lemma {:induction false} OverConcat(r: Reading, a: string, b: string)
    ensures Over(r, a).None? ==> Over(r, a + b).None?
    ensures Over(r, a).Some? ==> Over(r, a + b) == Over(Over(r, a).value, b)
    decreases |a|
  {
    if a == "" {
      assert a + b == b;
    } else {
      assert (a + b)[0] == a[0] && (a + b)[1..] == a[1..] + b;
      if Next(r, a[0]).Some? {
        OverConcat(Next(r, a[0]).value, a[1..], b);
      }
    }
  }

  lemma OverOne(r: Reading, c: char)
    ensures Over(r, [c]) == Next(r, c)
  {
    assert [c][1..] == "";
  }

  /** Out of strings and escapes. */
  predicate Out(r: Reading) {
    !r.Inside? && !(r.Spelling? && r.escaped)
  }

  // ---------- what parses is read ----------

  /** Whether a name is right before, once the word that is being read ends. */
  predicate After(r: Reading) {
    match r
    case Outside(named) => named
    case Spelling(w, _, _) => Spells(w)
    case Inside(_, _) => false
  }

  /** A place where a token may start. */
  predicate AtToken(r: Reading, s: string) {
    && Out(r) && (r.Spelling? ==> (Spells(r.word) ==> !r.named) && (s == "" || Stops(s[0])))
  }

  /** The tokens of a text, after what was read. */
  predicate Fits(r: Reading, tokens: seq<Token>) {
    Sparse(tokens) && (After(r) && tokens != [] ==> !IsName(tokens[0]))
  }

  /** Where a token may start, its first character is read as such. */
  lemma NextAtToken(r: Reading, s: string)
    requires AtToken(r, s) && s != ""
    ensures Next(r, s[0]) == Begin(After(r), s[0])
  {
  }

  lemma OverPair(mark: char, s: string)
    requires Mark(mark) && |s| > 1 && s[0] == '\\'
    ensures Over(Inside(mark, false), s) == Over(Inside(mark, false), s[2..])
  {
    assert s[1..][1..] == s[2..];
  }

  lemma Later(s: string, k: nat, n: nat)
    requires k + n <= |s|
    ensures s[k..][n..] == s[k + n..]
  {
  }

  lemma {:induction false} OverString(mark: char, s: string)
    requires Mark(mark) && TextLength(mark, s) > 0
    ensures Over(Inside(mark, false), s) == Over(Outside(true), s[TextLength(mark, s)..])
    decreases |s|
  {
    if s[0] != mark {
      if s[0] == '\\' && |s| > 1 {
        OverPair(mark, s);
        OverString(mark, s[2..]);
        Later(s, 2, TextLength(mark, s[2..]));
      } else {
        OverString(mark, s[1..]);
        Later(s, 1, TextLength(mark, s[1..]));
      }
    }
  }

  lemma Grow(w: string, s: string, k: nat, n: nat)
    requires k <= n <= |s|
    ensures (w + s[..k]) + s[k..][..n - k] == w + s[..n] && s[k..][n - k..] == s[n..]
  {
    assert s[..n] == s[..k] + s[k..][..n - k];
  }

  /** The rest of a word is read into it. */
  lemma {:induction false} OverWord(w: string, named: bool, s: string, n: nat)
    requires n == JiraWordLength(s)
    ensures Over(Spelling(w, named, false), s) == Over(Spelling(w + s[..n], named, false), s[n..])
    decreases |s|
  {
    if n == 0 {
      assert w + s[..0] == w && s[0..] == s;
    } else if s[0] != '\\' {
      OverWord(w + s[..1], named, s[1..], n - 1);
      Grow(w, s, 1, n);
      assert s[..1] == [s[0]];
    } else {
      OverWord(w + s[..2], named, s[2..], n - 2);
      Grow(w, s, 2, n);
      OverEscape(w, named, s);
    }
  }

  lemma OverEscape(w: string, named: bool, s: string)
    requires |s| > 1 && s[0] == '\\'
    ensures Over(Spelling(w, named, false), s) == Over(Spelling(w + s[..2], named, false), s[2..])
  {
    assert s[1..][1..] == s[2..] && (w + [s[0]]) + [s[1]] == w + s[..2];
  }

  lemma {:induction false} WordEnds(s: string)
    ensures var n := JiraWordLength(s); n == |s| || Stops(s[n]) || (s[n] == '\\' && n + 1 == |s|)
    decreases |s|
  {
    if s != "" && !Stops(s[0]) {
      if s[0] != '\\' {
        WordEnds(s[1..]);
      } else if |s| > 1 {
        WordEnds(s[2..]);
      }
    }
  }

  /** Over a token, to a place where the next one may start. */
  predicate Steps(r: Reading, s: string, next: Reading, n: nat, rest: seq<Token>) {
    n <= |s| && Over(r, s) == Over(next, s[n..]) && AtToken(next, s[n..]) && Fits(next, rest)
  }

  lemma StepOne(r: Reading, s: string, t: seq<Token>, rest: seq<Token>) returns (next: Reading)
    requires s != "" && AtToken(r, s) && (Blank(s[0]) || Bracket(s[0])) && JiraToken(s) == Some((t, 1)) && Fits(r, t + rest)
    ensures Steps(r, s, next, 1, rest)
  {
    NextAtToken(r, s);
    next := Begin(After(r), s[0]).value;
    SparseRest(t, rest);
    if t == [] {
      assert t + rest == rest;
    }
  }

  lemma SparseRest(t: seq<Token>, rest: seq<Token>)
    requires Sparse(t + rest)
    ensures Sparse(rest) && (t != [] && rest != [] ==> !(IsName(t[|t| - 1]) && IsName(rest[0])))
  {
    assert forall i :: 0 <= i < |rest| ==> rest[i] == (t + rest)[|t| + i];
    assert t != [] ==> (t + rest)[|t| - 1] == t[|t| - 1];
  }

  lemma StepSymbol(r: Reading, s: string, t: seq<Token>, n: nat, rest: seq<Token>) returns (next: Reading)
    requires s != "" && AtToken(r, s) && Symbol(s[0]) && JiraToken(s) == Some((t, n)) && Fits(r, t + rest)
    ensures Steps(r, s, next, n, rest)
  {
    NextAtToken(r, s);
    next := Outside(false);
    SparseRest(t, rest);
    assert n == 2 ==> Symbol(s[1]) && s[1..][1..] == s[2..];
  }

  lemma StepString(r: Reading, s: string, t: seq<Token>, n: nat, rest: seq<Token>) returns (next: Reading)
    requires s != "" && AtToken(r, s) && Mark(s[0]) && JiraToken(s) == Some((t, n)) && Fits(r, t + rest)
    ensures Steps(r, s, next, n, rest)
  {
    next := Outside(true);
    SparseRest(t, rest);
    assert (t + rest)[0] == t[0];
    OverMark(r, s, n);
  }

  lemma OverMark(r: Reading, s: string, n: nat)
    requires s != "" && AtToken(r, s) && Mark(s[0]) && !After(r) && TextLength(s[0], s[1..]) == n - 1 > 0
    ensures Over(r, s) == Over(Outside(true), s[n..])
  {
    NextAtToken(r, s);
    OverString(s[0], s[1..]);
    Later(s, 1, n - 1);
  }

  lemma StepWord(r: Reading, s: string, t: seq<Token>, n: nat, rest: seq<Token>) returns (next: Reading)
    requires s != "" && AtToken(r, s) && !Stops(s[0]) && JiraToken(s) == Some((t, n)) && Fits(r, t + rest)
    requires Read(s[n..]).Some?
    ensures Steps(r, s, next, n, rest)
  {
    NextAtToken(r, s);
    next := Spelling(s[..n], After(r), false);
    SparseRest(t, rest);
    assert (t + rest)[0] == t[0] == Classify(s[..n]);
    WordEnds(s);
    NoLoneBackslash(s, n);
    OverFirst(s, After(r), n);
  }

  lemma LoneBackslash(s: string)
    requires |s| == 1 && s[0] == '\\'
    ensures Read(s).None?
  {
  }

  lemma NoLoneBackslash(s: string, n: nat)
    requires n <= |s| && Read(s[n..]).Some?
    ensures !(n + 1 == |s| && s[n] == '\\')
  {
    if n + 1 == |s| && s[n] == '\\' {
      LoneBackslash(s[n..]);
    }
  }

  lemma OverFirst(s: string, named: bool, n: nat)
    requires s != "" && !Stops(s[0]) && n == JiraWordLength(s) > 0
    ensures Over(Spelling([s[0]], named, s[0] == '\\'), s[1..]) == Over(Spelling(s[..n], named, false), s[n..])
  {
    if s[0] != '\\' {
      OverWord([s[0]], named, s[1..], n - 1);
      assert [s[0]] + s[1..][..n - 1] == s[..n] && s[1..][n - 1..] == s[n..];
    } else {
      assert s[1..][1..] == s[2..];
      OverWord([s[0]] + [s[1]], named, s[2..], n - 2);
      assert ([s[0]] + [s[1]]) + s[2..][..n - 2] == s[..n] && s[2..][n - 2..] == s[n..];
    }
  }

  lemma StepToken(r: Reading, s: string, t: seq<Token>, n: nat, rest: seq<Token>) returns (next: Reading)
    requires s != "" && AtToken(r, s) && JiraToken(s) == Some((t, n)) && Fits(r, t + rest) && Read(s[n..]).Some?
    ensures Steps(r, s, next, n, rest)
  {
    if Blank(s[0]) || Bracket(s[0]) {
      next := StepOne(r, s, t, rest);
    } else if Symbol(s[0]) {
      next := StepSymbol(r, s, t, n, rest);
    } else if Mark(s[0]) {
      next := StepString(r, s, t, n, rest);
    } else {
      next := StepWord(r, s, t, n, rest);
    }
  }

  /** A text whose tokens fit is read to its end, outside strings. */
  lemma {:induction false} ReadIsOver(r: Reading, s: string)
    requires AtToken(r, s) && Read(s).Some? && Fits(r, Read(s).value)
    ensures Over(r, s).Some? && AtToken(Over(r, s).value, "")
    decreases |s|
  {
    if s != "" {
      var t, n := LexUnfold(JiraToken, s);
      var next := StepToken(r, s, t, n, Read(s[n..]).value);
      ReadIsOver(next, s[n..]);
    }
  }

  // ---------- the criteria, from any place ----------

  /** What is no mark and no backslash leaves a string open, and ends an escape. */
  lemma {:induction false} OverInside(mark: char, escaped: bool, s: string)
    requires s != "" && forall i :: 0 <= i < |s| ==> s[i] != mark && s[i] != '\\'
    ensures Over(Inside(mark, escaped), s) == Some(Inside(mark, false))
    decreases |s|
  {
    if s[1..] != "" {
      OverInside(mark, false, s[1..]);
    }
  }

  /** The rest of a double-quoted string, and what comes past it. */
  lemma OverRest(content: string, rest: string)
    requires Unmarked(content)
    ensures Over(Inside('"', false), content + ("\"" + rest)) == Over(Outside(true), rest)
  {
    var end := "\"" + rest;
    assert end[1..] == rest;
    OverConcat(Inside('"', false), content, end);
    if content != "" {
      OverInside('"', false, content);
    }
  }

  /** Out of strings, characters that are no mark and no backslash stay out of them. */
  lemma {:induction false} OutStays(r: Reading, s: string)
    requires Out(r) && Over(r, s).Some? && forall i :: 0 <= i < |s| ==> !Mark(s[i]) && s[i] != '\\'
    ensures Out(Over(r, s).value)
    decreases |s|
  {
    if s != "" {
      OutStays(Next(r, s[0]).value, s[1..]);
    }
  }

  lemma OverQuote(r: Reading, content: string, rest: string)
    requires Out(r) && Unmarked(content) && Over(r, InQuotes(content) + rest).Some?
    ensures Over(r, InQuotes(content) + rest) == Over(Outside(true), rest)
  {
    var s := InQuotes(content) + rest;
    assert s[0] == '"' && s[1..] == content + ("\"" + rest);
    OverRest(content, rest);
  }

  /** A word that is no keyword, whatever follows. */
  predicate Odd(w: string) {
    exists i :: 0 <= i < |w| && !IsLetter(w[i])
  }

  lemma OddMore(w: string, c: char)
    requires Odd(w) || !IsLetter(c)
    ensures Odd(w + [c])
  {
    if Odd(w) {
      var i :| 0 <= i < |w| && !IsLetter(w[i]);
      assert (w + [c])[i] == w[i];
    } else {
      assert (w + [c])[|w|] == c;
    }
  }

  lemma {:induction false} OddSpells(w: string, k: nat)
    requires Odd(w)
    ensures ClassifyFrom(w, k) == Word(w)
    decreases 17 - k
  {
    if k < 17 {
      var v := KEYWORDS[k];
      KeywordLetters(k);
      if SameFold(w, v) {
        FoldLetters(w, v);
      }
      OddSpells(w, k + 1);
    }
  }

  lemma FoldLetters(w: string, v: string)
    requires SameFold(w, v) && forall i :: 0 <= i < |v| ==> 'a' <= v[i] <= 'z'
    ensures !Odd(w)
  {
    forall i | 0 <= i < |w|
      ensures IsLetter(w[i])
    {
      assert Lower(w[i]) == v[i];
    }
  }

  lemma KeywordLetters(k: nat)
    requires k < 17
    ensures forall i :: 0 <= i < |KEYWORDS[k]| ==> 'a' <= KEYWORDS[k][i] <= 'z'
  {
  }

  /** Right after a name, or in a word that is one. */
  predicate Naming(r: Reading) {
    r == Outside(true) || (r.Spelling? && !r.escaped && Odd(r.word))
  }

  /** A date goes on naming. */
  lemma NamingOne(r: Reading, c: char)
    requires Naming(r) && (IsDigit(c) || c == '-' || c == ':' || c == ' ') && Next(r, c).Some?
    ensures Naming(Next(r, c).value)
  {
    if r.Spelling? {
      OddSpells(r.word, 0);
      OddMore(r.word, c);
    } else {
      assert c != ' ' ==> [c][0] == c;
      OddMore("", c);
      assert "" + [c] == [c];
    }
  }

  lemma NamingMark(r: Reading)
    requires Naming(r)
    ensures Next(r, '"').None?
  {
    if r.Spelling? {
      OddSpells(r.word, 0);
    }
  }

  /** After a name, a date and a string make two names side by side at least. */
  lemma {:induction false} NamesMeet(r: Reading, s: string, rest: string)
    requires Naming(r) && StampText(s)
    ensures Over(r, s + ("\"" + rest)).None?
    decreases |s|
  {
    var all := s + ("\"" + rest);
    if s == "" {
      assert all[0] == '"';
      NamingMark(r);
    } else {
      assert all[0] == s[0] && all[1..] == s[1..] + ("\"" + rest);
      if Next(r, s[0]).Some? {
        NamingOne(r, s[0]);
        NamesMeet(Next(r, s[0]).value, s[1..], rest);
      }
    }
  }

  /** The criteria past their first mark. */
  function Past(start: string, end: string): string {
    start + ("\"" + (LINK + InQuotes(end)))
  }

  lemma BetweenPast(start: string, end: string)
    ensures Between(start, end)[0] == '"' && Between(start, end)[1..] == Past(start, end)
  {
  }

  lemma LinkUnmarked()
    ensures forall i :: 0 <= i < |LINK| ==> !Mark(LINK[i]) && LINK[i] != '\\'
  {
  }

  /** The end of the criteria, out of strings. */
  lemma LinkOut(r: Reading, end: string)
    requires Out(r) && StampText(end) && Over(r, LINK + InQuotes(end)).Some?
    ensures Out(Over(r, LINK + InQuotes(end)).value)
  {
    LinkUnmarked();
    OverConcat(r, LINK, InQuotes(end));
    OutStays(r, LINK);
    assert InQuotes(end) + "" == InQuotes(end);
    OverQuote(Over(r, LINK).value, end, "");
  }

  lemma TearsOut(r: Reading, start: string, end: string)
    requires Out(r) && StampText(start) && StampText(end) && Over(r, Between(start, end)).Some?
    ensures Out(Over(r, Between(start, end)).value)
  {
    OverQuote(r, start, LINK + InQuotes(end));
    LinkOut(Outside(true), end);
  }

  lemma TearsInside(start: string, end: string, e: bool)
    requires StampText(start) && StampText(end)
    ensures Over(Inside('\'', e), Between(start, end)) == Some(Inside('\'', false))
  {
    BetweenQuiet(start, end);
    OverInside('\'', e, Between(start, end));
  }

  lemma TearsEscaped(start: string, end: string)
    requires StampText(start) && StampText(end) && Over(Inside('"', true), Between(start, end)).Some?
    ensures Out(Over(Inside('"', true), Between(start, end)).value)
  {
    BetweenPast(start, end);
    OverRest(start, LINK + InQuotes(end));
    LinkOut(Outside(true), end);
  }

  lemma TearsString(start: string, end: string)
    requires StampText(start) && StampText(end)
    ensures Over(Inside('"', false), Between(start, end)).None?
  {
    BetweenPast(start, end);
    NamesMeet(Outside(true), start, LINK + InQuotes(end));
  }

  lemma TearsWord(w: string, named: bool, start: string, end: string)
    requires StampText(start) && StampText(end)
    ensures Over(Spelling(w, named, true), Between(start, end)).None?
  {
    BetweenPast(start, end);
    OddMore(w, '"');
    NamesMeet(Spelling(w + ['"'], named, false), start, LINK + InQuotes(end));
  }

  /** The criteria of a replay. */
  ghost predicate IsCriteria(v: string) {
    exists start, end :: StampText(start) && StampText(end) && v == Between(start, end)
  }

  /** Criteria leave what is out of strings out of them, unless they do not go there. */
  lemma CriteriaOut(r: Reading, v: string)
    requires Out(r) && IsCriteria(v) && Over(r, v).Some?
    ensures Out(Over(r, v).value)
  {
    var start, end :| StampText(start) && StampText(end) && v == Between(start, end);
    TearsOut(r, start, end);
  }

  /** A single-quoted string goes on past them. */
  lemma CriteriaInside(v: string, e: bool)
    requires IsCriteria(v)
    ensures Over(Inside('\'', e), v) == Some(Inside('\'', false))
  {
    var start, end :| StampText(start) && StampText(end) && v == Between(start, end);
    TearsInside(start, end, e);
  }

  /** They go in no double-quoted string, but past a backslash: then they end it. */
  lemma CriteriaString(v: string, e: bool)
    requires IsCriteria(v) && Over(Inside('"', e), v).Some?
    ensures e && Out(Over(Inside('"', e), v).value)
  {
    var start, end :| StampText(start) && StampText(end) && v == Between(start, end);
    if e {
      TearsEscaped(start, end);
    } else {
      TearsString(start, end);
    }
  }

  /** They go in no word past a backslash. */
  lemma CriteriaWord(w: string, named: bool, v: string)
    requires IsCriteria(v)
    ensures Over(Spelling(w, named, true), v).None?
  {
    var start, end :| StampText(start) && StampText(end) && v == Between(start, end);
    TearsWord(w, named, start, end);
  }

  // ---------- the template and its query, side by side ----------

  ghost predicate AllCriteria(values: Values) {
    forall name :: name in values ==> IsCriteria(values[name])
  }

  /** The scanner in the template and the reader in the query are in the same string, or in none. */
  predicate Paired(at: Place, r: Reading) {
    match at.quote
    case Bare => !at.escaped && Out(r)
    case In(mark) => Mark(mark) && r == Inside(mark, at.escaped)
  }

  /** One of them is in a string the other is not in. */
  predicate Parted(at: Place, r: Reading) {
    match at.quote
    case Bare => !at.escaped && r.Inside? && Mark(r.mark) && !r.escaped
    case In(mark) =>
      Mark(mark) && if r.Inside? then Mark(r.mark) && r.mark != mark && r.escaped == at.escaped
                    else at.escaped == (r.Spelling? && r.escaped)
  }

  /** A character that is no brace, and no backslash outside the strings of the template. */
  predicate Literal(at: Place, c: char) {
    !Braces(c) && (at.quote == Quote.Bare ==> c != '\\')
  }

  lemma PairedOne(at: Place, r: Reading, c: char)
    requires Paired(at, r) && Literal(at, c) && Advance(JQL, at, c).Some? && Next(r, c).Some?
    ensures Paired(Advance(JQL, at, c).value, Next(r, c).value)
  {
  }

  lemma PartedOne(at: Place, r: Reading, c: char)
    requires Parted(at, r) && Literal(at, c) && Advance(JQL, at, c).Some? && Next(r, c).Some?
    ensures Parted(Advance(JQL, at, c).value, Next(r, c).value)
  {
  }

  /** The scanner over a field or a doubled brace. */
  lemma InertScan(at: Place, s: string)
    requires Inert(s) && (at.quote == Quote.Bare ==> !at.escaped) && (at.quote != Quote.Bare ==> Mark(at.quote.mark))
    ensures Run(JQL, at, s) == Some(at.(escaped := false))
  {
    if at.quote == Quote.Bare {
      RunPlain(JQL, at, s);
    } else {
      RunInside(at.quote.mark, at.depth, at.escaped, s);
    }
  }

  /** What a field or a doubled brace is filled to. */
  ghost predicate Written(x: string) {
    x == "{" || x == "}" || IsCriteria(x)
  }

  /** A brace goes on with a string, or is read in a word past a backslash. */
  lemma OverBrace(r: Reading, x: string)
    requires (x == "{" || x == "}") && Over(r, x).Some? && (r.Inside? ==> Mark(r.mark))
    ensures Over(r, x).value == if r.Inside? then r.(escaped := false) else r.(word := r.word + x, escaped := false)
    ensures r.Inside? || (r.Spelling? && r.escaped)
  {
    assert x == [x[0]];
    OverOne(r, x[0]);
  }

  /** Side by side in the same string or in none, they stay so over a brace. */
  lemma PairedBrace(at: Place, r: Reading, x: string)
    requires Paired(at, r) && (x == "{" || x == "}") && Over(r, x).Some?
    ensures Paired(at.(escaped := false), Over(r, x).value)
  {
    OverBrace(r, x);
  }

  lemma PartedBrace(at: Place, r: Reading, x: string)
    requires Parted(at, r) && (x == "{" || x == "}") && Over(r, x).Some?
    ensures Parted(at.(escaped := false), Over(r, x).value)
  {
    OverBrace(r, x);
  }

  /** And over criteria, but those that are escaped in double quotes part them. */
  lemma PairedCriteria(at: Place, r: Reading, x: string)
    requires Paired(at, r) && IsCriteria(x) && Over(r, x).Some?
    ensures if at.escaped && at.quote == In('"') then Parted(at.(escaped := false), Over(r, x).value)
            else Paired(at.(escaped := false), Over(r, x).value)
  {
    if at.quote == Quote.Bare {
      CriteriaOut(r, x);
    } else if at.quote == In('\'') {
      CriteriaInside(x, at.escaped);
    } else {
      CriteriaString(x, at.escaped);
    }
  }

  /** Parted, they stay so over criteria. */
  lemma PartedCriteria(at: Place, r: Reading, x: string)
    requires Parted(at, r) && IsCriteria(x) && Over(r, x).Some?
    ensures Parted(at.(escaped := false), Over(r, x).value)
  {
    if r.Inside? {
      if r.mark == '\'' {
        CriteriaInside(x, r.escaped);
      } else {
        CriteriaString(x, r.escaped);
      }
    } else if r.Spelling? && r.escaped {
      CriteriaWord(r.word, r.named, x);
    } else {
      CriteriaOut(r, x);
    }
  }

  /** The first step of the formatter. */
  lemma FillStep(text: string, values: Values) returns (x: string, n: nat, after: string)
    requires text != "" && Format(text, values).Some? && AllCriteria(values)
    ensures 0 < n <= |text| && Format(text[n..], values) == Some(after) && Format(text, values) == Some(x + after)
    ensures Step(text, values) == Some((x, n))
    ensures (n == 1 && x == [text[0]] && !Braces(text[0])) || (n > 1 && Inert(text[..n]) && Written(x))
  {
    StepReads(text, values);
    x, n := Step(text, values).value.0, Step(text, values).value.1;
    after := Format(text[n..], values).value;
    if n > 1 && x in values.Values {
      var name :| name in values && values[name] == x;
      assert IsCriteria(values[name]);
    }
  }

  lemma DoubledFirst(text: string, values: Values, x: string, n: nat)
    requires text != "" && Step(text, values) == Some((x, n)) && n > 1 && (x == "{" || x == "}") && !IsCriteria(x)
    requires AllCriteria(values)
    ensures !OpensHole(text)
  {
    if OpensHole(text) {
      HoleIsCriteria(text, values, x, n);
    }
  }

  lemma HoleIsCriteria(text: string, values: Values, x: string, n: nat)
    requires OpensHole(text) && Step(text, values) == Some((x, n)) && AllCriteria(values)
    ensures IsCriteria(x)
  {
    assert x in values.Values;
    var name :| name in values && values[name] == x;
    assert IsCriteria(values[name]);
  }

  lemma InertTail(s: string)
    requires |s| > 1 && Inert(s)
    ensures Inert(s[1..])
  {
  }

  /** A field or a doubled brace that is no escaped placeholder in double quotes. */
  lemma {:induction false} UnescapedPast(at: Place, text: string, n: nat)
    requires 0 < n <= |text| && Inert(text[..n]) && (at.quote == Quote.Bare ==> !at.escaped)
    requires at.quote != Quote.Bare ==> Mark(at.quote.mark)
    requires OpensHole(text) && at.escaped ==> at.quote != In('"')
    requires BracesUnescaped(at.(escaped := false), text[n..])
    ensures BracesUnescaped(at, text)
    decreases n
  {
    assert text[..n][0] == text[0];
    assert Advance(JQL, at, text[0]) == Some(at.(escaped := false));
    if n > 1 {
      InertTail(text[..n]);
      assert text[1..][..n - 1] == text[..n][1..] && text[1..][n - 1..] == text[n..];
      UnescapedPast(at.(escaped := false), text[1..], n - 1);
    }
  }

  /** Where the scanner is after a step, and what is left of the walk. */
  predicate Walks(text: string, filled: string, at: Place, r: Reading) {
    Run(JQL, at, text) == Some(TOP) && OpenAll(JQL, NoBackslash, at, text) && Over(r, filled).Some?
  }

  lemma WalkOn(text: string, x: string, n: nat, after: string, at: Place, r: Reading, next: Place)
    requires n <= |text| && Walks(text, x + after, at, r) && Run(JQL, at, text[..n]) == Some(next)
    ensures Over(r, x).Some? && Walks(text[n..], after, next, Over(r, x).value)
    ensures Over(r, x + after) == Over(Over(r, x).value, after)
  {
    assert text == text[..n] + text[n..];
    RunConcat(JQL, at, text[..n], text[n..]);
    OpenLater(JQL, NoBackslash, at, text, n, next);
    OverConcat(r, x, after);
  }

  lemma StepPlace(text: string, n: nat, at: Place, r: Reading) returns (next: Place)
    requires 0 < n <= |text| && (Paired(at, r) || Parted(at, r)) && Run(JQL, at, text) == Some(TOP)
    requires n == 1 || Inert(text[..n])
    ensures Run(JQL, at, text[..n]) == Some(next)
    ensures if n == 1 then Advance(JQL, at, text[0]) == Some(next) else next == at.(escaped := false)
  {
    if n == 1 {
      next := Advance(JQL, at, text[0]).value;
      assert text[..1] == [text[0]] && [text[0]][1..] == "";
    } else {
      InertScan(at, text[..n]);
      next := at.(escaped := false);
    }
  }

  /** Parted, they stay so to the end of the template: the query ends in a string. */
  lemma {:induction false} WalkParted(text: string, values: Values, filled: string, at: Place, r: Reading)
    requires Format(text, values) == Some(filled) && AllCriteria(values) && Parted(at, r) && Walks(text, filled, at, r)
    ensures Over(r, filled).value.Inside?
    decreases |text|
  {
    if text != "" {
      var x, n, after := FillStep(text, values);
      var next := StepPlace(text, n, at, r);
      WalkOn(text, x, n, after, at, r, next);
      PartedStep(text, x, n, at, r, next);
      WalkParted(text[n..], values, after, next, Over(r, x).value);
    }
  }

  lemma PartedStep(text: string, x: string, n: nat, at: Place, r: Reading, next: Place)
    requires 0 < n <= |text| && Parted(at, r) && Over(r, x).Some? && OpenAll(JQL, NoBackslash, at, text)
    requires (n == 1 && x == [text[0]] && !Braces(text[0])) || (n > 1 && Written(x))
    requires if n == 1 then Advance(JQL, at, text[0]) == Some(next) else next == at.(escaped := false)
    ensures Parted(next, Over(r, x).value)
  {
    if n == 1 {
      OverOne(r, x[0]);
      PartedOne(at, r, text[0]);
    } else if IsCriteria(x) {
      PartedCriteria(at, r, x);
    } else {
      PartedBrace(at, r, x);
    }
  }

  /** A query that is read to its end outside strings comes from a template in which no placeholder is escaped so. */
  lemma {:induction false} WalkPaired(text: string, values: Values, filled: string, at: Place, r: Reading)
    requires Format(text, values) == Some(filled) && AllCriteria(values) && Paired(at, r) && Walks(text, filled, at, r)
    requires Out(Over(r, filled).value)
    ensures BracesUnescaped(at, text)
    decreases |text|
  {
    if text != "" {
      var x, n, after := FillStep(text, values);
      var next := StepPlace(text, n, at, r);
      WalkOn(text, x, n, after, at, r, next);
      if n == 1 {
        OverOne(r, x[0]);
        PairedOne(at, r, text[0]);
        WalkPaired(text[1..], values, after, next, Over(r, x).value);
      } else {
        PairedField(text, values, x, n, after, at, r);
        WalkPaired(text[n..], values, after, next, Over(r, x).value);
        UnescapedPast(at, text, n);
      }
    }
  }

  lemma PairedField(text: string, values: Values, x: string, n: nat, after: string, at: Place, r: Reading)
    requires n <= |text| && text != "" && Step(text, values) == Some((x, n)) && n > 1 && Written(x)
    requires Format(text[n..], values) == Some(after) && AllCriteria(values) && Paired(at, r)
    requires Over(r, x).Some? && Walks(text[n..], after, at.(escaped := false), Over(r, x).value)
    requires Out(Over(Over(r, x).value, after).value)
    ensures Paired(at.(escaped := false), Over(r, x).value)
    ensures OpensHole(text) && at.escaped ==> at.quote != In('"')
  {
    if IsCriteria(x) {
      PairedCriteria(at, r, x);
      if at.escaped && at.quote == In('"') {
        WalkParted(text[n..], values, after, at.(escaped := false), Over(r, x).value);
      }
    } else {
      PairedBrace(at, r, x);
      DoubledFirst(text, values, x, n);
    }
  }

  /** A template of the guard whose query parses escapes no placeholder in double quotes. */
  lemma ParsedIsUnescaped(text: string, values: Values, query: string, e: Expr, ordering: seq<Token>)
    requires Run(JQL, TOP, text) == Some(TOP) && OpenAll(JQL, NoBackslash, TOP, text) && AllCriteria(values)
    requires Format(text, values) == Some(query) && Parses(query, e, ordering)
    ensures BracesUnescaped(TOP, text)
  {
    SparseQuery(e, ordering);
    ReadIsOver(Outside(false), query);
    WalkPaired(text, values, query, TOP, Outside(false));
  }
}
