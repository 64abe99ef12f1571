/** A filter the guard accepts keeps the replay window, whatever else it asks for. */
module ODataWindow {
  import opened Chars
  import opened Wrappers
  import opened Mask
  import opened Template
  import opened WindowGuard
  import opened ODataQuery
  import opened FilterTokens
  import opened FilterText
  import opened CollapsedTerms

  /** The values put in a filter: dates. */
  predicate Dates(values: Values) {
    forall name | name in values :: DateText(values[name])
  }

  // ---------- the scanner sees the same places in the template and in the filter ----------

  predicate Neutral(s: string) {
    forall i :: 0 <= i < |s| ==> Plain(ODATA, s[i])
  }

  lemma {:induction false} RunNeutral(at: Place, s: string)
    requires !at.escaped && Neutral(s) && (at.quote == Bare || at.quote == In('\''))
    ensures Run(ODATA, at, s) == Some(at)
  {
    if s != "" {
      assert Advance(ODATA, at, s[0]) == Some(at);
      RunNeutral(at, s[1..]);
    }
  }

  /** What the first step of the formatter writes: the character it reads, or something no delimiter is in. */
  lemma FirstPiece(text: string, values: Values)
    requires text != "" && Format(text, values).Some? && Dates(values)
    ensures Step(text, values).Some?
    ensures var (x, n) := Step(text, values).value;
            && Format(text[n..], values).Some?
            && Format(text, values).value == x + Format(text[n..], values).value
            && x != ""
            && ((n == 1 && x == [text[0]] && !Braces(text[0]))
                || (n > 1 && Neutral(text[..n]) && Neutral(x) && (forall i :: 0 <= i < |x| ==> !Delimiter(x[i]))
                    && (Braces(x[0]) || IsDigit(x[0]))))
  {
    StepReads(text, values);
    var (x, n) := Step(text, values).value;
    assert forall i :: 0 <= i < n && FieldChar(text[i]) ==> Plain(ODATA, text[i]);
    assert x in values.Values ==> DateText(x);
  }

  /** Filling the placeholders moves no quote and no parenthesis. */
  lemma {:induction false} ScanFormat(text: string, values: Values, at: Place)
    requires Format(text, values).Some? && Dates(values)
    requires !at.escaped && (at.quote == Bare || at.quote == In('\''))
    ensures Run(ODATA, at, Format(text, values).value) == Run(ODATA, at, text)
    decreases |text|
  {
    if text != "" {
      FirstPiece(text, values);
      var (x, n) := Step(text, values).value;
      var rest := Format(text[n..], values).value;
      assert text == text[..n] + text[n..];
      RunConcat(ODATA, at, x, rest);
      RunConcat(ODATA, at, text[..n], text[n..]);
      if n == 1 {
        assert x == text[..n];
        AdvanceKeeps(at, text[0]);
        if Run(ODATA, at, x).Some? {
          ScanFormat(text[n..], values, Run(ODATA, at, x).value);
        }
      } else {
        RunNeutral(at, x);
        RunNeutral(at, text[..n]);
        ScanFormat(text[n..], values, at);
      }
    }
  }

  /** A filter holds outside strings what its template does, when that is no matter of dates and braces. */
  lemma {:induction false} OpenFormat(ok: char -> bool, text: string, values: Values, at: Place)
    requires Format(text, values).Some? && Dates(values) && OpenAll(ODATA, ok, at, text)
    requires !at.escaped && (at.quote == Bare || at.quote == In('\''))
    requires ok('{') && ok('}') && forall name :: name in values ==> All(ok, values[name])
    ensures OpenAll(ODATA, ok, at, Format(text, values).value)
    decreases |text|
  {
    if text != "" {
      FirstPiece(text, values);
      var (x, n) := Step(text, values).value;
      var rest := Format(text[n..], values).value;
      OpenPiece(ok, text, values, at, x, n);
      PieceRuns(text, values, at, x, n);
      if Run(ODATA, at, x).Some? {
        var next := Run(ODATA, at, x).value;
        OpenLater(ODATA, ok, at, text, n, next);
        OpenFormat(ok, text[n..], values, next);
      }
      OpenConcat(ODATA, ok, at, x, rest);
    }
  }

  lemma OpenPiece(ok: char -> bool, text: string, values: Values, at: Place, x: string, n: nat)
    requires text != "" && Step(text, values) == Some((x, n)) && OpenAll(ODATA, ok, at, text)
    requires ok('{') && ok('}') && forall name :: name in values ==> All(ok, values[name])
    ensures OpenAll(ODATA, ok, at, x)
  {
    StepReads(text, values);
    if n > 1 {
      AllOpen(ODATA, ok, at, x);
    } else {
      assert [text[0]][1..] == "";
    }
  }

  /** The scanner goes over what the first step writes as over what it reads. */
  lemma PieceRuns(text: string, values: Values, at: Place, x: string, n: nat)
    requires text != "" && Format(text, values).Some? && Dates(values) && Step(text, values) == Some((x, n))
    requires !at.escaped && (at.quote == Bare || at.quote == In('\''))
    ensures Run(ODATA, at, x) == Run(ODATA, at, text[..n])
    ensures Run(ODATA, at, x).Some? ==>
              var next := Run(ODATA, at, x).value; !next.escaped && (next.quote == Bare || next.quote == In('\''))
  {
    FirstPiece(text, values);
    if n == 1 {
      assert x == text[..n];
      AdvanceKeeps(at, text[0]);
    } else {
      RunNeutral(at, x);
      RunNeutral(at, text[..n]);
    }
  }

  lemma AdvanceKeeps(at: Place, c: char)
    requires !at.escaped && (at.quote == Bare || at.quote == In('\''))
    ensures Run(ODATA, at, [c]) == Advance(ODATA, at, c)
    ensures Advance(ODATA, at, c).Some? ==>
              var next := Advance(ODATA, at, c).value; !next.escaped && (next.quote == Bare || next.quote == In('\''))
  {
    assert [c][1..] == "";
  }

  // ---------- places of the filter in the template ----------

  /** A character that no date and no brace is made of is a character of the template. */
  lemma LiteralStep(text: string, values: Values)
    requires Format(text, values).Some? && Dates(values) && Format(text, values).value != ""
    requires var c := Format(text, values).value[0]; !Braces(c) && !IsDigit(c)
    ensures text != "" && text[0] == Format(text, values).value[0]
    ensures Format(text[1..], values) == Some(Format(text, values).value[1..])
  {
    FirstPiece(text, values);
    var (x, n) := Step(text, values).value;
    assert x[0] == Format(text, values).value[0];
  }

  lemma EmptyFormat(text: string, values: Values)
    requires Format(text, values) == Some("") && Dates(values)
    ensures text == ""
  {
    if text != "" {
      FirstPiece(text, values);
    }
  }

  /** `m` is the place of the template that `k` is of the filter. */
  predicate SamePlace(text: string, values: Values, filled: string, m: nat, k: nat) {
    && m <= |text| && k <= |filled| && (m > 0 <==> k > 0)
    && Format(text[..m], values) == Some(filled[..k])
    && Format(text[m..], values) == Some(filled[k..])
    && (m > 0 ==> text[m - 1] == filled[k - 1])
  }

  lemma StartPlace(text: string, values: Values, filled: string)
    requires Format(text, values) == Some(filled)
    ensures SamePlace(text, values, filled, 0, 0)
  {
    assert text[..0] == "" && text[0..] == text && filled[0..] == filled;
  }

  /** A place of the filter after a delimiter, or at its start, is the place of a character of the template. */
  lemma {:induction false} FormatPlace(text: string, values: Values, filled: string, k: nat) returns (m: nat)
    requires Format(text, values) == Some(filled) && Dates(values)
    requires k <= |filled| && (k > 0 ==> Delimiter(filled[k - 1]))
    ensures SamePlace(text, values, filled, m, k)
    decreases |text|
  {
    if k == 0 {
      m := 0;
      StartPlace(text, values, filled);
    } else {
      var x, n, rest := PieceBefore(text, values, filled, k);
      var j := FormatPlace(text[n..], values, rest, k - |x|);
      m := n + j;
      PlaceAfter(text, values, x, n, rest, k, j);
    }
  }

  /** The first piece is over before a delimiter is, and one that ends with a delimiter is a single character. */
  lemma PieceBefore(text: string, values: Values, filled: string, k: nat) returns (x: string, n: nat, rest: string)
    requires text != "" && Format(text, values) == Some(filled) && Dates(values)
    requires 0 < k <= |filled| && Delimiter(filled[k - 1])
    ensures 0 < n <= |text| && Step(text, values) == Some((x, n)) && Format(text[n..], values) == Some(rest)
    ensures filled == x + rest && |x| <= k
    ensures k == |x| ==> text[n - 1] == filled[k - 1]
    ensures k > |x| ==> Delimiter(rest[k - |x| - 1]) && rest[k - |x| - 1] == filled[k - 1]
  {
    FirstPiece(text, values);
    x, n := Step(text, values).value.0, Step(text, values).value.1;
    rest := Format(text[n..], values).value;
    assert k <= |x| ==> x[k - 1] == filled[k - 1];
  }

  lemma PlaceAfter(text: string, values: Values, x: string, n: nat, rest: string, k: nat, j: nat)
    requires text != "" && 0 < n <= |text| && Step(text, values) == Some((x, n))
    requires 0 < k && |x| <= k && SamePlace(text[n..], values, rest, j, k - |x|)
    requires k == |x| ==> text[n - 1] == (x + rest)[k - 1]
    ensures SamePlace(text, values, x + rest, n + j, k)
  {
    FirstStep(text, values, j);
    assert text[n..][j..] == text[n + j..];
    Slices(x, rest, k);
  }

  lemma Slices(x: string, rest: string, k: nat)
    requires |x| <= k <= |x + rest|
    ensures (x + rest)[..k] == x + rest[..k - |x|]
    ensures (x + rest)[k..] == rest[k - |x|..]
  {
  }

  lemma FirstStep(text: string, values: Values, j: nat)
    requires text != "" && Step(text, values).Some?
    requires Step(text, values).value.1 + j <= |text|
    requires Format(text[Step(text, values).value.1..][..j], values).Some?
    ensures var (x, n) := Step(text, values).value;
            Format(text[..n + j], values) == Some(x + Format(text[n..][..j], values).value)
  {
    var (x, n) := Step(text, values).value;
    var head := text[..n + j];
    assert text == head + text[n + j..];
    StepLocal(head, text[n + j..], values);
    assert head[n..] == text[n..][..j];
  }

  // ---------- a top-level or ----------

  /** What the scanner says about a place that a top-level token of the filter has in the template. */
  lemma TopPlace(text: string, values: Values, m: nat, end: Place)
    requires Format(text, values).Some? && Dates(values) && m <= |text|
    requires Run(ODATA, TOP, text) == Some(end)
    requires Format(text[..m], values).Some? && Lex(Format(text[..m], values).value).Some?
    requires Depth(Lex(Format(text[..m], values).value).value) == 0
    ensures Run(ODATA, TOP, text[..m]) == Some(TOP)
  {
    assert text == text[..m] + text[m..];
    RunConcat(ODATA, TOP, text[..m], text[m..]);
    ScanFormat(text[..m], values, TOP);
    ScanTokens(Format(text[..m], values).value, 0);
  }

  /** A filter without JSON strings whose tokens hold an `or` at depth 0 comes from a template that holds one there. */
  lemma OrIsSeen(alnum: char -> bool, text: string, values: Values, i: nat)
    requires Format(text, values).Some? && Dates(values) && NoJson(text)
    requires Masked(ODATA, text).Success?
    requires var tokens := Read(Format(text, values).value);
             tokens.Some? && i < |tokens.value| && tokens.value[i] == Disjoin && Depth(tokens.value[..i]) == 0
    ensures HasKeyword(alnum, Masked(ODATA, text).value, "or")
  {
    var filled := Format(text, values).value;
    ReadsAlike(text, values, filled);
    var k := OrPlace(filled, i);
    var m := FormatPlace(text, values, filled, k);
    TopPlace(text, values, m, Run(ODATA, TOP, text).value);
    OrInTemplate(text[m..], filled[k..], values);
    OrShows(alnum, text, m);
  }

  lemma OrInTemplate(text: string, filled: string, values: Values)
    requires Format(text, values) == Some(filled) && Dates(values)
    requires OrAt(filled, 0)
    ensures OrAt(text, 0)
  {
    LiteralStep(text, values);
    LiteralStep(text[1..], values);
    assert text[1..][1..] == text[2..] && filled[1..][1..] == filled[2..];
    if |filled| > 2 {
      LiteralStep(text[2..], values);
    } else {
      EmptyFormat(text[2..], values);
    }
  }

  /** The scanner leaves a top-level `or` of the template in the open. */
  lemma OrShows(alnum: char -> bool, text: string, m: nat)
    requires Masked(ODATA, text).Success? && OrAt(text, m) && Run(ODATA, TOP, text[..m]) == Some(TOP)
    ensures HasKeyword(alnum, Masked(ODATA, text).value, "or")
  {
    var masked := Masked(ODATA, text).value;
    MaskedAt(ODATA, TOP, text, m);
    assert text[..m + 1] == text[..m] + [text[m]];
    RunConcat(ODATA, TOP, text[..m], [text[m]]);
    AdvanceKeeps(TOP, text[m]);
    MaskedAt(ODATA, TOP, text, m + 1);
    if m > 0 {
      MaskedAt(ODATA, TOP, text, m - 1);
    }
    if m + 2 < |text| {
      MaskedAt(ODATA, TOP, text, m + 2);
    }
    assert SameFold(masked[m..m + 2], "or");
    assert KeywordAt(alnum, masked, m, "or");
  }

  // ---------- a window term ----------

  /** A property the window can be on: a path that is no keyword. */
  predicate DateField(field: string) {
    PropertyPath(field) && Classify(field) == Word(field)
  }

  /** The words of a term that matches the window pattern, as they stand in the template. */
  lemma TermWords(raw: string, field: string, op: string, placeholder: string)
    returns (s0: string, s1: string, opWord: string, s2: string, s3: string)
    requires WindowTerm(Collapse(raw), field, op, placeholder)
    requires NoSpace(field) && NoSpace(placeholder) && op in {"ge", "le"}
    ensures raw == s0 + (field + (s1 + (opWord + (s2 + (Hole(placeholder) + s3)))))
    ensures AllSpace(s0) && AllSpace(s1) && AllSpace(s2) && AllSpace(s3) && s1 != "" && s2 != ""
    ensures SameFold(opWord, op)
  {
    var term := Collapse(raw);
    var at := |field| + 1;
    opWord := term[at..at + |op|];
    assert NoSpace(opWord) by {
      FoldedWord(opWord, op);
    }
    assert term == term[..at] + term[at..at + |op|] + term[at + |op|..];
    assert term == field + " " + opWord + " " + Hole(placeholder);
    s0, s1, s2, s3 := ThreeWords(raw, field, opWord, Hole(placeholder));
  }

  lemma FoldedWord(s: string, w: string)
    requires SameFold(s, w) && w in {"ge", "le", "and"}
    ensures forall i :: 0 <= i < |s| ==> IsLetter(s[i])
    ensures OneWord(s) && NoBrace(s) && NoSpace(s)
  {
    forall i | 0 <= i < |s| ensures IsLetter(s[i]) && !Delimiter(s[i]) && !Braces(s[i]) {
      assert Lower(s[i]) == w[i];
      assert 'a' <= w[i] <= 'z';
    }
  }

  /** The tokens of the words of a term, up to what follows its operator. */
  lemma TokensOfTerm(s0: string, field: string, s1: string, opWord: string, s2: string, tail: string)
    requires AllSpace(s0) && AllSpace(s1) && AllSpace(s2) && s1 != "" && s2 != ""
    requires OneWord(field) && OneWord(opWord) && Lex(tail).Some?
    ensures Lex(s0 + (field + (s1 + (opWord + (s2 + tail)))))
            == Some([Classify(field)] + ([Classify(opWord)] + Lex(tail).value))
  {
    SpacesBefore(s2, tail);
    LexWord(opWord, s2 + tail);
    SpacesBefore(s1, opWord + (s2 + tail));
    LexWord(field, s1 + (opWord + (s2 + tail)));
    SpacesBefore(s0, field + (s1 + (opWord + (s2 + tail))));
  }

  lemma SpacesBefore(s: string, tail: string)
    requires AllSpace(s) && Lex(tail).Some?
    ensures Lex(s + tail) == Lex(tail)
    ensures s != "" ==> Delimiter((s + tail)[0])
  {
    LexSpaces(s);
    LexConcat(s, tail);
    assert [] + Lex(tail).value == Lex(tail).value;
  }

  /** The date of a term and whatever no delimiter parts from it make one word. */
  lemma TokensOfDate(date: string, rest: string)
    requires DateText(date) && Lex(date + rest).Some?
    ensures var word := date + rest[..WordLength(rest)];
            Lex(date + rest).value != [] && Lex(date + rest).value[0] == Word(word)
  {
    var n := WordLength(rest);
    DateIsWord(date, rest[..n]);
    SplitLater(date, rest, n);
    FirstWord(date + rest[..n], rest[n..]);
  }

  lemma SplitLater(date: string, rest: string, n: nat)
    requires n <= |rest|
    ensures date + rest == (date + rest[..n]) + rest[n..]
  {
  }

  lemma FirstWord(word: string, s: string)
    requires OneWord(word) && Classify(word) == Word(word) && (s == "" || Delimiter(s[0])) && Lex(word + s).Some?
    ensures Lex(word + s).value != [] && Lex(word + s).value[0] == Word(word)
  {
    LexWord(word, s);
  }

  lemma DateIsWord(date: string, more: string)
    requires DateText(date) && forall i :: 0 <= i < |more| ==> !Delimiter(more[i])
    ensures OneWord(date + more) && Classify(date + more) == Word(date + more)
  {
    var word := date + more;
    forall i | 0 <= i < |word| ensures !Delimiter(word[i]) {
      assert word[i] == if i < |date| then date[i] else more[i - |date|];
    }
    assert IsDigit(word[0]);
  }

  /** The last letters are those of `and`, in any case. */
  predicate EndsAnd(s: string) {
    |s| >= 3 && SameFold(s[|s| - 3..], "and")
  }

  /** The first letters are those of `and`, in any case. */
  predicate StartsAnd(s: string) {
    |s| >= 3 && SameFold(s[..3], "and")
  }

  /** A word that ends like `and` is an `and` or longer than any keyword that ends so. */
  lemma AndEnds(w: string)
    requires EndsAnd(w)
    ensures Joins(Classify(w))
  {
    var end := w[|w| - 3..];
    assert Lower(end[0]) == 'a' && Lower(end[1]) == 'n' && Lower(end[2]) == 'd';
    assert w[|w| - 1] == end[2] && w[|w| - 2] == end[1] && w[|w| - 3] == end[0];
    if |w| == 3 {
      assert end == w;
    }
  }

  /** A word that starts like `and` is an `and` or no keyword. */
  lemma AndStarts(w: string)
    requires StartsAnd(w)
    ensures Goes(Classify(w))
  {
    assert Lower(w[..3][0]) == 'a' && Lower(w[..3][1]) == 'n' && Lower(w[..3][2]) == 'd';
    assert w[0] == w[..3][0] && w[1] == w[..3][1] && w[2] == w[..3][2];
    if |w| == 3 {
      assert w[..3] == w;
    }
  }

  /** A text that ends outside a field ends the same when it is filled. */
  lemma {:induction false} FormatTail(text: string, values: Values, m: nat)
    requires Format(text, values).Some? && Dates(values)
    requires m <= |text| && NoBrace(text[|text| - m..])
    ensures var filled := Format(text, values).value; m <= |filled| && filled[|filled| - m..] == text[|text| - m..]
    decreases |text|
  {
    if m < |text| {
      FirstPiece(text, values);
      var (x, n) := Step(text, values).value;
      StepReads(text, values);
      var rest := Format(text[n..], values).value;
      assert text[n..][|text[n..]| - m..] == text[|text| - m..];
      FormatTail(text[n..], values, m);
      assert (x + rest)[|x + rest| - m..] == rest[|rest| - m..];
    } else {
      assert text[|text| - m..] == text;
      FormatNoBrace(text, values);
    }
  }

  /** Where the window term stands in the template, its parts apart. */
  datatype Parts = Parts(
    before: string, s0: string, field: string, s1: string, op: string, s2: string, placeholder: string, s3: string,
    after: string)
  {
    function Words(tail: string): string {
      s0 + (field + (s1 + (op + (s2 + tail))))
    }

    function Text(): string {
      before + Words(Hole(placeholder) + (s3 + after))
    }

    predicate Valid() {
      && DateField(field) && OneWord(op) && NoBrace(op)
      && AllSpace(s0) && AllSpace(s1) && AllSpace(s2) && AllSpace(s3) && s1 != "" && s2 != ""
      && (before != "" ==> s0 != "")
    }
  }

  /** The filter around the date, from the template around the placeholder. */
  lemma FormatAround(p: Parts, values: Values)
    requires p.Valid() && p.placeholder in values && p.placeholder != "" && PlaceholderName(p.placeholder)
    requires Format(p.Text(), values).Some?
    ensures Format(p.before, values).Some? && Format(p.s3 + p.after, values).Some?
    ensures Format(p.Text(), values) ==
            Some(Format(p.before, values).value
                 + p.Words(values[p.placeholder] + Format(p.s3 + p.after, values).value))
  {
    var words := p.Words("");
    var tail := Hole(p.placeholder) + (p.s3 + p.after);
    WordsAndTail(p, tail);
    WordsNoBrace(p);
    FormatNoBrace(words, values);
    FormatSplit(p.before, words + tail, values);
    FormatSplit(words, tail, values);
    HoleStep(p.placeholder, p.s3 + p.after, values);
    WordsAndTail(p, values[p.placeholder] + Format(p.s3 + p.after, values).value);
  }

  lemma WordsAndTail(p: Parts, tail: string)
    requires p.Valid()
    ensures p.Words(tail) == p.Words("") + tail
    ensures CutOutside(p.Words(""), tail) && CutOutside(p.before, p.Words("") + tail)
  {
    var words := p.Words("");
    assert words[|words| - 1] == p.s2[|p.s2| - 1];
    assert p.before != "" ==> (words + tail)[0] == p.s0[0];
  }

  lemma WordsNoBrace(p: Parts)
    requires p.Valid()
    ensures NoBrace(p.Words(""))
  {
  }

  /** Nothing, or an `and` past blanks or not, follows the date. */
  predicate Follows(rest: string)
    decreases |rest|
  {
    rest == "" || (if IsSpace(rest[0]) then Follows(rest[1..]) else StartsAnd(rest))
  }

  lemma {:induction false} AfterDate(s3: string, after: string, values: Values, rest: string)
    requires AllSpace(s3) && Dates(values) && Format(s3 + after, values) == Some(rest)
    requires after == "" || StartsAnd(after)
    ensures Follows(rest)
    decreases |s3|
  {
    var text := s3 + after;
    if s3 != "" {
      assert text[0] == s3[0] && text[1..] == s3[1..] + after;
      StepReads(text, values);
      AfterDate(s3[1..], after, values, rest[1..]);
    } else if after != "" {
      assert text == after;
      FoldedWord(after[..3], "and");
      assert after == after[..3] + after[3..];
      NoBraceFirst(after[..3], after[3..], values);
      assert !IsSpace(rest[..3][0]) && rest[..3][0] == rest[0];
    }
  }

  lemma FollowsGlued(rest: string)
    requires Follows(rest) && WordLength(rest) > 0
    ensures WordLength(rest) >= 2 && Lower(rest[1]) == 'n'
  {
    FoldedWord(rest[..3], "and");
    assert Lower(rest[..3][1]) == "and"[1];
    assert !Delimiter(rest[..3][0]) && !Delimiter(rest[..3][1]) && !Delimiter(rest[..3][2]);
    WordLengthPast(rest);
  }

  lemma WordLengthPast(s: string)
    requires |s| >= 2 && !Delimiter(s[0]) && !Delimiter(s[1])
    ensures WordLength(s) >= 2
  {
    assert s[1..][0] == s[1];
  }

  /** Past blanks, the first token after the date is an `and` or another word. */
  lemma {:induction false} FollowsTokens(rest: string)
    requires Follows(rest) && Lex(rest).Some?
    ensures Lex(rest).value == [] || Goes(Lex(rest).value[0])
    decreases |rest|
  {
    if rest != "" {
      var t, n := FirstOfLex(rest);
      if IsSpace(rest[0]) {
        FollowsTokens(rest[1..]);
      } else {
        StartsAndToken(rest);
      }
    }
  }

  lemma StartsAndToken(s: string)
    requires StartsAnd(s)
    ensures NextToken(s).Some? && |NextToken(s).value.0| == 1 && Goes(NextToken(s).value.0[0])
  {
    FoldedWord(s[..3], "and");
    assert forall i :: 0 <= i < 3 ==> s[..3][i] == s[i] && !Delimiter(s[i]);
    var w := s[..WordLength(s)];
    ThreeLetters(s);
    assert w[..3] == s[..3];
    AndStarts(w);
  }

  lemma ThreeLetters(s: string)
    requires |s| >= 3 && forall i :: 0 <= i < 3 ==> !Delimiter(s[i])
    ensures WordLength(s) >= 3
  {
    assert s[1..][0] == s[1] && s[1..][1] == s[2];
    WordLengthPast(s[1..]);
  }

  /** Characters that are no brace are written as they are, whatever follows. */
  lemma {:induction false} NoBraceFirst(a: string, b: string, values: Values)
    requires NoBrace(a) && Format(a + b, values).Some?
    ensures |Format(a + b, values).value| >= |a| && Format(a + b, values).value[..|a|] == a
    decreases |a|
  {
    if a != "" {
      assert (a + b)[0] == a[0] && (a + b)[1..] == a[1..] + b;
      NoBraceFirst(a[1..], b, values);
    }
  }

  /** The tokens of the filter, from those of its parts. */
  lemma TokensAround(p: Parts, head: string, tail: string)
    requires p.Valid() && Lex(head).Some? && Lex(head + p.Words(tail)).Some?
    requires p.before == "" ==> head == ""
    ensures Lex(tail).Some?
    ensures Lex(head + p.Words(tail)).value
            == Lex(head).value + ([Classify(p.field)] + ([Classify(p.op)] + Lex(tail).value))
  {
    HeadMeets(p, head, tail);
    LexConcat(head, p.Words(tail));
    TokensOfWords(p, tail);
  }

  lemma TokensOfWords(p: Parts, tail: string)
    requires p.Valid() && Lex(p.Words(tail)).Some?
    ensures Lex(tail).Some?
    ensures Lex(p.Words(tail)).value == [Classify(p.field)] + ([Classify(p.op)] + Lex(tail).value)
  {
    WordsAndTail(p, tail);
    TokensOfTerm(p.s0, p.field, p.s1, p.op, p.s2, "");
    MeetAfterWords(p, tail);
    LexConcat(p.Words(""), tail);
    TokensOfTerm(p.s0, p.field, p.s1, p.op, p.s2, tail);
  }

  lemma MeetAfterWords(p: Parts, tail: string)
    requires p.Valid()
    ensures MeetAtSpace(p.Words(""), tail)
  {
    var words := p.Words("");
    assert words[|words| - 1] == p.s2[|p.s2| - 1];
  }

  lemma HeadMeets(p: Parts, head: string, tail: string)
    requires p.Valid() && (p.before == "" ==> head == "")
    ensures MeetAtSpace(head, p.Words(tail))
  {
    assert p.s0 != "" ==> p.Words(tail)[0] == p.s0[0];
  }

  /** In the tokens of the filter, the window term stands at depth 0 after an `and` or first. */
  lemma TermInFilter(p: Parts, values: Values, op: Op, tokens: seq<Token>) returns (j: nat)
    requires p.Valid() && p.placeholder in values && p.placeholder != "" && PlaceholderName(p.placeholder) && Dates(values)
    requires Format(p.Text(), values).Some? && Lex(Format(p.Text(), values).value) == Some(tokens)
    requires Run(ODATA, TOP, p.before) == Some(TOP)
    requires p.before == "" || EndsAnd(p.before)
    requires p.after == "" || StartsAnd(p.after)
    requires Classify(p.op) == Operator(op)
    ensures TermAt(tokens, j, p.field, op, values[p.placeholder])
  {
    FormatAround(p, values);
    var head := Format(p.before, values).value;
    var rest := Format(p.s3 + p.after, values).value;
    var date := values[p.placeholder];
    TokensBeforeTerm(p.before, values);
    AfterDate(p.s3, p.after, values, rest);
    j := |Lex(head).value|;
    TermInWords(p, head, date, rest, op);
  }

  lemma TermInWords(p: Parts, head: string, date: string, rest: string, op: Op)
    requires p.Valid() && (p.before == "" ==> head == "") && DateText(date)
    requires Lex(head).Some? && Lex(head + p.Words(date + rest)).Some?
    requires Depth(Lex(head).value) == 0
    requires LastJoins(Lex(head).value) && Classify(p.op) == Operator(op) && Follows(rest)
    ensures TermAt(Lex(head + p.Words(date + rest)).value, |Lex(head).value|, p.field, op, date)
  {
    TokensAround(p, head, date + rest);
    DateTail(date, rest);
    TermAtPlace(Lex(head).value, p.field, p.op, op, Lex(date + rest).value, date);
  }

  predicate LastJoins(tokens: seq<Token>) {
    tokens != [] ==> Joins(tokens[|tokens| - 1])
  }

  /** The tokens from the date on: its word, then nothing or an `and` or another word. */
  predicate DateFirst(tail: seq<Token>, date: string) {
    && tail != [] && tail[0].Word? && DateWord(tail[0].text, date)
    && (tail[0].text == date && |tail| > 1 ==> Goes(tail[1]))
  }

  lemma DateTail(date: string, rest: string)
    requires DateText(date) && Follows(rest) && Lex(date + rest).Some?
    ensures DateFirst(Lex(date + rest).value, date)
  {
    var n := WordLength(rest);
    var word := date + rest[..n];
    TokensOfDate(date, rest);
    assert word[..|date|] == date;
    if n > 0 {
      FollowsGlued(rest);
      assert word[|date| + 1] == rest[1];
    } else {
      assert rest[..0] == "" && date + "" == date;
      DateApart(date, rest);
      FollowsTokens(rest);
    }
  }

  /** What follows the date is read apart from it. */
  lemma DateApart(date: string, rest: string)
    requires DateText(date) && WordLength(rest) == 0 && Lex(date + rest).Some?
    ensures Lex(rest).Some? && Lex(date + rest).value == [Word(date)] + Lex(rest).value
  {
    DateIsWord(date, "");
    assert date + "" == date;
    LexWord(date, rest);
  }

  /** The tokens before the term: balanced, and none or last an `and` or another word. */
  lemma TokensBeforeTerm(before: string, values: Values)
    requires Format(before, values).Some? && Dates(values) && Run(ODATA, TOP, before) == Some(TOP)
    requires before == "" || EndsAnd(before)
    ensures Lex(Format(before, values).value).Some?
    ensures var tokens := Lex(Format(before, values).value).value; Depth(tokens) == 0 && LastJoins(tokens)
  {
    ScanFormat(before, values, TOP);
    ScanTokens(Format(before, values).value, 0);
    if before != "" {
      BeforeTerm(before, values);
    }
  }

  lemma TermAtPlace(head: seq<Token>, field: string, opWord: string, op: Op, tail: seq<Token>, date: string)
    requires Depth(head) == 0 && DateField(field) && Classify(opWord) == Operator(op) && LastJoins(head)
    requires DateFirst(tail, date)
    ensures TermAt(head + ([Classify(field)] + ([Classify(opWord)] + tail)), |head|, field, op, date)
  {
    var all := head + ([Classify(field)] + ([Classify(opWord)] + tail));
    assert all[..|head|] == head;
    assert all[|head| + 2] == tail[0];
    assert |tail| > 1 ==> all[|head| + 3] == tail[1];
  }

  lemma OperatorWord(word: string, op: Op)
    requires op in {Ge, Le} && SameFold(word, if op == Ge then "ge" else "le")
    ensures Classify(word) == Operator(op)
  {
    assert Lower(word[1]) == 'e';
    assert op == Ge ==> Lower(word[0]) == 'g';
    assert op == Le ==> Lower(word[0]) == 'l';
  }

  /** What is before the term ends with an `and` or with another word. */
  lemma BeforeTerm(before: string, values: Values)
    requires EndsAnd(before)
    requires Format(before, values).Some? && Dates(values) && Lex(Format(before, values).value).Some?
    ensures LastJoins(Lex(Format(before, values).value).value)
  {
    var filled := Format(before, values).value;
    FoldedWord(before[|before| - 3..], "and");
    FormatTail(before, values, 3);
    LastIsLetter(filled);
    var w := LastToken(filled);
    WordEndsAnd(filled, w);
    AndEnds(w);
  }

  lemma LastIsLetter(s: string)
    requires EndsAnd(s)
    ensures forall i :: |s| - 3 <= i < |s| ==> !Delimiter(s[i])
  {
    FoldedWord(s[|s| - 3..], "and");
    assert forall i :: |s| - 3 <= i < |s| ==> s[i] == s[|s| - 3..][i - (|s| - 3)];
  }

  /** The last word of a text that ends like `and` does too. */
  lemma WordEndsAnd(s: string, w: string)
    requires EndsAnd(s) && LastWord(s, w)
    ensures EndsAnd(w)
  {
    LastIsLetter(s);
    assert |w| >= 3;
    assert w[|w| - 3..] == s[|s| - 3..];
  }

  // ---------- from the verdict to the parts ----------

  /** A character left in the open is the character of the template, and the scanner is at the top after it. */
  lemma OpenAt(text: string, m: nat)
    requires Masked(ODATA, text).Success? && m < |text| && Masked(ODATA, text).value[m] != MASK
    ensures Masked(ODATA, text).value[m] == text[m]
    ensures Run(ODATA, TOP, text[..m]) == Some(TOP) && Run(ODATA, TOP, text[..m + 1]) == Some(TOP)
  {
    MaskedAt(ODATA, TOP, text, m);
    assert text[..m + 1] == text[..m] + [text[m]];
    RunConcat(ODATA, TOP, text[..m], [text[m]]);
    AdvanceKeeps(TOP, text[m]);
    NeverEscaped(TOP, text[..m]);
  }

  lemma {:induction false} NeverEscaped(at: Place, s: string)
    requires !at.escaped && (at.quote == Bare || at.quote == In('\'')) && Run(ODATA, at, s).Some?
    ensures !Run(ODATA, at, s).value.escaped
    decreases |s|
  {
    if s != "" {
      AdvanceKeeps(at, s[0]);
      NeverEscaped(Advance(ODATA, at, s[0]).value, s[1..]);
    }
  }

  lemma KeywordPlace(alnum: char -> bool, masked: string, b: nat) returns (m: nat)
    requires SeparatorEnds(Separators(alnum, false, masked), b)
    ensures b == m + 3 <= |masked| && SameFold(masked[m..m + 3], "and") && (b < |masked| ==> !IsWord(alnum, masked[b]))
  {
    var lengths := Separators(alnum, false, masked);
    m :| 0 <= m < |lengths| && b == m + lengths[m] && lengths[m] > 0;
    assert lengths[m] == SeparatorAt(alnum, false, masked, m);
    assert KeywordAt(alnum, masked, m, "and");
  }

  /** A letter at the top shows as a word character. */
  lemma LetterShows(alnum: char -> bool, text: string, b: nat)
    requires Masked(ODATA, text).Success? && b < |text| && Run(ODATA, TOP, text[..b]) == Some(TOP) && IsLetter(text[b])
    ensures IsWord(alnum, Masked(ODATA, text).value[b])
  {
    MaskedAt(ODATA, TOP, text, b);
  }

  /** The keyword before a term: the scanner is at the top after it, and no word character follows it. */
  lemma KeywordBefore(alnum: char -> bool, text: string, b: nat)
    requires Masked(ODATA, text).Success?
    requires SeparatorEnds(Separators(alnum, false, Masked(ODATA, text).value), b)
    ensures 0 < b <= |text| && EndsAnd(text[..b]) && Run(ODATA, TOP, text[..b]) == Some(TOP)
    ensures b < |text| ==> !IsLetter(text[b])
  {
    var masked := Masked(ODATA, text).value;
    var m := KeywordPlace(alnum, masked, b);
    AndLetters(text, masked[m..m + 3], m);
    OpenAt(text, b - 1);
    if b < |text| && IsLetter(text[b]) {
      LetterShows(alnum, text, b);
    }
  }

  /** An `and` of the masked text is one of the template. */
  lemma AndLetters(text: string, w: string, m: nat)
    requires Masked(ODATA, text).Success? && m + 3 <= |text| && w == Masked(ODATA, text).value[m..m + 3] && SameFold(w, "and")
    ensures Masked(ODATA, text).value[m + 2] != MASK && text[m..m + 3] == w && EndsAnd(text[..m + 3])
  {
    var masked := Masked(ODATA, text).value;
    forall i | m <= i < m + 3
      ensures masked[i] == text[i] && masked[i] != MASK
    {
      assert Lower(masked[i]) == Lower(w[i - m]) == "and"[i - m];
      OpenAt(text, i);
    }
    assert text[..m + 3][m..] == text[m..m + 3] == w;
  }

  lemma KeywordAfter(alnum: char -> bool, text: string, e: nat)
    requires Masked(ODATA, text).Success?
    requires SeparatorStarts(Separators(alnum, false, Masked(ODATA, text).value), e)
    ensures e + 3 <= |text| && StartsAnd(text[e..])
  {
    var masked := Masked(ODATA, text).value;
    assert KeywordAt(alnum, masked, e, "and");
    AndLetters(text, masked[e..e + 3], e);
    assert text[e..][..3] == text[e..e + 3];
  }

  lemma RawText(p: Parts, raw: string)
    requires raw == p.s0 + (p.field + (p.s1 + (p.op + (p.s2 + (Hole(p.placeholder) + p.s3)))))
    ensures p.Text() == p.before + (raw + p.after)
  {
  }

  /** Where the window term the guard found stands in the template. */
  lemma TermBounds(alnum: char -> bool, text: string, field: string, op: string, placeholder: string)
    returns (b: nat, e: nat)
    requires Masked(ODATA, text).Success?
    requires var terms := Terms(alnum, false, text, Masked(ODATA, text).value);
             exists i :: 0 <= i < |terms| && WindowTerm(terms[i], field, op, placeholder)
    ensures b <= e <= |text| && WindowTerm(Collapse(text[b..e]), field, op, placeholder)
    ensures b == 0 || SeparatorEnds(Separators(alnum, false, Masked(ODATA, text).value), b)
    ensures e == |text| || SeparatorStarts(Separators(alnum, false, Masked(ODATA, text).value), e)
  {
    var masked := Masked(ODATA, text).value;
    var terms := Terms(alnum, false, text, masked);
    var k :| 0 <= k < |terms| && WindowTerm(terms[k], field, op, placeholder);
    b, e := TermPlace(Separators(alnum, false, masked), text, 0, 0, k);
  }

  /** The window term the guard found, its parts apart. */
  lemma TermParts(alnum: char -> bool, text: string, field: string, op: string, placeholder: string) returns (p: Parts)
    requires Masked(ODATA, text).Success? && DateField(field) && NoSpace(placeholder) && op in {"ge", "le"}
    requires var terms := Terms(alnum, false, text, Masked(ODATA, text).value);
             exists i :: 0 <= i < |terms| && WindowTerm(terms[i], field, op, placeholder)
    ensures p.Valid() && p.Text() == text && p.field == field && p.placeholder == placeholder && SameFold(p.op, op)
    ensures Run(ODATA, TOP, p.before) == Some(TOP)
    ensures p.before == "" || EndsAnd(p.before)
    ensures p.after == "" || StartsAnd(p.after)
  {
    var b, e := TermBounds(alnum, text, field, op, placeholder);
    if b > 0 {
      KeywordBefore(alnum, text, b);
    }
    if e < |text| {
      KeywordAfter(alnum, text, e);
    }
    p := PartsBetween(text, b, e, field, op, placeholder);
  }

  lemma PartsBetween(text: string, b: nat, e: nat, field: string, op: string, placeholder: string) returns (p: Parts)
    requires b <= e <= |text| && WindowTerm(Collapse(text[b..e]), field, op, placeholder)
    requires DateField(field) && NoSpace(placeholder) && op in {"ge", "le"}
    requires b > 0 && b < |text| ==> !IsLetter(text[b])
    ensures p.Valid() && p.Text() == text && p.field == field && p.placeholder == placeholder && SameFold(p.op, op)
    ensures p.before == text[..b] && p.after == text[e..]
  {
    var s0, s1, opWord, s2, s3 := TermWords(text[b..e], field, op, placeholder);
    FoldedWord(opWord, op);
    p := Parts(text[..b], s0, field, s1, opWord, s2, placeholder, s3, text[e..]);
    WholeText(p, text, b, e);
    FirstOfTerm(p, text, b, e);
  }

  lemma WholeText(p: Parts, text: string, b: nat, e: nat)
    requires b <= e <= |text| && p.before == text[..b] && p.after == text[e..]
    requires text[b..e] == p.s0 + (p.field + (p.s1 + (p.op + (p.s2 + (Hole(p.placeholder) + p.s3)))))
    ensures p.Text() == text
  {
    RawText(p, text[b..e]);
    assert text == text[..b] + (text[b..e] + text[e..]);
  }

  lemma FirstOfTerm(p: Parts, text: string, b: nat, e: nat)
    requires b <= e <= |text| && PropertyPath(p.field)
    requires text[b..e] == p.s0 + (p.field + (p.s1 + (p.op + (p.s2 + (Hole(p.placeholder) + p.s3)))))
    ensures b < |text| && text[b] == (p.s0 + p.field)[0]
  {
    assert text[b] == text[b..e][0];
  }

  // ---------- the guard keeps the window ----------

  /** No `"` is outside strings: the server reads no JSON string. */
  predicate NoJson(text: string) {
    OpenAll(ODATA, NoMark, TOP, text)
  }

  /** The filter of such a template has the tokens its characters suggest. */
  lemma ReadsAlike(text: string, values: Values, filled: string)
    requires Run(ODATA, TOP, text).Some? && NoJson(text) && Dates(values) && Format(text, values) == Some(filled)
    ensures Read(filled) == Lex(filled)
  {
    ScanFormat(text, values, TOP);
    DatesUnmarked(values);
    OpenFormat(NoMark, text, values, TOP);
    SameReading(filled, 0);
  }

  lemma DatesUnmarked(values: Values)
    requires Dates(values)
    ensures forall name :: name in values ==> All(NoMark, values[name])
  {
  }

  /** The filter of the request: the template filled with the bounds of the window. */
  function Bounds(start: string, end: string): Values {
    map[START := start, END := end]
  }

  lemma AcceptedIsFilled(alnum: char -> bool, text: string, field: string, start: string, end: string)
    requires CheckODataWindow(alnum, text, field) == Accepted
    ensures Format(text, Bounds(start, end)).Some?
  {
    assert Blanks({START, END}).Keys == {START, END} == Bounds(start, end).Keys;
    FilledWhenAllowed(text, Blanks({START, END}), Bounds(start, end));
  }

  /** The scanner leaves no `or` of the template in the open. */
  predicate OrFree(alnum: char -> bool, text: string) {
    Masked(ODATA, text).Success? && !HasKeyword(alnum, Masked(ODATA, text).value, "or")
  }

  lemma OrFreeIsConjunction(alnum: char -> bool, text: string, values: Values, filled: string, e: Expr)
    requires OrFree(alnum, text) && NoJson(text) && Dates(values)
    requires Format(text, values) == Some(filled) && Parses(filled, e)
    ensures Conjunction(e)
  {
    if !Conjunction(e) {
      var left := Tokens(e.left);
      Levels(e);
      Levels(e.left);
      ExprBalanced(e.left);
      assert Tokens(e)[..|left|] == left;
      OrIsSeen(alnum, text, values, |left|);
    }
  }

  /** A template whose terms the guard accepts, without JSON strings, fills to no filter that is an `or` of two others. */
  lemma TermsMakeConjunction(alnum: char -> bool, text: string, field: string, values: Values, filled: string, e: Expr)
    requires CheckODataTerms(alnum, text, field) == Accepted && NoJson(text) && Dates(values)
    requires Format(text, values) == Some(filled) && Parses(filled, e)
    ensures Conjunction(e)
  {
    OrFreeIsConjunction(alnum, text, values, filled, e);
  }

  lemma Names()
    ensures START != END && PlaceholderName(START) && PlaceholderName(END) && NoSpace(START) && NoSpace(END)
  {
  }

  /** What satisfying a bound means when the bound is a date. */
  lemma BoundMeaning(entity: Entity, field: string, op: Op, date: string)
    requires op in {Ge, Le} && entity.literal(date).Number?
    requires PropertyPath(field) && DateText(date) && entity.Satisfies(Comparison(field, op, date))
    ensures entity.property(field).Number?
    ensures op == Ge ==> entity.literal(date).n <= entity.property(field).n
    ensures op == Le ==> entity.property(field).n <= entity.literal(date).n
  {
  }

  /** One bound of the window, of any reading of the filter. */
  lemma BoundKept(
    alnum: char -> bool, text: string, field: string, values: Values, filled: string, e: Expr, op: Op,
    placeholder: string, entity: Entity)
    requires CheckODataTerms(alnum, text, field) == Accepted && NoJson(text) && Dates(values) && DateField(field)
    requires Format(text, values) == Some(filled) && Parses(filled, e)
    requires placeholder in values && (op, placeholder) in {(Ge, START), (Le, END)}
    ensures entity.Satisfies(e) ==> entity.Satisfies(Comparison(field, op, values[placeholder]))
  {
    Names();
    ReadsAlike(text, values, filled);
    TermsMakeConjunction(alnum, text, field, values, filled, e);
    var p := TermParts(alnum, text, field, if op == Ge then "ge" else "le", placeholder);
    OperatorWord(p.op, op);
    var j := TermInFilter(p, values, op, Tokens(e));
    TermIsConjunct(e, j, field, op, values[placeholder], entity);
  }

  /**
   Whatever bounds fill a template without JSON strings whose terms the guard accepts, and however the filter is read, an
   entity that satisfies it has its date field within the bounds.
   */
  lemma TermsKeepWindow(
    alnum: char -> bool, text: string, field: string, start: string, end: string, filled: string, e: Expr,
    entity: Entity)
    requires CheckODataTerms(alnum, text, field) == Accepted && NoJson(text) && DateField(field)
    requires DateText(start) && DateText(end)
    requires Format(text, Bounds(start, end)) == Some(filled) && Parses(filled, e)
    requires entity.literal(start).Number? && entity.literal(end).Number?
    requires entity.Satisfies(e)
    ensures entity.property(field).Number?
    ensures entity.literal(start).n <= entity.property(field).n <= entity.literal(end).n
  {
    var values := Bounds(start, end);
    assert values[START] == start && values[END] == end by {
      Names();
    }
    BoundKept(alnum, text, field, values, filled, e, Ge, START, entity);
    BoundKept(alnum, text, field, values, filled, e, Le, END, entity);
    BoundMeaning(entity, field, Ge, start);
    BoundMeaning(entity, field, Le, end);
  }
}
