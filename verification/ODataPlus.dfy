/** A template whose `+`s are read as blanks: the guard reads it alike. */
module ODataPlus {
  import opened Chars
  import opened Wrappers
  import opened Mask
  import opened Template
  import opened WindowGuard
  import opened CollapsedTerms
  import opened ODataQuery
  import opened FilterTokens
  import opened FilterText
  import opened ODataWindow

  function Unplus(c: char): char {
    if c == '+' then ' ' else c
  }

  /** Blanks for `+`s. */
  function Blanked(s: string): (r: string)
    ensures |r| == |s| && forall i :: 0 <= i < |s| ==> r[i] == Unplus(s[i])
  {
    if s == "" then "" else [Unplus(s[0])] + Blanked(s[1..])
  }

  predicate NoPlus(s: string) {
    forall i :: 0 <= i < |s| ==> s[i] != '+'
  }

  lemma BlankedConcat(a: string, b: string)
    ensures Blanked(a + b) == Blanked(a) + Blanked(b)
  {
  }

  lemma BlankedSame(s: string)
    requires NoPlus(s)
    ensures Blanked(s) == s
  {
  }

  lemma BlankedSlice(s: string, b: nat, e: nat)
    requires b <= e <= |s|
    ensures Blanked(s)[b..e] == Blanked(s[b..e])
  {
  }

  lemma BlankedRest(s: string, b: nat)
    requires b <= |s|
    ensures Blanked(s)[b..] == Blanked(s[b..])
  {
  }

  // ---------- the scanner and the formatter ----------

  /** A place of the scanner of filters. */
  predicate InFilter(at: Place) {
    !at.escaped && (at.quote == Bare || at.quote == In('\''))
  }

  lemma BlankedAdvance(at: Place, c: char)
    requires InFilter(at)
    ensures Advance(ODATA, at, Unplus(c)) == Advance(ODATA, at, c)
    ensures MaskChar(ODATA, at, Unplus(c)) == Unplus(MaskChar(ODATA, at, c))
    ensures Advance(ODATA, at, c).Some? ==> InFilter(Advance(ODATA, at, c).value)
  {
  }

  lemma BlankedTail(s: string)
    requires s != ""
    ensures Blanked(s)[1..] == Blanked(s[1..]) && Blanked(s)[0] == Unplus(s[0])
  {
  }

  /** No `+` moves the scanner, and none is masked or left in the open but as a blank would be. */
  lemma {:induction false} BlankedScan(at: Place, s: string)
    requires InFilter(at)
    ensures Run(ODATA, at, Blanked(s)) == Run(ODATA, at, s)
    ensures MaskFrom(ODATA, at, Blanked(s)) == Blanked(MaskFrom(ODATA, at, s))
    decreases |s|
  {
    if s != "" {
      var next := Advance(ODATA, at, s[0]);
      BlankedAdvance(at, s[0]);
      BlankedTail(s);
      if next.Some? {
        BlankedScan(next.value, s[1..]);
        BlankedConcat([MaskChar(ODATA, at, s[0])], MaskFrom(ODATA, next.value, s[1..]));
      }
    }
  }

  lemma {:induction false} BlankedOpen(ok: char -> bool, at: Place, s: string)
    requires InFilter(at) && OpenAll(ODATA, ok, at, s) && ok(' ')
    ensures OpenAll(ODATA, ok, at, Blanked(s))
    decreases |s|
  {
    if s != "" {
      BlankedAdvance(at, s[0]);
      BlankedTail(s);
      if Advance(ODATA, at, s[0]).Some? {
        BlankedOpen(ok, Advance(ODATA, at, s[0]).value, s[1..]);
      }
    }
  }

  predicate NoPlusValues(values: Values) {
    forall name :: name in values ==> NoPlus(values[name])
  }

  /** A step of the formatter reads a `+` as it is, and nothing else with one. */
  lemma BlankedStep(text: string, rest: string, values: Values)
    requires text != "" && Step(text, values).Some? && NoPlusValues(values)
    ensures var (x, n) := Step(text, values).value;
            Step(Blanked(text[..n]) + rest, values) == Some((Blanked(x), n))
  {
    var (x, n) := Step(text, values).value;
    var head := text[..n];
    StepReads(text, values);
    assert text == head + text[n..];
    StepLocal(head, text[n..], values);
    if n == 1 {
      assert head == [text[0]] && Blanked(head) == [Unplus(text[0])] == Blanked(x);
      assert (Blanked(head) + rest)[0] == Unplus(text[0]);
    } else {
      assert forall i :: 0 <= i < n ==> head[i] == text[i];
      BlankedSame(head);
      BlankedSame(x);
      StepLocal(head, rest, values);
    }
  }

  lemma {:induction false} BlankedFormat(text: string, values: Values)
    requires Format(text, values).Some? && NoPlusValues(values)
    ensures Format(Blanked(text), values) == Some(Blanked(Format(text, values).value))
    decreases |text|
  {
    if text != "" {
      var (x, n) := Step(text, values).value;
      var rest := Format(text[n..], values).value;
      BlankedFormat(text[n..], values);
      BlankedStep(text, Blanked(text[n..]), values);
      FormatOnce(Blanked(text[..n]), Blanked(text[n..]), values, Blanked(x));
      BlankedHalves(text, n);
      BlankedConcat(x, rest);
    }
  }

  lemma FormatOnce(head: string, rest: string, values: Values, x: string)
    requires head != "" && Step(head + rest, values) == Some((x, |head|)) && Format(rest, values).Some?
    ensures Format(head + rest, values) == Some(x + Format(rest, values).value)
  {
    assert (head + rest)[|head|..] == rest;
  }

  lemma BlankedHalves(s: string, n: nat)
    requires n <= |s|
    ensures Blanked(s) == Blanked(s[..n]) + Blanked(s[n..])
  {
    assert s == s[..n] + s[n..];
    BlankedConcat(s[..n], s[n..]);
  }

  // ---------- the terms ----------

  lemma BlankedKeyword(alnum: char -> bool, s: string, i: nat, w: string)
    requires w == "or" || w == "and"
    ensures KeywordAt(alnum, Blanked(s), i, w) <==> KeywordAt(alnum, s, i, w)
  {
    if i + |w| <= |s| {
      BlankedSlice(s, i, i + |w|);
      BlankedFold(s[i..i + |w|], w);
    }
  }

  lemma BlankedFold(s: string, w: string)
    requires w == "or" || w == "and"
    ensures SameFold(Blanked(s), w) <==> SameFold(s, w)
  {
    assert forall i :: 0 <= i < |w| ==> 'a' <= w[i] <= 'z';
  }

  lemma BlankedOr(alnum: char -> bool, s: string)
    requires !HasKeyword(alnum, s, "or")
    ensures !HasKeyword(alnum, Blanked(s), "or")
  {
    forall i | 0 <= i <= |s|
      ensures !KeywordAt(alnum, Blanked(s), i, "or")
    {
      BlankedKeyword(alnum, s, i, "or");
    }
  }

  lemma BlankedSeparators(alnum: char -> bool, s: string)
    ensures Separators(alnum, false, Blanked(s)) == Separators(alnum, false, s)
  {
    forall i | 0 <= i < |s|
      ensures SeparatorAt(alnum, false, Blanked(s), i) == SeparatorAt(alnum, false, s, i)
    {
      BlankedKeyword(alnum, s, i, "and");
    }
  }

  /** The terms of both texts are made of the same pieces. */
  lemma {:induction false} TermsAlike(lengths: seq<nat>, text: string, start: nat, i: nat, k: nat) returns (raw: string)
    requires |lengths| == |text| && Fitting(lengths) && start <= i <= |text|
    requires k < |TermsFrom(lengths, text, start, i)|
    ensures TermsFrom(lengths, text, start, i)[k] == Collapse(raw)
    ensures k < |TermsFrom(lengths, Blanked(text), start, i)|
    ensures TermsFrom(lengths, Blanked(text), start, i)[k] == Collapse(Blanked(raw))
    decreases |text| - i
  {
    if i == |text| {
      raw := text[start..];
      BlankedRest(text, start);
    } else if lengths[i] > 0 {
      if k == 0 {
        raw := text[start..i];
        BlankedSlice(text, start, i);
      } else {
        raw := TermsAlike(lengths, text, i + lengths[i], i + lengths[i], k - 1);
      }
    } else {
      raw := TermsAlike(lengths, text, start, i + 1, k);
    }
  }

  /** A window term has no `+` in it. */
  lemma TermNoPlus(raw: string, field: string, op: string, placeholder: string)
    requires WindowTerm(Collapse(raw), field, op, placeholder) && PropertyPath(field) && PlaceholderName(placeholder)
    requires NoSpace(field) && NoSpace(placeholder) && op in {"ge", "le"}
    ensures NoPlus(raw)
  {
    var s0, s1, opWord, s2, s3 := TermWords(raw, field, op, placeholder);
    FoldedWord(opWord, op);
    assert NoPlus(s0) && NoPlus(field) && NoPlus(s1) && NoPlus(opWord) && NoPlus(s2) && NoPlus(Hole(placeholder)) && NoPlus(s3);
  }

  lemma TermKept(
    alnum: char -> bool, text: string, masked: string, field: string, op: string, placeholder: string)
    requires |masked| == |text| && PropertyPath(field) && PlaceholderName(placeholder)
    requires NoSpace(field) && NoSpace(placeholder) && op in {"ge", "le"}
    requires var terms := Terms(alnum, false, text, masked);
             exists i :: 0 <= i < |terms| && WindowTerm(terms[i], field, op, placeholder)
    ensures var terms := Terms(alnum, false, Blanked(text), Blanked(masked));
            exists i :: 0 <= i < |terms| && WindowTerm(terms[i], field, op, placeholder)
  {
    var terms := Terms(alnum, false, text, masked);
    var k :| 0 <= k < |terms| && WindowTerm(terms[k], field, op, placeholder);
    BlankedSeparators(alnum, masked);
    var raw := TermsAlike(Separators(alnum, false, masked), text, 0, 0, k);
    TermNoPlus(raw, field, op, placeholder);
    BlankedSame(raw);
    assert WindowTerm(Terms(alnum, false, Blanked(text), Blanked(masked))[k], field, op, placeholder);
  }

  /** What the guard accepts of a template it accepts with blanks for `+`s. */
  lemma AcceptedBlanked(alnum: char -> bool, text: string, field: string)
    requires CheckODataTerms(alnum, text, field) == Accepted && DateField(field)
    ensures CheckODataTerms(alnum, Blanked(text), field) == Accepted
  {
    var masked := Masked(ODATA, text).value;
    Names();
    FieldNoSpace(field);
    BlankedFormat(text, Blanks({START, END}));
    BlankedScan(TOP, text);
    assert Masked(ODATA, Blanked(text)) == Success(Blanked(masked));
    BlankedOr(alnum, masked);
    TermKept(alnum, text, masked, field, "ge", START);
    TermKept(alnum, text, masked, field, "le", END);
  }

  lemma FieldNoSpace(field: string)
    requires PropertyPath(field)
    ensures NoSpace(field)
  {
  }
}
