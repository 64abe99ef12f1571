/**
 The scanner of the window guard: what it takes for quoted or parenthesised. It knows one quote at a
 time, counts parentheses outside quotes, and replaces whatever is not bare at depth 0 by a NUL.
 */
module Mask {
  import opened Wrappers

  const MASK := '\0'

  datatype Quote = Bare | In(mark: char)

  /** Where the scanner is: in which quote, at which depth, after a backslash or not. */
  datatype Place = Place(quote: Quote, depth: nat, escaped: bool) {
    predicate Top() {
      quote == Bare && depth == 0
    }
  }

  const TOP := Place(Bare, 0, false)

  /** What the two query languages differ by: whether `"` is a quote beside `'`, and whether a backslash escapes in a quote. */
  datatype Lexicon = Lexicon(doubleQuotes: bool, backslash: bool) {
    predicate Quotes(c: char) {
      c == '\'' || (doubleQuotes && c == '"')
    }
  }

  const ODATA := Lexicon(false, false)
  const JQL := Lexicon(true, true)

  datatype Unbalanced = UnclosedQuote | UnbalancedParenthesis

  /** Move over one character, None on a parenthesis that closes nothing. */
  function Advance(lex: Lexicon, at: Place, c: char): Option<Place> {
    match at.quote
    case In(mark) =>
      if at.escaped then Some(at.(escaped := false))
      else if lex.backslash && c == '\\' then Some(at.(escaped := true))
      else if c == mark then Some(at.(quote := Bare))
      else Some(at)
    case Bare =>
      if lex.Quotes(c) then Some(at.(quote := In(c)))
      else if c == '(' then Some(at.(depth := at.depth + 1))
      else if c == ')' then if at.depth == 0 then None else Some(at.(depth := at.depth - 1))
      else Some(at)
  }

  function Run(lex: Lexicon, at: Place, text: string): Option<Place>
    decreases |text|
  {
    if text == "" then Some(at)
    else
      var next :- Advance(lex, at, text[0]);
      Run(lex, next, text[1..])
  }

  predicate Plain(lex: Lexicon, c: char) {
    !lex.Quotes(c) && c != '(' && c != ')'
  }

  function MaskChar(lex: Lexicon, at: Place, c: char): char {
    if at.Top() && Plain(lex, c) then c else MASK
  }

  /** The masked characters of `text`, read from `at`. */
  function MaskFrom(lex: Lexicon, at: Place, text: string): (masked: string)
    ensures Run(lex, at, text).Some? ==> |masked| == |text|
    decreases |text|
  {
    if text == "" then ""
    else
      [MaskChar(lex, at, text[0])] +
      (match Advance(lex, at, text[0]) case Some(next) => MaskFrom(lex, next, text[1..]) case None => "")
  }

  function Masked(lex: Lexicon, text: string): Result<string, Unbalanced> {
    match Run(lex, TOP, text)
    case None => Failure(UnbalancedParenthesis)
    case Some(end) =>
      if end.quote != Bare then Failure(UnclosedQuote)
      else if end.depth != 0 then Failure(UnbalancedParenthesis)
      else Success(MaskFrom(lex, TOP, text))
  }

  /** The text was scanned up to `i`: the place is `at`, and `masked` is the mask so far. */
  predicate Scanned(lex: Lexicon, text: string, i: nat, masked: string, at: Place)
    requires i <= |text|
  {
    && Run(lex, at, text[i..]) == Run(lex, TOP, text)
    && (Run(lex, TOP, text).Some? ==> masked + MaskFrom(lex, at, text[i..]) == MaskFrom(lex, TOP, text))
  }

  lemma ScanOne(lex: Lexicon, text: string, i: nat, masked: string, at: Place)
    requires i < |text| && Scanned(lex, text, i, masked, at)
    ensures Advance(lex, at, text[i]).None? ==> Run(lex, TOP, text).None?
    ensures Advance(lex, at, text[i]).Some? ==>
              Scanned(lex, text, i + 1, masked + [MaskChar(lex, at, text[i])], Advance(lex, at, text[i]).value)
  {
    var rest := text[i..];
    assert rest[1..] == text[i + 1..] && rest[0] == text[i];
    if Advance(lex, at, text[i]).Some? {
      var after := MaskFrom(lex, Advance(lex, at, text[i]).value, text[i + 1..]);
      assert MaskFrom(lex, at, rest) == [MaskChar(lex, at, text[i])] + after;
      Regroup(masked, [MaskChar(lex, at, text[i])], after);
    }
  }

  lemma Regroup(a: string, b: string, c: string)
    ensures a + (b + c) == (a + b) + c
  {
  }

  /** The scanner as the loop it is. */
  method MaskText(lex: Lexicon, text: string) returns (r: Result<string, Unbalanced>)
    ensures r == Masked(lex, text)
  {
    var masked := "";
    assert text[0..] == text && masked + MaskFrom(lex, TOP, text) == MaskFrom(lex, TOP, text);
    var quote := Bare;
    var depth := 0;
    var escaped := false;
    for i := 0 to |text|
      invariant depth >= 0 && (quote == Bare ==> !escaped)
      invariant Scanned(lex, text, i, masked, Place(quote, depth, escaped))
    {
      var c := text[i];
      ScanOne(lex, text, i, masked, Place(quote, depth, escaped));
      if quote != Bare {
        masked := masked + [MASK];
        if escaped {
          escaped := false;
        } else if lex.backslash && c == '\\' {
          escaped := true;
        } else if c == quote.mark {
          quote := Bare;
        }
      } else if lex.Quotes(c) {
        quote := In(c);
        masked := masked + [MASK];
      } else if c == '(' {
        depth := depth + 1;
        masked := masked + [MASK];
      } else if c == ')' {
        depth := depth - 1;
        if depth < 0 {
          return Failure(UnbalancedParenthesis);
        }
        masked := masked + [MASK];
      } else {
        masked := masked + [if depth == 0 then c else MASK];
      }
    }
    assert text[|text|..] == "" && masked + "" == masked;
    if quote != Bare {
      return Failure(UnclosedQuote);
    }
    if depth != 0 {
      return Failure(UnbalancedParenthesis);
    }
    return Success(masked);
  }

  lemma {:induction false} RunConcat(lex: Lexicon, at: Place, a: string, b: string)
    decreases |a|
    ensures Run(lex, at, a).None? ==> Run(lex, at, a + b).None?
    ensures Run(lex, at, a).Some? ==> Run(lex, at, a + b) == Run(lex, Run(lex, at, a).value, b)
  {
    if a == "" {
      assert a + b == b;
    } else {
      assert (a + b)[1..] == a[1..] + b;
      match Advance(lex, at, a[0]) {
        case None =>
        case Some(next) => RunConcat(lex, next, a[1..], b);
      }
    }
  }

  /** A position is masked unless the scanner is outside quotes at depth 0 there, on a plain character. */
  lemma {:induction false} MaskedAt(lex: Lexicon, at: Place, text: string, i: nat)
    requires Run(lex, at, text).Some? && i < |text|
    ensures Run(lex, at, text[..i]).Some?
    ensures MaskFrom(lex, at, text)[i] == MaskChar(lex, Run(lex, at, text[..i]).value, text[i])
    decreases |text|
  {
    if i > 0 {
      var next := Advance(lex, at, text[0]).value;
      MaskedAt(lex, next, text[1..], i - 1);
      assert text[..i][1..] == text[1..][..i - 1];
    }
  }

  /** Plain characters move the scanner nowhere when it is outside quotes. */
  lemma {:induction false} RunPlain(lex: Lexicon, at: Place, text: string)
    requires at.quote == Bare
    requires forall i :: 0 <= i < |text| ==> Plain(lex, text[i])
    ensures Run(lex, at, text) == Some(at)
  {
    if text != "" {
      RunPlain(lex, at, text[1..]);
    }
  }

  /** The mask of a text is that of its parts one after the other. */
  lemma {:induction false} MaskConcat(lex: Lexicon, at: Place, a: string, b: string)
    requires Run(lex, at, a).Some?
    ensures MaskFrom(lex, at, a + b) == MaskFrom(lex, at, a) + MaskFrom(lex, Run(lex, at, a).value, b)
    decreases |a|
  {
    if a == "" {
      assert a + b == b && "" + MaskFrom(lex, at, b) == MaskFrom(lex, at, b);
    } else {
      assert (a + b)[1..] == a[1..] + b && (a + b)[0] == a[0];
      var next := Advance(lex, at, a[0]).value;
      MaskConcat(lex, next, a[1..], b);
      Regroup([MaskChar(lex, at, a[0])], MaskFrom(lex, next, a[1..]), MaskFrom(lex, Run(lex, at, a).value, b));
    }
  }

  /** Outside quotes at depth 0, plain characters are all left in the open. */
  lemma {:induction false} MaskPlain(lex: Lexicon, text: string)
    requires forall i :: 0 <= i < |text| ==> Plain(lex, text[i])
    ensures Run(lex, TOP, text) == Some(TOP) && MaskFrom(lex, TOP, text) == text
  {
    if text != "" {
      MaskPlain(lex, text[1..]);
      assert [text[0]] + text[1..] == text;
    }
  }

  // ---------- what is outside strings ----------

  /** Every character the scanner reads outside strings is of a kind. */
  predicate OpenAll(lex: Lexicon, ok: char -> bool, at: Place, text: string)
    decreases |text|
  {
    text == ""
    || ((at.quote == Bare ==> ok(text[0]))
        && (Advance(lex, at, text[0]).Some? ==> OpenAll(lex, ok, Advance(lex, at, text[0]).value, text[1..])))
  }

  /** A kind all characters are of. */
  predicate All(ok: char -> bool, text: string) {
    forall i :: 0 <= i < |text| ==> ok(text[i])
  }

  lemma {:induction false} AllOpen(lex: Lexicon, ok: char -> bool, at: Place, text: string)
    requires All(ok, text)
    ensures OpenAll(lex, ok, at, text)
    decreases |text|
  {
    if text != "" && Advance(lex, at, text[0]).Some? {
      AllOpen(lex, ok, Advance(lex, at, text[0]).value, text[1..]);
    }
  }

  lemma {:induction false} OpenLater(lex: Lexicon, ok: char -> bool, at: Place, text: string, n: nat, next: Place)
    requires OpenAll(lex, ok, at, text) && n <= |text| && Run(lex, at, text[..n]) == Some(next)
    ensures OpenAll(lex, ok, next, text[n..])
    decreases |text|
  {
    if n > 0 {
      assert text[..n][1..] == text[1..][..n - 1] && text[1..][n - 1..] == text[n..];
      OpenLater(lex, ok, Advance(lex, at, text[0]).value, text[1..], n - 1, next);
    } else {
      assert text[..0] == "" && text[0..] == text;
    }
  }

  lemma {:induction false} OpenConcat(lex: Lexicon, ok: char -> bool, at: Place, a: string, b: string)
    requires OpenAll(lex, ok, at, a) && (Run(lex, at, a).Some? ==> OpenAll(lex, ok, Run(lex, at, a).value, b))
    ensures OpenAll(lex, ok, at, a + b)
    decreases |a|
  {
    if a == "" {
      assert a + b == b;
    } else {
      assert (a + b)[0] == a[0] && (a + b)[1..] == a[1..] + b;
      if Advance(lex, at, a[0]).Some? {
        OpenConcat(lex, ok, Advance(lex, at, a[0]).value, a[1..], b);
      }
    }
  }
}
