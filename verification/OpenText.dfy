/**
 What a query holds in the open, outside quotes and parentheses, said of its text alone: words, doubled symbols, an
 ordering, and the stretches between the joints of its clauses.
 */
module OpenText {
  import opened Chars
  import opened Wrappers
  import opened Mask

  /** The text up to here leaves every quote and parenthesis closed. */
  predicate OpenHere(lex: Lexicon, text: string, i: nat) {
    i <= |text| && Run(lex, TOP, text[..i]) == Some(TOP)
  }

  /** A word in the open, in any case, with no word character against it. */
  predicate OpenWord(lex: Lexicon, alnum: char -> bool, text: string, i: nat, w: string) {
    && i + |w| <= |text| && SameFold(text[i..i + |w|], w) && OpenHere(lex, text, i)
    && (i > 0 ==> !IsWord(alnum, text[i - 1]))
    && (i + |w| < |text| ==> !IsWord(alnum, text[i + |w|]))
  }

  /** A symbol twice in the open. */
  predicate OpenTwice(lex: Lexicon, text: string, i: nat, c: char) {
    i + 2 <= |text| && text[i] == c && text[i + 1] == c && OpenHere(lex, text, i)
  }

  /** A word is spelled there, in any case. */
  predicate Reads(s: string, i: nat, w: string) {
    i + |w| <= |s| && forall k :: 0 <= k < |w| ==> Lower(s[i + k]) == w[k]
  }

  /** `order`, blanks and `by` are spelled there, in any case. */
  predicate OrderText(s: string, i: nat, blanks: nat) {
    && i + 7 + blanks <= |s| && blanks > 0 && Reads(s, i, "order")
    && (forall k :: i + 5 <= k < i + 5 + blanks ==> IsSpace(s[k]))
    && Reads(s, i + 5 + blanks, "by")
  }

  /** `order`, blanks and `by` in the open, with no word character against them. */
  predicate OpenOrder(lex: Lexicon, alnum: char -> bool, text: string, i: nat, blanks: nat) {
    && OrderText(text, i, blanks) && OpenHere(lex, text, i)
    && (i > 0 ==> !IsWord(alnum, text[i - 1]))
    && (i + 7 + blanks < |text| ==> !IsWord(alnum, text[i + 7 + blanks]))
  }

  /** How many times a symbol stands right before a place. */
  function Repeats(text: string, i: nat, c: char): nat
    requires i <= |text|
  {
    if i > 0 && text[i - 1] == c then 1 + Repeats(text, i - 1, c) else 0
  }

  /** What joins two clauses: an `and`, or in JQL a pair of `&`, read from the first of a row of them. */
  predicate Joint(lex: Lexicon, alnum: char -> bool, symbols: bool, text: string, i: nat, n: nat) {
    || (n == 3 && OpenWord(lex, alnum, text, i, "and"))
    || (n == 2 && symbols && OpenTwice(lex, text, i, '&') && Repeats(text, i, '&') % 2 == 0)
  }

  predicate JointEnds(lex: Lexicon, alnum: char -> bool, symbols: bool, text: string, b: nat) {
    || (b >= 3 && Joint(lex, alnum, symbols, text, b - 3, 3))
    || (b >= 2 && Joint(lex, alnum, symbols, text, b - 2, 2))
  }

  predicate JointStarts(lex: Lexicon, alnum: char -> bool, symbols: bool, text: string, e: nat) {
    Joint(lex, alnum, symbols, text, e, 3) || Joint(lex, alnum, symbols, text, e, 2)
  }

  /** A clause stands there: between two joints or ends of the text, with no joint in it. */
  predicate Between(lex: Lexicon, alnum: char -> bool, symbols: bool, text: string, b: nat, e: nat) {
    && b <= e <= |text|
    && (b == 0 || JointEnds(lex, alnum, symbols, text, b))
    && (e == |text| || JointStarts(lex, alnum, symbols, text, e))
    && forall i :: b <= i < e ==> !JointStarts(lex, alnum, symbols, text, i)
  }

  // ---------- words and blanks ----------

  /** Two words of a clause, and the blanks around and between its words. */
  datatype Spelling = Spelling(s0: string, first: string, s1: string, second: string, s2: string, s3: string) {
    function Text(third: string): string {
      s0 + (first + (s1 + (second + (s2 + (third + s3)))))
    }

    predicate Blanks() {
      AllSpace(s0) && AllSpace(s1) && AllSpace(s2) && AllSpace(s3) && s1 != "" && s2 != ""
    }
  }

  // ---------- the place of the scanner ----------

  /** Outside quotes nothing is escaped, and a quote is opened by a quote. */
  predicate Sane(lex: Lexicon, at: Place) {
    match at.quote
    case Bare => !at.escaped
    case In(mark) => lex.Quotes(mark)
  }

  lemma {:induction false} RunSane(lex: Lexicon, at: Place, text: string)
    requires Sane(lex, at) && Run(lex, at, text).Some?
    ensures Sane(lex, Run(lex, at, text).value)
    decreases |text|
  {
    if text != "" {
      RunSane(lex, Advance(lex, at, text[0]).value, text[1..]);
    }
  }

  /** One more character. */
  lemma RunNext(lex: Lexicon, text: string, i: nat)
    requires i < |text| && Run(lex, TOP, text).Some?
    ensures Run(lex, TOP, text[..i]).Some? && Run(lex, TOP, text[..i + 1]).Some?
    ensures Sane(lex, Run(lex, TOP, text[..i]).value)
    ensures Advance(lex, Run(lex, TOP, text[..i]).value, text[i]) == Run(lex, TOP, text[..i + 1])
  {
    assert text == text[..i + 1] + text[i + 1..] && text[..i + 1] == text[..i] + [text[i]];
    RunConcat(lex, TOP, text[..i + 1], text[i + 1..]);
    RunConcat(lex, TOP, text[..i], [text[i]]);
    RunSane(lex, TOP, text[..i]);
    RunOne(lex, Run(lex, TOP, text[..i]).value, text[i]);
  }

  lemma RunOne(lex: Lexicon, at: Place, c: char)
    ensures Run(lex, at, [c]) == Advance(lex, at, c)
  {
    assert [c][1..] == "";
  }

  /** A plain character is in the open on both sides or on none. */
  lemma OpenNext(lex: Lexicon, text: string, i: nat)
    requires i < |text| && Run(lex, TOP, text).Some? && Plain(lex, text[i])
    ensures OpenHere(lex, text, i) <==> OpenHere(lex, text, i + 1)
  {
    RunNext(lex, text, i);
  }

  /** From a place in the open on, plain characters are in the open. */
  lemma {:induction false} OpenStretch(lex: Lexicon, text: string, i: nat, j: nat)
    requires i <= j <= |text| && Run(lex, TOP, text).Some? && forall k :: i <= k < j ==> Plain(lex, text[k])
    ensures OpenHere(lex, text, i) <==> OpenHere(lex, text, j)
    decreases j - i
  {
    if i < j {
      OpenStretch(lex, text, i + 1, j);
      OpenNext(lex, text, i);
    }
  }

  /** What the mask shows: the plain characters in the open. */
  lemma Shows(lex: Lexicon, text: string, i: nat)
    requires i < |text| && Run(lex, TOP, text).Some?
    ensures |MaskFrom(lex, TOP, text)| == |text|
    ensures MaskFrom(lex, TOP, text)[i] == if OpenHere(lex, text, i) && Plain(lex, text[i]) then text[i] else MASK
  {
    MaskedAt(lex, TOP, text, i);
    RunNext(lex, text, i);
  }

  /** At a place in the open the mask shows the word characters there are, on either side. */
  lemma WordShows(lex: Lexicon, alnum: char -> bool, text: string, i: nat)
    requires Run(lex, TOP, text).Some? && OpenHere(lex, text, i)
    ensures |MaskFrom(lex, TOP, text)| == |text|
    ensures i < |text| ==> IsWord(alnum, MaskFrom(lex, TOP, text)[i]) == IsWord(alnum, text[i])
    ensures i > 0 ==> IsWord(alnum, MaskFrom(lex, TOP, text)[i - 1]) == IsWord(alnum, text[i - 1])
  {
    if i < |text| {
      Shows(lex, text, i);
    }
    if i > 0 {
      Shows(lex, text, i - 1);
      if Plain(lex, text[i - 1]) {
        OpenNext(lex, text, i - 1);
      }
    }
  }

  /** A stretch of characters none of which is the mask shows exactly when it is in the open. */
  lemma StretchShows(lex: Lexicon, text: string, i: nat, j: nat)
    requires i < j <= |text| && Run(lex, TOP, text).Some?
    ensures |MaskFrom(lex, TOP, text)| == |text|
    ensures (forall k :: i <= k < j ==> MaskFrom(lex, TOP, text)[k] != MASK) ==>
              OpenHere(lex, text, i) && OpenHere(lex, text, j) && MaskFrom(lex, TOP, text)[i..j] == text[i..j]
    ensures OpenHere(lex, text, i) && (forall k :: i <= k < j ==> Plain(lex, text[k])) ==>
              OpenHere(lex, text, j) && MaskFrom(lex, TOP, text)[i..j] == text[i..j]
  {
    var masked := MaskFrom(lex, TOP, text);
    Shows(lex, text, i);
    if forall k :: i <= k < j ==> masked[k] != MASK {
      forall k | i <= k < j
        ensures masked[k] == text[k] && Plain(lex, text[k])
      {
        Shows(lex, text, k);
      }
      OpenStretch(lex, text, i, j);
    }
    if OpenHere(lex, text, i) && forall k :: i <= k < j ==> Plain(lex, text[k]) {
      forall k | i <= k < j
        ensures masked[k] == text[k]
      {
        OpenStretch(lex, text, i, k);
        Shows(lex, text, k);
      }
      OpenStretch(lex, text, i, j);
    }
  }
}
