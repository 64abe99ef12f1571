/** What the guard reads in a masked text is what the text holds in the open: its words, its bars and its clauses. */
module GuardTerms {
  import opened Chars
  import opened Wrappers
  import opened Mask
  import opened OpenText
  import opened WindowGuard

  // ---------- words ----------

  predicate SmallLetters(w: string) {
    w != "" && forall i :: 0 <= i < |w| ==> 'a' <= w[i] <= 'z'
  }

  lemma FoldedLetters(lex: Lexicon, s: string, w: string)
    requires SmallLetters(w) && SameFold(s, w)
    ensures forall k :: 0 <= k < |s| ==> s[k] != MASK && Plain(lex, s[k]) && IsLetter(s[k])
  {
    forall k | 0 <= k < |s|
      ensures s[k] != MASK && Plain(lex, s[k]) && IsLetter(s[k])
    {
      assert Lower(s[k]) == w[k];
    }
  }

  /** Letters stand in the mask exactly where they stand in the open. */
  lemma LettersShow(lex: Lexicon, text: string, i: nat, w: string)
    requires Run(lex, TOP, text).Some? && i + |w| <= |text| && SmallLetters(w)
    ensures |MaskFrom(lex, TOP, text)| == |text|
    ensures SameFold(MaskFrom(lex, TOP, text)[i..i + |w|], w)
            <==> SameFold(text[i..i + |w|], w) && OpenHere(lex, text, i)
    ensures SameFold(text[i..i + |w|], w) && OpenHere(lex, text, i) ==> OpenHere(lex, text, i + |w|)
  {
    var masked, j := MaskFrom(lex, TOP, text), i + |w|;
    StretchShows(lex, text, i, j);
    if SameFold(masked[i..j], w) {
      FoldedLetters(lex, masked[i..j], w);
      forall k | i <= k < j
        ensures masked[k] != MASK
      {
        assert masked[k] == masked[i..j][k - i];
      }
    }
    if SameFold(text[i..j], w) {
      FoldedLetters(lex, text[i..j], w);
      forall k | i <= k < j
        ensures Plain(lex, text[k])
      {
        assert text[k] == text[i..j][k - i];
      }
    }
  }

  /** A keyword of the mask is a word of the text in the open. */
  lemma KeywordIsOpen(lex: Lexicon, alnum: char -> bool, text: string, i: nat, w: string)
    requires Run(lex, TOP, text).Some? && SmallLetters(w)
    ensures KeywordAt(alnum, MaskFrom(lex, TOP, text), i, w) <==> OpenWord(lex, alnum, text, i, w)
  {
    if i + |w| <= |text| {
      LettersShow(lex, text, i, w);
      if OpenHere(lex, text, i) && SameFold(text[i..i + |w|], w) {
        WordShows(lex, alnum, text, i);
        WordShows(lex, alnum, text, i + |w|);
      }
    }
  }

  /** So is a doubled symbol. */
  lemma TwiceIsOpen(lex: Lexicon, text: string, i: nat, c: char)
    requires Run(lex, TOP, text).Some? && (c == '&' || c == '|') && i + 2 <= |text|
    ensures |MaskFrom(lex, TOP, text)| == |text|
    ensures MaskFrom(lex, TOP, text)[i] == c && MaskFrom(lex, TOP, text)[i + 1] == c <==> OpenTwice(lex, text, i, c)
  {
    Shows(lex, text, i);
    Shows(lex, text, i + 1);
    if text[i] == c {
      OpenNext(lex, text, i);
    }
  }

  lemma HasWord(lex: Lexicon, alnum: char -> bool, text: string, w: string)
    requires Run(lex, TOP, text).Some? && SmallLetters(w)
    ensures HasKeyword(alnum, MaskFrom(lex, TOP, text), w) <==> exists i: nat :: OpenWord(lex, alnum, text, i, w)
  {
    var masked := MaskFrom(lex, TOP, text);
    if HasKeyword(alnum, masked, w) {
      var i :| 0 <= i <= |masked| && KeywordAt(alnum, masked, i, w);
      KeywordIsOpen(lex, alnum, text, i, w);
    }
    if i: nat :| OpenWord(lex, alnum, text, i, w) {
      KeywordIsOpen(lex, alnum, text, i, w);
    }
  }

  lemma HasDouble(lex: Lexicon, text: string)
    requires Run(lex, TOP, text).Some?
    ensures HasBars(MaskFrom(lex, TOP, text)) <==> exists i: nat :: OpenTwice(lex, text, i, '|')
  {
    var masked := MaskFrom(lex, TOP, text);
    if HasBars(masked) {
      var i :| 0 <= i < |masked| - 1 && masked[i] == '|' && masked[i + 1] == '|';
      TwiceIsOpen(lex, text, i, '|');
    }
    if i: nat :| OpenTwice(lex, text, i, '|') {
      TwiceIsOpen(lex, text, i, '|');
    }
  }

  // ---------- joints ----------

  /** The separator read at a place is an `and` in the open, or a pair of `&`. */
  lemma SeparatorIs(lex: Lexicon, alnum: char -> bool, symbols: bool, text: string, i: nat)
    requires Run(lex, TOP, text).Some? && i < |text|
    ensures |MaskFrom(lex, TOP, text)| == |text|
    ensures SeparatorAt(alnum, symbols, MaskFrom(lex, TOP, text), i)
            == if OpenWord(lex, alnum, text, i, "and") then 3
               else if symbols && OpenTwice(lex, text, i, '&') then 2 else 0
  {
    KeywordIsOpen(lex, alnum, text, i, "and");
    if i + 2 <= |text| {
      TwiceIsOpen(lex, text, i, '&');
    }
  }

  /** The length of the joint at a place, 0 when there is none. */
  function JointLength(lex: Lexicon, alnum: char -> bool, symbols: bool, text: string, i: nat): (n: nat)
    requires i <= |text|
    ensures i + n <= |text|
  {
    if Joint(lex, alnum, symbols, text, i, 3) then 3 else if Joint(lex, alnum, symbols, text, i, 2) then 2 else 0
  }

  function Joints(lex: Lexicon, alnum: char -> bool, symbols: bool, text: string): (lengths: seq<nat>)
    ensures Fitting(lengths) && |lengths| == |text|
  {
    seq(|text|, i requires 0 <= i < |text| => JointLength(lex, alnum, symbols, text, i))
  }

  /** No separator starts inside another one. */
  predicate Apart(lengths: seq<nat>) {
    forall i {:trigger ApartAt(lengths, i)} :: 0 <= i < |lengths| ==> ApartAt(lengths, i)
  }

  predicate ApartAt(lengths: seq<nat>, i: nat)
    requires i < |lengths|
  {
    forall j :: i < j < |lengths| && j < i + lengths[i] ==> lengths[j] == 0
  }

  lemma AndLetters(lex: Lexicon, alnum: char -> bool, text: string, i: nat)
    requires OpenWord(lex, alnum, text, i, "and")
    ensures IsLetter(text[i]) && Lower(text[i]) == 'a' && Lower(text[i + 1]) == 'n' && Lower(text[i + 2]) == 'd'
    ensures text[i] != '&' && text[i + 1] != '&' && text[i + 2] != '&'
  {
    var w := text[i..i + 3];
    assert w[0] == text[i] && w[1] == text[i + 1] && w[2] == text[i + 2];
    assert Lower(w[0]) == "and"[0] && Lower(w[1]) == "and"[1] && Lower(w[2]) == "and"[2];
  }

  lemma NoJointInside(lex: Lexicon, alnum: char -> bool, symbols: bool, text: string, i: nat, n: nat, j: nat)
    requires Joint(lex, alnum, symbols, text, i, n) && i < j < i + n
    ensures !Joint(lex, alnum, symbols, text, j, 3) && !Joint(lex, alnum, symbols, text, j, 2)
  {
    if n == 3 {
      AndLetters(lex, alnum, text, i);
    }
    if OpenWord(lex, alnum, text, j, "and") {
      AndLetters(lex, alnum, text, j);
    }
  }

  lemma JointsApart(lex: Lexicon, alnum: char -> bool, symbols: bool, text: string)
    ensures Apart(Joints(lex, alnum, symbols, text))
  {
    var lengths := Joints(lex, alnum, symbols, text);
    forall i | 0 <= i < |lengths|
      ensures ApartAt(lengths, i)
    {
      forall j | i < j < |lengths| && j < i + lengths[i]
        ensures lengths[j] == 0
      {
        NoJointInside(lex, alnum, symbols, text, i, lengths[i], j);
      }
    }
  }

  /** The loop never looks for a pair of `&` from the second of one. */
  predicate InStep(lex: Lexicon, text: string, i: nat) {
    i <= |text| && (OpenTwice(lex, text, i, '&') ==> Repeats(text, i, '&') % 2 == 0)
  }

  lemma StepOn(lex: Lexicon, alnum: char -> bool, symbols: bool, text: string, i: nat)
    requires Run(lex, TOP, text).Some? && i < |text| && (symbols ==> InStep(lex, text, i))
    ensures |MaskFrom(lex, TOP, text)| == |text|
    ensures var n := SeparatorAt(alnum, symbols, MaskFrom(lex, TOP, text), i);
            && n == JointLength(lex, alnum, symbols, text, i)
            && (symbols ==> InStep(lex, text, if n > 0 then i + n else i + 1))
  {
    SeparatorIs(lex, alnum, symbols, text, i);
    if OpenWord(lex, alnum, text, i, "and") {
      AndLetters(lex, alnum, text, i);
    } else if symbols && text[i] == '&' {
      OpenNext(lex, text, i);
    }
  }

  /** So the terms are those between the joints. */
  lemma {:induction false} TermsAreJoined(
    lex: Lexicon, alnum: char -> bool, symbols: bool, text: string, masked: string, start: nat, i: nat)
    requires Run(lex, TOP, text).Some? && masked == MaskFrom(lex, TOP, text) && |masked| == |text|
    requires start <= i <= |text| && (symbols ==> InStep(lex, text, i))
    ensures TermsFrom(Separators(alnum, symbols, masked), text, start, i)
            == TermsFrom(Joints(lex, alnum, symbols, text), text, start, i)
    decreases |text| - i
  {
    if i < |text| {
      StepOn(lex, alnum, symbols, text, i);
      var n := SeparatorAt(alnum, symbols, masked, i);
      if n > 0 {
        TermsAreJoined(lex, alnum, symbols, text, masked, i + n, i + n);
      } else {
        TermsAreJoined(lex, alnum, symbols, text, masked, start, i + 1);
      }
    }
  }

  // ---------- the terms between separators that stand apart ----------

  predicate EndsFrom(lengths: seq<nat>, start: nat, b: nat) {
    exists m :: start <= m < |lengths| && lengths[m] > 0 && m + lengths[m] == b
  }

  /** Nothing separates here. */
  predicate Whole(lengths: seq<nat>, b: nat, e: nat) {
    b <= e <= |lengths| && forall j :: b <= j < e ==> lengths[j] == 0
  }

  /** A stretch between two separators, or an end. */
  predicate Stands(lengths: seq<nat>, start: nat, b: nat, e: nat) {
    && start <= b && Whole(lengths, b, e)
    && (b == start || EndsFrom(lengths, start, b)) && (e == |lengths| || lengths[e] > 0)
  }

  /** The first term ends at the first separator, or at the end. */
  lemma FirstTerm(lengths: seq<nat>, text: string, start: nat, i: nat)
    requires |lengths| == |text| && Fitting(lengths) && Whole(lengths, start, i) && (i == |text| || lengths[i] > 0)
    ensures Stands(lengths, start, start, i)
    ensures TermsFrom(lengths, text, start, i) != [] && TermsFrom(lengths, text, start, i)[0] == Collapse(text[start..i])
  {
    FirstStands(lengths, start, i);
    assert text[start..|text|] == text[start..];
  }

  /** The other terms are those after it. */
  lemma LaterTerms(lengths: seq<nat>, text: string, start: nat, i: nat, k: nat, t: string)
    requires |lengths| == |text| && Fitting(lengths) && start <= i <= |text|
    requires IsTerm(lengths, text, start, i, k, t)
    ensures i == |text| ==> k == 0
    ensures i < |text| && lengths[i] > 0 && k > 0 ==>
              IsTerm(lengths, text, i + lengths[i], i + lengths[i], k - 1, t)
    ensures i < |text| && lengths[i] == 0 ==> IsTerm(lengths, text, start, i + 1, k, t)
  {
  }

  predicate IsTerm(lengths: seq<nat>, text: string, start: nat, i: nat, k: nat, t: string)
    requires |lengths| == |text| && Fitting(lengths) && start <= i <= |text|
  {
    k < |TermsFrom(lengths, text, start, i)| && TermsFrom(lengths, text, start, i)[k] == t
  }

  /** A term is the collapse of such a stretch. */
  lemma {:induction false} TermStands(lengths: seq<nat>, text: string, start: nat, i: nat, k: nat, t: string)
    returns (b: nat, e: nat)
    requires |lengths| == |text| && Fitting(lengths) && Whole(lengths, start, i) && IsTerm(lengths, text, start, i, k, t)
    ensures Stands(lengths, start, b, e) && Collapse(text[b..e]) == t
    decreases |text| - i
  {
    LaterTerms(lengths, text, start, i, k, t);
    if i < |text| && lengths[i] == 0 {
      WholeMore(lengths, start, i);
      b, e := TermStands(lengths, text, start, i + 1, k, t);
    } else if k == 0 {
      b, e := start, i;
      FirstTerm(lengths, text, start, i);
    } else {
      b, e := TermStands(lengths, text, i + lengths[i], i + lengths[i], k - 1, t);
      StandsBefore(lengths, start, i, b, e);
    }
  }

  lemma StandsBefore(lengths: seq<nat>, start: nat, i: nat, b: nat, e: nat)
    requires start <= i < |lengths| && lengths[i] > 0 && Stands(lengths, i + lengths[i], b, e)
    ensures Stands(lengths, start, b, e)
  {
    if b == i + lengths[i] {
      assert EndsFrom(lengths, start, b);
    } else {
      var m :| i + lengths[i] <= m < |lengths| && lengths[m] > 0 && m + lengths[m] == b;
      assert EndsFrom(lengths, start, b);
    }
  }

  /** Such a stretch, among separators that stand apart, is a term. */
  lemma {:induction false} TermFound(lengths: seq<nat>, text: string, start: nat, i: nat, b: nat, e: nat) returns (k: nat)
    requires |lengths| == |text| && Fitting(lengths) && Apart(lengths) && Whole(lengths, start, i)
    requires Stands(lengths, start, b, e)
    ensures k < |TermsFrom(lengths, text, start, i)| && TermsFrom(lengths, text, start, i)[k] == Collapse(text[b..e])
    decreases |text| - i
  {
    if i == |text| {
      k := 0;
      StandsWhole(lengths, start, b, e);
      FirstTerm(lengths, text, start, i);
    } else if lengths[i] == 0 {
      WholeMore(lengths, start, i);
      k := TermFound(lengths, text, start, i + 1, b, e);
    } else if b == start {
      k := 0;
      StandsFirst(lengths, start, i, b, e);
      FirstTerm(lengths, text, start, i);
    } else {
      StandsAfter(lengths, start, i, b, e);
      k := TermFound(lengths, text, i + lengths[i], i + lengths[i], b, e);
      k := k + 1;
    }
  }

  lemma WholeMore(lengths: seq<nat>, start: nat, i: nat)
    requires Whole(lengths, start, i) && i < |lengths| && lengths[i] == 0
    ensures Whole(lengths, start, i + 1)
  {
  }

  /** Where nothing separates to the end, there is one stretch. */
  lemma StandsWhole(lengths: seq<nat>, start: nat, b: nat, e: nat)
    requires Whole(lengths, start, |lengths|) && Stands(lengths, start, b, e)
    ensures b == start && e == |lengths|
  {
  }

  /** The first stretch ends at the first separator. */
  lemma StandsFirst(lengths: seq<nat>, start: nat, i: nat, b: nat, e: nat)
    requires Whole(lengths, start, i) && i < |lengths| && lengths[i] > 0 && Stands(lengths, start, b, e) && b == start
    ensures e == i
  {
  }

  lemma FirstStands(lengths: seq<nat>, start: nat, i: nat)
    requires Whole(lengths, start, i) && (i == |lengths| || lengths[i] > 0)
    ensures Stands(lengths, start, start, i)
  {
  }

  lemma StandsAfter(lengths: seq<nat>, start: nat, i: nat, b: nat, e: nat)
    requires Fitting(lengths) && Apart(lengths) && Whole(lengths, start, i) && i < |lengths| && lengths[i] > 0
    requires Stands(lengths, start, b, e) && b != start
    ensures Stands(lengths, i + lengths[i], b, e)
  {
    var m :| start <= m < |lengths| && lengths[m] > 0 && m + lengths[m] == b;
    assert ApartAt(lengths, i);
    if m > i {
      assert EndsFrom(lengths, i + lengths[i], b);
    }
  }

  // ---------- the clauses of a text ----------

  lemma JointAt(lex: Lexicon, alnum: char -> bool, symbols: bool, text: string, i: nat)
    requires i <= |text|
    ensures JointLength(lex, alnum, symbols, text, i) > 0 <==> JointStarts(lex, alnum, symbols, text, i)
    ensures forall n :: Joint(lex, alnum, symbols, text, i, n) <==> n > 0 && n == JointLength(lex, alnum, symbols, text, i)
  {
    if Joint(lex, alnum, symbols, text, i, 3) {
      AndLetters(lex, alnum, text, i);
    }
  }

  lemma JointBefore(lex: Lexicon, alnum: char -> bool, symbols: bool, text: string, b: nat)
    requires b <= |text|
    ensures EndsFrom(Joints(lex, alnum, symbols, text), 0, b) <==> JointEnds(lex, alnum, symbols, text, b)
  {
    var lengths := Joints(lex, alnum, symbols, text);
    if EndsFrom(lengths, 0, b) {
      var m :| 0 <= m < |lengths| && lengths[m] > 0 && m + lengths[m] == b;
      JointAt(lex, alnum, symbols, text, m);
    }
    if b >= 3 && Joint(lex, alnum, symbols, text, b - 3, 3) {
      JointAt(lex, alnum, symbols, text, b - 3);
      assert lengths[b - 3] == 3;
    } else if b >= 2 && Joint(lex, alnum, symbols, text, b - 2, 2) {
      JointAt(lex, alnum, symbols, text, b - 2);
      assert lengths[b - 2] == 2;
    }
  }

  lemma BetweenStands(lex: Lexicon, alnum: char -> bool, symbols: bool, text: string, b: nat, e: nat)
    ensures Stands(Joints(lex, alnum, symbols, text), 0, b, e) <==> Between(lex, alnum, symbols, text, b, e)
  {
    if b <= e <= |text| {
      JointBefore(lex, alnum, symbols, text, b);
      JointAt(lex, alnum, symbols, text, e);
      forall i | b <= i < e
        ensures Joints(lex, alnum, symbols, text)[i] == 0 <==> !JointStarts(lex, alnum, symbols, text, i)
      {
        JointAt(lex, alnum, symbols, text, i);
      }
    }
  }

  /** A string is the collapse of a clause of the text. */
  ghost predicate Clause(lex: Lexicon, alnum: char -> bool, symbols: bool, text: string, t: string) {
    exists b: nat, e: nat :: Between(lex, alnum, symbols, text, b, e) && Collapse(text[b..e]) == t
  }

  lemma TermIsClause(lex: Lexicon, alnum: char -> bool, symbols: bool, text: string, k: nat)
    requires k < |TermsFrom(Joints(lex, alnum, symbols, text), text, 0, 0)|
    ensures Clause(lex, alnum, symbols, text, TermsFrom(Joints(lex, alnum, symbols, text), text, 0, 0)[k])
  {
    var lengths := Joints(lex, alnum, symbols, text);
    var b, e := TermStands(lengths, text, 0, 0, k, TermsFrom(lengths, text, 0, 0)[k]);
    BetweenStands(lex, alnum, symbols, text, b, e);
  }

  lemma ClauseIsTerm(lex: Lexicon, alnum: char -> bool, symbols: bool, text: string, b: nat, e: nat)
    requires Between(lex, alnum, symbols, text, b, e)
    ensures Collapse(text[b..e]) in TermsFrom(Joints(lex, alnum, symbols, text), text, 0, 0)
  {
    BetweenStands(lex, alnum, symbols, text, b, e);
    JointsApart(lex, alnum, symbols, text);
    var k := TermFound(Joints(lex, alnum, symbols, text), text, 0, 0, b, e);
  }

  /** The terms of the guard are the collapsed clauses of the text, those between its joints in the open. */
  lemma TermsAreClauses(lex: Lexicon, alnum: char -> bool, symbols: bool, text: string, t: string)
    requires Run(lex, TOP, text).Some?
    ensures |MaskFrom(lex, TOP, text)| == |text|
    ensures t in Terms(alnum, symbols, text, MaskFrom(lex, TOP, text)) <==> Clause(lex, alnum, symbols, text, t)
  {
    TermsAreJoined(lex, alnum, symbols, text, MaskFrom(lex, TOP, text), 0, 0);
    var terms := TermsFrom(Joints(lex, alnum, symbols, text), text, 0, 0);
    if t in terms {
      var k :| 0 <= k < |terms| && terms[k] == t;
      TermIsClause(lex, alnum, symbols, text, k);
    }
    if Clause(lex, alnum, symbols, text, t) {
      var b: nat, e: nat :| Between(lex, alnum, symbols, text, b, e) && Collapse(text[b..e]) == t;
      ClauseIsTerm(lex, alnum, symbols, text, b, e);
    }
  }

  /** The splitting of a masked text into terms: of the mask of the text, they are its clauses. */
  method SplitTerms(alnum: char -> bool, symbols: bool, text: string, masked: string, ghost lex: Lexicon)
    returns (terms: seq<string>)
    requires |masked| == |text|
    ensures terms == Terms(alnum, symbols, text, masked)
    ensures Run(lex, TOP, text).Some? && masked == MaskFrom(lex, TOP, text) ==>
              forall t :: t in terms <==> Clause(lex, alnum, symbols, text, t)
  {
    terms := SplitAt(Separators(alnum, symbols, masked), text);
    if Run(lex, TOP, text).Some? && masked == MaskFrom(lex, TOP, text) {
      forall t
        ensures t in terms <==> Clause(lex, alnum, symbols, text, t)
      {
        TermsAreClauses(lex, alnum, symbols, text, t);
      }
    }
  }
}
