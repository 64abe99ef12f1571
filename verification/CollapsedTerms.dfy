/** What a collapsed term says about the text it was collapsed from. */
module CollapsedTerms {
  import opened Chars
  import opened Mask
  import opened WindowGuard

  lemma {:induction false} SqueezeWord(raw: string, w: string, rest: string) returns (after: string)
    requires Squeeze(raw) == w + rest && NoSpace(w)
    ensures raw == w + after && Squeeze(after) == rest
  {
    if w == "" {
      after := raw;
      assert w + rest == rest;
    } else {
      assert Squeeze(raw)[0] == w[0];
      assert Squeeze(raw[1..]) == (w + rest)[1..] == w[1..] + rest;
      after := SqueezeWord(raw[1..], w[1..], rest);
    }
  }

  lemma {:induction false} SqueezeSpaces(raw: string, spaces: string, rest: string) returns (s: string, after: string)
    requires Squeeze(raw) == spaces + rest && AllSpace(spaces)
    ensures raw == s + after && AllSpace(s) && Squeeze(after) == rest
    ensures spaces != "" ==> s != ""
    decreases |spaces|
  {
    if spaces == "" {
      s, after := "", raw;
      assert spaces + rest == rest;
    } else {
      assert Squeeze(raw)[0] == spaces[0];
      var next := SkipSpaces(raw);
      var read := raw[..|raw| - |next|];
      assert Squeeze(next) == Squeeze(raw)[1..] == spaces[1..] + rest;
      var t, a := SqueezeSpaces(next, spaces[1..], rest);
      s, after := read + t, a;
    }
  }

  lemma {:induction false} StripParts(text: string) returns (before: string, after: string)
    ensures text == before + Strip(text) + after && AllSpace(before) && AllSpace(after)
    decreases |text|
  {
    before, after := "", "";
    if text != "" {
      if IsSpace(text[0]) {
        var b, a := StripParts(text[1..]);
        before, after := [text[0]] + b, a;
      } else if IsSpace(text[|text| - 1]) {
        var b, a := StripParts(text[..|text| - 1]);
        before, after := b, a + [text[|text| - 1]];
      }
    }
  }

  lemma SqueezedSpaces(raw: string)
    requires AllSpace(Squeeze(raw))
    ensures AllSpace(raw)
  {
    assert Squeeze(raw) + "" == Squeeze(raw);
    var s, after := SqueezeSpaces(raw, Squeeze(raw), "");
    assert after == "";
  }

  lemma Regroup(before: string, u: string, v: string, w: string, after: string)
    ensures before + (u + " " + v + " " + w) + after == before + (u + (" " + (v + (" " + (w + after)))))
  {
  }

  /** A text that collapses to three words is these words, with spaces around and between them. */
  lemma ThreeWords(raw: string, u: string, v: string, w: string)
    returns (s0: string, s1: string, s2: string, s3: string)
    requires Collapse(raw) == u + " " + v + " " + w && NoSpace(u) && NoSpace(v) && NoSpace(w)
    ensures raw == s0 + (u + (s1 + (v + (s2 + (w + s3)))))
    ensures AllSpace(s0) && AllSpace(s1) && AllSpace(s2) && AllSpace(s3) && s1 != "" && s2 != ""
  {
    var before, after := StripParts(Squeeze(raw));
    Regroup(before, u, v, w, after);
    s0, s1, s2, s3 := SqueezedWords(raw, before, u, v, w, after);
  }

  lemma SqueezedWords(raw: string, before: string, u: string, v: string, w: string, after: string)
    returns (s0: string, s1: string, s2: string, s3: string)
    requires Squeeze(raw) == before + (u + (" " + (v + (" " + (w + after)))))
    requires NoSpace(u) && NoSpace(v) && NoSpace(w) && AllSpace(before) && AllSpace(after)
    ensures raw == s0 + (u + (s1 + (v + (s2 + (w + s3)))))
    ensures AllSpace(s0) && AllSpace(s1) && AllSpace(s2) && AllSpace(s3) && s1 != "" && s2 != ""
  {
    var r0, r2: string;
    s0, r0 := SqueezeSpaces(raw, before, u + (" " + (v + (" " + (w + after)))));
    s1, r2 := SqueezeGap(r0, u, v + (" " + (w + after)));
    var r4: string;
    s2, r4 := SqueezeGap(r2, v, w + after);
    s3 := SqueezeWord(r4, w, after);
    SqueezedSpaces(s3);
  }

  lemma SqueezeGap(raw: string, w: string, rest: string) returns (s: string, after: string)
    requires Squeeze(raw) == w + (" " + rest) && NoSpace(w)
    ensures raw == w + (s + after) && AllSpace(s) && s != "" && Squeeze(after) == rest
  {
    var r := SqueezeWord(raw, w, " " + rest);
    s, after := SqueezeSpaces(r, " ", rest);
  }

  // ---------- words collapse to a term ----------

  lemma {:induction false} SqueezeKeeps(w: string, rest: string)
    requires NoSpace(w)
    ensures Squeeze(w + rest) == w + Squeeze(rest)
  {
    if w == "" {
      assert w + rest == rest && w + Squeeze(rest) == Squeeze(rest);
    } else {
      assert (w + rest)[0] == w[0] && (w + rest)[1..] == w[1..] + rest;
      SqueezeKeeps(w[1..], rest);
      assert [w[0]] + (w[1..] + Squeeze(rest)) == w + Squeeze(rest);
    }
  }

  lemma {:induction false} SkipAll(s: string, rest: string)
    requires AllSpace(s) && (rest == "" || !IsSpace(rest[0]))
    ensures SkipSpaces(s + rest) == rest
  {
    if s == "" {
      assert s + rest == rest;
    } else {
      assert (s + rest)[0] == s[0] && (s + rest)[1..] == s[1..] + rest;
      SkipAll(s[1..], rest);
    }
  }

  /** Blanks before something else are one blank, or none. */
  lemma SqueezeBlanks(s: string, rest: string)
    requires AllSpace(s) && (rest == "" || !IsSpace(rest[0]))
    ensures Squeeze(s + rest) == (if s == "" then "" else " ") + Squeeze(rest)
  {
    if s == "" {
      assert s + rest == rest && "" + Squeeze(rest) == Squeeze(rest);
    } else {
      SkipAll(s, rest);
      assert (s + rest)[0] == s[0];
    }
  }

  lemma StripTo(before: string, t: string, after: string)
    requires (before == "" || before == " ") && (after == "" || after == " ")
    requires t != "" && !IsSpace(t[0]) && !IsSpace(t[|t| - 1])
    ensures Strip(before + (t + after)) == t
  {
    var inner := t + after;
    assert inner[0] == t[0];
    assert after == " " ==> inner[..|inner| - 1] == t && inner[|inner| - 1] == ' ';
    assert after == "" ==> inner == t;
    assert Strip(inner) == t;
    assert before == " " ==> (before + inner)[0] == ' ' && (before + inner)[1..] == inner;
    assert before == "" ==> before + inner == inner;
  }

  lemma Gathered(s0: string, u: string, v: string, w: string, s3: string)
    ensures s0 + (u + (" " + (v + (" " + (w + s3))))) == s0 + ((u + " " + v + " " + w) + s3)
  {
  }

  /** Three words collapse to themselves with one blank between them, whatever the blanks. */
  lemma WordsCollapse(s0: string, u: string, s1: string, v: string, s2: string, w: string, s3: string)
    requires u != "" && v != "" && w != "" && NoSpace(u) && NoSpace(v) && NoSpace(w)
    requires AllSpace(s0) && AllSpace(s1) && AllSpace(s2) && AllSpace(s3) && s1 != "" && s2 != ""
    ensures Collapse(s0 + (u + (s1 + (v + (s2 + (w + s3)))))) == u + " " + v + " " + w
  {
    var before, after := if s0 == "" then "" else " ", if s3 == "" then "" else " ";
    SqueezeBlanks(s3, "");
    assert s3 + "" == s3 && after + Squeeze("") == after;
    SqueezeKeeps(w, s3);
    SqueezeBlanks(s2, w + s3);
    SqueezeKeeps(v, s2 + (w + s3));
    SqueezeBlanks(s1, v + (s2 + (w + s3)));
    SqueezeKeeps(u, s1 + (v + (s2 + (w + s3))));
    SqueezeBlanks(s0, u + (s1 + (v + (s2 + (w + s3)))));
    Gathered(before, u, v, w, after);
    StripTo(before, u + " " + v + " " + w, after);
  }

  // ---------- where a term stands ----------

  /** The text up to the first separator is the first term, and the others are those of what follows it. */
  lemma {:induction false} TermsFirst(lengths: seq<nat>, text: string, start: nat, i: nat, p: nat)
    requires |lengths| == |text| && Fitting(lengths) && start <= i <= p < |text| && lengths[p] > 0
    requires forall j :: i <= j < p ==> lengths[j] == 0
    ensures TermsFrom(lengths, text, start, i)
            == [Collapse(text[start..p])] + TermsFrom(lengths, text, p + lengths[p], p + lengths[p])
    decreases p - i
  {
    TermsStep(lengths, text, start, i);
    if i < p {
      TermsFirst(lengths, text, start, i + 1, p);
    }
  }

  lemma TermsStep(lengths: seq<nat>, text: string, start: nat, i: nat)
    requires |lengths| == |text| && Fitting(lengths) && start <= i < |text|
    ensures TermsFrom(lengths, text, start, i)
            == if lengths[i] > 0
               then [Collapse(text[start..i])] + TermsFrom(lengths, text, i + lengths[i], i + lengths[i])
               else TermsFrom(lengths, text, start, i + 1)
  {
  }

  predicate SeparatorEnds(lengths: seq<nat>, b: nat) {
    exists m :: 0 <= m < |lengths| && b == m + lengths[m] && lengths[m] > 0
  }

  predicate SeparatorStarts(lengths: seq<nat>, e: nat) {
    e < |lengths| && lengths[e] > 0
  }

  /** A term stands between two separators, or an end of the text. */
  lemma {:induction false} TermPlace(lengths: seq<nat>, text: string, start: nat, i: nat, k: nat) returns (b: nat, e: nat)
    requires |lengths| == |text| && Fitting(lengths) && start <= i <= |text|
    requires k < |TermsFrom(lengths, text, start, i)|
    ensures start <= b <= e <= |text|
    ensures Collapse(text[b..e]) == TermsFrom(lengths, text, start, i)[k]
    ensures b == start || SeparatorEnds(lengths, b)
    ensures e == |text| || SeparatorStarts(lengths, e)
    decreases |text| - i
  {
    if i == |text| {
      b, e := start, |text|;
      assert text[b..e] == text[start..];
    } else if lengths[i] > 0 {
      if k == 0 {
        b, e := start, i;
      } else {
        b, e := TermPlace(lengths, text, i + lengths[i], i + lengths[i], k - 1);
        assert SeparatorEnds(lengths, i + lengths[i]);
      }
    } else {
      b, e := TermPlace(lengths, text, start, i + 1, k);
    }
  }
}
