/** A query of Jira with a top-level `or` comes from a template in which the guard sees it. */
module JqlTop {
  import opened Chars
  import opened Wrappers
  import opened Mask
  import opened WindowGuard
  import opened Template
  import opened JqlQuery
  import opened JqlText
  import opened JqlFill

  /** No `or` among the tokens at depth 0, counted from `depth`. */
  predicate NoTop(tokens: seq<Token>, depth: int) {
    tokens == []
    || ((tokens[0] == Disjoin ==> depth > 0) && NoTop(tokens[1..], depth + TokenDepth(tokens[0])))
  }

  lemma {:induction false} NoTopConcat(a: seq<Token>, b: seq<Token>, depth: int)
    requires NoTop(a, depth) && NoTop(b, depth + Depth(a))
    ensures NoTop(a + b, depth)
  {
    if a == [] {
      assert a + b == b;
    } else {
      assert (a + b)[1..] == a[1..] + b;
      NoTopConcat(a[1..], b, depth + TokenDepth(a[0]));
    }
  }

  lemma {:induction false} NoTopFree(a: seq<Token>, depth: int)
    requires Disjoin !in a
    ensures NoTop(a, depth)
  {
    if a != [] {
      assert forall t :: t in a[1..] ==> t in a;
      NoTopFree(a[1..], depth + TokenDepth(a[0]));
    }
  }

  lemma {:induction false} NoTopAt(a: seq<Token>, depth: int, i: nat)
    requires NoTop(a, depth) && i < |a| && a[i] == Disjoin
    ensures depth + Depth(a[..i]) > 0
  {
    if i > 0 {
      NoTopAt(a[1..], depth + TokenDepth(a[0]), i - 1);
      assert a[..i][1..] == a[1..][..i - 1];
    } else {
      assert a[..0] == [];
    }
  }

  // ---------- what the guard sees ----------

  predicate OrHere(alnum: char -> bool, s: string) {
    |s| >= 2 && SameFold(s[..2], "or") && (|s| > 2 ==> !IsWord(alnum, s[2]))
  }

  /** No `|` is in it. */
  predicate BarFree(s: string) {
    forall i :: 0 <= i < |s| ==> s[i] != '|'
  }

  /** From here on the guard sees no `or` in the open; `joined` when a word character in the open is just before. */
  predicate Unseen(alnum: char -> bool, joined: bool, at: Place, s: string)
    decreases |s|
  {
    s == ""
    || (!(at.Top() && ((!joined && OrHere(alnum, s)) || s[0] == '|'))
        && (Advance(JQL, at, s[0]).Some? ==>
              Unseen(alnum, at.Top() && IsWord(alnum, s[0]), Advance(JQL, at, s[0]).value, s[1..])))
  }

  lemma {:induction false} UnseenLater(
      alnum: char -> bool, joined: bool, at: Place, s: string, n: nat, next: Place)
    returns (later: bool)
    requires Unseen(alnum, joined, at, s) && 0 < n <= |s| && Run(JQL, at, s[..n]) == Some(next)
    ensures Unseen(alnum, later, next, s[n..]) && (later ==> IsWord(alnum, s[n - 1]))
    decreases |s|
  {
    assert s[..n][1..] == s[1..][..n - 1] && s[1..][n - 1..] == s[n..];
    if n == 1 {
      later := at.Top() && IsWord(alnum, s[0]);
    } else {
      later := UnseenLater(
        alnum, at.Top() && IsWord(alnum, s[0]), Advance(JQL, at, s[0]).value, s[1..], n - 1, next);
    }
  }

  /** What the masked text shows at `m`. */
  lemma Shown(text: string, m: nat)
    requires Run(JQL, TOP, text).Some? && m < |text| && Run(JQL, TOP, text[..m]).Some?
    ensures MaskFrom(JQL, TOP, text)[m] == MaskChar(JQL, Run(JQL, TOP, text[..m]).value, text[m])
  {
    MaskedAt(JQL, TOP, text, m);
  }

  lemma NextPlace(text: string, m: nat)
    requires m < |text| && Run(JQL, TOP, text).Some? && Run(JQL, TOP, text[..m]).Some?
    ensures Run(JQL, TOP, text[..m + 1]) == Advance(JQL, Run(JQL, TOP, text[..m]).value, text[m])
    ensures Run(JQL, TOP, text[..m + 1]).Some?
  {
    assert text[..m + 1] == text[..m] + [text[m]];
    RunConcat(JQL, TOP, text[..m], [text[m]]);
    assert text == text[..m + 1] + text[m + 1..];
    RunConcat(JQL, TOP, text[..m + 1], text[m + 1..]);
    assert [text[m]][1..] == "";
  }

  /** A plain character at the top leaves the scanner at the top. */
  lemma TopStays(text: string, m: nat)
    requires m < |text| && Run(JQL, TOP, text).Some? && Run(JQL, TOP, text[..m]).Some?
    requires Run(JQL, TOP, text[..m]).value.Top() && Plain(JQL, text[m])
    ensures Run(JQL, TOP, text[..m + 1]).Some? && Run(JQL, TOP, text[..m + 1]).value.Top()
    ensures MaskFrom(JQL, TOP, text)[m] == text[m]
  {
    NextPlace(text, m);
    Shown(text, m);
  }

  lemma OrShows(alnum: char -> bool, text: string, m: nat, joined: bool)
    requires Run(JQL, TOP, text).Some? && m < |text| && Run(JQL, TOP, text[..m]).Some?
    requires Run(JQL, TOP, text[..m]).value.Top() && !joined && OrHere(alnum, text[m..])
    requires m > 0 && IsWord(alnum, MaskFrom(JQL, TOP, text)[m - 1]) ==> joined
    ensures HasKeyword(alnum, MaskFrom(JQL, TOP, text), "or")
  {
    var masked := MaskFrom(JQL, TOP, text);
    var w := text[m..][..2];
    assert Lower(w[0]) == 'o' && Lower(w[1]) == 'r' && text[m] == w[0] && text[m + 1] == w[1];
    TopStays(text, m);
    TopStays(text, m + 1);
    if m + 2 < |text| {
      Shown(text, m + 2);
      assert text[m..][2] == text[m + 2];
    }
    assert masked[m..m + 2] == w;
    assert KeywordAt(alnum, masked, m, "or");
  }

  /** A template in which the guard sees no `or` has none in the open from any place on. */
  lemma {:induction false} NothingSeen(alnum: char -> bool, text: string, m: nat, joined: bool)
    requires Run(JQL, TOP, text).Some? && m <= |text| && Run(JQL, TOP, text[..m]).Some?
    requires !HasKeyword(alnum, MaskFrom(JQL, TOP, text), "or") && BarFree(MaskFrom(JQL, TOP, text))
    requires m > 0 && IsWord(alnum, MaskFrom(JQL, TOP, text)[m - 1]) ==> joined
    ensures Unseen(alnum, joined, Run(JQL, TOP, text[..m]).value, text[m..])
    decreases |text| - m
  {
    if m < |text| {
      var at := Run(JQL, TOP, text[..m]).value;
      assert text[m..][1..] == text[m + 1..] && text[m..][0] == text[m];
      NextPlace(text, m);
      Shown(text, m);
      if at.Top() && !joined && OrHere(alnum, text[m..]) {
        OrShows(alnum, text, m, joined);
      }
      NothingSeen(alnum, text, m + 1, at.Top() && IsWord(alnum, text[m]));
    }
  }

  // ---------- one piece of the template ----------

  /** A place of the template where a token may start, and what the rest is filled to. */
  ghost predicate Reads(
    alnum: char -> bool, joined: bool, depth: nat, rest: string, values: Values, filled: string)
  {
    && Run(JQL, At(depth), rest).Some? && Unseen(alnum, joined, At(depth), rest) && BracesUnescaped(At(depth), rest)
    && (joined && rest != "" ==> Delimiter(rest[0])) && Format(rest, values) == Some(filled)
  }

  /** The first `n` characters of the template make the tokens `t`, and another token may start after them. */
  ghost predicate TextPiece(rest: string, values: Values, filled: string, n: nat, t: seq<Token>, after: string) {
    && 0 < n <= |rest| && (n == |rest| || Delimiter(rest[n - 1]) || Delimiter(rest[n]))
    && Format(rest[n..], values) == Some(after) && Lex(after).Some? && Lex(filled).Some?
    && Lex(filled).value == t + Lex(after).value
  }

  /** Over the first `n` characters the scanner moves as the depth of the tokens. */
  predicate ScanPiece(depth: nat, rest: string, n: nat, t: seq<Token>) {
    n <= |rest| && depth + Depth(t) >= 0 && Run(JQL, At(depth), rest[..n]) == Some(At(depth + Depth(t)))
  }

  lemma PlainPiece(depth: nat, rest: string, n: nat, t: seq<Token>)
    requires n <= |rest| && AllPlain(rest[..n]) && Depth(t) == 0
    ensures ScanPiece(depth, rest, n, t)
  {
    RunPlain(JQL, At(depth), rest[..n]);
  }

  lemma FillTokens(x: string, after: string)
    requires Fills(x) && Lex(x + after).Some?
    ensures Lex(after).Some? && Lex(x + after).value == Lex(x).value + Lex(after).value && Depth(Lex(x).value) == 0
  {
    assert Leaves(x, 0);
    LexSplit(x, after, 0);
    ScanTokens(x, 0);
  }

  lemma HoleToken(depth: nat, rest: string, values: Values, filled: string)
    returns (n: nat, t: seq<Token>, after: string)
    requires Format(rest, values) == Some(filled) && AllFill(values) && Lex(filled).Some?
    requires rest != "" && Braces(rest[0])
    ensures TextPiece(rest, values, filled, n, t, after) && ScanPiece(depth, rest, n, t) && Disjoin !in t
  {
    var x;
    n, x, after := HoleText(rest, values, filled);
    FillTokens(x, after);
    t := Lex(x).value;
    PlainPiece(depth, rest, n, t);
  }

  lemma HoleText(rest: string, values: Values, filled: string) returns (n: nat, x: string, after: string)
    requires Format(rest, values) == Some(filled) && AllFill(values) && Lex(filled).Some?
    requires rest != "" && Braces(rest[0])
    ensures 1 < n <= |rest| && Delimiter(rest[n - 1]) && AllPlain(rest[..n]) && Format(rest[n..], values) == Some(after)
    ensures Fills(x) && filled == x + after
  {
    FirstChar(rest, values);
    var t, k := LexUnfold(NextToken, filled);
    n, x, after := HolePiece(rest, values, filled);
  }

  lemma StringText(depth: nat, rest: string, values: Values, filled: string)
    returns (n: nat, t: seq<Token>, after: string)
    requires Format(rest, values) == Some(filled) && AllFill(values) && Lex(filled).Some?
    requires rest != "" && Mark(rest[0]) && BracesUnescaped(At(depth), rest)
    ensures TextPiece(rest, values, filled, n, t, after) && Loose(t)
    ensures n <= |rest| && Run(JQL, At(depth), rest[..n]) == Some(At(depth))
  {
    n, t, after := StringPiece(rest, values, filled, depth);
  }

  lemma StringToken(depth: nat, rest: string, values: Values, filled: string)
    returns (n: nat, t: seq<Token>, after: string)
    requires Format(rest, values) == Some(filled) && AllFill(values) && Lex(filled).Some?
    requires rest != "" && Mark(rest[0]) && BracesUnescaped(At(depth), rest)
    ensures TextPiece(rest, values, filled, n, t, after) && ScanPiece(depth, rest, n, t) && Disjoin !in t
  {
    n, t, after := StringText(depth, rest, values, filled);
    LooseFlat(t);
  }

  lemma {:induction false} LooseFlat(t: seq<Token>)
    requires Loose(t)
    ensures Depth(t) == 0 && Disjoin !in t
  {
    if t != [] {
      LooseFlat(t[1..]);
    }
  }

  lemma LiteralToken(depth: nat, rest: string, values: Values, filled: string)
    returns (n: nat, t: seq<Token>, after: string)
    requires Format(rest, values) == Some(filled) && AllFill(values) && Lex(filled).Some?
    requires rest != "" && !Braces(rest[0]) && !Mark(rest[0]) && Run(JQL, At(depth), rest).Some?
    ensures TextPiece(rest, values, filled, n, t, after) && ScanPiece(depth, rest, n, t)
    ensures NextToken(rest) == Some((t, n))
  {
    n, t, after := LiteralText(rest, values, filled);
    ScanToken(rest, depth);
    TokenRun(rest, depth, t, n);
    TokenEnds(rest, t, n);
  }

  lemma LiteralText(rest: string, values: Values, filled: string) returns (n: nat, t: seq<Token>, after: string)
    requires Format(rest, values) == Some(filled) && AllFill(values) && Lex(filled).Some?
    requires rest != "" && !Braces(rest[0]) && !Mark(rest[0])
    ensures NextToken(rest) == Some((t, n)) && Format(rest[n..], values) == Some(after)
    ensures Lex(after).Some? && Lex(filled).value == t + Lex(after).value
  {
    FirstChar(rest, values);
    t, n := LexUnfold(NextToken, filled);
    var k := LiteralPiece(rest, values, filled);
    after := filled[n..];
  }

  lemma TokenRun(s: string, depth: nat, t: seq<Token>, n: nat)
    requires s != "" && NextToken(s) == Some((t, n)) && !Mark(s[0]) && depth + Depth(t) >= 0
    ensures Run(JQL, At(depth), s[..n]) == Some(At(depth + Depth(t)))
  {
    if t != [] {
      DepthOne(t[0]);
    }
    if Bracket(s[0]) || IsSpace(s[0]) {
      assert s[..1] == [s[0]];
      AdvanceOne(At(depth), s[0]);
    } else {
      assert Symbol(s[0]) && n == 2 ==> Continues(s[1]);
      RunPlain(JQL, At(depth), s[..n]);
    }
  }

  lemma TokenEnds(s: string, t: seq<Token>, n: nat)
    requires s != "" && NextToken(s) == Some((t, n)) && !Mark(s[0])
    ensures n == |s| || Delimiter(s[n - 1]) || Delimiter(s[n])
  {
    assert Symbol(s[0]) && n == 2 ==> Continues(s[1]);
  }

  lemma OrSpelling(w: string)
    requires Classify(w) == Disjoin
    ensures SameFold(w, "or") && |w| == 2
  {
    assert KEYWORDS[0] == "or";
    NotLater(w, 1);
  }

  /** Past the first keyword there is no `or`. */
  lemma {:induction false} NotLater(w: string, k: nat)
    requires 1 <= k <= 17
    ensures ClassifyFrom(w, k) != Disjoin
    decreases 17 - k
  {
    if k < 17 {
      NotLater(w, k + 1);
    }
  }

  lemma DelimiterNoWord(alnum: char -> bool, c: char)
    requires Delimiter(c)
    ensures !IsWord(alnum, c)
  {
  }

  /** An `or` token is an `or` word or starts with a bar. */
  lemma DisjoinShows(alnum: char -> bool, rest: string, t: seq<Token>, n: nat)
    requires rest != "" && NextToken(rest) == Some((t, n)) && !Mark(rest[0]) && Disjoin in t
    ensures rest[0] == '|' || (!Delimiter(rest[0]) && OrHere(alnum, rest))
  {
    if !Symbol(rest[0]) {
      OrSpelling(rest[..n]);
      if n < |rest| {
        DelimiterNoWord(alnum, rest[n]);
      }
    }
  }

  /** An `or` token in the open would be seen. */
  lemma LiteralUnseen(alnum: char -> bool, joined: bool, depth: nat, rest: string, t: seq<Token>, n: nat)
    requires Unseen(alnum, joined, At(depth), rest) && rest != "" && (joined ==> Delimiter(rest[0]))
    requires NextToken(rest) == Some((t, n)) && !Mark(rest[0])
    ensures NoTop(t, depth)
  {
    if Disjoin in t {
      DisjoinShows(alnum, rest, t, n);
    } else {
      NoTopFree(t, depth);
    }
  }

  /** One token on: the rest can be read, and the token is no top-level `or`. */
  lemma Peel(alnum: char -> bool, joined: bool, depth: nat, rest: string, values: Values, filled: string)
    returns (later: bool, n: nat, t: seq<Token>, after: string)
    requires Reads(alnum, joined, depth, rest, values, filled) && AllFill(values) && Lex(filled).Some? && rest != ""
    ensures TextPiece(rest, values, filled, n, t, after) && ScanPiece(depth, rest, n, t) && NoTop(t, depth)
    ensures Reads(alnum, later, depth + Depth(t), rest[n..], values, after)
  {
    if Braces(rest[0]) {
      n, t, after := HoleToken(depth, rest, values, filled);
      NoTopFree(t, depth);
    } else if Mark(rest[0]) {
      n, t, after := StringToken(depth, rest, values, filled);
      NoTopFree(t, depth);
    } else {
      n, t, after := LiteralToken(depth, rest, values, filled);
      LiteralUnseen(alnum, joined, depth, rest, t, n);
    }
    later := ReadsOn(alnum, joined, depth, rest, values, filled, n, t, after);
  }

  lemma ReadsOn(
      alnum: char -> bool, joined: bool, depth: nat, rest: string, values: Values, filled: string, n: nat,
      t: seq<Token>, after: string)
    returns (later: bool)
    requires Reads(alnum, joined, depth, rest, values, filled)
    requires TextPiece(rest, values, filled, n, t, after) && ScanPiece(depth, rest, n, t)
    ensures Reads(alnum, later, depth + Depth(t), rest[n..], values, after)
  {
    var next := At(depth + Depth(t));
    assert rest == rest[..n] + rest[n..];
    RunConcat(JQL, At(depth), rest[..n], rest[n..]);
    later := UnseenLater(alnum, joined, At(depth), rest, n, next);
    BracesLater(At(depth), rest, n, next);
    if Delimiter(rest[n - 1]) {
      DelimiterNoWord(alnum, rest[n - 1]);
    }
  }

  // ---------- the whole template ----------

  lemma {:induction false} NoTopFrom(
      alnum: char -> bool, joined: bool, depth: nat, rest: string, values: Values, filled: string)
    requires Reads(alnum, joined, depth, rest, values, filled) && AllFill(values) && Lex(filled).Some?
    ensures NoTop(Lex(filled).value, depth)
    decreases |rest|
  {
    if rest != "" {
      var later, n, t, after := Peel(alnum, joined, depth, rest, values, filled);
      NoTopFrom(alnum, later, depth + Depth(t), rest[n..], values, after);
      NoTopConcat(t, Lex(after).value, depth);
    } else {
      assert filled == "";
    }
  }

  /** Where the guard sees no `or` and no bar in the template, no token of the query at depth 0 is an `or`. */
  lemma NoTopOr(alnum: char -> bool, text: string, values: Values, filled: string)
    requires Run(JQL, TOP, text).Some? && BracesUnescaped(TOP, text) && AllFill(values)
    requires !HasKeyword(alnum, MaskFrom(JQL, TOP, text), "or") && BarFree(MaskFrom(JQL, TOP, text))
    requires Format(text, values) == Some(filled) && Lex(filled).Some?
    ensures NoTop(Lex(filled).value, 0)
  {
    assert text[..0] == "" && text[0..] == text;
    NothingSeen(alnum, text, 0, false);
    NoTopFrom(alnum, false, 0, text, values, filled);
  }
}
