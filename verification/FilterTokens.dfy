/** Where a window term may stand among the tokens of a filter that parses. */
module FilterTokens {
  import opened Chars
  import opened ODataQuery

  lemma {:induction false} DepthConcat(a: seq<Token>, b: seq<Token>)
    ensures Depth(a + b) == Depth(a) + Depth(b)
  {
    if a == [] {
      assert a + b == b;
    } else {
      assert (a + b)[1..] == a[1..] + b;
      DepthConcat(a[1..], b);
    }
  }

  lemma BalancedConcat(a: seq<Token>, b: seq<Token>)
    requires Balanced(a) && Balanced(b)
    ensures Balanced(a + b)
  {
    DepthConcat(a, b);
    forall i | 0 <= i <= |a + b| ensures Depth((a + b)[..i]) >= 0 {
      if i <= |a| {
        assert (a + b)[..i] == a[..i];
      } else {
        assert (a + b)[..i] == a + b[..i - |a|];
        DepthConcat(a, b[..i - |a|]);
      }
    }
  }

  /** Inside parentheses, every place after the opening one is at depth 1 or more. */
  lemma Enclosed(inner: seq<Token>, i: nat)
    requires Balanced(inner)
    ensures var all := [Open] + inner + [Close];
            Balanced(all) && (0 < i < |all| ==> Depth(all[..i]) >= 1)
  {
    var all := [Open] + inner + [Close];
    DepthConcat([Open] + inner, [Close]);
    DepthConcat([Open], inner);
    forall k | 0 <= k <= |all|
      ensures Depth(all[..k]) >= 0 && (0 < k < |all| ==> Depth(all[..k]) >= 1)
    {
      if k == |all| {
        assert all[..k] == all;
      } else if k > 0 {
        assert all[..k] == [Open] + inner[..k - 1];
        DepthConcat([Open], inner[..k - 1]);
      }
    }
  }

  lemma BalancedOne(t: Token)
    requires t != Open && t != Close
    ensures Balanced([t])
  {
    assert [t][..0] == [] && [t][..1] == [t];
  }

  lemma CallBalanced(name: string, args: seq<Token>, i: nat)
    requires Balanced(args)
    ensures var all := [Word(name), Open] + args + [Close];
            Balanced(all) && (1 < i < |all| ==> Depth(all[..i]) >= 1)
  {
    var rest := [Open] + args + [Close];
    var all := [Word(name), Open] + args + [Close];
    Enclosed(args, if i > 0 then i - 1 else 0);
    BalancedOne(Word(name));
    assert all == [Word(name)] + rest;
    BalancedConcat([Word(name)], rest);
    if 1 < i < |all| {
      assert all[..i] == [Word(name)] + rest[..i - 1];
      DepthConcat([Word(name)], rest[..i - 1]);
    }
  }

  lemma {:induction false} OperandBalanced(x: Operand)
    requires x.Valid()
    ensures Balanced(x.Tokens()) && x.Tokens() != []
  {
    match x {
      case Typed(kind, content) =>
        BalancedOne(Word(kind)); BalancedOne(Text(content));
        BalancedConcat([Word(kind)], [Text(content)]);
        assert x.Tokens() == [Word(kind)] + [Text(content)];
      case Call(name, args) =>
        CallBalanced(name, args, 0);
      case Along(start, path) =>
        OperandBalanced(start); OperandBalanced(path);
        BalancedConcat(start.Tokens(), path.Tokens());
      case ListOf(items) =>
        Enclosed(items, 0);
      case Data(parts) =>
      case Minus(y) =>
        OperandBalanced(y); BalancedOne(Word("-"));
        BalancedConcat([Word("-")], y.Tokens());
      case Negated(y) =>
        OperandBalanced(y); BalancedOne(Negate);
        BalancedConcat([Negate], y.Tokens());
      case _ =>
        BalancedOne(x.Tokens()[0]);
    }
  }

  lemma {:induction false} LinksBalanced(links: seq<Link>)
    requires ValidLinks(links)
    ensures Balanced(LinkTokens(links))
  {
    if links != [] {
      OperandBalanced(links[0].operand);
      BalancedOne(links[0].op);
      LinksBalanced(links[1..]);
      BalancedConcat(links[0].operand.Tokens(), LinkTokens(links[1..]));
      BalancedConcat([links[0].op], links[0].operand.Tokens() + LinkTokens(links[1..]));
    }
  }

  lemma Levels(e: Expr)
    ensures Unary(e) ==> Conjunction(e)
    ensures Conjunction(e) ==> Disjunction(e)
    ensures Disjunction(e) && !e.Or? && !e.And? ==> Unary(e)
    ensures Disjunction(e) && e.And? ==> Unary(e.left) && Conjunction(e.right)
    ensures Disjunction(e) && e.Or? ==> Conjunction(e.left) && Disjunction(e.right)
  {
    match e {
      case Or(_, _) =>
        assert !Unary(e) && !Conjunction(e);
      case And(_, _) =>
        assert !Unary(e) && (Disjunction(e) <==> Conjunction(e));
      case _ =>
        assert (Disjunction(e) <==> Conjunction(e)) && (Conjunction(e) <==> Unary(e));
    }
  }

  lemma {:induction false} ExprBalanced(e: Expr)
    requires Disjunction(e)
    ensures Balanced(Tokens(e))
  {
    Levels(e);
    match e {
      case Or(l, r) =>
        Levels(l);
        ExprBalanced(l); ExprBalanced(r); BalancedOne(Disjoin);
        BalancedConcat(Tokens(l), [Disjoin]);
        BalancedConcat(Tokens(l) + [Disjoin], Tokens(r));
      case And(l, r) =>
        Levels(l); Levels(r);
        ExprBalanced(l); ExprBalanced(r); BalancedOne(Conjoin);
        BalancedConcat(Tokens(l), [Conjoin]);
        BalancedConcat(Tokens(l) + [Conjoin], Tokens(r));
      case Not(x) =>
        Levels(x);
        ExprBalanced(x); BalancedOne(Negate);
        BalancedConcat([Negate], Tokens(x));
      case Group(x) =>
        ExprBalanced(x);
        Enclosed(Tokens(x), 0);
      case Condition(first, links) =>
        OperandBalanced(first); LinksBalanced(links);
        BalancedConcat(first.Tokens(), LinkTokens(links));
    }
  }

  // ---------- the window term ----------

  predicate DateText(s: string) {
    s != "" && IsDigit(s[0]) && forall i :: 0 <= i < |s| ==> IsDigit(s[i]) || s[i] in "TZ:.+-"
  }

  /** The date as it stands in the filter, or with an `and` that no space parts from it. */
  predicate DateWord(word: string, date: string) {
    && StartsWith(word, date)
    && (|word| > |date| ==> |word| >= |date| + 2 && Lower(word[|date| + 1]) == 'n')
  }

  /** An `and`, or a longer word that ends like it. */
  predicate Joins(t: Token) {
    t == Conjoin || (t.Word? && |t.text| > 3)
  }

  /** What follows the date of the term: an `and`, or a longer word that starts like it. */
  predicate Goes(t: Token) {
    t == Conjoin || t.Word?
  }

  /**
   At `j`, at depth 0: the field, the operator, the date. The field is first, or after an `and` or another word that is
   no sign; the date is last, or before an `and` or another word.
   */
  predicate TermAt(tokens: seq<Token>, j: nat, field: string, op: Op, date: string) {
    && j + 2 < |tokens|
    && Depth(tokens[..j]) == 0
    && tokens[j] == Word(field) && tokens[j + 1] == Operator(op)
    && tokens[j + 2].Word? && DateWord(tokens[j + 2].text, date)
    && (j > 0 ==> Joins(tokens[j - 1]))
    && (tokens[j + 2].text == date && j + 3 < |tokens| ==> Goes(tokens[j + 3]))
  }

  lemma NoTermInGroup(x: Expr, rest: seq<Token>, j: nat, field: string, op: Op, date: string)
    requires Disjunction(x) && j < |Tokens(Group(x))|
    ensures !TermAt(Tokens(Group(x)) + rest, j, field, op, date)
  {
    var u := Tokens(Group(x));
    assert (u + rest)[..j] == u[..j] && (u + rest)[0] == Open;
    ExprBalanced(x);
    Enclosed(Tokens(x), j);
  }

  // ---------- operands ----------

  predicate StartsWithWord(x: Operand, w: string) {
    x.Tokens() != [] && x.Tokens()[0] == Word(w)
  }

  /** An operand that starts with a word of a letter or a digit is that word, or a string or a parenthesis follows it. */
  lemma FirstWord(x: Operand, w: string)
    requires x.Valid() && StartsWithWord(x, w) && w != "" && (IsLetter(w[0]) || IsDigit(w[0]))
    ensures x == Spelled(w)
            || (|x.Tokens()| > 1 && (x.Tokens()[1] == Open || x.Tokens()[1].Text?) && !IsDigit(w[0]))
  {
  }

  lemma LastIsClose(x: Operand)
    requires x.Call?
    ensures x.Tokens() != [] && x.Tokens()[|x.Tokens()| - 1] == Close
  {
  }

  /** Past its first token, the field of a window term is in no operand. */
  lemma {:induction false} NoTermInside(
    x: Operand, before: seq<Token>, rest: seq<Token>, k: nat, field: string, op: Op, date: string)
    requires x.Valid() && PropertyPath(field) && Depth(before) == 0 && 0 < k < |x.Tokens()|
    ensures !TermAt((before + x.Tokens()) + rest, |before| + k, field, op, date)
    decreases x, 1
  {
    var t := x.Tokens();
    match x {
      case Call(name, args) =>
        CallBalanced(name, args, k);
        NoTermDeep(before, t, rest, k, field, op, date);
      case Along(start, path) =>
        NoTermAlong(start, path, before, rest, k, field, op, date);
      case ListOf(items) =>
        Enclosed(items, k);
        NoTermDeep(before, t, rest, k, field, op, date);
      case Data(parts) =>
        NoTermInData(parts, before, rest, k, field, op, date);
      case Minus(y) =>
        NoTermPrefixed(Word("-"), y, before, rest, k, field, op, date);
      case Negated(y) =>
        NoTermPrefixed(Negate, y, before, rest, k, field, op, date);
      case _ =>
        NoTermAtOther(before, t, rest, k, field, op, date);
    }
  }

  lemma NoTermAtOther(
    before: seq<Token>, t: seq<Token>, rest: seq<Token>, k: nat, field: string, op: Op, date: string)
    requires k < |t| && !t[k].Word?
    ensures !TermAt((before + t) + rest, |before| + k, field, op, date)
  {
    assert ((before + t) + rest)[|before| + k] == t[k];
  }

  lemma NoTermDeep(
    before: seq<Token>, t: seq<Token>, rest: seq<Token>, k: nat, field: string, op: Op, date: string)
    requires Depth(before) == 0 && k < |t| && (Depth(t[..k]) == 0 ==> !t[k].Word?)
    ensures !TermAt((before + t) + rest, |before| + k, field, op, date)
  {
    var all := (before + t) + rest;
    assert all[..|before| + k] == before + t[..k];
    DepthConcat(before, t[..k]);
    assert all[|before| + k] == t[k];
  }

  /** After a token that joins nothing there is no window term. */
  lemma NoTermAfter(
    before: seq<Token>, t: seq<Token>, rest: seq<Token>, k: nat, field: string, op: Op, date: string)
    requires 0 < k <= |t| && !Joins(t[k - 1])
    ensures !TermAt((before + t) + rest, |before| + k, field, op, date)
  {
    assert ((before + t) + rest)[|before| + k - 1] == t[k - 1];
  }

  lemma NoTermInData(
    parts: seq<Token>, before: seq<Token>, rest: seq<Token>, k: nat, field: string, op: Op, date: string)
    requires JsonValue(parts) && PropertyPath(field) && k < |parts|
    ensures !TermAt((before + parts) + rest, |before| + k, field, op, date)
  {
    var all := (before + parts) + rest;
    assert all[|before| + k] == parts[k];
    if k + 1 < |parts| {
      assert all[|before| + k + 1] == parts[k + 1] && parts[k + 1] in parts;
    }
  }

  lemma {:induction false} NoTermPrefixed(
    prefix: Token, y: Operand, before: seq<Token>, rest: seq<Token>, k: nat, field: string, op: Op, date: string)
    requires y.Valid() && PropertyPath(field) && Depth(before) == 0 && 0 < k < 1 + |y.Tokens()|
    requires !Joins(prefix) && prefix != Open && prefix != Close
    ensures !TermAt((before + ([prefix] + y.Tokens())) + rest, |before| + k, field, op, date)
    decreases y, 2
  {
    if k == 1 {
      NoTermAfter(before, [prefix] + y.Tokens(), rest, 1, field, op, date);
    } else {
      BalancedOne(prefix);
      DepthConcat(before, [prefix]);
      GroupTokens(before, [prefix], y.Tokens());
      NoTermInside(y, before + [prefix], rest, k - 1, field, op, date);
    }
  }

  lemma {:induction false} NoTermAlong(
    start: Operand, path: Operand, before: seq<Token>, rest: seq<Token>, k: nat, field: string, op: Op, date: string)
    requires start.Call? && start.Valid() && path.Valid() && PropertyPath(field) && Depth(before) == 0
    requires 0 < k < |start.Tokens()| + |path.Tokens()|
    ensures !TermAt((before + (start.Tokens() + path.Tokens())) + rest, |before| + k, field, op, date)
    decreases Along(start, path), 0
  {
    var s, p := start.Tokens(), path.Tokens();
    GroupTokens(before, s, p);
    if k < |s| {
      GroupTokens(before + s, p, rest);
      NoTermInside(start, before, p + rest, k, field, op, date);
    } else if k == |s| {
      LastIsClose(start);
      NoTermAfter(before, s + p, rest, k, field, op, date);
    } else {
      OperandBalanced(start);
      DepthConcat(before, s);
      NoTermInside(path, before + s, rest, k - |s|, field, op, date);
    }
  }

  lemma GroupTokens(a: seq<Token>, b: seq<Token>, c: seq<Token>)
    ensures a + (b + c) == (a + b) + c
  {
  }

  // ---------- conditions ----------

  /** No window term starts past the first operand of a condition. */
  lemma {:induction false} NoTermInLinks(
    links: seq<Link>, before: seq<Token>, rest: seq<Token>, j: nat, field: string, op: Op, date: string)
    requires ValidLinks(links) && PropertyPath(field) && Depth(before) == 0
    requires |before| <= j < |before| + |LinkTokens(links)|
    ensures !TermAt(before + (LinkTokens(links) + rest), j, field, op, date)
    decreases |links|
  {
    var link, later := links[0], LinkTokens(links[1..]) + rest;
    var t := [link.op] + link.operand.Tokens();
    LinksText(links, before, rest);
    if j < |before| + |t| {
      NoTermInLink(link, before, later, j - |before|, field, op, date);
    } else {
      BalancedOne(link.op);
      OperandBalanced(link.operand);
      DepthConcat([link.op], link.operand.Tokens());
      DepthConcat(before, t);
      NoTermInLinks(links[1..], before + t, rest, j, field, op, date);
    }
  }

  lemma LinksText(links: seq<Link>, before: seq<Token>, rest: seq<Token>)
    requires links != []
    ensures before + (LinkTokens(links) + rest)
            == (before + ([links[0].op] + links[0].operand.Tokens())) + (LinkTokens(links[1..]) + rest)
  {
    var o, x, later := [links[0].op], links[0].operand.Tokens(), LinkTokens(links[1..]);
    GroupTokens(o, x, later);
    GroupTokens(o + x, later, rest);
    GroupTokens(before, o + x, later + rest);
  }

  lemma NoTermInLink(
    link: Link, before: seq<Token>, rest: seq<Token>, k: nat, field: string, op: Op, date: string)
    requires link.Valid() && PropertyPath(field) && Depth(before) == 0 && k < 1 + |link.operand.Tokens()|
    ensures !TermAt((before + ([link.op] + link.operand.Tokens())) + rest, |before| + k, field, op, date)
  {
    var t := [link.op] + link.operand.Tokens();
    if k == 0 {
      NoTermAtOther(before, t, rest, 0, field, op, date);
    } else {
      NoTermPrefixed(link.op, link.operand, before, rest, k, field, op, date);
    }
  }

  /** The first operand of a condition, where a window term starts, is its field. */
  lemma FieldIsFirst(first: Operand, rest: seq<Token>, field: string, op: Op, date: string)
    requires first.Valid() && PropertyPath(field) && TermAt(first.Tokens() + rest, 0, field, op, date)
    ensures first == Spelled(field)
  {
    OperandBalanced(first);
    var all := first.Tokens() + rest;
    assert all[0] == first.Tokens()[0];
    assert |first.Tokens()| > 1 ==> all[1] == first.Tokens()[1];
    FirstWord(first, field);
  }

  /** A value that starts with the word of a date is the date. */
  lemma DateIsNext(x: Operand, word: string, date: string)
    requires x.Valid() && StartsWithWord(x, word) && DateText(date) && DateWord(word, date)
    ensures x == Spelled(date) && word == date
  {
    assert word[0] == word[..|date|][0];
    FirstWord(x, word);
    assert |word| <= |date| ==> word == date;
  }

  /** The operator and the date are all there is past the field. */
  lemma LinksAreDate(links: seq<Link>, rest: seq<Token>, field: string, op: Op, date: string)
    requires ValidLinks(links) && (rest == [] || rest[0] == Conjoin) && DateText(date)
    requires TermAt([Word(field)] + (LinkTokens(links) + rest), 0, field, op, date)
    ensures links == [Link(Operator(op), Spelled(date))]
  {
    var all := [Word(field)] + (LinkTokens(links) + rest);
    if links == [] {
      OnlyField(rest, field, op, date);
    } else {
      LinksStart(links, rest, field);
      DateIsNext(links[0].operand, all[2].text, date);
      if |links| > 1 {
        SecondLink(links, rest, field);
      }
    }
  }

  lemma OnlyField(rest: seq<Token>, field: string, op: Op, date: string)
    requires rest == [] || rest[0] == Conjoin
    ensures !TermAt([Word(field)] + (LinkTokens([]) + rest), 0, field, op, date)
  {
    var all := [Word(field)] + (LinkTokens([]) + rest);
    assert LinkTokens([]) + rest == rest;
    assert rest != [] ==> all[1] == Conjoin;
  }

  lemma LinksStart(links: seq<Link>, rest: seq<Token>, field: string)
    requires links != [] && ValidLinks(links)
    ensures var all := [Word(field)] + (LinkTokens(links) + rest);
            |all| > 2 && all[1] == links[0].op && links[0].operand.Tokens() != [] && links[0].operand.Tokens()[0] == all[2]
  {
    OperandBalanced(links[0].operand);
    LinksText(links, [Word(field)], rest);
  }

  lemma SecondLink(links: seq<Link>, rest: seq<Token>, field: string)
    requires ValidLinks(links) && |links| > 1 && links[0].operand.Spelled?
    ensures var all := [Word(field)] + (LinkTokens(links) + rest); |all| > 3 && !Goes(all[3])
  {
    LinksText(links, [Word(field)], rest);
    assert links[1..][0] == links[1] && links[1].Valid();
    assert LinkTokens(links[1..])[0] == links[1].op;
  }

  lemma NoTermInFirst(first: Operand, rest: seq<Token>, j: nat, field: string, op: Op, date: string)
    requires first.Valid() && PropertyPath(field) && 0 < j < |first.Tokens()|
    ensures !TermAt(first.Tokens() + rest, j, field, op, date)
  {
    assert [] + first.Tokens() == first.Tokens();
    NoTermInside(first, [], rest, j, field, op, date);
  }

  /** In a condition followed by `and` or by nothing, the window term is the whole condition. */
  lemma TermIsCondition(
    first: Operand, links: seq<Link>, rest: seq<Token>, j: nat, field: string, op: Op, date: string)
    requires first.Valid() && ValidLinks(links) && (rest == [] || rest[0] == Conjoin)
    requires PropertyPath(field) && DateText(date)
    requires var u := Condition(first, links); j < |Tokens(u)| && TermAt(Tokens(u) + rest, j, field, op, date)
    ensures j == 0 && Condition(first, links) == Comparison(field, op, date)
  {
    var t := first.Tokens();
    OperandBalanced(first);
    GroupTokens(t, LinkTokens(links), rest);
    if j >= |t| {
      NoTermInLinks(links, t, rest, j, field, op, date);
    } else if j > 0 {
      NoTermInFirst(first, LinkTokens(links) + rest, j, field, op, date);
    } else {
      FieldIsFirst(first, LinkTokens(links) + rest, field, op, date);
      LinksAreDate(links, rest, field, op, date);
    }
  }

  /** The term under a `not` is a term of what the `not` applies to, and is not first there. */
  lemma TermUnderNot(x: Expr, rest: seq<Token>, j: nat, field: string, op: Op, date: string)
    requires PropertyPath(field) && TermAt(Tokens(Not(x)) + rest, j, field, op, date)
    ensures j > 1 && TermAt(Tokens(x) + rest, j - 1, field, op, date)
  {
    var all := Tokens(Not(x)) + rest;
    var inner := Tokens(x) + rest;
    assert all == [Negate] + inner;
    assert j > 0 && all[..j] == [Negate] + inner[..j - 1];
    DepthConcat([Negate], inner[..j - 1]);
  }

  /** In a unary expression followed by `and` or by nothing, the window term is the whole expression. */
  lemma {:induction false} TermIsUnary(u: Expr, rest: seq<Token>, j: nat, field: string, op: Op, date: string)
    requires Unary(u) && (rest == [] || rest[0] == Conjoin)
    requires PropertyPath(field) && DateText(date)
    requires j < |Tokens(u)| && TermAt(Tokens(u) + rest, j, field, op, date)
    ensures j == 0 && u == Comparison(field, op, date)
  {
    match u {
      case Not(x) =>
        TermUnderNot(x, rest, j, field, op, date);
        TermIsUnary(x, rest, j - 1, field, op, date);
      case Group(x) =>
        NoTermInGroup(x, rest, j, field, op, date);
      case Condition(first, links) =>
        TermIsCondition(first, links, rest, j, field, op, date);
    }
  }

  /** A window term past the left side of an `and` is a window term of its right side. */
  lemma TermOnTheRight(l: Expr, r: Expr, j: nat, field: string, op: Op, date: string)
    requires Unary(l) && PropertyPath(field)
    requires |Tokens(l)| <= j && TermAt(Tokens(And(l, r)), j, field, op, date)
    ensures j > |Tokens(l)| && TermAt(Tokens(r), j - |Tokens(l)| - 1, field, op, date)
  {
    assert Tokens(And(l, r))[|Tokens(l)|] == Conjoin;
    Levels(l);
    ExprBalanced(l);
    DepthConcat(Tokens(l), [Conjoin]);
    TermPast(Tokens(l) + [Conjoin], Tokens(r), j, field, op, date);
  }

  /** A window term past a balanced beginning is one of the rest. */
  lemma TermPast(before: seq<Token>, rest: seq<Token>, j: nat, field: string, op: Op, date: string)
    requires Depth(before) == 0 && |before| <= j && TermAt(before + rest, j, field, op, date)
    requires before != [] && before[|before| - 1] == Conjoin
    ensures TermAt(rest, j - |before|, field, op, date)
  {
    var k := j - |before|;
    assert (before + rest)[..j] == before + rest[..k];
    DepthConcat(before, rest[..k]);
    assert forall i :: k <= i < |rest| ==> rest[i] == (before + rest)[i + |before|];
    assert k > 0 ==> rest[k - 1] == (before + rest)[j - 1];
  }

  /** A window term on the left side of an `and` is that side. */
  lemma TermOnTheLeft(l: Expr, r: Expr, j: nat, field: string, op: Op, date: string)
    requires Unary(l) && PropertyPath(field) && DateText(date)
    requires j < |Tokens(l)| && TermAt(Tokens(And(l, r)), j, field, op, date)
    ensures l == Comparison(field, op, date)
  {
    assert Tokens(And(l, r)) == Tokens(l) + ([Conjoin] + Tokens(r));
    TermIsUnary(l, [Conjoin] + Tokens(r), j, field, op, date);
  }

  lemma TermAlone(u: Expr, j: nat, field: string, op: Op, date: string)
    requires Unary(u) && PropertyPath(field) && DateText(date)
    requires TermAt(Tokens(u), j, field, op, date)
    ensures u == Comparison(field, op, date)
  {
    assert Tokens(u) + [] == Tokens(u);
    TermIsUnary(u, [], j, field, op, date);
  }

  /** A window term at depth 0 between the `and`s of a conjunction is one of its conjuncts. */
  lemma {:induction false} TermIsConjunct(e: Expr, j: nat, field: string, op: Op, date: string, entity: Entity)
    requires Conjunction(e) && PropertyPath(field) && DateText(date)
    requires TermAt(Tokens(e), j, field, op, date)
    ensures entity.Satisfies(e) ==> entity.Satisfies(Comparison(field, op, date))
  {
    if e.And? {
      if j < |Tokens(e.left)| {
        TermOnTheLeft(e.left, e.right, j, field, op, date);
      } else {
        TermOnTheRight(e.left, e.right, j, field, op, date);
        TermIsConjunct(e.right, j - |Tokens(e.left)| - 1, field, op, date, entity);
      }
    } else {
      TermAlone(e, j, field, op, date);
    }
  }
}
