/** Where a window term may stand among the tokens of a query of Jira that parses. */
module JqlGrammar {
  import opened Wrappers
  import opened JqlQuery
  import opened JqlText

  lemma BalancedConcat(a: seq<Token>, b: seq<Token>)
    requires Balanced(a) && Balanced(b)
    ensures Balanced(a + b)
  {
    DepthConcat(a, b);
    forall i | 0 <= i <= |a + b|
      ensures Depth((a + b)[..i]) >= 0
    {
      if i <= |a| {
        assert (a + b)[..i] == a[..i];
      } else {
        assert (a + b)[..i] == a + b[..i - |a|];
        DepthConcat(a, b[..i - |a|]);
      }
    }
  }

  lemma BalancedFlat(a: seq<Token>)
    requires forall i :: 0 <= i < |a| ==> TokenDepth(a[i]) == 0
    ensures Balanced(a)
  {
    forall i | 0 <= i <= |a|
      ensures Depth(a[..i]) == 0
    {
      FlatDepth(a[..i]);
    }
    assert a[..|a|] == a;
  }

  lemma {:induction false} FlatDepth(a: seq<Token>)
    requires forall i :: 0 <= i < |a| ==> TokenDepth(a[i]) == 0
    ensures Depth(a) == 0
  {
    if a != [] {
      FlatDepth(a[1..]);
    }
  }

  /** Inside parentheses, every place after the opening one is at depth 1 or more. */
  lemma Enclosed(inner: seq<Token>, i: nat)
    requires Balanced(inner)
    ensures var all := [Open] + inner + [Close];
            Balanced(all) && (0 < i < |all| ==> Depth(all[..i]) >= 1)
  {
    var all := [Open] + inner + [Close];
    DepthConcat([Open] + inner, [Close]);
    DepthConcat([Open], inner);
    forall k | 0 <= k <= |all|
      ensures Depth(all[..k]) >= 0 && (0 < k < |all| ==> Depth(all[..k]) >= 1)
    {
      if k == |all| {
        assert all[..k] == all;
      } else if k > 0 {
        assert all[..k] == [Open] + inner[..k - 1];
        DepthConcat([Open], inner[..k - 1]);
      }
    }
  }

  lemma CallBalanced(name: Token, args: seq<Token>, i: nat)
    requires Balanced(args) && IsName(name)
    ensures var all := [name, Open] + args + [Close];
            Balanced(all) && (1 < i < |all| ==> Depth(all[..i]) >= 1)
  {
    var rest := [Open] + args + [Close];
    var all := [name, Open] + args + [Close];
    Enclosed(args, if i > 0 then i - 1 else 0);
    BalancedFlat([name]);
    assert all == [name] + rest;
    BalancedConcat([name], rest);
    if 1 < i < |all| {
      assert all[..i] == [name] + rest[..i - 1];
      DepthConcat([name], rest[..i - 1]);
      FlatDepth([name]);
    }
  }

  /** An operand is balanced, and only its first token is at depth 0 but for a function's parenthesis. */
  lemma OperandBalanced(x: Operand, i: nat)
    requires x.Valid()
    ensures Balanced(x.Tokens()) && x.Tokens() != []
    ensures 0 < i < |x.Tokens()| ==> x.Tokens()[i] == Open || Depth(x.Tokens()[..i]) >= 1
    ensures |x.Tokens()| > 1 && x.Tokens()[0].Word? ==> x.Tokens()[1] == Open
  {
    match x {
      case Call(name, args) =>
        CallBalanced(name, args, i);
      case ListOf(items) =>
        Enclosed(items, i);
      case _ =>
        BalancedFlat(x.Tokens());
    }
  }

  lemma Levels(e: Expr)
    ensures Unary(e) ==> Conjunction(e)
    ensures Conjunction(e) ==> Disjunction(e)
    ensures Disjunction(e) && !e.Or? && !e.And? ==> Unary(e)
    ensures Disjunction(e) && e.And? ==> Unary(e.left) && Conjunction(e.right)
    ensures Disjunction(e) && e.Or? ==> Conjunction(e.left) && Disjunction(e.right)
  {
    match e {
      case Or(_, _) =>
        assert !Unary(e) && !Conjunction(e);
      case And(_, _) =>
        assert !Unary(e) && (Disjunction(e) <==> Conjunction(e));
      case _ =>
        assert (Disjunction(e) <==> Conjunction(e)) && (Conjunction(e) <==> Unary(e));
    }
  }

  lemma FieldBalanced(field: Field)
    requires field.Valid()
    ensures Balanced(field.Tokens()) && field.Tokens() != [] && Order !in field.Tokens()
  {
    BalancedFlat(field.Tokens());
  }

  /** The tokens of a clause before its value. */
  function ClauseHead(field: Field, relation: Relation): seq<Token> {
    field.Tokens() + relation.Tokens()
  }

  lemma ClauseBalanced(field: Field, relation: Relation, value: Operand)
    requires field.Valid() && value.Valid()
    ensures Balanced(ClauseHead(field, relation)) && Balanced(Tokens(Clause(field, relation, value)))
  {
    FieldBalanced(field);
    BalancedFlat(relation.Tokens());
    BalancedConcat(field.Tokens(), relation.Tokens());
    OperandBalanced(value, 0);
    BalancedConcat(ClauseHead(field, relation), value.Tokens());
  }

  lemma PastBalanced(past: Past)
    requires past.Valid()
    ensures Balanced(past.Words()) && Balanced(past.Tokens()) && Order !in past.Tokens() && past.Words() != []
    ensures past.Words()[0] == Was || past.Words()[0] == Changed
    ensures Keywords(past.Words())
  {
    BalancedFlat(past.Words());
    if past.Having? {
      OperandBalanced(past.value, 0);
      BalancedConcat(past.Words(), past.value.Tokens());
    }
  }

  lemma {:induction false} DetailsBalanced(limits: seq<Detail>)
    requires ValidDetails(limits)
    ensures Balanced(DetailTokens(limits)) && Order !in DetailTokens(limits)
  {
    if limits == [] {
      BalancedFlat([]);
    } else {
      OneDetail(limits[0]);
      DetailsBalanced(limits[1..]);
      BalancedConcat(limits[0].Tokens(), DetailTokens(limits[1..]));
    }
  }

  lemma OneDetail(d: Detail)
    requires d.value.Valid()
    ensures Balanced(d.Tokens()) && Order !in d.Tokens()
  {
    BalancedFlat([d.Key()]);
    OperandBalanced(d.value, 0);
    BalancedConcat([d.Key()], d.value.Tokens());
  }

  lemma HistoryBalanced(field: Field, past: Past, limits: seq<Detail>)
    requires field.Valid() && past.Valid() && ValidDetails(limits)
    ensures var all := Tokens(History(field, past, limits)); Balanced(all) && Order !in all
  {
    FieldBalanced(field);
    PastBalanced(past);
    DetailsBalanced(limits);
    BalancedConcat(field.Tokens(), past.Tokens());
    BalancedConcat(field.Tokens() + past.Tokens(), DetailTokens(limits));
  }

  lemma {:induction false} ExprBalanced(e: Expr)
    requires Disjunction(e)
    ensures Balanced(Tokens(e))
  {
    Levels(e);
    match e {
      case Or(l, r) =>
        Levels(l);
        ExprBalanced(l); ExprBalanced(r); BalancedFlat([Disjoin]);
        BalancedConcat(Tokens(l), [Disjoin]);
        BalancedConcat(Tokens(l) + [Disjoin], Tokens(r));
      case And(l, r) =>
        Levels(l); Levels(r);
        ExprBalanced(l); ExprBalanced(r); BalancedFlat([Conjoin]);
        BalancedConcat(Tokens(l), [Conjoin]);
        BalancedConcat(Tokens(l) + [Conjoin], Tokens(r));
      case Not(x) =>
        Levels(x);
        ExprBalanced(x); BalancedFlat([Negate]);
        BalancedConcat([Negate], Tokens(x));
      case Group(x) =>
        ExprBalanced(x);
        Enclosed(Tokens(x), 0);
      case Clause(field, relation, value) =>
        ClauseBalanced(field, relation, value);
      case History(field, past, limits) =>
        HistoryBalanced(field, past, limits);
    }
  }

  /** An `or` of the whole query is an `or` token at depth 0. */
  lemma DisjoinPlace(e: Expr) returns (i: nat)
    requires Disjunction(e) && !Conjunction(e)
    ensures i < |Tokens(e)| && Tokens(e)[i] == Disjoin && Depth(Tokens(e)[..i]) == 0
  {
    Levels(e); Levels(e.left);
    ExprBalanced(e.left);
    i := |Tokens(e.left)|;
    assert Tokens(e)[..i] == Tokens(e.left);
  }

  /** No `order` stands in an expression. */
  lemma {:induction false} NoOrder(e: Expr)
    requires Disjunction(e)
    ensures Order !in Tokens(e)
  {
    Levels(e);
    match e {
      case Or(l, r) =>
        Levels(l);
        NoOrder(l); NoOrder(r);
      case And(l, r) =>
        Levels(l); Levels(r);
        NoOrder(l); NoOrder(r);
      case Not(x) =>
        Levels(x);
        NoOrder(x);
      case Group(x) =>
        NoOrder(x);
      case Clause(field, _, value) =>
        FieldBalanced(field);
        assert Order !in value.Tokens();
      case History(field, past, limits) =>
        HistoryBalanced(field, past, limits);
    }
  }

  // ---------- a window term ----------

  /**
   At `j`, at depth 0: the field, the operator and the string, which is no function's name. The field is first, or
   after an `and`, another word or a `changed`.
   */
  predicate TermAt(tokens: seq<Token>, j: nat, field: string, op: Op, content: string) {
    && j + 2 < |tokens| && Depth(tokens[..j]) == 0
    && tokens[j] == Word(field) && tokens[j + 1] == Operator(op) && tokens[j + 2] == Text(content)
    && (j > 0 ==> Joins(tokens[j - 1])) && (j + 3 < |tokens| ==> tokens[j + 3] != Open)
  }

  /** What may follow an expression inside a conjunction, or an operand: no operator. */
  predicate Follows(rest: seq<Token>) {
    rest == [] || rest[0] == Conjoin || rest[0] == By || rest[0].When?
  }

  /** The field of a window term is in no value. */
  lemma NoTermInOperand(
      x: Operand, before: seq<Token>, rest: seq<Token>, k: nat, field: string, op: Op, content: string)
    requires x.Valid() && Follows(rest) && Depth(before) == 0 && k < |x.Tokens()|
    ensures !TermAt((before + x.Tokens()) + rest, |before| + k, field, op, content)
  {
    if k == 0 {
      NoTermFirst(x, before, rest, field, op, content);
    } else {
      NoTermInside(x, before, rest, k, field, op, content);
    }
  }

  lemma NoTermFirst(x: Operand, before: seq<Token>, rest: seq<Token>, field: string, op: Op, content: string)
    requires x.Valid() && Follows(rest)
    ensures !TermAt((before + x.Tokens()) + rest, |before|, field, op, content)
  {
    var all := (before + x.Tokens()) + rest;
    var j := |before|;
    if j + 1 < |all| && all[j].Word? {
      assert all[j + 1] == if |x.Tokens()| > 1 then Open else rest[0];
    }
  }

  lemma NoTermInside(
      x: Operand, before: seq<Token>, rest: seq<Token>, k: nat, field: string, op: Op, content: string)
    requires x.Valid() && Depth(before) == 0 && 0 < k < |x.Tokens()|
    ensures !TermAt((before + x.Tokens()) + rest, |before| + k, field, op, content)
  {
    OperandBalanced(x, k);
    NoTermDeep(before, x.Tokens(), rest, k, field, op, content);
  }

  lemma NoTermDeep(
      before: seq<Token>, t: seq<Token>, rest: seq<Token>, k: nat, field: string, op: Op, content: string)
    requires Depth(before) == 0 && k < |t| && (Depth(t[..k]) == 0 ==> !t[k].Word?)
    ensures !TermAt((before + t) + rest, |before| + k, field, op, content)
  {
    var all := (before + t) + rest;
    assert all[..|before| + k] == before + t[..k];
    DepthConcat(before, t[..k]);
    assert all[|before| + k] == t[k];
  }

  lemma NoTermInGroup(x: Expr, rest: seq<Token>, j: nat, field: string, op: Op, content: string)
    requires Disjunction(x) && j < |Tokens(Group(x))|
    ensures !TermAt(Tokens(Group(x)) + rest, j, field, op, content)
  {
    var u := Tokens(Group(x));
    assert (u + rest)[..j] == u[..j] && (u + rest)[0] == Open;
    ExprBalanced(x);
    Enclosed(Tokens(x), j);
  }

  /** The term under a `not` is a term of what the `not` applies to, and is not first there. */
  lemma TermUnderNot(x: Expr, rest: seq<Token>, j: nat, field: string, op: Op, content: string)
    requires TermAt(Tokens(Not(x)) + rest, j, field, op, content)
    ensures j > 1 && TermAt(Tokens(x) + rest, j - 1, field, op, content)
  {
    var inner := Tokens(x) + rest;
    GroupTokens([Negate], Tokens(x), rest);
    FlatDepth([Negate]);
    assert ([Negate] + inner)[0] == Negate;
    TermPast([Negate], inner, j, field, op, content);
  }

  predicate Keywords(words: seq<Token>) {
    forall i :: 0 <= i < |words| ==> !words[i].Word?
  }

  /** The field of a window term is no keyword. */
  lemma NoTermAtKeyword(
      before: seq<Token>, words: seq<Token>, rest: seq<Token>, j: nat, field: string, op: Op, content: string)
    requires Keywords(words) && |before| <= j < |before| + |words|
    ensures !TermAt((before + words) + rest, j, field, op, content)
  {
    assert ((before + words) + rest)[j] == words[j - |before|];
  }

  /** No field ends where a window term starts, but the field of the term. */
  lemma NoTermInField(f: Field, rest: seq<Token>, j: nat, field: string, op: Op, content: string)
    requires f.Valid() && j < |f.Tokens()| && TermAt(f.Tokens() + rest, j, field, op, content)
    ensures j == 0 && f == Named(field)
  {
    var t := f.Tokens();
    assert forall i :: 0 <= i < |t| ==> (t + rest)[i] == t[i];
  }

  lemma TermIsClause(
      f: Field, relation: Relation, value: Operand, rest: seq<Token>, j: nat, field: string, op: Op, content: string)
    requires f.Valid() && value.Valid() && Follows(rest)
    requires var u := Clause(f, relation, value); j < |Tokens(u)| && TermAt(Tokens(u) + rest, j, field, op, content)
    ensures j == 0 && f == Named(field) && relation == Compare(op) && value == Quoted(content)
  {
    var head := ClauseHead(f, relation);
    ClauseBalanced(f, relation, value);
    OperandBalanced(value, 0);
    if j >= |head| {
      NoTermInOperand(value, head, rest, j - |head|, field, op, content);
    } else if j >= |f.Tokens()| {
      GroupTokens(f.Tokens() + relation.Tokens(), value.Tokens(), rest);
      NoTermAtKeyword(f.Tokens(), relation.Tokens(), value.Tokens() + rest, j, field, op, content);
    } else {
      ClauseText(f, relation, value, rest);
      NoTermInField(f, relation.Tokens() + (value.Tokens() + rest), j, field, op, content);
      ClauseStart(field, relation, value, rest, op, content);
    }
  }

  lemma ClauseText(f: Field, relation: Relation, value: Operand, rest: seq<Token>)
    ensures Tokens(Clause(f, relation, value)) + rest == f.Tokens() + (relation.Tokens() + (value.Tokens() + rest))
  {
  }

  lemma ClauseStart(field: string, relation: Relation, value: Operand, rest: seq<Token>, op: Op, content: string)
    requires value.Valid() && TermAt([Word(field)] + (relation.Tokens() + (value.Tokens() + rest)), 0, field, op, content)
    ensures relation == Compare(op) && value == Quoted(content)
  {
    var all := [Word(field)] + (relation.Tokens() + (value.Tokens() + rest));
    OperandBalanced(value, 0);
    assert all[1] == relation.Tokens()[0];
    assert relation.Compare? ==> all[2] == value.Tokens()[0];
  }

  // ---------- the history ----------

  lemma {:induction false} NoTermInDetails(
      limits: seq<Detail>, before: seq<Token>, rest: seq<Token>, j: nat, field: string, op: Op, content: string)
    requires ValidDetails(limits) && Depth(before) == 0 && (rest == [] || rest[0] == Conjoin)
    requires |before| <= j < |before| + |DetailTokens(limits)|
    ensures !TermAt(before + (DetailTokens(limits) + rest), j, field, op, content)
  {
    var tail := DetailTokens(limits[1..]) + rest;
    DetailFirst(limits, before, rest);
    var past := before + limits[0].Tokens();
    if j < |past| {
      DetailsFollow(limits[1..], rest);
      NoTermInDetail(limits[0], before, tail, j, field, op, content);
    } else {
      OneDetail(limits[0]);
      DepthConcat(before, limits[0].Tokens());
      NoTermInDetails(limits[1..], past, rest, j, field, op, content);
    }
  }

  lemma DetailFirst(limits: seq<Detail>, before: seq<Token>, rest: seq<Token>)
    requires limits != []
    ensures before + (DetailTokens(limits) + rest)
            == (before + limits[0].Tokens()) + (DetailTokens(limits[1..]) + rest)
  {
    GroupTokens(limits[0].Tokens(), DetailTokens(limits[1..]), rest);
    GroupTokens(before, limits[0].Tokens(), DetailTokens(limits[1..]) + rest);
  }

  lemma DetailsFollow(limits: seq<Detail>, rest: seq<Token>)
    requires rest == [] || rest[0] == Conjoin
    ensures Follows(DetailTokens(limits) + rest)
  {
    if limits != [] {
      assert (DetailTokens(limits) + rest)[0] == limits[0].Key();
    } else {
      assert DetailTokens(limits) + rest == rest;
    }
  }

  lemma NoTermInDetail(
      d: Detail, before: seq<Token>, rest: seq<Token>, j: nat, field: string, op: Op, content: string)
    requires d.value.Valid() && Depth(before) == 0 && Follows(rest)
    requires |before| <= j < |before| + |d.Tokens()|
    ensures !TermAt((before + d.Tokens()) + rest, j, field, op, content)
  {
    BalancedFlat([d.Key()]);
    DetailText(d, before, rest);
    NoTermAfterKeywords(before, [d.Key()], d.value, rest, j, field, op, content);
  }

  lemma NoTermInValue(
      head: seq<Token>, value: Operand, rest: seq<Token>, j: nat, field: string, op: Op, content: string)
    requires value.Valid() && Depth(head) == 0 && Follows(rest) && |head| <= j < |head| + |value.Tokens()|
    ensures !TermAt((head + value.Tokens()) + rest, j, field, op, content)
  {
    NoTermInOperand(value, head, rest, j - |head|, field, op, content);
  }

  lemma NoTermAfterKeywords(
      before: seq<Token>, words: seq<Token>, value: Operand, rest: seq<Token>, j: nat, field: string, op: Op,
      content: string)
    requires value.Valid() && Depth(before) == 0 && Follows(rest) && Keywords(words) && Balanced(words)
    requires |before| <= j < |before| + |words| + |value.Tokens()|
    ensures !TermAt(((before + words) + value.Tokens()) + rest, j, field, op, content)
  {
    if j < |before| + |words| {
      GroupTokens(before + words, value.Tokens(), rest);
      NoTermAtKeyword(before, words, value.Tokens() + rest, j, field, op, content);
    } else {
      DepthConcat(before, words);
      NoTermInValue(before + words, value, rest, j, field, op, content);
    }
  }

  lemma DetailText(d: Detail, before: seq<Token>, rest: seq<Token>)
    ensures (before + d.Tokens()) + rest == ((before + [d.Key()]) + d.value.Tokens()) + rest
  {
    GroupTokens(before, [d.Key()], d.value.Tokens());
  }

  /** The window term is in no search of the history. */
  lemma NoTermInHistory(
      f: Field, past: Past, limits: seq<Detail>, rest: seq<Token>, j: nat, field: string, op: Op, content: string)
    requires f.Valid() && past.Valid() && ValidDetails(limits) && (rest == [] || rest[0] == Conjoin)
    requires j < |Tokens(History(f, past, limits))|
    ensures !TermAt(Tokens(History(f, past, limits)) + rest, j, field, op, content)
  {
    var before := f.Tokens() + past.Tokens();
    HistoryText(f, past, limits, rest);
    FieldBalanced(f);
    PastBalanced(past);
    DepthConcat(f.Tokens(), past.Tokens());
    if j >= |before| {
      NoTermInDetails(limits, before, rest, j, field, op, content);
    } else if j >= |f.Tokens()| {
      DetailsFollow(limits, rest);
      NoTermInPast(past, f.Tokens(), DetailTokens(limits) + rest, j, field, op, content);
    } else {
      NoTermBeforePast(f, past, DetailTokens(limits) + rest, j, field, op, content);
    }
  }

  lemma HistoryText(f: Field, past: Past, limits: seq<Detail>, rest: seq<Token>)
    ensures var before, tail := f.Tokens() + past.Tokens(), DetailTokens(limits) + rest;
            Tokens(History(f, past, limits)) + rest == before + tail == f.Tokens() + (past.Tokens() + tail)
  {
    GroupTokens(f.Tokens() + past.Tokens(), DetailTokens(limits), rest);
    GroupTokens(f.Tokens(), past.Tokens(), DetailTokens(limits) + rest);
  }

  lemma NoTermBeforePast(f: Field, past: Past, rest: seq<Token>, j: nat, field: string, op: Op, content: string)
    requires f.Valid() && past.Valid() && j < |f.Tokens()|
    ensures !TermAt(f.Tokens() + (past.Tokens() + rest), j, field, op, content)
  {
    PastBalanced(past);
    PastStarts(f, past, rest);
    if TermAt(f.Tokens() + (past.Tokens() + rest), j, field, op, content) {
      NoTermInField(f, past.Tokens() + rest, j, field, op, content);
    }
  }

  lemma PastStarts(f: Field, past: Past, rest: seq<Token>)
    requires past.Valid()
    ensures past.Words() != [] && past.Tokens() != [] && past.Tokens()[0] == past.Words()[0]
    ensures (f.Tokens() + (past.Tokens() + rest))[|f.Tokens()|] == past.Words()[0]
  {
    PastBalanced(past);
  }

  lemma NoTermInPast(
      past: Past, before: seq<Token>, rest: seq<Token>, j: nat, field: string, op: Op, content: string)
    requires past.Valid() && Depth(before) == 0 && Follows(rest) && |before| <= j < |before| + |past.Tokens()|
    ensures !TermAt(before + (past.Tokens() + rest), j, field, op, content)
  {
    PastBalanced(past);
    GroupTokens(before, past.Tokens(), rest);
    if past.Having? {
      GroupTokens(before, past.Words(), past.value.Tokens());
      NoTermAfterKeywords(before, past.Words(), past.value, rest, j, field, op, content);
    } else {
      NoTermAtKeyword(before, past.Words(), rest, j, field, op, content);
    }
  }

  /** In a unary expression followed by `and` or by nothing, the window term is the whole expression. */
  lemma {:induction false} TermIsUnary(u: Expr, rest: seq<Token>, j: nat, field: string, op: Op, content: string)
    requires Unary(u) && (rest == [] || rest[0] == Conjoin)
    requires j < |Tokens(u)| && TermAt(Tokens(u) + rest, j, field, op, content)
    ensures j == 0 && u == Clause(Named(field), Compare(op), Quoted(content))
  {
    match u {
      case Not(x) =>
        TermUnderNot(x, rest, j, field, op, content);
        TermIsUnary(x, rest, j - 1, field, op, content);
      case Group(x) =>
        NoTermInGroup(x, rest, j, field, op, content);
      case Clause(f, relation, value) =>
        TermIsClause(f, relation, value, rest, j, field, op, content);
      case History(f, past, limits) =>
        NoTermInHistory(f, past, limits, rest, j, field, op, content);
    }
  }

  /** A window term past a balanced beginning is one of the rest. */
  lemma TermPast(before: seq<Token>, rest: seq<Token>, j: nat, field: string, op: Op, content: string)
    requires Depth(before) == 0 && |before| <= j && TermAt(before + rest, j, field, op, content)
    ensures TermAt(rest, j - |before|, field, op, content)
  {
    var k := j - |before|;
    assert (before + rest)[..j] == before + rest[..k];
    DepthConcat(before, rest[..k]);
    assert forall i :: k <= i < |rest| ==> rest[i] == (before + rest)[i + |before|];
    assert k > 0 ==> rest[k - 1] == (before + rest)[j - 1];
  }

  lemma TermOnTheRight(l: Expr, r: Expr, j: nat, field: string, op: Op, content: string)
    requires Unary(l) && |Tokens(l)| <= j && TermAt(Tokens(And(l, r)), j, field, op, content)
    ensures j > |Tokens(l)| && TermAt(Tokens(r), j - |Tokens(l)| - 1, field, op, content)
  {
    assert Tokens(And(l, r))[|Tokens(l)|] == Conjoin;
    Levels(l);
    ExprBalanced(l);
    DepthConcat(Tokens(l), [Conjoin]);
    FlatDepth([Conjoin]);
    TermPast(Tokens(l) + [Conjoin], Tokens(r), j, field, op, content);
  }

  lemma TermOnTheLeft(l: Expr, r: Expr, j: nat, field: string, op: Op, content: string)
    requires Unary(l) && j < |Tokens(l)| && TermAt(Tokens(And(l, r)), j, field, op, content)
    ensures l == Clause(Named(field), Compare(op), Quoted(content))
  {
    assert Tokens(And(l, r)) == Tokens(l) + ([Conjoin] + Tokens(r));
    TermIsUnary(l, [Conjoin] + Tokens(r), j, field, op, content);
  }

  lemma TermAlone(u: Expr, j: nat, field: string, op: Op, content: string)
    requires Unary(u) && TermAt(Tokens(u), j, field, op, content)
    ensures u == Clause(Named(field), Compare(op), Quoted(content))
  {
    assert Tokens(u) + [] == Tokens(u);
    TermIsUnary(u, [], j, field, op, content);
  }

  /** A window term at depth 0 between the `and`s of a conjunction is one of its conjuncts. */
  lemma {:induction false} TermIsConjunct(e: Expr, j: nat, field: string, op: Op, content: string, issue: Issue)
    requires Conjunction(e) && TermAt(Tokens(e), j, field, op, content)
    ensures issue.Satisfies(e) ==> issue.Satisfies(Clause(Named(field), Compare(op), Quoted(content)))
  {
    if e.And? {
      if j < |Tokens(e.left)| {
        TermOnTheLeft(e.left, e.right, j, field, op, content);
      } else {
        TermOnTheRight(e.left, e.right, j, field, op, content);
        TermIsConjunct(e.right, j - |Tokens(e.left)| - 1, field, op, content, issue);
      }
    } else {
      TermAlone(e, j, field, op, content);
    }
  }

  // ---------- names stand apart ----------

  predicate Touch(a: seq<Token>, b: seq<Token>) {
    a == [] || b == [] || !IsName(a[|a| - 1]) || !IsName(b[0])
  }

  lemma SparseConcat(a: seq<Token>, b: seq<Token>)
    requires Sparse(a) && Sparse(b) && Touch(a, b)
    ensures Sparse(a + b)
  {
  }

  /** A text of tokens that are no names parts any two others. */
  lemma SparseAround(a: seq<Token>, between: seq<Token>, b: seq<Token>)
    requires Sparse(a) && Sparse(b) && between != [] && forall i :: 0 <= i < |between| ==> !IsName(between[i])
    ensures Sparse(a + between + b)
  {
    SparseConcat(a, between);
    SparseConcat(a + between, b);
  }

  lemma SparseOperand(x: Operand)
    requires x.Valid()
    ensures Sparse(x.Tokens())
  {
    match x {
      case Call(name, args) =>
        SparseConcat([name, Open], args);
        SparseConcat([name, Open] + args, [Close]);
      case ListOf(items) =>
        SparseConcat([Open], items);
        SparseConcat([Open] + items, [Close]);
      case _ =>
    }
  }

  lemma SparseField(field: Field)
    requires field.Valid()
    ensures Sparse(field.Tokens())
  {
  }

  lemma SparsePast(past: Past)
    requires past.Valid()
    ensures Sparse(past.Tokens()) && past.Tokens() != [] && !IsName(past.Tokens()[0])
  {
    PastBalanced(past);
    assert forall i :: 0 <= i < |past.Words()| ==> !IsName(past.Words()[i]);
    if past.Having? {
      SparseOperand(past.value);
      SparseConcat(past.Words(), past.value.Tokens());
    }
  }

  lemma {:induction false} SparseDetails(limits: seq<Detail>)
    requires ValidDetails(limits)
    ensures Sparse(DetailTokens(limits)) && (limits != [] ==> DetailTokens(limits)[0] == limits[0].Key())
  {
    if limits != [] {
      SparseOperand(limits[0].value);
      SparseConcat([limits[0].Key()], limits[0].value.Tokens());
      SparseDetails(limits[1..]);
      SparseConcat(limits[0].Tokens(), DetailTokens(limits[1..]));
    }
  }

  lemma SparseHistory(field: Field, past: Past, limits: seq<Detail>)
    requires field.Valid() && past.Valid() && ValidDetails(limits)
    ensures Sparse(Tokens(History(field, past, limits)))
  {
    SparseField(field);
    SparsePast(past);
    SparseDetails(limits);
    SparseConcat(field.Tokens(), past.Tokens());
    SparseConcat(field.Tokens() + past.Tokens(), DetailTokens(limits));
  }

  lemma SparseClause(field: Field, relation: Relation, value: Operand)
    requires field.Valid() && value.Valid()
    ensures Sparse(Tokens(Clause(field, relation, value)))
  {
    SparseField(field);
    SparseOperand(value);
    SparseAround(field.Tokens(), relation.Tokens(), value.Tokens());
  }

  /** In an expression, no two names stand side by side. */
  lemma {:induction false} SparseExpr(e: Expr)
    requires Disjunction(e)
    ensures Sparse(Tokens(e))
  {
    Levels(e);
    match e {
      case Or(l, r) =>
        Levels(l);
        SparseExpr(l); SparseExpr(r);
        SparseAround(Tokens(l), [Disjoin], Tokens(r));
      case And(l, r) =>
        Levels(l); Levels(r);
        SparseExpr(l); SparseExpr(r);
        SparseAround(Tokens(l), [Conjoin], Tokens(r));
      case Not(x) =>
        Levels(x);
        SparseExpr(x);
        SparseConcat([Negate], Tokens(x));
      case Group(x) =>
        SparseExpr(x);
        SparseConcat([Open], Tokens(x));
        SparseConcat([Open] + Tokens(x), [Close]);
      case Clause(field, relation, value) =>
        SparseClause(field, relation, value);
      case History(field, past, limits) =>
        SparseHistory(field, past, limits);
    }
  }

  /** Nor in a query. */
  lemma SparseQuery(e: Expr, ordering: seq<Token>)
    requires Disjunction(e) && OrderClause(ordering)
    ensures Sparse(Tokens(e) + ordering)
  {
    SparseExpr(e);
    SparseConcat(Tokens(e), ordering);
  }
}
