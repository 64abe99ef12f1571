/**
 The OData filter language (OData 4.0 Part 2, section 5.1.1): `not` binds tighter than `and`, `and` tighter than `or`,
 groups, and conditions made of comparisons, arithmetic, `has` and `in` over properties, paths, literals, strings with a
 doubled quote, function calls and lambdas with any balanced arguments, lists, and JSON values with `"` strings. Keywords
 are read in any case, as OData 4.01 reads them, and may also name a property, as in 4.0. Conditions are read flat: how
 their operators bind does not matter where there is more than one. A filter parses as an expression when its tokens are
 those of the expression.
 */
module ODataQuery {
  import opened Chars
  import opened Wrappers

  // ---------- tokens ----------

  datatype Op = Eq | Ne | Gt | Ge | Lt | Le

  datatype Token =
    | Disjoin
    | Conjoin
    | Negate
    | Operator(op: Op)
    | Infix(word: string)
    | Word(text: string)
    | Text(content: string)
    | Json(content: string)
    | Open
    | Close
    | Comma

  /** The operators that make a value of two: arithmetic, `has` and `in`. */
  predicate InfixWord(word: string) {
    || SameFold(word, "add") || SameFold(word, "sub") || SameFold(word, "mul") || SameFold(word, "div")
    || SameFold(word, "divby") || SameFold(word, "mod") || SameFold(word, "has") || SameFold(word, "in")
  }

  /** A word as a token: a keyword, in any case as OData 4.01 reads them; any other word names or spells something. */
  function Classify(word: string): Token {
    if SameFold(word, "or") then Disjoin
    else if SameFold(word, "and") then Conjoin
    else if SameFold(word, "not") then Negate
    else if SameFold(word, "eq") then Operator(Eq)
    else if SameFold(word, "ne") then Operator(Ne)
    else if SameFold(word, "gt") then Operator(Gt)
    else if SameFold(word, "ge") then Operator(Ge)
    else if SameFold(word, "lt") then Operator(Lt)
    else if SameFold(word, "le") then Operator(Le)
    else if InfixWord(word) then Infix(word)
    else Word(word)
  }

  /** What ends a word. */
  predicate Delimiter(c: char) {
    IsSpace(c) || c == '(' || c == ')' || c == ',' || c == '\''
  }

  function WordLength(s: string): (n: nat)
    ensures n <= |s|
    ensures forall i :: 0 <= i < n ==> !Delimiter(s[i])
    ensures n < |s| ==> Delimiter(s[n])
  {
    if s == "" || Delimiter(s[0]) then 0 else 1 + WordLength(s[1..])
  }

  /** The content of a string whose opening quote was read, and how much of `s` it takes with its closing quote. */
  function TextEnd(s: string): (r: Option<(string, nat)>)
    ensures r.Some? ==> 0 < r.value.1 <= |s|
    decreases |s|
  {
    if s == "" then None
    else if s[0] != '\'' then
      var rest :- TextEnd(s[1..]);
      Some(([s[0]] + rest.0, rest.1 + 1))
    else if |s| > 1 && s[1] == '\'' then
      var rest :- TextEnd(s[2..]);
      Some(("'" + rest.0, rest.1 + 2))
    else Some(("", 1))
  }

  /** The next token where no `"` is outside strings, none for a space, and how much of `s` it takes. */
  function NextToken(s: string): (r: Option<(seq<Token>, nat)>)
    requires s != ""
    ensures r.Some? ==> 0 < r.value.1 <= |s|
  {
    if IsSpace(s[0]) then Some(([], 1))
    else if s[0] == '(' then Some(([Open], 1))
    else if s[0] == ')' then Some(([Close], 1))
    else if s[0] == ',' then Some(([Comma], 1))
    else if s[0] == '\'' then
      var text :- TextEnd(s[1..]);
      Some(([Text(text.0)], text.1 + 1))
    else
      assert WordLength(s) > 0;
      Some(([Classify(s[..WordLength(s)])], WordLength(s)))
  }

  function Lex(s: string): Option<seq<Token>>
    decreases |s|
  {
    if s == "" then Some([])
    else
      var next :- NextToken(s);
      var rest :- Lex(s[next.1..]);
      Some(next.0 + rest)
  }

  // ---------- tokens as the server reads them ----------

  /** What ends a word of the server: a `"` starts a string of a JSON value. */
  predicate Stops(c: char) {
    Delimiter(c) || c == '"'
  }

  function ServerWordLength(s: string): (n: nat)
    ensures n <= |s|
    ensures forall i :: 0 <= i < n ==> !Stops(s[i])
  {
    if s == "" || Stops(s[0]) then 0 else 1 + ServerWordLength(s[1..])
  }

  /** How much of `s` a JSON string takes whose `"` was read, with its closing one; 0 when it is not closed. */
  function JsonLength(s: string): (n: nat)
    ensures n <= |s|
    decreases |s|
  {
    if s == "" then 0
    else if s[0] == '"' then 1
    else
      var skip := if s[0] == '\\' && |s| > 1 then 2 else 1;
      var rest := JsonLength(s[skip..]);
      if rest == 0 then 0 else rest + skip
  }

  /** The next token of the server. */
  function ServerToken(s: string): (r: Option<(seq<Token>, nat)>)
    requires s != ""
    ensures r.Some? ==> 0 < r.value.1 <= |s|
  {
    if s[0] == '"' then
      var n := JsonLength(s[1..]);
      if n == 0 then None else Some(([Json(s[1..n])], n + 1))
    else if Delimiter(s[0]) then NextToken(s)
    else
      assert ServerWordLength(s) > 0;
      Some(([Classify(s[..ServerWordLength(s)])], ServerWordLength(s)))
  }

  /** The tokens of a filter. */
  function Read(s: string): Option<seq<Token>>
    decreases |s|
  {
    if s == "" then Some([])
    else
      var next :- ServerToken(s);
      var rest :- Read(s[next.1..]);
      Some(next.0 + rest)
  }

  /** Open minus closed parentheses. */
  function Depth(tokens: seq<Token>): int {
    if tokens == [] then 0
    else (match tokens[0] case Open => 1 case Close => -1 case _ => 0) + Depth(tokens[1..])
  }

  /** Every parenthesis is closed, and none before it is opened. */
  predicate Balanced(tokens: seq<Token>) {
    Depth(tokens) == 0 && forall i :: 0 <= i <= |tokens| ==> Depth(tokens[..i]) >= 0
  }

  // ---------- expressions ----------

  /**
   A value, or what an operator is applied to: a word, a keyword that names a property, a string, a literal of a named
   type, a call or a path that goes on after one, what is in parentheses, a JSON value, a `-` or a `not` before a value.
   */
  datatype Operand =
    | Spelled(text: string)
    | Keyword(token: Token)
    | Quoted(content: string)
    | Typed(kind: string, content: string)
    | Call(name: string, args: seq<Token>)
    | Along(start: Operand, path: Operand)
    | ListOf(items: seq<Token>)
    | Data(parts: seq<Token>)
    | Minus(of: Operand)
    | Negated(of: Operand)
  {
    function Tokens(): seq<Token> {
      match this
      case Spelled(text) => [Word(text)]
      case Keyword(token) => [token]
      case Quoted(content) => [Text(content)]
      case Typed(kind, content) => [Word(kind), Text(content)]
      case Call(name, args) => [Word(name), Open] + args + [Close]
      case Along(start, path) => start.Tokens() + path.Tokens()
      case ListOf(items) => [Open] + items + [Close]
      case Data(parts) => parts
      case Minus(x) => [Word("-")] + x.Tokens()
      case Negated(x) => [Negate] + x.Tokens()
    }

    predicate Valid() {
      match this
      case Spelled(text) => text != "" && (IsDigit(text[0]) ==> NumberText(text))
      case Keyword(token) => token.Disjoin? || token.Conjoin? || token.Negate? || token.Operator? || token.Infix?
      case Quoted(_) => true
      case Typed(kind, _) => kind != "" && !IsDigit(kind[0])
      case Call(name, args) => name != "" && !IsDigit(name[0]) && Balanced(args)
      case Along(start, path) => start.Call? && (path.Spelled? || path.Call? || path.Along?) && start.Valid() && path.Valid()
      case ListOf(items) => Balanced(items)
      case Data(parts) => JsonValue(parts)
      case Minus(x) => x.Valid()
      case Negated(x) => x.Valid()
    }
  }

  /** A property path or a function name: letters, digits, `_`, `.` and `/`, first a letter. */
  predicate PropertyPath(s: string) {
    && s != "" && IsLetter(s[0])
    && forall i :: 0 <= i < |s| ==> IsLetter(s[i]) || IsDigit(s[i]) || s[i] in "_./"
  }

  /** What starts with a digit is a number, a date or a GUID: there is no `n` in it. */
  predicate NumberText(s: string) {
    forall i :: 0 <= i < |s| ==> Lower(s[i]) != 'n'
  }

  /** Words, strings and commas, from a word that opens a bracket to one that closes one; no comparison is in it. */
  predicate JsonValue(parts: seq<Token>) {
    && parts != [] && Balanced(parts) && (forall t :: t in parts ==> !t.Operator?)
    && OpensBracket(parts[0]) && ClosesBracket(parts[|parts| - 1])
  }

  predicate OpensBracket(t: Token) {
    t.Word? && t.text != "" && (t.text[0] == '[' || t.text[0] == '{')
  }

  predicate ClosesBracket(t: Token) {
    t.Word? && t.text != "" && (t.text[|t.text| - 1] == ']' || t.text[|t.text| - 1] == '}')
  }

  /** An operator and what it is applied to, past the first operand. */
  datatype Link = Link(op: Token, operand: Operand) {
    predicate Valid() {
      (op.Operator? || op.Infix?) && operand.Valid()
    }
  }

  predicate ValidLinks(links: seq<Link>) {
    links == [] || (links[0].Valid() && ValidLinks(links[1..]))
  }

  function LinkTokens(links: seq<Link>): seq<Token> {
    if links == [] then [] else [links[0].op] + (links[0].operand.Tokens() + LinkTokens(links[1..]))
  }

  /** A condition is a value, or values with operators between them. */
  datatype Expr =
    | Or(left: Expr, right: Expr)
    | And(left: Expr, right: Expr)
    | Not(operand: Expr)
    | Group(inner: Expr)
    | Condition(first: Operand, links: seq<Link>)

  /** A property compared with a literal. */
  function Comparison(path: string, op: Op, literal: string): Expr {
    Condition(Spelled(path), [Link(Operator(op), Spelled(literal))])
  }

  function Tokens(e: Expr): seq<Token> {
    match e
    case Or(l, r) => Tokens(l) + [Disjoin] + Tokens(r)
    case And(l, r) => Tokens(l) + [Conjoin] + Tokens(r)
    case Not(x) => [Negate] + Tokens(x)
    case Group(x) => [Open] + Tokens(x) + [Close]
    case Condition(first, links) => first.Tokens() + LinkTokens(links)
  }

  /** What may stand beside an `or`, and so any expression. */
  predicate Disjunction(e: Expr)
    decreases e, 2
  {
    match e
    case Or(l, r) => Conjunction(l) && Disjunction(r)
    case _ => Conjunction(e)
  }

  predicate Conjunction(e: Expr)
    decreases e, 1
  {
    match e
    case And(l, r) => Unary(l) && Conjunction(r)
    case _ => Unary(e)
  }

  predicate Unary(e: Expr)
    decreases e, 0
  {
    match e
    case Or(_, _) => false
    case And(_, _) => false
    case Not(x) => Unary(x)
    case Group(x) => Disjunction(x)
    case Condition(first, links) => first.Valid() && ValidLinks(links)
  }

  /** `filter` reads as `e`. */
  predicate Parses(filter: string, e: Expr) {
    Disjunction(e) && Read(filter) == Some(Tokens(e))
  }

  // ---------- meaning ----------

  datatype Value = Null | Number(n: int) | Str(s: string) | Bool(b: bool)

  /**
   An entity, and how the server reads literals, makes values of other operands and of more than one operator, and orders
   strings; dates are numbers.
   */
  datatype Entity = Entity(
    property: string -> Value,
    literal: string -> Value,
    other: Operand -> Value,
    combined: (Operand, seq<Link>) -> Value,
    before: (string, string) -> bool)
  {
    function Of(x: Operand): Value {
      match x
      case Spelled(text) => if PropertyPath(text) then property(text) else literal(text)
      case Quoted(content) => Str(content)
      case _ => other(x)
    }

    predicate Less(a: Value, b: Value) {
      || (a.Number? && b.Number? && a.n < b.n)
      || (a.Str? && b.Str? && before(a.s, b.s))
    }

    /** A comparison with null is false, but for `eq` and `ne`. */
    predicate Holds(a: Value, op: Op, b: Value) {
      match op
      case Eq => a == b
      case Ne => a != b
      case Lt => Less(a, b)
      case Gt => Less(b, a)
      case Le => Less(a, b) || (a == b && !a.Null?)
      case Ge => Less(b, a) || (a == b && !a.Null?)
    }

    predicate Satisfies(e: Expr) {
      match e
      case Or(l, r) => Satisfies(l) || Satisfies(r)
      case And(l, r) => Satisfies(l) && Satisfies(r)
      case Not(x) => !Satisfies(x)
      case Group(x) => Satisfies(x)
      case Condition(first, links) =>
        if links == [] then Of(first) == Bool(true)
        else if |links| == 1 && links[0].op.Operator? then Holds(Of(first), links[0].op.op, Of(links[0].operand))
        else combined(first, links) == Bool(true)
    }
  }
}
