/**
 The query language of Jira: `or`, `||` or `|`, `and`, `&&` or `&`, `not` or `!` in increasing order of binding,
 groups, comparisons, lists, function calls, history searches, strings in either quote, and a final `order by`.
 Keywords are read in any case. A backslash takes the next character into the string or the word it stands in, and
 a brace outside a string makes no query. Where Jira refuses more, as some escapes and characters, the model reads on.
 */
module JqlQuery {
  import opened Chars
  import opened Wrappers

  // ---------- tokens ----------

  datatype Op = Eq | Ne | Gt | Ge | Lt | Le | Match | NotMatch

  datatype Token =
    | Disjoin
    | Conjoin
    | Negate
    | Operator(op: Op)
    | InList
    | IsA
    | Was
    | By
    | Order
    | Changed
    | When(limit: Limit)
    | Direction
    | Word(text: string)
    | Text(content: string)
    | Open
    | Close
    | Comma
    | SquareOpen
    | SquareClose

  /** What a search of the history may be limited by, beside an author. */
  datatype Limit = From | To | On | During | Before | After

  function TokenDepth(t: Token): int {
    if t == Open then 1 else if t == Close then -1 else 0
  }

  const KEYWORDS :=
    ["or", "and", "not", "in", "is", "was", "by", "order", "changed", "from", "to", "on", "during", "before", "after",
     "asc", "desc"]

  function Meaning(k: nat): (t: Token)
    requires k < 17
    ensures TokenDepth(t) == 0 && !t.Word? && !t.Text?
  {
    match k
    case 0 => Disjoin
    case 1 => Conjoin
    case 2 => Negate
    case 3 => InList
    case 4 => IsA
    case 5 => Was
    case 6 => By
    case 7 => Order
    case 8 => Changed
    case 9 => When(From)
    case 10 => When(To)
    case 11 => When(On)
    case 12 => When(During)
    case 13 => When(Before)
    case 14 => When(After)
    case _ => Direction
  }

  function ClassifyFrom(word: string, k: nat): (t: Token)
    ensures TokenDepth(t) == 0 && !t.Text? && (t.Word? ==> t.text == word)
    decreases 17 - k
  {
    if k >= 17 then Word(word)
    else if SameFold(word, KEYWORDS[k]) then Meaning(k)
    else ClassifyFrom(word, k + 1)
  }

  /** A word as a token: a keyword, or itself. */
  function Classify(word: string): (t: Token)
    ensures TokenDepth(t) == 0 && !t.Text? && (t.Word? ==> t.text == word)
  {
    ClassifyFrom(word, 0)
  }

  predicate Bracket(c: char) {
    c == '(' || c == ')' || c == ',' || c == '[' || c == ']'
  }

  predicate Mark(c: char) {
    c == '"' || c == '\''
  }

  predicate Symbol(c: char) {
    c == '=' || c == '!' || c == '<' || c == '>' || c == '~' || c == '&' || c == '|'
  }

  /** What may be the second character of a symbol. */
  predicate Continues(c: char) {
    c == '=' || c == '~' || c == '&' || c == '|'
  }

  /** What is no part of a word and starts no token, but that a backslash starts a word for Jira. */
  predicate Illegal(c: char) {
    c == '\\' || c == '{' || c == '}'
  }

  /** What ends a word, any blank and the backslash included. */
  predicate Delimiter(c: char) {
    IsSpace(c) || Bracket(c) || Mark(c) || Symbol(c) || Illegal(c)
  }

  function WordLength(s: string): (n: nat)
    ensures n <= |s|
    ensures forall i :: 0 <= i < n ==> !Delimiter(s[i])
    ensures n < |s| ==> Delimiter(s[n])
  {
    if s == "" || Delimiter(s[0]) then 0 else 1 + WordLength(s[1..])
  }

  /** How much of `s` a string takes that `mark` opened before it, with its closing mark; 0 when it is not closed. */
  function TextLength(mark: char, s: string): (n: nat)
    ensures n <= |s|
    decreases |s|
  {
    if s == "" then 0
    else if s[0] == mark then 1
    else
      var skip := if s[0] == '\\' && |s| > 1 then 2 else 1;
      var rest := TextLength(mark, s[skip..]);
      if rest == 0 then 0 else rest + skip
  }

  /** The length of the symbol a text starts with. */
  function SymbolLength(s: string): (n: nat)
    requires s != "" && Symbol(s[0])
    ensures 1 <= n <= |s| && n <= 2
  {
    var double := |s| > 1 && Continues(s[1]);
    if s[0] == '&' || s[0] == '|' then if double && s[1] == s[0] then 2 else 1
    else if s[0] == '=' || s[0] == '~' then 1
    else if double && (s[1] == '=' || (s[0] == '!' && s[1] == '~')) then 2
    else 1
  }

  /** What a symbol means, by its first character and whether it has a second one. */
  function SymbolToken(c: char, double: bool, tilde: bool): (t: Token)
    requires Symbol(c)
    ensures TokenDepth(t) == 0 && !t.Word? && !t.Text?
  {
    if c == '&' then Conjoin
    else if c == '|' then Disjoin
    else if c == '=' then Operator(Eq)
    else if c == '~' then Operator(Match)
    else if c == '<' then Operator(if double then Le else Lt)
    else if c == '>' then Operator(if double then Ge else Gt)
    else if double then Operator(if tilde then NotMatch else Ne)
    else Negate
  }

  function BracketToken(c: char): Token
    requires Bracket(c)
  {
    match c
    case '(' => Open
    case ')' => Close
    case '[' => SquareOpen
    case ']' => SquareClose
    case _ => Comma
  }

  /** The next token where a query has no backslash in a word and no blank but Jira's: none for a blank, and its length. */
  function NextToken(s: string): (r: Option<(seq<Token>, nat)>)
    ensures r.Some? ==> 0 < r.value.1 <= |s|
  {
    if s == "" then None
    else if IsSpace(s[0]) then Some(([], 1))
    else if Bracket(s[0]) then Some(([BracketToken(s[0])], 1))
    else if Mark(s[0]) then
      var n := TextLength(s[0], s[1..]);
      if n == 0 then None else Some(([Text(s[1..n])], n + 1))
    else if Symbol(s[0]) then
      var n := SymbolLength(s);
      Some(([SymbolToken(s[0], n == 2, n == 2 && s[1] == '~')], n))
    else if Illegal(s[0]) then None
    else
      assert WordLength(s) > 0;
      Some(([Classify(s[..WordLength(s)])], WordLength(s)))
  }

  type Reader = string -> Option<(seq<Token>, nat)>

  /** What a reader of tokens makes of a text. */
  function LexBy(next: Reader, s: string): Option<seq<Token>>
    decreases |s|
  {
    if s == "" then Some([])
    else
      var first :- next(s);
      if 0 < first.1 <= |s| then
        var rest :- LexBy(next, s[first.1..]);
        Some(first.0 + rest)
      else None
  }

  function Lex(s: string): Option<seq<Token>> {
    LexBy(NextToken, s)
  }

  // ---------- tokens as Jira reads them ----------

  /** What Jira takes for a blank: any other one is part of a word. */
  predicate Blank(c: char) {
    c == ' ' || c == '\t' || c == '\n' || c == '\r'
  }

  /** What ends a word of Jira. */
  predicate Stops(c: char) {
    Blank(c) || Bracket(c) || Mark(c) || Symbol(c) || c == '{' || c == '}'
  }

  /** A backslash takes the next character into the word, and is part of no word when there is none. */
  function JiraWordLength(s: string): (n: nat)
    ensures n <= |s|
    decreases |s|
  {
    if s == "" || Stops(s[0]) then 0
    else if s[0] != '\\' then 1 + JiraWordLength(s[1..])
    else if |s| == 1 then 0
    else 2 + JiraWordLength(s[2..])
  }

  /** The next token of Jira: a word goes on over escapes and over blanks that are not Jira's. */
  function JiraToken(s: string): (r: Option<(seq<Token>, nat)>)
    ensures r.Some? ==> 0 < r.value.1 <= |s|
  {
    if s == "" then None
    else if Blank(s[0]) then Some(([], 1))
    else if Bracket(s[0]) || Mark(s[0]) || Symbol(s[0]) then NextToken(s)
    else
      var n := JiraWordLength(s);
      if n == 0 then None else Some(([Classify(s[..n])], n))
  }

  /** The tokens of a query of Jira. */
  function Read(s: string): Option<seq<Token>> {
    LexBy(JiraToken, s)
  }

  /** Open minus closed parentheses. */
  function Depth(tokens: seq<Token>): int {
    if tokens == [] then 0 else TokenDepth(tokens[0]) + Depth(tokens[1..])
  }

  /** Every parenthesis is closed, and none before it is opened. */
  predicate Balanced(tokens: seq<Token>) {
    Depth(tokens) == 0 && forall i :: 0 <= i <= |tokens| ==> Depth(tokens[..i]) >= 0
  }

  /** A word or a string: what names a field or a function, or spells a value. */
  predicate IsName(t: Token) {
    t.Word? || t.Text?
  }

  /** No two of those stand side by side: there is a keyword, a symbol, a comma or a bracket between them. */
  predicate Sparse(tokens: seq<Token>) {
    forall i :: 0 < i < |tokens| ==> !(IsName(tokens[i - 1]) && IsName(tokens[i]))
  }

  // ---------- expressions ----------

  /** A value: a word, a string, a function or a list of anything balanced in which no two names stand side by side. */
  datatype Operand =
    | Spelled(text: string)
    | Quoted(content: string)
    | Call(name: Token, args: seq<Token>)
    | ListOf(items: seq<Token>)
  {
    function Tokens(): seq<Token> {
      match this
      case Spelled(text) => [Word(text)]
      case Quoted(content) => [Text(content)]
      case Call(name, args) => [name, Open] + args + [Close]
      case ListOf(items) => [Open] + items + [Close]
    }

    predicate Valid() {
      match this
      case Spelled(_) => true
      case Quoted(_) => true
      case Call(name, args) => IsName(name) && Balanced(args) && Sparse(args) && Order !in args
      case ListOf(items) => Balanced(items) && Sparse(items) && Order !in items
    }
  }

  /** A field is named by a word or a string, or is one of the properties such a name has, at a key and on a path or not. */
  datatype Field =
    | Named(name: string)
    | NamedInQuotes(name: string)
    | Property(of: Token, key: Token, path: Option<string>)
  {
    function Tokens(): seq<Token> {
      match this
      case Named(name) => [Word(name)]
      case NamedInQuotes(name) => [Text(name)]
      case Property(of, key, path) =>
        [of, SquareOpen, key, SquareClose] + if path.Some? then [Word(path.value)] else []
    }

    predicate Valid() {
      Property? ==> IsName(of) && IsName(key)
    }
  }

  datatype Relation = Compare(op: Op) | Among | NotAmong | Being | NotBeing {
    function Tokens(): seq<Token> {
      match this
      case Compare(op) => [Operator(op)]
      case Among => [InList]
      case NotAmong => [Negate, InList]
      case Being => [IsA]
      case NotBeing => [IsA, Negate]
    }
  }

  datatype Expr =
    | Or(left: Expr, right: Expr)
    | And(left: Expr, right: Expr)
    | Not(operand: Expr)
    | Group(inner: Expr)
    | Clause(field: Field, relation: Relation, value: Operand)
    | History(field: Field, past: Past, limits: seq<Detail>)

  /** What a search of the history looks for: any change, or a value the field had or did not have. */
  datatype Past = Changing | Having(negated: bool, among: bool, value: Operand) {
    function Words(): seq<Token> {
      if Changing? then [Changed]
      else [Was] + (if negated then [Negate] else []) + if among then [InList] else []
    }

    function Tokens(): seq<Token> {
      if Changing? then Words() else Words() + value.Tokens()
    }

    predicate Valid() {
      Having? ==> value.Valid()
    }
  }

  /** A limit of such a search: its author, or when or between which values the change was. */
  datatype Detail = ByAuthor(value: Operand) | Limited(limit: Limit, value: Operand) {
    function Key(): Token {
      if ByAuthor? then By else When(limit)
    }

    function Tokens(): seq<Token> {
      [Key()] + value.Tokens()
    }
  }

  predicate ValidDetails(limits: seq<Detail>) {
    limits == [] || (limits[0].value.Valid() && ValidDetails(limits[1..]))
  }

  function DetailTokens(limits: seq<Detail>): seq<Token> {
    if limits == [] then [] else limits[0].Tokens() + DetailTokens(limits[1..])
  }

  function Tokens(e: Expr): seq<Token> {
    match e
    case Or(l, r) => Tokens(l) + [Disjoin] + Tokens(r)
    case And(l, r) => Tokens(l) + [Conjoin] + Tokens(r)
    case Not(x) => [Negate] + Tokens(x)
    case Group(x) => [Open] + Tokens(x) + [Close]
    case Clause(field, relation, value) => field.Tokens() + relation.Tokens() + value.Tokens()
    case History(field, past, limits) => field.Tokens() + past.Tokens() + DetailTokens(limits)
  }

  /** What may stand beside an `or`, and so any expression. */
  predicate Disjunction(e: Expr)
    decreases e, 2
  {
    match e
    case Or(l, r) => Conjunction(l) && Disjunction(r)
    case _ => Conjunction(e)
  }

  predicate Conjunction(e: Expr)
    decreases e, 1
  {
    match e
    case And(l, r) => Unary(l) && Conjunction(r)
    case _ => Unary(e)
  }

  predicate Unary(e: Expr)
    decreases e, 0
  {
    match e
    case Or(_, _) => false
    case And(_, _) => false
    case Not(x) => Unary(x)
    case Group(x) => Disjunction(x)
    case Clause(field, _, value) => field.Valid() && value.Valid()
    case History(field, past, limits) => field.Valid() && past.Valid() && ValidDetails(limits)
  }

  predicate InOrdering(t: Token) {
    IsName(t) || t == Comma || t == SquareOpen || t == SquareClose || t == Direction
  }

  /** The end of a query: nothing, or `order by` and fields, each with a direction or not. */
  predicate OrderClause(tokens: seq<Token>) {
    tokens == []
    || (|tokens| > 2 && tokens[0] == Order && tokens[1] == By
        && Sparse(tokens) && forall i :: 2 <= i < |tokens| ==> InOrdering(tokens[i]))
  }

  /** `query` reads as `e` with the given ordering. */
  predicate Parses(query: string, e: Expr, ordering: seq<Token>) {
    Disjunction(e) && OrderClause(ordering) && Read(query) == Some(Tokens(e) + ordering)
  }

  // ---------- meaning ----------

  datatype Value = Null | Number(n: int) | Str(s: string)

  function LowerAll(s: string): string {
    seq(|s|, i requires 0 <= i < |s| => Lower(s[i]))
  }

  /** An issue, and how the server reads values, compares strings and searches histories; dates are numbers. */
  datatype Issue = Issue(
    field: string -> Value,
    property: Field -> Value,
    read: Operand -> Value,
    relates: (Value, Relation, Value) -> bool,
    was: (Field, Past, seq<Detail>) -> bool)
  {
    /** The names of fields are read in any case. */
    function At(f: Field): Value {
      if f.Property? then property(f) else field(LowerAll(f.name))
    }

    /** Numbers and dates are compared as such; any other comparison is the server's. */
    predicate Holds(a: Value, relation: Relation, b: Value) {
      if a.Number? && b.Number? && relation.Compare? then
        match relation.op
        case Eq => a.n == b.n
        case Ne => a.n != b.n
        case Gt => a.n > b.n
        case Ge => a.n >= b.n
        case Lt => a.n < b.n
        case Le => a.n <= b.n
        case _ => relates(a, relation, b)
      else relates(a, relation, b)
    }

    predicate Satisfies(e: Expr) {
      match e
      case Or(l, r) => Satisfies(l) || Satisfies(r)
      case And(l, r) => Satisfies(l) && Satisfies(r)
      case Not(x) => !Satisfies(x)
      case Group(x) => Satisfies(x)
      case Clause(f, relation, value) => Holds(At(f), relation, read(value))
      case History(f, past, limits) => was(f, past, limits)
    }
  }
}
