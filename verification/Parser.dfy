/** The parser as the shift-reduce machine that the grammar and its precedence declarations define:
    with a handle on top of the stack a production is reduced unless the precedence of the next
    token says to shift, and a token is shifted where the grammar allows it. */
module Parser {
  import opened Numbers
  import opened Options
  import opened Syntax

  /** Grammar symbols on the stack; a unit production is taken together with the one that feeds it. */
  datatype Symbol =
    | T(token: Token)
    | E(expr: Expr)
    | Items(items: seq<Expr>)
    | Entries(entries: seq<Entry>)
    | KeyValue(entry: Entry)
    | Fluent(chain: seq<Call>)
    | FuncCall(call: Call)

  datatype Stack = Bottom | Push(rest: Stack, top: Symbol)

  datatype Action = Shift | Reduce(stack: Stack) | Accept(expr: Expr) | Error

  function Unquoted(raw: string): string {
    if |raw| >= 2 then raw[1..|raw| - 1] else ""
  }

  /** `std::stoi` throws outside the range of an int. */
  function Stoi(digits: string): Option<int> {
    if Decimal(digits) <= INT_MAX then Some(Decimal(digits)) else None
  }

  /** A conflict between reducing a handle of this precedence and shifting the next token. */
  predicate Shifts(level: nat, next: Token) {
    match next
    case Operator(op) => Precedence(op) > level
    case Question => level <= 1
    case _ => false
  }

  predicate Infix(next: Token) {
    next.Operator? || next.Question?
  }

  predicate EndsOperand(s: Stack) {
    s.Push? && s.top.E?
  }

  predicate TopIs(s: Stack, token: Token) {
    s.Push? && s.top == T(token)
  }

  /** A string in key position of a dictionary, rather than an expression. */
  predicate KeyPosition(s: Stack) {
    TopIs(s, LeftBrace) || (TopIs(s, Comma) && s.rest.Push? && s.rest.top.Entries?)
  }

  /** A parenthesis that opens the arguments of a call, rather than a group. */
  predicate CallOpen(s: Stack) {
    TopIs(s, LeftPar) && s.rest.Push? && s.rest.top.T? && s.rest.top.token.Identifier?
  }

  predicate StartsExpr(next: Token) {
    match next
    case NullWord => true case TrueWord => true case FalseWord => true
    case Whole(_) => true case Decimals(_) => true case Quoted(_) => true
    case LeftPar => true case LeftSquare => true case LeftBrace => true
    case Dollar => true case Identifier(_) => true case Bang => true
    case Operator(Sub) => true
    case _ => false
  }

  function ReduceInteger(s: Stack, digits: string, negative: bool): Action {
    var n := Stoi(digits);
    if n.None? then Error else Reduce(Push(s, E(Integer(if negative then -n.value else n.value))))
  }

  /** A minus with no operand before it belongs to the number that follows. */
  predicate Negates(s: Stack) {
    TopIs(s, Operator(Sub)) && !EndsOperand(s.rest)
  }

  function OnToken(s: Stack, t: Token, next: Token): Action {
    match t
    case NullWord => Reduce(Push(s, E(Null)))
    case TrueWord => Reduce(Push(s, E(Boolean(true))))
    case FalseWord => Reduce(Push(s, E(Boolean(false))))
    case Whole(d) => if Negates(s) then ReduceInteger(s.rest, d, true) else ReduceInteger(s, d, false)
    case Decimals(d) => Reduce(if Negates(s) then Push(s.rest, E(Double(true, d))) else Push(s, E(Double(false, d))))
    case Quoted(raw) =>
      if KeyPosition(s) then (if next == Colon then Shift else Error)
      else Reduce(Push(s, E(String(Unquoted(raw)))))
    case Identifier(name) =>
      if TopIs(s, Dollar) then Reduce(Push(s.rest, E(Variable(name))))
      else if next == LeftPar then Shift else Error
    case RightPar => OnRightPar(s)
    case RightSquare =>
      if s.Push? && s.top.Items? && TopIs(s.rest, LeftSquare) then Reduce(Push(s.rest.rest, E(Array(s.top.items))))
      else Error
    case RightBrace =>
      if s.Push? && s.top.Entries? && TopIs(s.rest, LeftBrace) then Reduce(Push(s.rest.rest, E(Dict(s.top.entries))))
      else Error
    case LeftPar =>
      if CallOpen(Push(s, T(t))) && (next == RightPar || next == Comma) then Reduce(Push(Push(s, T(t)), Items([])))
      else if StartsExpr(next) then Shift else Error
    case LeftSquare =>
      if next == RightSquare || next == Comma then Reduce(Push(Push(s, T(t)), Items([])))
      else if StartsExpr(next) then Shift else Error
    case LeftBrace =>
      if next == RightBrace || next == Comma then Reduce(Push(Push(s, T(t)), Entries([])))
      else if next.Quoted? then Shift else Error
    case Operator(op) =>
      if EndsOperand(s) then (if StartsExpr(next) then Shift else Error)
      else if next.Whole? || next.Decimals? then Shift else Error
    case Comma =>
      if s.Push? && s.top.Entries? then (if next.Quoted? then Shift else Error)
      else if StartsExpr(next) then Shift else Error
    case Question => if StartsExpr(next) then Shift else Error
    case Colon => if StartsExpr(next) then Shift else Error
    case Bang => if StartsExpr(next) then Shift else Error
    case Dollar => if next.Identifier? then Shift else Error
    case Dot => if next.Identifier? then Shift else Error
    case End => Error
  }

  /** A closing parenthesis ends a group or the arguments of a call. */
  function OnRightPar(s: Stack): Action {
    if s.Push? && s.top.E? && TopIs(s.rest, LeftPar) then Reduce(Push(s.rest.rest, s.top))
    else if s.Push? && s.top.Items? && CallOpen(s.rest) then
      Reduce(Push(s.rest.rest.rest, FuncCall(Call(s.rest.rest.top.token.name, s.top.items))))
    else Error
  }

  function OnExpr(s: Stack, e: Expr, next: Token): Action {
    if s == Bottom then
      if Infix(next) then Shift else if next == End then Accept(e) else Error
    else if !s.top.T? then Error
    else
      match s.top.token
      case Bang => Reduce(Push(s.rest, E(Not(e))))
      case Operator(op) => OnOperand(s.rest, op, e, next)
      case Question => if EndsOperand(s.rest) && (Infix(next) || next == Colon) then Shift else Error
      case Colon => OnColon(s.rest, e, next)
      case LeftSquare => if Infix(next) then Shift else Reduce(Push(s, Items([e])))
      case LeftPar =>
        if Infix(next) then Shift
        else if CallOpen(s) then Reduce(Push(s, Items([e])))
        else if next == RightPar then Shift else Error
      case Comma =>
        if Infix(next) then Shift
        else if s.rest.Push? && s.rest.top.Items? then Reduce(Push(s.rest.rest, Items(s.rest.top.items + [e])))
        else Error
      case _ => Error
  }

  function OnOperand(s: Stack, op: Op, e: Expr, next: Token): Action {
    if !EndsOperand(s) then Error
    else if Shifts(Precedence(op), next) then Shift
    else Reduce(Push(s.rest, E(Binary(op, s.top.expr, e))))
  }

  /** The colon of a conditional expression or of a dictionary entry. */
  function OnColon(s: Stack, e: Expr, next: Token): Action {
    if EndsOperand(s) && TopIs(s.rest, Question) && EndsOperand(s.rest.rest) then
      if Shifts(1, next) then Shift
      else Reduce(Push(s.rest.rest.rest, E(Ternary(s.rest.rest.top.expr, s.top.expr, e))))
    else if s.Push? && s.top.T? && s.top.token.Quoted? then
      if Infix(next) then Shift else Reduce(Push(s.rest, KeyValue(Entry(Unquoted(s.top.token.raw), e))))
    else Error
  }

  function OnItems(s: Stack, next: Token): Action {
    if next == Comma || (next == RightSquare && TopIs(s, LeftSquare)) || (next == RightPar && CallOpen(s))
    then Shift else Error
  }

  function OnKeyValue(s: Stack, entry: Entry): Action {
    if TopIs(s, LeftBrace) then Reduce(Push(s, Entries(Insert([], entry))))
    else if KeyPosition(s) then Reduce(Push(s.rest.rest, Entries(Insert(s.rest.top.entries, entry))))
    else Error
  }

  function OnCall(s: Stack, call: Call): Action {
    if TopIs(s, Dot) && s.rest.Push? && s.rest.top.Fluent? && s.rest.top.chain != [] then
      Reduce(Push(s.rest.rest, Fluent(SetNext(s.rest.top.chain, call))))
    else Reduce(Push(s, Fluent([call])))
  }

  function Decide(s: Stack, next: Token): Action {
    if s == Bottom then (if StartsExpr(next) then Shift else Error)
    else
      match s.top
      case T(t) => OnToken(s.rest, t, next)
      case E(e) => OnExpr(s.rest, e, next)
      case Items(_) => OnItems(s.rest, next)
      case Entries(_) => if next == Comma || next == RightBrace then Shift else Error
      case KeyValue(entry) => OnKeyValue(s.rest, entry)
      case FuncCall(call) => OnCall(s.rest, call)
      case Fluent(chain) => if next == Dot then Shift else Reduce(Push(s.rest, E(Calls(chain))))
  }

  // ---- runs ----

  datatype State = Running(stack: Stack, input: seq<Token>) | Accepted(expr: Expr) | Rejected

  function Step(s: State): State {
    if !s.Running? then s
    else
      match Decide(s.stack, if s.input == [] then End else s.input[0])
      case Shift => if s.input == [] then Rejected else Running(Push(s.stack, T(s.input[0])), s.input[1..])
      case Reduce(stack) => Running(stack, s.input)
      case Accept(e) => Accepted(e)
      case Error => Rejected
  }

  function Run(s: State, n: nat): State
    decreases n
  {
    if n == 0 then s else Run(Step(s), n - 1)
  }

  /** The parser builds `e` from these tokens. */
  ghost predicate Parses(tokens: seq<Token>, e: Expr) {
    exists n: nat :: Run(Running(Bottom, tokens), n) == Accepted(e)
  }

  ghost predicate Reaches(s: State, s': State) {
    exists n: nat :: Run(s, n) == s'
  }

  lemma {:induction false} RunSum(s: State, m: nat, n: nat)
    ensures Run(s, m + n) == Run(Run(s, m), n)
    decreases m
  {
    if m > 0 { RunSum(Step(s), m - 1, n); }
  }

  lemma Trans(a: State, b: State, c: State)
    requires Reaches(a, b) && Reaches(b, c)
    ensures Reaches(a, c)
  {
    var m: nat :| Run(a, m) == b;
    var n: nat :| Run(b, n) == c;
    RunSum(a, m, n);
  }

  lemma One(s: State)
    ensures Reaches(s, Step(s))
  {
    assert Run(s, 1) == Step(s) by { assert Run(Step(s), 0) == Step(s); }
  }

  lemma {:induction false} Stays(e: Expr, n: nat)
    ensures Run(Accepted(e), n) == Accepted(e)
  {
    if n > 0 { Stays(e, n - 1); }
  }

  /** The machine is deterministic: tokens have at most one tree. */
  lemma ParseUnique(tokens: seq<Token>, e: Expr, e': Expr)
    requires Parses(tokens, e) && Parses(tokens, e')
    ensures e == e'
  {
    var start := Running(Bottom, tokens);
    var m: nat :| Run(start, m) == Accepted(e);
    var n: nat :| Run(start, n) == Accepted(e');
    if m <= n {
      RunSum(start, m, n - m);
      Stays(e, n - m);
    } else {
      RunSum(start, n, m - n);
      Stays(e', m - n);
    }
  }
}
