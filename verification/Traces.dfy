/** Every accepted run of the machine traces a derivation, so that the parser accepts exactly the tokens that
    have a derivation by the grammar and its precedence declarations. */
module Traces {
  import opened Builds
  import opened Grammar
  import opened Parser
  import opened Seqs
  import opened Syntax

  /** A stack of the machine, with the derivation of each symbol. */
  datatype Nodes = Empty | Over(rest: Nodes, top: Node)

  datatype Node =
    | TokenNode(token: Token)
    | ExprNode(d: Derivation)
    | ListNode(l: List)
    | PairsNode(ps: Pairs)
    | PairNode(p: Pair)
    | ChainNode(c: Chain)
    | CallNode(call: Invocation)

  function SymbolOf(n: Node): Symbol {
    match n
    case TokenNode(t) => T(t)
    case ExprNode(d) => E(Value(d))
    case ListNode(l) => Items(ListValue(l))
    case PairsNode(ps) => Entries(PairsValue(ps))
    case PairNode(p) => KeyValue(PairValue(p))
    case ChainNode(c) => Fluent(ChainValue(c))
    case CallNode(call) => FuncCall(CallValue(call))
  }

  function StackOf(ns: Nodes): Stack {
    match ns
    case Empty => Bottom
    case Over(rest, top) => Push(StackOf(rest), SymbolOf(top))
  }

  function NodeYield(n: Node): seq<Token> {
    match n
    case TokenNode(t) => [t]
    case ExprNode(d) => Yield(d)
    case ListNode(l) => ListYield(l)
    case PairsNode(ps) => PairsYield(ps)
    case PairNode(p) => PairYield(p)
    case ChainNode(c) => ChainYield(c)
    case CallNode(call) => CallYield(call)
  }

  function NodesYield(ns: Nodes): seq<Token> {
    match ns
    case Empty => []
    case Over(rest, top) => NodesYield(rest) + NodeYield(top)
  }

  // ---- where each symbol can stand ----

  predicate OverExpr(ns: Nodes) {
    ns.Over? && ns.top.ExprNode?
  }

  predicate TokenFits(ns: Nodes, t: Token) {
    var s := StackOf(ns);
    match t
    case Operator(op) =>
      || (OverExpr(ns) && Pending(s.rest) <= Precedence(op) <= Binding(ns.top.d))
      || (op == Sub && Opens(s))
    case Question => OverExpr(ns) && Pending(s.rest) <= 1 < Binding(ns.top.d)
    case Colon =>
      || (OverExpr(ns) && TopIs(s.rest, Question))
      || (s.Push? && s.top.T? && s.top.token.Quoted? && KeyPosition(s.rest))
    case Comma => ns.Over? && (ns.top.ListNode? || ns.top.PairsNode?)
    case LeftPar => Opens(s) || (s.Push? && s.top.T? && s.top.token.Identifier? && CallStarts(s.rest))
    case Identifier(_) => CallStarts(s) || (TopIs(s, Dollar) && Opens(s.rest))
    case Whole(_) => Opens(s) || (TopIs(s, Operator(Sub)) && Opens(s.rest))
    case Decimals(_) => Opens(s) || (TopIs(s, Operator(Sub)) && Opens(s.rest))
    case Quoted(_) => Opens(s) || KeyPosition(s)
    case RightPar =>
      || (OverExpr(ns) && TopIs(s.rest, LeftPar) && !CallOpen(s.rest))
      || (ns.Over? && ns.top.ListNode? && CallOpen(s.rest))
    case RightSquare => ns.Over? && ns.top.ListNode? && TopIs(s.rest, LeftSquare)
    case RightBrace => ns.Over? && ns.top.PairsNode?
    case Dot => ns.Over? && ns.top.ChainNode?
    case End => false
    case _ => Opens(s)
  }

  predicate Fits(ns: Nodes, n: Node) {
    var s := StackOf(ns);
    match n
    case TokenNode(t) => TokenFits(ns, t)
    case ExprNode(d) => Respects(d) && Opens(s) && Pending(s) <= Binding(d)
    case ListNode(l) => ListRespects(l) && ListOpen(s)
    case PairsNode(ps) => PairsRespect(ps) && TopIs(s, LeftBrace)
    case PairNode(p) => Respects(p.value) && KeyPosition(s)
    case ChainNode(c) => ChainRespects(c) && Opens(s)
    case CallNode(call) => ListRespects(call.args) && CallStarts(s)
  }

  predicate Shaped(ns: Nodes) {
    ns.Over? ==> Fits(ns.rest, ns.top) && Shaped(ns.rest)
  }

  /** An expression on top binds at least as tightly as the operator that comes next. */
  predicate Follows(ns: Nodes, next: Token) {
    OverExpr(ns) ==>
      && (next.Operator? ==> Precedence(next.op) <= Binding(ns.top.d))
      && (next == Question ==> 1 < Binding(ns.top.d))
  }

  // ---- a token that is shifted has its place ----

  lemma StartFits(ns: Nodes, next: Token)
    requires Opens(StackOf(ns)) && StartsExpr(next)
    ensures TokenFits(ns, next)
  {
  }

  lemma ShiftOverToken(ns: Nodes, t: Token, next: Token)
    requires Shaped(ns) && TokenFits(ns, t) && OnToken(StackOf(ns), t, next) == Shift
    ensures TokenFits(Over(ns, TokenNode(t)), next)
  {
    if t == Colon { ColonOpens(ns); }
    if Opens(Push(StackOf(ns), T(t))) {
      StartFits(Over(ns, TokenNode(t)), next);
    } else {
      OtherOverToken(ns, t, next);
    }
  }

  /** A token that does not begin an expression. */
  lemma OtherOverToken(ns: Nodes, t: Token, next: Token)
    requires Shaped(ns) && TokenFits(ns, t) && !Opens(Push(StackOf(ns), T(t))) && OnToken(StackOf(ns), t, next) == Shift
    ensures TokenFits(Over(ns, TokenNode(t)), next)
  {
    if t.Quoted? || t.Identifier? {
      SignOverName(ns, t, next);
    } else if t == LeftBrace || t == Comma {
      KeyOverToken(ns, t, next);
    }
  }

  /** A colon after a key, and the parenthesis of a call. */
  lemma SignOverName(ns: Nodes, t: Token, next: Token)
    requires Shaped(ns) && TokenFits(ns, t) && !Opens(Push(StackOf(ns), T(t))) && OnToken(StackOf(ns), t, next) == Shift
    requires t.Quoted? || t.Identifier?
    ensures TokenFits(Over(ns, TokenNode(t)), next)
  {
  }

  /** A key in a dictionary. */
  lemma KeyOverToken(ns: Nodes, t: Token, next: Token)
    requires Shaped(ns) && TokenFits(ns, t) && !Opens(Push(StackOf(ns), T(t))) && OnToken(StackOf(ns), t, next) == Shift
    requires t == LeftBrace || t == Comma
    ensures TokenFits(Over(ns, TokenNode(t)), next)
  {
  }

  /** An expression can begin after a colon. */
  lemma ColonOpens(ns: Nodes)
    requires Shaped(ns) && TokenFits(ns, Colon)
    ensures Opens(Push(StackOf(ns), T(Colon)))
  {
    if OverExpr(ns) && TopIs(StackOf(ns).rest, Question) { QuestionBelow(ns.rest); }
  }

  lemma QuestionBelow(ns: Nodes)
    requires Shaped(ns) && TopIs(StackOf(ns), Question)
    ensures ns.Over? && ns.top == TokenNode(Question) && TokenFits(ns.rest, Question) && OverExpr(ns.rest)
    ensures Shaped(ns.rest) && Fits(ns.rest.rest, ns.rest.top) && Shaped(ns.rest.rest)
  {
  }

  lemma InfixShifted(s: Stack, e: Expr, next: Token)
    requires Opens(s) && Infix(next) && OnExpr(s, e, next) == Shift
    ensures Pending(s) <= if next.Operator? then Precedence(next.op) else 1
  {
    if s.Push? && s.top.token.Colon? && !TernaryColon(s) { assert Pending(s) == 0; }
  }

  lemma OtherShifted(s: Stack, e: Expr, next: Token)
    requires Opens(s) && !Infix(next) && OnExpr(s, e, next) == Shift
    ensures if next == Colon then TopIs(s, Question) else next == RightPar && TopIs(s, LeftPar) && !CallOpen(s)
  {
  }

  lemma ShiftOverExpr(ns: Nodes, d: Derivation, next: Token)
    requires Opens(StackOf(ns)) && Follows(Over(ns, ExprNode(d)), next)
    requires OnExpr(StackOf(ns), Value(d), next) == Shift
    ensures TokenFits(Over(ns, ExprNode(d)), next)
  {
    var s := StackOf(ns);
    assert StackOf(Over(ns, ExprNode(d))).rest == s;
    if Infix(next) { InfixShifted(s, Value(d), next); } else { OtherShifted(s, Value(d), next); }
  }

  lemma ShiftFits(ns: Nodes, next: Token)
    requires Shaped(ns) && Follows(ns, next) && Decide(StackOf(ns), next) == Shift
    ensures next != End && Shaped(Over(ns, TokenNode(next)))
  {
    match ns
    case Empty => StartFits(ns, next);
    case Over(rest, TokenNode(t)) => ShiftOverToken(rest, t, next);
    case Over(rest, ExprNode(d)) => ShiftOverExpr(rest, d, next);
    case Over(rest, _) =>
  }

  // ---- a reduction builds a derivation ----

  /** The reduced stack has the same tokens, and everything still has its place. */
  predicate Traced(ns: Nodes, s: Stack, next: Token, ns': Nodes) {
    StackOf(ns') == s && NodesYield(ns') == NodesYield(ns) && Shaped(ns') && Follows(ns', next)
  }

  lemma ReduceWord(ns: Nodes, t: Token, next: Token, s: Stack) returns (ns': Nodes)
    requires Shaped(ns) && TokenFits(ns, t) && OnToken(StackOf(ns), t, next) == Reduce(s)
    requires t == NullWord || t == TrueWord || t == FalseWord
    ensures Traced(Over(ns, TokenNode(t)), s, next, ns')
  {
    ns' := Over(ns, ExprNode(Word(t)));
  }

  lemma ReduceLiteral(ns: Nodes, raw: string, next: Token, s: Stack) returns (ns': Nodes)
    requires Shaped(ns) && TokenFits(ns, Quoted(raw)) && OnToken(StackOf(ns), Quoted(raw), next) == Reduce(s)
    ensures Traced(Over(ns, TokenNode(Quoted(raw))), s, next, ns')
  {
    ns' := Over(ns, ExprNode(Literal(raw)));
  }

  lemma Regrouped(a: seq<Token>, b: seq<Token>, c: seq<Token>, d: seq<Token>, e: seq<Token>)
    ensures a + b + c + d + e == a + (b + c + d + e)
    ensures a + b + c + d == a + (b + c + d)
    ensures a + b + c == a + (b + c)
  {
  }

  lemma ReduceNumber(ns: Nodes, t: Token, next: Token, s: Stack) returns (ns': Nodes)
    requires Shaped(ns) && TokenFits(ns, t) && (t.Whole? || t.Decimals?) && OnToken(StackOf(ns), t, next) == Reduce(s)
    ensures Traced(Over(ns, TokenNode(t)), s, next, ns')
  {
    var negative := Negates(StackOf(ns));
    var d := if t.Whole? then Number(negative, t.digits) else Fraction(negative, t.digits);
    if negative {
      ns' := Over(ns.rest, ExprNode(d));
      SignedYield(ns, t);
    } else {
      ns' := Over(ns, ExprNode(d));
    }
  }

  lemma SignedYield(ns: Nodes, t: Token)
    requires ns.Over? && ns.top == TokenNode(Operator(Sub))
    ensures NodesYield(ns) + [t] == NodesYield(ns.rest) + Signed(true, t)
  {
    Assoc(NodesYield(ns.rest), [Operator(Sub)], [t]);
    assert [Operator(Sub)] + [t] == [Operator(Sub), t];
  }

  lemma ReduceVariable(ns: Nodes, name: string, next: Token, s: Stack) returns (ns': Nodes)
    requires Shaped(ns) && TokenFits(ns, Identifier(name)) && OnToken(StackOf(ns), Identifier(name), next) == Reduce(s)
    ensures Traced(Over(ns, TokenNode(Identifier(name))), s, next, ns')
  {
    ns' := Over(ns.rest, ExprNode(Dollared(name)));
    Regrouped(NodesYield(ns.rest), [Dollar], [Identifier(name)], [], []);
    assert [Dollar] + [Identifier(name)] == [Dollar, Identifier(name)];
  }

  /** An empty list or dictionary. */
  lemma ReduceEmpty(ns: Nodes, t: Token, next: Token, s: Stack) returns (ns': Nodes)
    requires Shaped(ns) && TokenFits(ns, t) && (t == LeftPar || t == LeftSquare || t == LeftBrace)
    requires OnToken(StackOf(ns), t, next) == Reduce(s)
    ensures Traced(Over(ns, TokenNode(t)), s, next, ns')
  {
    ns' := Over(Over(ns, TokenNode(t)), if t == LeftBrace then PairsNode(NoPairs) else ListNode(NoItems));
    assert NodesYield(Over(ns, TokenNode(t))) + [] == NodesYield(Over(ns, TokenNode(t)));
  }

  lemma ReduceBrackets(ns: Nodes, t: Token, next: Token, s: Stack) returns (ns': Nodes)
    requires Shaped(ns) && TokenFits(ns, t) && (t == RightSquare || t == RightBrace)
    requires OnToken(StackOf(ns), t, next) == Reduce(s)
    ensures Traced(Over(ns, TokenNode(t)), s, next, ns')
  {
    var open := ns.rest;
    assert open.Over? && open.top.TokenNode? && Shaped(open) && TokenFits(open.rest, open.top.token);
    ns' := Over(open.rest, ExprNode(if t == RightSquare then Bracketed(ns.top.l) else Braced(ns.top.ps)));
    Regrouped(NodesYield(open.rest), [open.top.token], NodeYield(ns.top), [t], []);
    assert NodesYield(ns) == NodesYield(open.rest) + [open.top.token] + NodeYield(ns.top) && Shaped(open.rest);
  }

  lemma ReduceGroup(ns: Nodes, next: Token, s: Stack) returns (ns': Nodes)
    requires Shaped(ns) && TokenFits(ns, RightPar) && OverExpr(ns) && OnRightPar(StackOf(ns)) == Reduce(s)
    ensures Traced(Over(ns, TokenNode(RightPar)), s, next, ns')
  {
    var open := ns.rest;
    assert open.Over? && open.top == TokenNode(LeftPar) && Shaped(open) && TokenFits(open.rest, LeftPar);
    ns' := Over(open.rest, ExprNode(Group(ns.top.d)));
    Regrouped(NodesYield(open.rest), [LeftPar], Yield(ns.top.d), [RightPar], []);
    assert NodesYield(ns) == NodesYield(open.rest) + [LeftPar] + Yield(ns.top.d) && Shaped(open.rest);
  }

  lemma ReduceCall(ns: Nodes, next: Token, s: Stack) returns (ns': Nodes)
    requires Shaped(ns) && TokenFits(ns, RightPar) && !OverExpr(ns) && OnRightPar(StackOf(ns)) == Reduce(s)
    ensures Traced(Over(ns, TokenNode(RightPar)), s, next, ns')
  {
    var open := ns.rest;
    assert open.Over? && open.top == TokenNode(LeftPar) && Shaped(open) && TokenFits(open.rest, LeftPar);
    var id := open.rest;
    assert id.Over? && id.top.TokenNode? && id.top.token.Identifier? && Shaped(id);
    var name := id.top.token.name;
    ns' := Over(id.rest, CallNode(Invocation(name, ns.top.l)));
    Regrouped(NodesYield(id.rest), [Identifier(name)], [LeftPar], ListYield(ns.top.l), [RightPar]);
    assert [Identifier(name)] + [LeftPar] == [Identifier(name), LeftPar];
    assert NodesYield(open) == NodesYield(id.rest) + [Identifier(name)] + [LeftPar] && Shaped(id.rest);
    assert NodesYield(ns) == NodesYield(open) + ListYield(ns.top.l);
  }

  lemma ReduceToken(ns: Nodes, t: Token, next: Token, s: Stack) returns (ns': Nodes)
    requires Shaped(ns) && TokenFits(ns, t) && OnToken(StackOf(ns), t, next) == Reduce(s)
    ensures Traced(Over(ns, TokenNode(t)), s, next, ns')
  {
    match t
    case Whole(_) => ns' := ReduceNumber(ns, t, next, s);
    case Decimals(_) => ns' := ReduceNumber(ns, t, next, s);
    case Identifier(name) => ns' := ReduceVariable(ns, name, next, s);
    case LeftPar => ns' := ReduceEmpty(ns, t, next, s);
    case LeftSquare => ns' := ReduceEmpty(ns, t, next, s);
    case LeftBrace => ns' := ReduceEmpty(ns, t, next, s);
    case RightSquare => ns' := ReduceBrackets(ns, t, next, s);
    case RightBrace => ns' := ReduceBrackets(ns, t, next, s);
    case RightPar =>
      if OverExpr(ns) { ns' := ReduceGroup(ns, next, s); } else { ns' := ReduceCall(ns, next, s); }
    case Quoted(raw) => ns' := ReduceLiteral(ns, raw, next, s);
    case _ => ns' := ReduceWord(ns, t, next, s);
  }

  lemma ReduceNegation(ns: Nodes, d: Derivation, next: Token) returns (ns': Nodes)
    requires Shaped(Over(ns, ExprNode(d))) && TopIs(StackOf(ns), Bang)
    ensures Traced(Over(ns, ExprNode(d)), Push(StackOf(ns).rest, E(Not(Value(d)))), next, ns')
  {
    assert TokenFits(ns.rest, Bang);
    ns' := Over(ns.rest, ExprNode(Negation(d)));
    Regrouped(NodesYield(ns.rest), [Bang], Yield(d), [], []);
  }

  lemma ReduceOperation(ns: Nodes, op: Op, d: Derivation, next: Token, s: Stack) returns (ns': Nodes)
    requires Shaped(Over(ns, ExprNode(d))) && TopIs(StackOf(ns), Operator(op))
    requires OnOperand(StackOf(ns).rest, op, Value(d), next) == Reduce(s)
    ensures Traced(Over(ns, ExprNode(d)), s, next, ns')
  {
    var left := ns.rest;
    assert TokenFits(left, Operator(op)) && OverExpr(left) && Shaped(left);
    assert Fits(left.rest, left.top) && Shaped(left.rest) && !Opens(StackOf(left));
    ns' := Over(left.rest, ExprNode(Operation(op, left.top.d, d)));
    Regrouped(NodesYield(left.rest), Yield(left.top.d), [Operator(op)], Yield(d), []);
    assert NodesYield(ns) == NodesYield(left.rest) + Yield(left.top.d) + [Operator(op)];
  }

  lemma ReduceChoice(ns: Nodes, d: Derivation, next: Token) returns (ns': Nodes)
    requires Shaped(Over(ns, ExprNode(d))) && TernaryColon(StackOf(ns)) && !Infix(next)
    ensures var s := StackOf(ns);
      Traced(Over(ns, ExprNode(d)),
             Push(s.rest.rest.rest.rest, E(Ternary(s.rest.rest.rest.top.expr, s.rest.top.expr, Value(d)))), next, ns')
  {
    var yes, question := ns.rest, ns.rest.rest;
    assert Shaped(ns) && Shaped(yes) && Shaped(question) && OverExpr(yes) && Fits(question, yes.top);
    QuestionBelow(question);
    var cond := question.rest;
    ns' := Over(cond.rest, ExprNode(Choice(cond.top.d, yes.top.d, d)));
    Regrouped(NodesYield(cond.rest), Yield(cond.top.d), [Question], Yield(yes.top.d), [Colon]);
    Regrouped(NodesYield(cond.rest), Yield(cond.top.d) + [Question] + Yield(yes.top.d), [Colon], Yield(d), []);
    assert NodesYield(question) == NodesYield(cond.rest) + Yield(cond.top.d) + [Question];
    assert NodesYield(ns) == NodesYield(question) + Yield(yes.top.d) + [Colon];
  }

  lemma ReducePair(ns: Nodes, d: Derivation, next: Token) returns (ns': Nodes)
    requires Shaped(Over(ns, ExprNode(d))) && TopIs(StackOf(ns), Colon)
    requires StackOf(ns).rest.Push? && StackOf(ns).rest.top.T? && StackOf(ns).rest.top.token.Quoted?
    ensures var key := StackOf(ns).rest;
      Traced(Over(ns, ExprNode(d)), Push(key.rest, KeyValue(Entry(Unquoted(key.top.token.raw), Value(d)))), next, ns')
  {
    var key := ns.rest;
    assert TokenFits(key, Colon) && Shaped(key) && Shaped(key.rest);
    ns' := Over(key.rest, PairNode(Pair(key.top.token.raw, d)));
    Regrouped(NodesYield(key.rest), [key.top.token], [Colon], Yield(d), []);
    assert [key.top.token] + [Colon] == [key.top.token, Colon];
    assert NodesYield(ns) == NodesYield(key.rest) + [key.top.token] + [Colon];
  }

  lemma ReduceItem(ns: Nodes, d: Derivation, next: Token, s: Stack) returns (ns': Nodes)
    requires Shaped(Over(ns, ExprNode(d))) && OnExpr(StackOf(ns), Value(d), next) == Reduce(s)
    requires TopIs(StackOf(ns), LeftSquare) || TopIs(StackOf(ns), LeftPar) || TopIs(StackOf(ns), Comma)
    ensures Traced(Over(ns, ExprNode(d)), s, next, ns')
  {
    if ns.top.token == Comma {
      var front := ns.rest;
      assert Shaped(ns) && Shaped(front) && front.top.ListNode? && Fits(front.rest, front.top);
      ns' := Over(front.rest, ListNode(MoreItems(front.top.l, d)));
      Regrouped(NodesYield(front.rest), ListYield(front.top.l), [Comma], Yield(d), []);
      assert NodesYield(ns) == NodesYield(front.rest) + ListYield(front.top.l) + [Comma] && Shaped(front.rest);
    } else {
      ns' := Over(ns, ListNode(OneItem(d)));
    }
  }

  lemma ReduceExpr(ns: Nodes, d: Derivation, next: Token, s: Stack) returns (ns': Nodes)
    requires Shaped(Over(ns, ExprNode(d))) && OnExpr(StackOf(ns), Value(d), next) == Reduce(s)
    ensures Traced(Over(ns, ExprNode(d)), s, next, ns')
  {
    match ns.top.token
    case Bang => ns' := ReduceNegation(ns, d, next);
    case Operator(op) => ns' := ReduceOperation(ns, op, d, next, s);
    case Colon =>
      if TernaryColon(StackOf(ns)) { ns' := ReduceChoice(ns, d, next); } else { ns' := ReducePair(ns, d, next); }
    case _ => ns' := ReduceItem(ns, d, next, s);
  }

  lemma ReduceEntry(ns: Nodes, p: Pair, next: Token, s: Stack) returns (ns': Nodes)
    requires Shaped(Over(ns, PairNode(p))) && OnKeyValue(StackOf(ns), PairValue(p)) == Reduce(s)
    ensures Traced(Over(ns, PairNode(p)), s, next, ns')
  {
    if TopIs(StackOf(ns), LeftBrace) {
      ns' := Over(ns, PairsNode(OnePair(p)));
    } else {
      var front := ns.rest;
      assert Shaped(ns) && Shaped(front) && front.top.PairsNode? && Fits(front.rest, front.top);
      ns' := Over(front.rest, PairsNode(MorePairs(front.top.ps, p)));
      Regrouped(NodesYield(front.rest), PairsYield(front.top.ps), [Comma], PairYield(p), []);
      assert NodesYield(ns) == NodesYield(front.rest) + PairsYield(front.top.ps) + [Comma] && Shaped(front.rest);
    }
  }

  lemma ReduceLink(ns: Nodes, call: Invocation, next: Token, s: Stack) returns (ns': Nodes)
    requires Shaped(Over(ns, CallNode(call))) && OnCall(StackOf(ns), CallValue(call)) == Reduce(s)
    ensures Traced(Over(ns, CallNode(call)), s, next, ns')
  {
    if AfterDot(StackOf(ns)) {
      var front := ns.rest;
      assert Shaped(ns) && Shaped(front) && front.top.ChainNode? && Fits(front.rest, front.top);
      ns' := Over(front.rest, ChainNode(MoreCalls(front.top.c, call)));
      Regrouped(NodesYield(front.rest), ChainYield(front.top.c), [Dot], CallYield(call), []);
      assert NodesYield(ns) == NodesYield(front.rest) + ChainYield(front.top.c) + [Dot] && Shaped(front.rest);
    } else {
      ns' := Over(ns, ChainNode(OneCall(call)));
    }
  }

  lemma ReduceFits(ns: Nodes, next: Token, s: Stack) returns (ns': Nodes)
    requires Shaped(ns) && Decide(StackOf(ns), next) == Reduce(s)
    ensures Traced(ns, s, next, ns')
  {
    match ns.top
    case TokenNode(t) => ns' := ReduceToken(ns.rest, t, next, s);
    case ExprNode(d) => ns' := ReduceExpr(ns.rest, d, next, s);
    case PairNode(p) => ns' := ReduceEntry(ns.rest, p, next, s);
    case CallNode(call) => ns' := ReduceLink(ns.rest, call, next, s);
    case ChainNode(c) => ns' := Over(ns.rest, ExprNode(Chained(c)));
  }

  // ---- runs ----

  /** A step that goes on keeps the tokens, and everything in its place. */
  lemma StepTraced(ns: Nodes, input: seq<Token>) returns (ns': Nodes, input': seq<Token>)
    requires Shaped(ns) && End !in input && Follows(ns, (input + [End])[0])
    requires Step(Running(StackOf(ns), input + [End])).Running?
    ensures Step(Running(StackOf(ns), input + [End])) == Running(StackOf(ns'), input' + [End])
    ensures Shaped(ns') && End !in input' && Follows(ns', (input' + [End])[0])
    ensures NodesYield(ns') + input' == NodesYield(ns) + input
  {
    var next := (input + [End])[0];
    var action := Decide(StackOf(ns), next);
    if action == Shift {
      ShiftFits(ns, next);
      NextToken(NodesYield(ns), input);
      ns', input' := Over(ns, TokenNode(next)), input[1..];
    } else {
      ns' := ReduceFits(ns, next, action.stack);
      input' := input;
    }
  }

  /** A step either goes on, to a shorter run, or has derived the tokens. */
  lemma RunOnce(ns: Nodes, input: seq<Token>, n: nat, e: Expr) returns (done: bool, ns': Nodes, input': seq<Token>)
    requires Shaped(ns) && End !in input && Follows(ns, (input + [End])[0])
    requires Run(Running(StackOf(ns), input + [End]), n) == Accepted(e)
    ensures n > 0 && (done ==> Derives(NodesYield(ns) + input, e))
    ensures !done ==>
      && Shaped(ns') && End !in input' && Follows(ns', (input' + [End])[0])
      && NodesYield(ns') + input' == NodesYield(ns) + input
      && Run(Running(StackOf(ns'), input' + [End]), n - 1) == Accepted(e)
  {
    var s := Step(Running(StackOf(ns), input + [End]));
    assert Run(s, n - 1) == Accepted(e);
    done, ns', input' := !s.Running?, ns, input;
    match s
    case Running(_, _) => ns', input' := StepTraced(ns, input);
    case Accepted(e') =>
      Stays(e', n - 1);
      AcceptFits(ns, input, e');
    case Rejected => StaysRejected(n - 1);
  }

  lemma {:induction false} RunTraced(ns: Nodes, input: seq<Token>, n: nat, e: Expr)
    requires Shaped(ns) && End !in input && Follows(ns, (input + [End])[0])
    requires Run(Running(StackOf(ns), input + [End]), n) == Accepted(e)
    ensures Derives(NodesYield(ns) + input, e)
    decreases n
  {
    var done, ns', input' := RunOnce(ns, input, n, e);
    if !done { RunTraced(ns', input', n - 1, e); }
  }

  lemma TokenAcceptsNone(s: Stack, t: Token, next: Token)
    ensures !OnToken(s, t, next).Accept?
  {
  }

  lemma ExprAccepts(s: Stack, e: Expr, next: Token)
    ensures OnExpr(s, e, next).Accept? ==> s == Bottom && next == End && OnExpr(s, e, next) == Accept(e)
  {
  }

  lemma AcceptsAll(s: Stack, next: Token, e: Expr)
    requires Decide(s, next) == Accept(e)
    ensures s == Push(Bottom, E(e)) && next == End
  {
    match s.top
    case T(t) => TokenAcceptsNone(s.rest, t, next);
    case E(e') => ExprAccepts(s.rest, e', next);
    case _ =>
  }

  lemma AcceptFits(ns: Nodes, input: seq<Token>, e: Expr)
    requires Shaped(ns) && End !in input && Step(Running(StackOf(ns), input + [End])) == Accepted(e)
    ensures Derives(NodesYield(ns) + input, e)
  {
    AcceptsAll(StackOf(ns), (input + [End])[0], e);
    OneExpr(ns, e);
    assert input == [];
    assert NodesYield(ns) + input == Yield(ns.top.d);
  }

  lemma OneExpr(ns: Nodes, e: Expr)
    requires Shaped(ns) && StackOf(ns) == Push(Bottom, E(e))
    ensures ns.top.ExprNode? && ns.rest == Empty && Respects(ns.top.d) && Value(ns.top.d) == e
    ensures NodesYield(ns) == Yield(ns.top.d)
  {
    assert NodesYield(ns) == [] + Yield(ns.top.d);
  }

  lemma NextToken(done: seq<Token>, input: seq<Token>)
    requires (input + [End])[0] != End
    ensures input != [] && (input + [End])[1..] == input[1..] + [End]
    ensures done + [(input + [End])[0]] + input[1..] == done + input
  {
    assert [input[0]] + input[1..] == input;
    Assoc(done, [input[0]], input[1..]);
  }

  lemma {:induction false} StaysRejected(n: nat)
    ensures Run(Rejected, n) == Rejected
  {
    if n > 0 { StaysRejected(n - 1); }
  }

  /** The parser accepts tokens with a tree exactly when the grammar and its precedence declarations derive
      that tree from them. */
  lemma ParsesExactly(ts: seq<Token>, e: Expr)
    requires End !in ts
    ensures Parses(ts + [End], e) <==> Derives(ts, e)
  {
    if Parses(ts + [End], e) {
      var n: nat :| Run(Running(Bottom, ts + [End]), n) == Accepted(e);
      RunTraced(Empty, ts, n, e);
      assert NodesYield(Empty) + ts == ts;
    }
    if d :| Respects(d) && Yield(d) == ts && Value(d) == e {
      DerivationParses(d);
    }
  }
}
