/** The machine of `Parser` rebuilds every derivation that the precedence declarations leave. */
module Builds {
  import opened Grammar
  import opened Parser
  import opened Seqs
  import opened Syntax

  // ---- single steps ----

  lemma Shift1(s: Stack, t: Token, rest: seq<Token>)
    requires Decide(s, t) == Shift
    ensures Reaches(Running(s, [t] + rest), Running(Push(s, T(t)), rest))
  {
    assert ([t] + rest)[1..] == rest;
    One(Running(s, [t] + rest));
  }

  lemma Reduce1(s: Stack, s': Stack, input: seq<Token>)
    requires input != [] && Decide(s, input[0]) == Reduce(s')
    ensures Reaches(Running(s, input), Running(s', input))
  {
    One(Running(s, input));
  }

  /** Shifting a token that is reduced at once. */
  lemma Leaf1(s: Stack, t: Token, s': Stack, rest: seq<Token>)
    requires rest != [] && Decide(s, t) == Shift && Decide(Push(s, T(t)), rest[0]) == Reduce(s')
    ensures Reaches(Running(s, [t] + rest), Running(s', rest))
  {
    Shift1(s, t, rest);
    Reduce1(Push(s, T(t)), s', rest);
    Trans(Running(s, [t] + rest), Running(Push(s, T(t)), rest), Running(s', rest));
  }

  // ---- where an expression can begin, and what its left context leaves to shift ----

  predicate TernaryColon(s: Stack) {
    TopIs(s, Colon) && EndsOperand(s.rest) && TopIs(s.rest.rest, Question) && EndsOperand(s.rest.rest.rest)
  }

  predicate Opens(s: Stack) {
    s == Bottom || (s.top.T? &&
      match s.top.token
      case LeftPar => true
      case LeftSquare => true
      case Bang => true
      case Comma => s.rest.Push? && s.rest.top.Items?
      case Question => EndsOperand(s.rest)
      case Operator(_) => EndsOperand(s.rest)
      case Colon => TernaryColon(s) || (s.rest.Push? && s.rest.top.T? && s.rest.top.token.Quoted?)
      case _ => false)
  }

  /** The lowest level of an operator that is shifted over an expression on top of `s`. */
  function Pending(s: Stack): nat {
    if s == Bottom || !s.top.T? then 0
    else match s.top.token
         case Operator(op) => Precedence(op) + 1
         case Bang => NOT_LEVEL
         case Colon => if TernaryColon(s) then 1 else 0
         case _ => 0
  }

  /** After a complete expression of this level the token makes the machine reduce it. */
  predicate Stops(next: Token, level: nat) {
    && next != Dot
    && (next.Operator? ==> 2 <= level && Precedence(next.op) <= level)
    && (next.Question? ==> 2 <= level)
  }

  lemma CanContinue(s: Stack, e: Expr, t: Token)
    requires Opens(s)
    requires (t.Operator? && Pending(s) <= Precedence(t.op)) || (t.Question? && Pending(s) <= 1)
    ensures Decide(Push(s, E(e)), t) == Shift
  {
  }

  // ---- expressions ----

  lemma {:induction false} Build(s: Stack, d: Derivation, rest: seq<Token>)
    requires Respects(d) && Opens(s) && Pending(s) <= Binding(d) && rest != [] && Stops(rest[0], Binding(d))
    ensures Reaches(Running(s, Yield(d) + rest), Running(Push(s, E(Value(d))), rest))
    decreases d, 1
  {
    match d
    case Word(t) => Leaf1(s, t, Push(s, E(Value(d))), rest);
    case Number(negative, digits) => BuildSigned(s, negative, Whole(digits), Value(d), rest);
    case Fraction(negative, digits) => BuildSigned(s, negative, Decimals(digits), Value(d), rest);
    case Literal(raw) => Leaf1(s, Quoted(raw), Push(s, E(Value(d))), rest);
    case Dollared(name) => BuildVariable(s, name, rest);
    case Group(_) => BuildGroup(s, d, rest);
    case Negation(_) => BuildNegation(s, d, rest);
    case Operation(_, _, _) => BuildOperation(s, d, rest);
    case Choice(_, _, _) => BuildChoice(s, d, rest);
    case Bracketed(_) => BuildBracketed(s, d, rest);
    case Braced(_) => BuildBraced(s, d, rest);
    case Chained(_) => BuildChained(s, d, rest);
  }

  lemma BuildVariable(s: Stack, name: string, rest: seq<Token>)
    requires Opens(s) && rest != []
    ensures Reaches(Running(s, Yield(Dollared(name)) + rest), Running(Push(s, E(Variable(name))), rest))
  {
    var d, dollar, id := Dollared(name), Push(s, T(Dollar)), [Identifier(name)] + rest;
    assert Yield(d) + rest == [Dollar] + id;
    Shift1(s, Dollar, id);
    Leaf1(dollar, Identifier(name), Push(s, E(Variable(name))), rest);
    Trans(Running(s, Yield(d) + rest), Running(dollar, id), Running(Push(s, E(Variable(name))), rest));
  }

  /** A number, and a minus before it when there is no operand there. */
  lemma BuildSigned(s: Stack, negative: bool, t: Token, e: Expr, rest: seq<Token>)
    requires Opens(s) && rest != [] && (t.Whole? || t.Decimals?)
    requires Decide(Push(if negative then Push(s, T(Operator(Sub))) else s, T(t)), rest[0]) == Reduce(Push(s, E(e)))
    ensures Reaches(Running(s, Signed(negative, t) + rest), Running(Push(s, E(e)), rest))
  {
    if negative {
      var minus := Push(s, T(Operator(Sub)));
      assert [Operator(Sub), t] + rest == [Operator(Sub)] + ([t] + rest);
      Shift1(s, Operator(Sub), [t] + rest);
      Leaf1(minus, t, Push(s, E(e)), rest);
      Trans(Running(s, [Operator(Sub), t] + rest), Running(minus, [t] + rest), Running(Push(s, E(e)), rest));
    } else {
      Leaf1(s, t, Push(s, E(e)), rest);
    }
  }

  lemma {:induction false} BuildGroup(s: Stack, d: Derivation, rest: seq<Token>)
    requires d.Group? && Respects(d) && Opens(s) && rest != []
    ensures Reaches(Running(s, Yield(d) + rest), Running(Push(s, E(Value(d))), rest))
    decreases d, 0
  {
    var open, close := Push(s, T(LeftPar)), [RightPar] + rest;
    var start, inner := Running(s, Yield(d) + rest), Push(open, E(Value(d)));
    Assoc4([LeftPar], Yield(d.inner), [RightPar], rest);
    Shift1(s, LeftPar, Yield(d.inner) + close);
    Build(open, d.inner, close);
    Leaf1(inner, RightPar, Push(s, E(Value(d))), rest);
    Trans(start, Running(open, Yield(d.inner) + close), Running(inner, close));
    Trans(start, Running(inner, close), Running(Push(s, E(Value(d))), rest));
  }

  lemma {:induction false} BuildNegation(s: Stack, d: Derivation, rest: seq<Token>)
    requires d.Negation? && Respects(d) && Opens(s) && rest != [] && rest[0] != Dot
    ensures Reaches(Running(s, Yield(d) + rest), Running(Push(s, E(Value(d))), rest))
    decreases d, 0
  {
    var bang, input := Push(s, T(Bang)), Yield(d.inner) + rest;
    var start, s' := Running(s, Yield(d) + rest), Push(bang, E(Value(d.inner)));
    Assoc([Bang], Yield(d.inner), rest);
    Shift1(s, Bang, input);
    Build(bang, d.inner, rest);
    Reduce1(s', Push(s, E(Value(d))), rest);
    Trans(start, Running(bang, input), Running(s', rest));
    Trans(start, Running(s', rest), Running(Push(s, E(Value(d))), rest));
  }

  lemma {:induction false} BuildOperation(s: Stack, d: Derivation, rest: seq<Token>)
    requires d.Operation? && Respects(d) && Opens(s) && Pending(s) <= Binding(d)
    requires rest != [] && Stops(rest[0], Binding(d))
    ensures Reaches(Running(s, Yield(d) + rest), Running(Push(s, E(Value(d))), rest))
    decreases d, 0
  {
    var last, start := Yield(d.right) + rest, Running(s, Yield(d) + rest);
    var s2 := Push(Push(s, E(Value(d.left))), T(Operator(d.op)));
    var s3 := Push(s2, E(Value(d.right)));
    Assoc4(Yield(d.left), [Operator(d.op)], Yield(d.right), rest);
    BuildOperand(s, d.left, Operator(d.op), last);
    Build(s2, d.right, rest);
    Reduce1(s3, Push(s, E(Value(d))), rest);
    Trans(start, Running(s2, last), Running(s3, rest));
    Trans(start, Running(s3, rest), Running(Push(s, E(Value(d))), rest));
  }

  /** An expression and the infix token after it. */
  lemma {:induction false} BuildOperand(s: Stack, d: Derivation, t: Token, rest: seq<Token>)
    requires Respects(d) && Opens(s) && Pending(s) <= Binding(d)
    requires (t == Question && Pending(s) <= 1 < Binding(d)) ||
      (t.Operator? && Pending(s) <= Precedence(t.op) <= Binding(d))
    ensures Reaches(Running(s, Yield(d) + ([t] + rest)), Running(Push(Push(s, E(Value(d))), T(t)), rest))
    decreases d, 2
  {
    Build(s, d, [t] + rest);
    CanContinue(s, Value(d), t);
    Shift1(Push(s, E(Value(d))), t, rest);
    Trans(Running(s, Yield(d) + ([t] + rest)), Running(Push(s, E(Value(d))), [t] + rest),
          Running(Push(Push(s, E(Value(d))), T(t)), rest));
  }

  lemma {:induction false} BuildChoice(s: Stack, d: Derivation, rest: seq<Token>)
    requires d.Choice? && Respects(d) && Opens(s) && Pending(s) <= 1 && rest != [] && Stops(rest[0], 1)
    ensures Reaches(Running(s, Yield(d) + rest), Running(Push(s, E(Value(d))), rest))
    decreases d, 0, 1
  {
    var middle, start := Yield(d.yes) + ([Colon] + (Yield(d.no) + rest)), Running(s, Yield(d) + rest);
    var question := Push(Push(s, E(Value(d.cond))), T(Question));
    Assoc4(Yield(d.cond) + [Question] + Yield(d.yes), [Colon], Yield(d.no), rest);
    Assoc4(Yield(d.cond), [Question], Yield(d.yes), [Colon] + (Yield(d.no) + rest));
    BuildOperand(s, d.cond, Question, middle);
    BuildBranches(question, d, rest);
    Trans(start, Running(question, middle), Running(Push(s, E(Value(d))), rest));
  }

  lemma {:induction false} BuildBranches(s: Stack, d: Derivation, rest: seq<Token>)
    requires d.Choice? && Respects(d) && rest != [] && Stops(rest[0], 1)
    requires TopIs(s, Question) && s.rest.Push? && s.rest.top == E(Value(d.cond))
    ensures Reaches(Running(s, Yield(d.yes) + ([Colon] + (Yield(d.no) + rest))),
                    Running(Push(s.rest.rest, E(Value(d))), rest))
    decreases d, 0, 0
  {
    var last := Yield(d.no) + rest;
    var start := Running(s, Yield(d.yes) + ([Colon] + last));
    var s3 := Push(s, E(Value(d.yes)));
    var s4 := Push(s3, T(Colon));
    var s5 := Push(s4, E(Value(d.no)));
    Build(s, d.yes, [Colon] + last);
    Shift1(s3, Colon, last);
    Build(s4, d.no, rest);
    Reduce1(s5, Push(s.rest.rest, E(Value(d))), rest);
    Trans(start, Running(s3, [Colon] + last), Running(s4, last));
    Trans(start, Running(s4, last), Running(s5, rest));
    Trans(start, Running(s5, rest), Running(Push(s.rest.rest, E(Value(d))), rest));
  }

  // ---- lists ----

  /** A bracket that begins a list of expressions, and the bracket that ends it. */
  predicate ListOpen(s: Stack) {
    TopIs(s, LeftSquare) || CallOpen(s)
  }

  function Closer(s: Stack): Token {
    if TopIs(s, LeftSquare) then RightSquare else RightPar
  }

  lemma {:induction false} BuildList(s: Stack, l: List, rest: seq<Token>)
    requires ListOpen(s) && ListRespects(l) && rest != [] && (rest[0] == Comma || rest[0] == Closer(s))
    ensures Reaches(Running(s, ListYield(l) + rest), Running(Push(s, Items(ListValue(l))), rest))
    decreases l
  {
    var start, done := Running(s, ListYield(l) + rest), Push(s, Items(ListValue(l)));
    match l
    case NoItems =>
      assert ListYield(l) + rest == rest;
      Reduce1(s, done, rest);
    case OneItem(x) =>
      Build(s, x, rest);
      Reduce1(Push(s, E(Value(x))), done, rest);
      Trans(start, Running(Push(s, E(Value(x))), rest), Running(done, rest));
    case MoreItems(front, x) =>
      var last := Yield(x) + rest;
      var s2 := Push(s, Items(ListValue(front)));
      var comma := Push(s2, T(Comma));
      Assoc4(ListYield(front), [Comma], Yield(x), rest);
      BuildList(s, front, [Comma] + last);
      Shift1(s2, Comma, last);
      Build(comma, x, rest);
      Reduce1(Push(comma, E(Value(x))), done, rest);
      Trans(start, Running(s2, [Comma] + last), Running(comma, last));
      Trans(start, Running(comma, last), Running(Push(comma, E(Value(x))), rest));
      Trans(start, Running(Push(comma, E(Value(x))), rest), Running(done, rest));
  }

  lemma {:induction false} BuildBracketed(s: Stack, d: Derivation, rest: seq<Token>)
    requires d.Bracketed? && Respects(d) && Opens(s) && rest != []
    ensures Reaches(Running(s, Yield(d) + rest), Running(Push(s, E(Value(d))), rest))
    decreases d, 0
  {
    var open, close := Push(s, T(LeftSquare)), [RightSquare] + rest;
    var start, list := Running(s, Yield(d) + rest), Push(open, Items(ListValue(d.items)));
    Assoc4([LeftSquare], ListYield(d.items), [RightSquare], rest);
    Shift1(s, LeftSquare, ListYield(d.items) + close);
    BuildList(open, d.items, close);
    Leaf1(list, RightSquare, Push(s, E(Value(d))), rest);
    Trans(start, Running(open, ListYield(d.items) + close), Running(list, close));
    Trans(start, Running(list, close), Running(Push(s, E(Value(d))), rest));
  }

  // ---- calls ----

  /** Where a call can begin: with an expression, or after the dot of a chain. */
  predicate CallStarts(s: Stack) {
    Opens(s) || AfterDot(s)
  }

  predicate AfterDot(s: Stack) {
    TopIs(s, Dot) && s.rest.Push? && s.rest.top.Fluent?
  }

  lemma {:induction false} BuildCall(s: Stack, call: Invocation, rest: seq<Token>)
    requires CallStarts(s) && ListRespects(call.args) && rest != []
    ensures Reaches(Running(s, CallYield(call) + rest), Running(Push(s, FuncCall(CallValue(call))), rest))
    decreases call
  {
    var id := Push(s, T(Identifier(call.name)));
    var open := Push(id, T(LeftPar));
    var list := Push(open, Items(ListValue(call.args)));
    var close, done := [RightPar] + rest, Push(s, FuncCall(CallValue(call)));
    var start, input := Running(s, CallYield(call) + rest), ListYield(call.args) + close;
    Assoc4([Identifier(call.name), LeftPar], ListYield(call.args), [RightPar], rest);
    Assoc([Identifier(call.name)], [LeftPar], input);
    assert [Identifier(call.name), LeftPar] == [Identifier(call.name)] + [LeftPar];
    Shift1(s, Identifier(call.name), [LeftPar] + input);
    Shift1(id, LeftPar, input);
    BuildList(open, call.args, close);
    Leaf1(list, RightPar, done, rest);
    Trans(start, Running(id, [LeftPar] + input), Running(open, input));
    Trans(start, Running(open, input), Running(list, close));
    Trans(start, Running(list, close), Running(done, rest));
  }

  lemma {:induction false} BuildChained(s: Stack, d: Derivation, rest: seq<Token>)
    requires d.Chained? && Respects(d) && Opens(s) && rest != [] && rest[0] != Dot
    ensures Reaches(Running(s, Yield(d) + rest), Running(Push(s, E(Value(d))), rest))
    decreases d, 0
  {
    var chain := Push(s, Fluent(ChainValue(d.chain)));
    BuildChain(s, d.chain, rest);
    Reduce1(chain, Push(s, E(Value(d))), rest);
    Trans(Running(s, Yield(d) + rest), Running(chain, rest), Running(Push(s, E(Value(d))), rest));
  }

  lemma {:induction false} BuildChain(s: Stack, c: Chain, rest: seq<Token>)
    requires Opens(s) && ChainRespects(c) && rest != []
    ensures Reaches(Running(s, ChainYield(c) + rest), Running(Push(s, Fluent(ChainValue(c))), rest))
    decreases c
  {
    var start, done := Running(s, ChainYield(c) + rest), Push(s, Fluent(ChainValue(c)));
    match c
    case OneCall(call) =>
      BuildCall(s, call, rest);
      Reduce1(Push(s, FuncCall(CallValue(call))), done, rest);
      Trans(start, Running(Push(s, FuncCall(CallValue(call))), rest), Running(done, rest));
    case MoreCalls(front, call) =>
      var last := CallYield(call) + rest;
      var s2 := Push(s, Fluent(ChainValue(front)));
      var dot := Push(s2, T(Dot));
      Assoc4(ChainYield(front), [Dot], CallYield(call), rest);
      BuildChain(s, front, [Dot] + last);
      Shift1(s2, Dot, last);
      BuildCall(dot, call, rest);
      Reduce1(Push(dot, FuncCall(CallValue(call))), done, rest);
      Trans(start, Running(s2, [Dot] + last), Running(dot, last));
      Trans(start, Running(dot, last), Running(Push(dot, FuncCall(CallValue(call))), rest));
      Trans(start, Running(Push(dot, FuncCall(CallValue(call))), rest), Running(done, rest));
  }

  // ---- dictionaries ----

  lemma {:induction false} BuildBraced(s: Stack, d: Derivation, rest: seq<Token>)
    requires d.Braced? && Respects(d) && Opens(s) && rest != []
    ensures Reaches(Running(s, Yield(d) + rest), Running(Push(s, E(Value(d))), rest))
    decreases d, 0
  {
    var open, close := Push(s, T(LeftBrace)), [RightBrace] + rest;
    var start, pairs := Running(s, Yield(d) + rest), Push(open, Entries(PairsValue(d.pairs)));
    Assoc4([LeftBrace], PairsYield(d.pairs), [RightBrace], rest);
    Shift1(s, LeftBrace, PairsYield(d.pairs) + close);
    BuildPairs(open, d.pairs, close);
    Leaf1(pairs, RightBrace, Push(s, E(Value(d))), rest);
    Trans(start, Running(open, PairsYield(d.pairs) + close), Running(pairs, close));
    Trans(start, Running(pairs, close), Running(Push(s, E(Value(d))), rest));
  }

  predicate AfterPair(next: Token) {
    next == Comma || next == RightBrace
  }

  lemma {:induction false} BuildPair(s: Stack, p: Pair, rest: seq<Token>)
    requires KeyPosition(s) && Respects(p.value) && rest != [] && AfterPair(rest[0])
    ensures Reaches(Running(s, PairYield(p) + rest), Running(Push(s, KeyValue(PairValue(p))), rest))
    decreases p
  {
    var key := Push(s, T(Quoted(p.raw)));
    var colon := Push(key, T(Colon));
    var input, start := Yield(p.value) + rest, Running(s, PairYield(p) + rest);
    var done := Push(s, KeyValue(PairValue(p)));
    Assoc([Quoted(p.raw), Colon], Yield(p.value), rest);
    Assoc([Quoted(p.raw)], [Colon], input);
    assert [Quoted(p.raw), Colon] == [Quoted(p.raw)] + [Colon];
    Shift1(s, Quoted(p.raw), [Colon] + input);
    Shift1(key, Colon, input);
    Build(colon, p.value, rest);
    Reduce1(Push(colon, E(Value(p.value))), done, rest);
    Trans(start, Running(key, [Colon] + input), Running(colon, input));
    Trans(start, Running(colon, input), Running(Push(colon, E(Value(p.value))), rest));
    Trans(start, Running(Push(colon, E(Value(p.value))), rest), Running(done, rest));
  }

  lemma {:induction false} BuildPairs(s: Stack, ps: Pairs, rest: seq<Token>)
    requires TopIs(s, LeftBrace) && PairsRespect(ps) && rest != [] && AfterPair(rest[0])
    ensures Reaches(Running(s, PairsYield(ps) + rest), Running(Push(s, Entries(PairsValue(ps))), rest))
    decreases ps
  {
    var start, done := Running(s, PairsYield(ps) + rest), Push(s, Entries(PairsValue(ps)));
    match ps
    case NoPairs =>
      assert PairsYield(ps) + rest == rest;
      Reduce1(s, done, rest);
    case OnePair(p) =>
      BuildPair(s, p, rest);
      Reduce1(Push(s, KeyValue(PairValue(p))), done, rest);
      Trans(start, Running(Push(s, KeyValue(PairValue(p))), rest), Running(done, rest));
    case MorePairs(front, p) =>
      var last := PairYield(p) + rest;
      var s2 := Push(s, Entries(PairsValue(front)));
      var comma := Push(s2, T(Comma));
      Assoc4(PairsYield(front), [Comma], PairYield(p), rest);
      BuildPairs(s, front, [Comma] + last);
      Shift1(s2, Comma, last);
      BuildPair(comma, p, rest);
      Reduce1(Push(comma, KeyValue(PairValue(p))), done, rest);
      Trans(start, Running(s2, [Comma] + last), Running(comma, last));
      Trans(start, Running(comma, last), Running(Push(comma, KeyValue(PairValue(p))), rest));
      Trans(start, Running(Push(comma, KeyValue(PairValue(p))), rest), Running(done, rest));
  }

  /** The machine accepts the tokens of a derivation with the value of that derivation. */
  lemma DerivationParses(d: Derivation)
    requires Respects(d)
    ensures Parses(Yield(d) + [End], Value(d))
  {
    var start, done := Running(Bottom, Yield(d) + [End]), Running(Push(Bottom, E(Value(d))), [End]);
    Build(Bottom, d, [End]);
    One(done);
    Trans(start, done, Accepted(Value(d)));
  }
}
