/** The operators of the grammar on tokens: how an expression without parentheses is grouped, from the order of
    the precedence declarations. */
module Operators {
  import opened Builds
  import opened Grammar
  import opened Numbers
  import opened Parser
  import opened Seqs
  import opened Syntax

  /** The declarations of the binary operators, from the loosest to the tightest. */
  const LINES: seq<set<Op>> := [{BitOr}, {BitAnd}, {Or}, {And}, {Eq, Ne}, {Gt, Lt, Ge, Le}, {Add, Sub}, {Mul, Div}]

  function LineFrom(op: Op, i: nat): (l: nat)
    ensures i <= l && (l < |LINES| ==> op in LINES[l])
    decreases |LINES| - i
  {
    if i >= |LINES| || op in LINES[i] then i else LineFrom(op, i + 1)
  }

  function Line(op: Op): nat {
    LineFrom(op, 0)
  }

  lemma LineIs(op: Op)
    ensures Precedence(op) == Line(op) + 2
  {
    assert LineFrom(op, 8) == 8;
    assert LineFrom(op, 7) == if op in {Mul, Div} then 7 else 8;
    assert LineFrom(op, 6) == if op in {Add, Sub} then 6 else LineFrom(op, 7);
    assert LineFrom(op, 5) == if op in {Gt, Lt, Ge, Le} then 5 else LineFrom(op, 6);
    assert LineFrom(op, 4) == if op in {Eq, Ne} then 4 else LineFrom(op, 5);
    assert LineFrom(op, 3) == if op in {And} then 3 else LineFrom(op, 4);
    assert LineFrom(op, 2) == if op in {Or} then 2 else LineFrom(op, 3);
    assert LineFrom(op, 1) == if op in {BitAnd} then 1 else LineFrom(op, 2);
    assert LineFrom(op, 0) == if op in {BitOr} then 0 else LineFrom(op, 1);
  }

  lemma LineOf(op: Op, i: nat)
    requires i < |LINES| && op in LINES[i]
    ensures Line(op) == i
  {
    LineIs(op);
  }

  // ---- expressions without parentheses ----

  /** An integer behind some `!`. */
  datatype Operand = Operand(bangs: nat, digits: string)

  type Tail = seq<(Op, Operand)>

  /** Operators between operands, or a conditional expression whose condition is one of those. */
  datatype Phrase =
    | Flat(first: Operand, rest: Tail)
    | Choose(first: Operand, rest: Tail, yes: Phrase, no: Phrase)

  function OperandTokens(x: Operand): seq<Token>
    decreases x.bangs
  {
    if x.bangs == 0 then [Whole(x.digits)] else [Bang] + OperandTokens(x.(bangs := x.bangs - 1))
  }

  function TailTokens(rest: Tail): seq<Token> {
    if rest == [] then [] else [Operator(rest[0].0)] + OperandTokens(rest[0].1) + TailTokens(rest[1..])
  }

  function FlatTokens(first: Operand, rest: Tail): seq<Token> {
    OperandTokens(first) + TailTokens(rest)
  }

  function Tokens(p: Phrase): seq<Token> {
    match p
    case Flat(first, rest) => FlatTokens(first, rest)
    case Choose(first, rest, yes, no) => FlatTokens(first, rest) + [Question] + Tokens(yes) + [Colon] + Tokens(no)
  }

  predicate InRange(x: Operand) {
    Decimal(x.digits) <= 0x7FFF_FFFF
  }

  predicate TailInRange(rest: Tail) {
    forall i :: 0 <= i < |rest| ==> InRange(rest[i].1)
  }

  predicate AllInRange(p: Phrase) {
    InRange(p.first) && TailInRange(p.rest) && (p.Choose? ==> AllInRange(p.yes) && AllInRange(p.no))
  }

  // ---- how they are grouped ----

  /** The last of the operators on the earliest line. */
  function Root(rest: Tail): (k: nat)
    requires rest != []
    ensures k < |rest| && forall j :: 0 <= j < |rest| ==> Line(rest[k].0) <= Line(rest[j].0)
    ensures forall j :: k < j < |rest| ==> Line(rest[k].0) < Line(rest[j].0)
  {
    if |rest| == 1 then 0
    else
      var n := |rest| - 1;
      var k := Root(rest[..n]);
      assert forall j :: 0 <= j < n ==> rest[..n][j] == rest[j];
      if Line(rest[n].0) <= Line(rest[k].0) then n else k
  }

  function OperandTree(x: Operand): Expr
    decreases x.bangs
  {
    if x.bangs == 0 then Integer(Decimal(x.digits)) else Not(OperandTree(x.(bangs := x.bangs - 1)))
  }

  /** What stands on both sides of that operator is grouped first. */
  function FlatTree(first: Operand, rest: Tail): Expr
    decreases |rest|
  {
    if rest == [] then OperandTree(first)
    else
      var k := Root(rest);
      Binary(rest[k].0, FlatTree(first, rest[..k]), FlatTree(rest[k].1, rest[k + 1..]))
  }

  function Tree(p: Phrase): Expr {
    match p
    case Flat(first, rest) => FlatTree(first, rest)
    case Choose(first, rest, yes, no) => Ternary(FlatTree(first, rest), Tree(yes), Tree(no))
  }

  // ---- their derivations ----

  function OperandDerivation(x: Operand): Derivation
    decreases x.bangs
  {
    if x.bangs == 0 then Number(false, x.digits) else Negation(OperandDerivation(x.(bangs := x.bangs - 1)))
  }

  lemma {:induction false} OperandDerived(x: Operand)
    requires InRange(x)
    ensures var d := OperandDerivation(x);
      Respects(d) && Binding(d) >= NOT_LEVEL && Yield(d) == OperandTokens(x) && Value(d) == OperandTree(x)
    decreases x.bangs
  {
    if x.bangs > 0 { OperandDerived(x.(bangs := x.bangs - 1)); }
  }

  lemma {:induction false} TailSplits(rest: Tail, k: nat)
    requires k < |rest|
    ensures TailTokens(rest) ==
      TailTokens(rest[..k]) + ([Operator(rest[k].0)] + FlatTokens(rest[k].1, rest[k + 1..]))
  {
    var here := [Operator(rest[0].0)] + OperandTokens(rest[0].1);
    if k == 0 {
      assert rest[..0] == [];
      Assoc([Operator(rest[0].0)], OperandTokens(rest[0].1), TailTokens(rest[1..]));
    } else {
      TailSplits(rest[1..], k - 1);
      TailShift(rest, k);
      Assoc(here, TailTokens(rest[1..k]), [Operator(rest[k].0)] + FlatTokens(rest[k].1, rest[k + 1..]));
    }
  }

  lemma TailShift(rest: Tail, k: nat)
    requires 0 < k < |rest|
    ensures rest[1..][..k - 1] == rest[1..k] == rest[..k][1..] && rest[1..][k - 1] == rest[k]
    ensures rest[1..][k..] == rest[k + 1..]
    ensures TailTokens(rest[..k]) == [Operator(rest[0].0)] + OperandTokens(rest[0].1) + TailTokens(rest[1..k])
  {
    assert rest[..k][1..] == rest[1..k];
  }

  /** How tightly a flat expression binds. */
  function Loosest(rest: Tail): nat {
    if rest == [] then |LINES| else Line(rest[Root(rest)].0)
  }

  lemma {:induction false} FlatDerived(first: Operand, rest: Tail) returns (d: Derivation)
    requires InRange(first) && TailInRange(rest)
    ensures Respects(d) && Yield(d) == FlatTokens(first, rest) && Value(d) == FlatTree(first, rest)
    ensures Binding(d) >= Loosest(rest) + 2
    decreases |rest|
  {
    if rest == [] {
      d := OperandDerivation(first);
      OperandDerived(first);
      assert FlatTokens(first, rest) == OperandTokens(first);
    } else {
      var k := Root(rest);
      var left := FlatDerived(first, rest[..k]);
      var right := FlatDerived(rest[k].1, rest[k + 1..]);
      d := Operation(rest[k].0, left, right);
      LineIs(rest[k].0);
      LooserSides(rest, k);
      TailSplits(rest, k);
      Assoc4(OperandTokens(first), TailTokens(rest[..k]), [Operator(rest[k].0)], FlatTokens(rest[k].1, rest[k + 1..]));
      Assoc(OperandTokens(first), TailTokens(rest[..k]), [Operator(rest[k].0)] + FlatTokens(rest[k].1, rest[k + 1..]));
    }
  }

  lemma LooserSides(rest: Tail, k: nat)
    requires rest != [] && k == Root(rest)
    ensures Line(rest[k].0) <= Loosest(rest[..k]) && Line(rest[k].0) < Loosest(rest[k + 1..])
  {
    LineIs(rest[k].0);
    if k > 0 { assert rest[..k][Root(rest[..k])] == rest[Root(rest[..k])]; }
    if k + 1 < |rest| { assert rest[k + 1..][Root(rest[k + 1..])] == rest[k + 1 + Root(rest[k + 1..])]; }
  }

  lemma {:induction false} PhraseDerived(p: Phrase) returns (d: Derivation)
    requires AllInRange(p)
    ensures Respects(d) && Yield(d) == Tokens(p) && Value(d) == Tree(p)
  {
    d := FlatDerived(p.first, p.rest);
    if p.Choose? {
      var yes := PhraseDerived(p.yes);
      var no := PhraseDerived(p.no);
      d := Choice(d, yes, no);
    }
  }

  /** An expression without parentheses is split at the last of its operators on the earliest line of the
      declarations; `!` binds tighter than all of them, `?:` looser, and what follows its colon belongs to it. */
  lemma PhraseParses(p: Phrase)
    requires AllInRange(p)
    ensures Parses(Tokens(p) + [End], Tree(p))
  {
    var d := PhraseDerived(p);
    DerivationParses(d);
  }

  lemma TailCons(op: Op, x: Operand, rest: Tail)
    ensures TailTokens([(op, x)] + rest) == [Operator(op)] + OperandTokens(x) + TailTokens(rest)
  {
    assert ([(op, x)] + rest)[1..] == rest;
  }

  lemma TwoTokens(a: string, op1: Op, b: string, op2: Op, c: string)
    ensures FlatTokens(Operand(0, a), [(op1, Operand(0, b)), (op2, Operand(0, c))]) ==
      [Whole(a), Operator(op1), Whole(b), Operator(op2), Whole(c)]
  {
    var y, z := Operand(0, b), Operand(0, c);
    TailCons(op2, z, []);
    TailCons(op1, y, [(op2, z)]);
    assert [(op1, y)] + [(op2, z)] == [(op1, y), (op2, z)] && [(op2, z)] + [] == [(op2, z)];
  }

  lemma OneTree(x: Operand, op: Op, y: Operand)
    ensures FlatTree(x, [(op, y)]) == Binary(op, OperandTree(x), OperandTree(y))
  {
    var rest: Tail := [(op, y)];
    assert rest[..0] == [] && rest[1..] == [];
  }

  lemma TwoTree(x: Operand, op1: Op, y: Operand, op2: Op, z: Operand)
    ensures FlatTree(x, [(op1, y), (op2, z)]) ==
      if Line(op1) < Line(op2) then Binary(op1, OperandTree(x), Binary(op2, OperandTree(y), OperandTree(z)))
      else Binary(op2, Binary(op1, OperandTree(x), OperandTree(y)), OperandTree(z))
  {
    var rest: Tail := [(op1, y), (op2, z)];
    assert rest[..0] == [] && rest[1..] == [(op2, z)] && rest[..1] == [(op1, y)] && rest[2..] == [];
    OneTree(x, op1, y);
    OneTree(y, op2, z);
    assert rest[0].0 == op1 && rest[1].0 == op2 && Root(rest) == if Line(op1) < Line(op2) then 0 else 1;
  }

  /** Two operators: the one on the later line groups first, and on one line the one on the left. */
  lemma TwoOperators(a: string, op1: Op, b: string, op2: Op, c: string, i: nat, j: nat)
    requires Decimal(a) <= 0x7FFF_FFFF && Decimal(b) <= 0x7FFF_FFFF && Decimal(c) <= 0x7FFF_FFFF
    requires i < |LINES| && op1 in LINES[i] && j < |LINES| && op2 in LINES[j]
    ensures var x, y, z := Integer(Decimal(a)), Integer(Decimal(b)), Integer(Decimal(c));
      Parses([Whole(a), Operator(op1), Whole(b), Operator(op2), Whole(c), End],
             if i < j then Binary(op1, x, Binary(op2, y, z)) else Binary(op2, Binary(op1, x, y), z))
  {
    var x, y, z := Operand(0, a), Operand(0, b), Operand(0, c);
    LineOf(op1, i);
    LineOf(op2, j);
    TwoTokens(a, op1, b, op2, c);
    TwoTree(x, op1, y, op2, z);
    PhraseParses(Flat(x, [(op1, y), (op2, z)]));
    assert [Whole(a), Operator(op1), Whole(b), Operator(op2), Whole(c)] + [End] ==
      [Whole(a), Operator(op1), Whole(b), Operator(op2), Whole(c), End];
  }

  // ---- integers ----

  lemma RejectedStays(s: State, n: nat)
    requires n >= 2 && Step(Step(s)) == Rejected
    ensures Run(s, n) == Rejected
  {
    NoWayBack(n - 2);
    assert Run(s, n) == Run(Step(s), n - 1) == Run(Step(Step(s)), n - 2);
  }

  lemma {:induction false} NoWayBack(n: nat)
    ensures Run(Rejected, n) == Rejected
  {
    if n > 0 { NoWayBack(n - 1); }
  }

  /** An integer alone parses, to its value, exactly when it fits 32 bits with a sign. */
  lemma IntegerParsesExactly(digits: string, e: Expr)
    ensures Parses([Whole(digits), End], e) <==> Decimal(digits) <= 2147483647 && e == Integer(Decimal(digits))
  {
    var start := Running(Bottom, [Whole(digits), End]);
    assert [Whole(digits), End][1..] == [End];
    assert Step(start) == Running(Push(Bottom, T(Whole(digits))), [End]);
    if Decimal(digits) <= 2147483647 {
      PhraseParses(Flat(Operand(0, digits), []));
      assert FlatTokens(Operand(0, digits), []) + [End] == [Whole(digits), End];
      if Parses([Whole(digits), End], e) { ParseUnique([Whole(digits), End], e, Integer(Decimal(digits))); }
    } else {
      assert Step(Step(start)) == Rejected;
      forall n: nat ensures Run(start, n) != Accepted(e) {
        if n >= 2 { RejectedStays(start, n); }
      }
    }
  }
}
