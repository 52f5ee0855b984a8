/** The grammar of expressions, production by production, with what its actions build; and the derivations
    that its precedence declarations leave. */
module Grammar {
  import opened Numbers
  import opened Parser
  import opened Syntax

  datatype Derivation =
    | Word(token: Token)
    | Number(negative: bool, digits: string)
    | Fraction(negative: bool, digits: string)
    | Literal(raw: string)
    | Dollared(name: string)
    | Group(inner: Derivation)
    | Negation(inner: Derivation)
    | Operation(op: Op, left: Derivation, right: Derivation)
    | Choice(cond: Derivation, yes: Derivation, no: Derivation)
    | Bracketed(items: List)
    | Braced(pairs: Pairs)
    | Chained(chain: Chain)

  datatype List = NoItems | OneItem(item: Derivation) | MoreItems(items: List, item: Derivation)
  datatype Pairs = NoPairs | OnePair(pair: Pair) | MorePairs(pairs: Pairs, pair: Pair)
  datatype Pair = Pair(raw: string, value: Derivation)
  datatype Chain = OneCall(call: Invocation) | MoreCalls(chain: Chain, call: Invocation)
  datatype Invocation = Invocation(name: string, args: List)

  // ---- the tokens of a derivation ----

  function Signed(negative: bool, t: Token): seq<Token> {
    if negative then [Operator(Sub), t] else [t]
  }

  function Yield(d: Derivation): seq<Token> {
    match d
    case Word(t) => [t]
    case Number(negative, digits) => Signed(negative, Whole(digits))
    case Fraction(negative, digits) => Signed(negative, Decimals(digits))
    case Literal(raw) => [Quoted(raw)]
    case Dollared(name) => [Dollar, Identifier(name)]
    case Group(x) => [LeftPar] + Yield(x) + [RightPar]
    case Negation(x) => [Bang] + Yield(x)
    case Operation(op, a, b) => Yield(a) + [Operator(op)] + Yield(b)
    case Choice(c, a, b) => Yield(c) + [Question] + Yield(a) + [Colon] + Yield(b)
    case Bracketed(l) => [LeftSquare] + ListYield(l) + [RightSquare]
    case Braced(ps) => [LeftBrace] + PairsYield(ps) + [RightBrace]
    case Chained(c) => ChainYield(c)
  }

  /** A list may begin with a comma, since an empty list can be continued. */
  function ListYield(l: List): seq<Token> {
    match l
    case NoItems => []
    case OneItem(x) => Yield(x)
    case MoreItems(l, x) => ListYield(l) + [Comma] + Yield(x)
  }

  function PairsYield(ps: Pairs): seq<Token> {
    match ps
    case NoPairs => []
    case OnePair(p) => PairYield(p)
    case MorePairs(ps, p) => PairsYield(ps) + [Comma] + PairYield(p)
  }

  function PairYield(p: Pair): seq<Token> {
    [Quoted(p.raw), Colon] + Yield(p.value)
  }

  function ChainYield(c: Chain): seq<Token> {
    match c
    case OneCall(call) => CallYield(call)
    case MoreCalls(c, call) => ChainYield(c) + [Dot] + CallYield(call)
  }

  function CallYield(call: Invocation): seq<Token> {
    [Identifier(call.name), LeftPar] + ListYield(call.args) + [RightPar]
  }

  // ---- what the actions build ----

  function WordValue(t: Token): Expr {
    if t == NullWord then Null else Boolean(t == TrueWord)
  }

  function SignedValue(negative: bool, n: int): int {
    if negative then -n else n
  }

  function Value(d: Derivation): Expr {
    match d
    case Word(t) => WordValue(t)
    case Number(negative, digits) => Integer(SignedValue(negative, Decimal(digits)))
    case Fraction(negative, digits) => Double(negative, digits)
    case Literal(raw) => String(Unquoted(raw))
    case Dollared(name) => Variable(name)
    case Group(x) => Value(x)
    case Negation(x) => Not(Value(x))
    case Operation(op, a, b) => Binary(op, Value(a), Value(b))
    case Choice(c, a, b) => Ternary(Value(c), Value(a), Value(b))
    case Bracketed(l) => Array(ListValue(l))
    case Braced(ps) => Dict(PairsValue(ps))
    case Chained(c) => Calls(ChainValue(c))
  }

  function ListValue(l: List): seq<Expr> {
    match l
    case NoItems => []
    case OneItem(x) => [Value(x)]
    case MoreItems(l, x) => ListValue(l) + [Value(x)]
  }

  function PairsValue(ps: Pairs): seq<Entry> {
    match ps
    case NoPairs => []
    case OnePair(p) => Insert([], PairValue(p))
    case MorePairs(ps, p) => Insert(PairsValue(ps), PairValue(p))
  }

  function PairValue(p: Pair): Entry {
    Entry(Unquoted(p.raw), Value(p.value))
  }

  function ChainValue(c: Chain): (r: seq<Call>)
    ensures r != []
  {
    match c
    case OneCall(call) => [CallValue(call)]
    case MoreCalls(c, call) => SetNext(ChainValue(c), CallValue(call))
  }

  function CallValue(call: Invocation): Call {
    Call(call.name, ListValue(call.args))
  }

  // ---- what the precedence declarations leave ----

  function Binding(d: Derivation): (l: nat)
    ensures 1 <= l <= ATOM_LEVEL
  {
    match d
    case Choice(_, _, _) => 1
    case Operation(op, _, _) => Precedence(op)
    case Negation(_) => NOT_LEVEL
    case _ => ATOM_LEVEL
  }

  /** Operands bind at least as tightly as their place demands, and integers are in range. */
  predicate Respects(d: Derivation) {
    match d
    case Word(t) => t == NullWord || t == TrueWord || t == FalseWord
    case Number(_, digits) => Decimal(digits) <= INT_MAX
    case Group(x) => Respects(x)
    case Negation(x) => Respects(x) && Binding(x) >= NOT_LEVEL
    case Operation(op, a, b) =>
      Respects(a) && Respects(b) && Binding(a) >= Precedence(op) && Binding(b) > Precedence(op)
    case Choice(c, a, b) => Respects(c) && Respects(a) && Respects(b) && Binding(c) > 1
    case Bracketed(l) => ListRespects(l)
    case Braced(ps) => PairsRespect(ps)
    case Chained(c) => ChainRespects(c)
    case _ => true
  }

  predicate ListRespects(l: List) {
    match l
    case NoItems => true
    case OneItem(x) => Respects(x)
    case MoreItems(l, x) => ListRespects(l) && Respects(x)
  }

  predicate PairsRespect(ps: Pairs) {
    match ps
    case NoPairs => true
    case OnePair(p) => Respects(p.value)
    case MorePairs(ps, p) => PairsRespect(ps) && Respects(p.value)
  }

  predicate ChainRespects(c: Chain) {
    match c
    case OneCall(call) => ListRespects(call.args)
    case MoreCalls(c, call) => ChainRespects(c) && ListRespects(call.args)
  }

  /** The tokens have a derivation by the grammar and its precedence declarations that builds `e`. */
  ghost predicate Derives(ts: seq<Token>, e: Expr) {
    exists d :: Respects(d) && Yield(d) == ts && Value(d) == e
  }

  // ---- what the actions for chains and dictionaries keep ----

  function PairList(ps: Pairs): seq<Pair> {
    match ps
    case NoPairs => []
    case OnePair(p) => [p]
    case MorePairs(ps, p) => PairList(ps) + [p]
  }

  /** Pair `i` is the first with its key, and `e` is its entry. */
  predicate FirstWithKey(list: seq<Pair>, i: nat, e: Entry) {
    && i < |list| && e == Entry(Unquoted(list[i].raw), Value(list[i].value))
    && forall j :: 0 <= j < i ==> Unquoted(list[j].raw) != e.key
  }

  /** A dictionary has exactly the entries of the first pair of each key. */
  lemma {:induction false} DictKeepsFirst(ps: Pairs, e: Entry)
    ensures e in PairsValue(ps) <==> exists i: nat :: FirstWithKey(PairList(ps), i, e)
  {
    if ps.MorePairs? {
      var list, front, p := PairList(ps), PairList(ps.pairs), ps.pair;
      DictKeepsFirst(ps.pairs, e);
      forall i | 0 <= i < |front| ensures FirstWithKey(list, i, e) <==> FirstWithKey(front, i, e) {
        assert forall j :: 0 <= j <= i ==> list[j] == front[j];
      }
      assert list[|front|] == p;
      if k :| k in PairsValue(ps.pairs) && k.key == Unquoted(p.raw) {
        DictKeepsFirst(ps.pairs, k);
        LaterPair(front, p, k, e);
      } else {
        NewPair(ps.pairs, p, e);
      }
    } else if ps.OnePair? {
      assert PairsValue(ps) == [PairValue(ps.pair)];
      if e in PairsValue(ps) { assert FirstWithKey(PairList(ps), 0, e); }
    }
  }

  /** A pair whose key came before is none of the first. */
  lemma LaterPair(front: seq<Pair>, p: Pair, k: Entry, e: Entry)
    requires k.key == Unquoted(p.raw) && exists i: nat :: FirstWithKey(front, i, k)
    ensures !FirstWithKey(front + [p], |front|, e)
  {
    var i: nat :| FirstWithKey(front, i, k);
    assert (front + [p])[i] == front[i] && (front + [p])[|front|] == p;
  }

  lemma {:induction false} NewPair(ps: Pairs, p: Pair, e: Entry)
    requires forall k :: k in PairsValue(ps) ==> k.key != Unquoted(p.raw)
    ensures FirstWithKey(PairList(ps) + [p], |PairList(ps)|, e) <==> e == PairValue(p)
    ensures e in Insert(PairsValue(ps), PairValue(p)) <==> e in PairsValue(ps) || e == PairValue(p)
  {
    var list := PairList(ps) + [p];
    assert list[|PairList(ps)|] == p;
    forall j | 0 <= j < |PairList(ps)| ensures Unquoted(list[j].raw) != Unquoted(p.raw) {
      KeyIsKept(ps, j);
    }
  }

  /** Every key of a pair is a key of the dictionary. */
  lemma {:induction false} KeyIsKept(ps: Pairs, j: nat)
    requires j < |PairList(ps)|
    ensures exists k :: k in PairsValue(ps) && k.key == Unquoted(PairList(ps)[j].raw)
  {
    if ps.OnePair? {
      assert PairsValue(ps) == [PairValue(ps.pair)];
    } else {
      var entries, p := PairsValue(ps.pairs), PairValue(ps.pair);
      InsertHas(entries, p);
      if j < |PairList(ps.pairs)| {
        KeyIsKept(ps.pairs, j);
        assert PairList(ps)[j] == PairList(ps.pairs)[j];
      }
    }
  }

  lemma InsertHas(entries: seq<Entry>, p: Entry)
    ensures forall k :: k in entries ==> k in Insert(entries, p)
    ensures exists k :: k in Insert(entries, p) && k.key == p.key
  {
    if !exists k :: k in entries && k.key == p.key { assert p in Insert(entries, p); }
  }

  function CallList(c: Chain): seq<Invocation> {
    match c
    case OneCall(call) => [call]
    case MoreCalls(c, call) => CallList(c) + [call]
  }

  /** A chain keeps its first and its last call. */
  lemma {:induction false} ChainKeepsEnds(c: Chain)
    ensures var list := CallList(c);
      list != [] && ChainValue(c) ==
        if |list| == 1 then [CallValue(list[0])] else [CallValue(list[0]), CallValue(list[|list| - 1])]
  {
    if c.MoreCalls? {
      ChainKeepsEnds(c.chain);
      var list := CallList(c.chain);
      assert CallList(c) == list + [c.call] && (list + [c.call])[0] == list[0];
    }
  }
}
