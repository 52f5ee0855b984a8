/** From the text of an expression to its tree and back. */
module Language {
  import opened Syntax
  import opened Grammar
  import opened Lexer
  import opened Options
  import opened Parser
  import opened RoundTrip
  import opened Traces

  function TextOf(e: Expr): string {
    Render(Print(e, 0))
  }

  /** Names, literals and numerals that the token rules can produce. */
  predicate Spellable(e: Expr)
    decreases e
  {
    match e
    case Double(_, digits) => IsDecimals(digits)
    case String(text) => IsLiteral("'" + text + "'")
    case Array(items) => forall i :: 0 <= i < |items| ==> Spellable(items[i])
    case Dict(entries) => forall i :: 0 <= i < |entries| ==> SpellableEntry(entries[i])
    case Binary(_, a, b) => Spellable(a) && Spellable(b)
    case Ternary(c, a, b) => Spellable(c) && Spellable(a) && Spellable(b)
    case Not(x) => Spellable(x)
    case Variable(name) => IsName(name)
    case Calls(chain) => forall i :: 0 <= i < |chain| ==> SpellableCall(chain[i])
    case _ => true
  }

  predicate SpellableEntry(entry: Entry)
    decreases entry
  {
    IsLiteral("'" + entry.key + "'") && Spellable(entry.value)
  }

  predicate SpellableCall(call: Call)
    decreases call
  {
    IsName(call.name) && forall i :: 0 <= i < |call.args| ==> Spellable(call.args[i])
  }

  /** No node for `||` anywhere in the tree. */
  predicate OrFree(e: Expr)
    decreases e
  {
    match e
    case Array(items) => forall i :: 0 <= i < |items| ==> OrFree(items[i])
    case Dict(entries) => forall i :: 0 <= i < |entries| ==> OrFreeEntry(entries[i])
    case Binary(op, a, b) => op != Or && OrFree(a) && OrFree(b)
    case Ternary(c, a, b) => OrFree(c) && OrFree(a) && OrFree(b)
    case Not(x) => OrFree(x)
    case Calls(chain) => forall i :: 0 <= i < |chain| ==> OrFreeCall(chain[i])
    case _ => true
  }

  predicate OrFreeEntry(entry: Entry)
    decreases entry
  {
    OrFree(entry.value)
  }

  predicate OrFreeCall(call: Call)
    decreases call
  {
    forall i :: 0 <= i < |call.args| ==> OrFree(call.args[i])
  }

  ghost predicate AllLexable(ts: seq<Token>) {
    forall t :: t in ts ==> Lexable(t)
  }

  // ---- printed tokens are lexable ----

  lemma {:induction false} PrintLexable(e: Expr, l: nat)
    requires Spellable(e) && OrFree(e)
    ensures AllLexable(Print(e, l))
    decreases e, 1
  {
    BodyLexable(e);
  }

  lemma {:induction false} BodyLexable(e: Expr)
    requires Spellable(e) && OrFree(e)
    ensures AllLexable(Body(e))
    decreases e, 0
  {
    match e
    case Array(items) => ItemsLexable(items);
    case Dict(entries) => EntriesLexable(entries);
    case Binary(op, a, b) => PrintLexable(a, Precedence(op)); PrintLexable(b, Precedence(op) + 1);
    case Ternary(c, a, b) => PrintLexable(c, 2); PrintLexable(a, 0); PrintLexable(b, 1);
    case Not(x) => PrintLexable(x, NOT_LEVEL);
    case Calls(chain) => ChainLexable(chain);
    case _ =>
  }

  lemma {:induction false} ItemsLexable(es: seq<Expr>)
    requires forall i :: 0 <= i < |es| ==> Spellable(es[i]) && OrFree(es[i])
    ensures AllLexable(PrintItems(es)) && AllLexable(PrintMore(es))
    decreases es
  {
    if es != [] {
      PrintLexable(es[0], 0);
      ItemsLexable(es[1..]);
    }
  }

  lemma {:induction false} EntriesLexable(es: seq<Entry>)
    requires forall i :: 0 <= i < |es| ==> SpellableEntry(es[i]) && OrFreeEntry(es[i])
    ensures AllLexable(PrintEntries(es)) && AllLexable(PrintMoreEntries(es))
    decreases es
  {
    if es != [] {
      PrintLexable(es[0].value, 0);
      EntriesLexable(es[1..]);
    }
  }

  lemma {:induction false} ChainLexable(chain: seq<Call>)
    requires forall i :: 0 <= i < |chain| ==> SpellableCall(chain[i]) && OrFreeCall(chain[i])
    ensures AllLexable(PrintChain(chain)) && AllLexable(PrintLinks(chain))
    decreases chain
  {
    if chain != [] {
      ItemsLexable(chain[0].args);
      ChainLexable(chain[1..]);
    }
  }

  // ---- parsing puts no `||` into a tree that the tokens do not have ----

  predicate OrFreeSymbol(x: Symbol) {
    match x
    case T(t) => t != Operator(Or)
    case E(e) => OrFree(e)
    case Items(es) => forall i :: 0 <= i < |es| ==> OrFree(es[i])
    case Entries(es) => forall i :: 0 <= i < |es| ==> OrFreeEntry(es[i])
    case KeyValue(entry) => OrFreeEntry(entry)
    case Fluent(chain) => forall i :: 0 <= i < |chain| ==> OrFreeCall(chain[i])
    case FuncCall(call) => OrFreeCall(call)
  }

  predicate OrFreeStack(s: Stack) {
    s.Push? ==> OrFreeSymbol(s.top) && OrFreeStack(s.rest)
  }

  predicate OrFreeState(s: State) {
    match s
    case Running(stack, input) => OrFreeStack(stack) && forall t :: t in input ==> t != Operator(Or)
    case Accepted(e) => OrFree(e)
    case Rejected => true
  }

  lemma PeelOrFree(s: Stack)
    requires OrFreeStack(s)
    ensures s.Push? ==>
      && OrFreeSymbol(s.top) && OrFreeStack(s.rest)
      && (s.rest.Push? ==>
        && OrFreeSymbol(s.rest.top) && OrFreeStack(s.rest.rest)
        && (s.rest.rest.Push? ==>
          && OrFreeSymbol(s.rest.rest.top) && OrFreeStack(s.rest.rest.rest)
          && (s.rest.rest.rest.Push? ==>
            OrFreeSymbol(s.rest.rest.rest.top) && OrFreeStack(s.rest.rest.rest.rest))))
  {
    if s.Push? { PeelOrFree(s.rest); }
  }

  predicate OrFreeAction(a: Action) {
    match a
    case Reduce(s) => OrFreeStack(s)
    case Accept(e) => OrFree(e)
    case _ => true
  }

  lemma TokenOrFree(s: Stack, t: Token, next: Token)
    requires OrFreeStack(s) && t != Operator(Or)
    ensures OrFreeAction(OnToken(s, t, next))
  {
    match t
    case RightPar => RightParOrFree(s);
    case RightSquare => PeelOrFree(s);
    case RightBrace => PeelOrFree(s);
    case _ =>
  }

  lemma RightParOrFree(s: Stack)
    requires OrFreeStack(s)
    ensures OrFreeAction(OnRightPar(s))
  {
    PeelOrFree(s);
  }

  lemma ExprOrFree(s: Stack, e: Expr, next: Token)
    requires OrFreeStack(s) && OrFree(e)
    ensures OrFreeAction(OnExpr(s, e, next))
  {
    if s.Push? && s.top.T? {
      assert OrFreeSymbol(s.top) && OrFreeStack(s.rest);
      match s.top.token
      case Operator(op) => OperandOrFree(s.rest, op, e, next);
      case Colon => ColonOrFree(s.rest, e, next);
      case Comma => ListItemOrFree(s, e, next);
      case _ =>
    }
  }

  lemma OperandOrFree(s: Stack, op: Op, e: Expr, next: Token)
    requires OrFreeStack(s) && OrFree(e) && op != Or
    ensures OrFreeAction(OnOperand(s, op, e, next))
  {
    PeelOrFree(s);
  }

  lemma ListItemOrFree(s: Stack, e: Expr, next: Token)
    requires OrFreeStack(s) && OrFree(e) && TopIs(s, Comma)
    ensures OrFreeAction(OnExpr(s, e, next))
  {
    PeelOrFree(s);
  }

  lemma ColonOrFree(s: Stack, e: Expr, next: Token)
    requires OrFreeStack(s) && OrFree(e)
    ensures OrFreeAction(OnColon(s, e, next))
  {
    PeelOrFree(s);
  }

  lemma EntryOrFree(s: Stack, entry: Entry)
    requires OrFreeStack(s) && OrFreeEntry(entry)
    ensures OrFreeAction(OnKeyValue(s, entry))
  {
    PeelOrFree(s);
  }

  lemma CallOrFree(s: Stack, call: Call)
    requires OrFreeStack(s) && OrFreeCall(call)
    ensures OrFreeAction(OnCall(s, call))
  {
    PeelOrFree(s);
  }

  lemma DecideOrFree(s: Stack, next: Token)
    requires OrFreeStack(s)
    ensures OrFreeAction(Decide(s, next))
  {
    if s.Push? {
      match s.top
      case T(t) => TokenOrFree(s.rest, t, next);
      case E(e) => ExprOrFree(s.rest, e, next);
      case KeyValue(entry) => EntryOrFree(s.rest, entry);
      case FuncCall(call) => CallOrFree(s.rest, call);
      case _ =>
    }
  }

  lemma {:induction false} RunOrFree(s: State, n: nat)
    requires OrFreeState(s)
    ensures OrFreeState(Run(s, n))
    decreases n
  {
    if n > 0 {
      if s.Running? {
        DecideOrFree(s.stack, if s.input == [] then End else s.input[0]);
        if s.input != [] {
          assert s.input[0] in s.input && forall t :: t in s.input[1..] ==> t in s.input;
        }
      }
      RunOrFree(Step(s), n - 1);
    }
  }

  /** The text of a tree, lexed and parsed, gives the tree back exactly when the tree has no `||`, no
      chain of more than two calls and no dictionary with a repeated key. */
  lemma {:induction false} TextRoundTripExactly(e: Expr)
    requires Writable(e) && Spellable(e)
    ensures Parses(Lex(TextOf(e)), e) <==> OrFree(e) && Tidy(e)
  {
    if OrFree(e) {
      PrintLexable(e, 0);
      LexInvertsRender(Print(e, 0));
      RoundTripExactly(e);
    } else if Parses(Lex(TextOf(e)), e) {
      var start := Running(Bottom, Lex(TextOf(e)));
      var n: nat :| Run(start, n) == Accepted(e);
      NoOrToken(TextOf(e));
      RunOrFree(start, n);
    }
  }

  /** The end of the text is one token, and the last. */
  predicate EndsOnce(ts: seq<Token>) {
    ts != [] && ts[|ts| - 1] == End && End !in ts[..|ts| - 1]
  }

  lemma EndsOnceCons(t: Token, ts: seq<Token>)
    requires EndsOnce(ts) && t != End
    ensures EndsOnce([t] + ts)
  {
    var all := [t] + ts;
    assert all[..|all| - 1] == [t] + ts[..|ts| - 1];
  }

  lemma MatchIsNoEnd(s: string)
    requires s != ""
    ensures Match(s).0 != Some(End)
  {
  }

  lemma {:induction false} LexEnds(s: string)
    ensures EndsOnce(Lex(s))
    decreases |s|
  {
    if s != "" {
      if IsSpace(s[0]) {
        LexEnds(s[1..]);
      } else {
        var (t, n) := Match(s);
        MatchIsNoEnd(s);
        LexEnds(s[n..]);
        if t.Some? { EndsOnceCons(t.value, Lex(s[n..])); } else { assert [] + Lex(s[n..]) == Lex(s[n..]); }
      }
    }
  }

  /** The tokens of a text, without the end. */
  function Words(s: string): seq<Token> {
    Lex(s)[..|Lex(s)| - 1]
  }

  /** Parsing a text gives a tree exactly when the grammar derives that tree from its tokens. */
  lemma TextParsesExactly(s: string, e: Expr)
    ensures Parses(Lex(s), e) <==> Derives(Words(s), e)
  {
    LexEnds(s);
    assert Lex(s) == Words(s) + [End];
    ParsesExactly(Words(s), e);
  }
}
