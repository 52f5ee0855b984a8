/** The expression language: its tokens, its abstract syntax, and how a tree is printed with parentheses
    where a subtree binds less tightly than its place demands. */
module Syntax {
  import opened Numbers

  datatype Op = Add | Sub | Mul | Div | BitAnd | BitOr | And | Or | Eq | Ne | Gt | Lt | Ge | Le

  datatype Token =
    | LeftPar | RightPar | LeftSquare | RightSquare | LeftBrace | RightBrace
    | Operator(op: Op) | Question | Colon | Comma | Dollar | Bang | Dot
    | NullWord | TrueWord | FalseWord
    | Identifier(name: string) | Quoted(raw: string) | Whole(digits: string) | Decimals(digits: string)
    | End

  datatype Expr =
    | Null
    | Integer(n: int)
    | Double(negative: bool, digits: string)
    | String(text: string)
    | Boolean(b: bool)
    | Array(items: seq<Expr>)
    | Dict(entries: seq<Entry>)
    | Binary(op: Op, lhs: Expr, rhs: Expr)
    | Ternary(cond: Expr, yes: Expr, no: Expr)
    | Not(expr: Expr)
    | Variable(name: string)
    | Calls(chain: seq<Call>)

  datatype Entry = Entry(key: string, value: Expr)
  datatype Call = Call(name: string, args: seq<Expr>)

  // ---- precedence: 1 for `?:`, which associates to the right; 2 to 9 associate to the left ----

  function Precedence(op: Op): (p: nat)
    ensures 2 <= p <= 9
  {
    match op
    case BitOr => 2
    case BitAnd => 3
    case Or => 4
    case And => 5
    case Eq => 6 case Ne => 6
    case Gt => 7 case Lt => 7 case Ge => 7 case Le => 7
    case Add => 8 case Sub => 8
    case Mul => 9 case Div => 9
  }

  const NOT_LEVEL: nat := 10
  const ATOM_LEVEL: nat := 11

  function Level(e: Expr): (l: nat)
    ensures 1 <= l <= ATOM_LEVEL
  {
    match e
    case Ternary(_, _, _) => 1
    case Binary(op, _, _) => Precedence(op)
    case Not(_) => NOT_LEVEL
    case _ => ATOM_LEVEL
  }

  // ---- printing ----

  /** `e` where the grammar takes a tree of level `l` or higher without parentheses. */
  function Print(e: Expr, l: nat): seq<Token>
    decreases e, 1
  {
    if Level(e) < l then [LeftPar] + Body(e) + [RightPar] else Body(e)
  }

  function Body(e: Expr): (ts: seq<Token>)
    decreases e, 0
  {
    match e
    case Null => [NullWord]
    case Integer(n) => if n < 0 then [Operator(Sub), Whole(Digits(-n))] else [Whole(Digits(n))]
    case Double(negative, digits) => (if negative then [Operator(Sub)] else []) + [Decimals(digits)]
    case String(text) => [Quoted("'" + text + "'")]
    case Boolean(b) => [if b then TrueWord else FalseWord]
    case Array(items) => [LeftSquare] + PrintItems(items) + [RightSquare]
    case Dict(entries) => [LeftBrace] + PrintEntries(entries) + [RightBrace]
    case Binary(op, a, b) => Print(a, Precedence(op)) + [Operator(op)] + Print(b, Precedence(op) + 1)
    case Ternary(c, a, b) => Print(c, 2) + [Question] + Print(a, 0) + [Colon] + Print(b, 1)
    case Not(x) => [Bang] + Print(x, NOT_LEVEL)
    case Variable(name) => [Dollar, Identifier(name)]
    case Calls(chain) => PrintChain(chain)
  }

  function PrintItems(es: seq<Expr>): seq<Token>
    decreases es, 1
  {
    if es == [] then [] else Print(es[0], 0) + PrintMore(es[1..])
  }

  /** The items after the first, each after a comma. */
  function PrintMore(es: seq<Expr>): seq<Token>
    decreases es, 0
  {
    if es == [] then [] else [Comma] + Print(es[0], 0) + PrintMore(es[1..])
  }

  function PrintEntry(entry: Entry): seq<Token> {
    [Quoted("'" + entry.key + "'"), Colon] + Print(entry.value, 0)
  }

  function PrintEntries(es: seq<Entry>): seq<Token>
    decreases es, 1
  {
    if es == [] then [] else PrintEntry(es[0]) + PrintMoreEntries(es[1..])
  }

  function PrintMoreEntries(es: seq<Entry>): seq<Token>
    decreases es, 0
  {
    if es == [] then [] else [Comma] + PrintEntry(es[0]) + PrintMoreEntries(es[1..])
  }

  function PrintCall(call: Call): seq<Token> {
    [Identifier(call.name), LeftPar] + PrintItems(call.args) + [RightPar]
  }

  function PrintChain(chain: seq<Call>): seq<Token>
    decreases chain, 1
  {
    if chain == [] then [] else PrintCall(chain[0]) + PrintLinks(chain[1..])
  }

  function PrintLinks(chain: seq<Call>): seq<Token>
    decreases chain, 0
  {
    if chain == [] then [] else [Dot] + PrintCall(chain[0]) + PrintLinks(chain[1..])
  }

  // ---- what parsing keeps of a tree ----

  /** `set_next` on the head of a chain replaces the link that is there. */
  function SetNext(chain: seq<Call>, next: Call): seq<Call>
    requires chain != []
  {
    [chain[0], next]
  }

  /** Inserting into the map keeps the entry that is there. */
  function Insert(entries: seq<Entry>, entry: Entry): seq<Entry> {
    if exists e :: e in entries && e.key == entry.key then entries else entries + [entry]
  }

  /** The tree that parsing builds: a chain of calls keeps its first and last call, a dictionary the
      first entry of each key. */
  function Kept(e: Expr): Expr
    decreases e
  {
    match e
    case Array(items) => Array(KeptItems(items))
    case Dict(entries) => Dict(KeptEntries([], entries))
    case Binary(op, a, b) => Binary(op, Kept(a), Kept(b))
    case Ternary(c, a, b) => Ternary(Kept(c), Kept(a), Kept(b))
    case Not(x) => Not(Kept(x))
    case Calls(chain) =>
      if chain == [] then e else Calls(KeptLinks([KeptCall(chain[0])], chain[1..]))
    case _ => e
  }

  function KeptItems(es: seq<Expr>): seq<Expr>
    decreases es
  {
    if es == [] then [] else [Kept(es[0])] + KeptItems(es[1..])
  }

  function KeptEntries(done: seq<Entry>, es: seq<Entry>): seq<Entry>
    decreases es
  {
    if es == [] then done else KeptEntries(Insert(done, Entry(es[0].key, Kept(es[0].value))), es[1..])
  }

  function KeptCall(call: Call): Call
    decreases call
  {
    Call(call.name, KeptItems(call.args))
  }

  function KeptLinks(done: seq<Call>, chain: seq<Call>): (r: seq<Call>)
    requires done != []
    ensures r != []
    decreases chain
  {
    if chain == [] then done else KeptLinks(SetNext(done, KeptCall(chain[0])), chain[1..])
  }

  const INT_MAX := 0x7FFF_FFFF

  /** Trees that can be written: integers in the range of `std::stoi`, no empty chain of calls. */
  predicate Writable(e: Expr)
    decreases e
  {
    match e
    case Integer(n) => -INT_MAX <= n <= INT_MAX
    case Array(items) => forall i :: 0 <= i < |items| ==> Writable(items[i])
    case Dict(entries) => forall i :: 0 <= i < |entries| ==> Writable(entries[i].value)
    case Binary(_, a, b) => Writable(a) && Writable(b)
    case Ternary(c, a, b) => Writable(c) && Writable(a) && Writable(b)
    case Not(x) => Writable(x)
    case Calls(chain) => chain != [] && forall i :: 0 <= i < |chain| ==> WritableCall(chain[i])
    case _ => true
  }

  predicate WritableCall(call: Call)
    decreases call
  {
    forall i :: 0 <= i < |call.args| ==> Writable(call.args[i])
  }
}
