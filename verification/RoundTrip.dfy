/** Parsing inverts printing: a printed tree has a derivation, which the machine of `Parser` rebuilds. */
module RoundTrip {
  import opened Builds
  import opened Grammar
  import opened Numbers
  import opened Parser
  import opened Seqs
  import opened Syntax

  // ---- the derivation of a printed tree ----

  /** The derivation of `Print(e, l)`. */
  function Written(e: Expr, l: nat): Derivation
    requires Writable(e)
    decreases e, 1
  {
    if Level(e) < l then Group(Plain(e)) else Plain(e)
  }

  function Plain(e: Expr): Derivation
    requires Writable(e)
    decreases e, 0
  {
    match e
    case Null => Word(NullWord)
    case Integer(n) => if n < 0 then Number(true, Digits(-n)) else Number(false, Digits(n))
    case Double(negative, digits) => Fraction(negative, digits)
    case String(text) => Literal("'" + text + "'")
    case Boolean(b) => Word(if b then TrueWord else FalseWord)
    case Array(items) => Bracketed(ItemsOf(items))
    case Dict(entries) => Braced(EntriesOf(entries))
    case Binary(op, a, b) => Operation(op, Written(a, Precedence(op)), Written(b, Precedence(op) + 1))
    case Ternary(c, a, b) => Choice(Written(c, 2), Written(a, 0), Written(b, 1))
    case Not(x) => Negation(Written(x, NOT_LEVEL))
    case Variable(name) => Dollared(name)
    case Calls(chain) => Chained(LinksOf(OneCall(CallOf(chain[0])), chain[1..]))
  }

  function ItemsOf(es: seq<Expr>): List
    requires forall i :: 0 <= i < |es| ==> Writable(es[i])
    decreases es, 1
  {
    if es == [] then NoItems else MoreOf(OneItem(Written(es[0], 0)), es[1..])
  }

  function MoreOf(done: List, es: seq<Expr>): List
    requires forall i :: 0 <= i < |es| ==> Writable(es[i])
    decreases es, 0
  {
    if es == [] then done else MoreOf(MoreItems(done, Written(es[0], 0)), es[1..])
  }

  function EntryOf(entry: Entry): Pair
    requires Writable(entry.value)
    decreases entry, 0
  {
    Pair("'" + entry.key + "'", Written(entry.value, 0))
  }

  function EntriesOf(es: seq<Entry>): Pairs
    requires forall i :: 0 <= i < |es| ==> Writable(es[i].value)
    decreases es, 1
  {
    if es == [] then NoPairs else MoreEntriesOf(OnePair(EntryOf(es[0])), es[1..])
  }

  function MoreEntriesOf(done: Pairs, es: seq<Entry>): Pairs
    requires forall i :: 0 <= i < |es| ==> Writable(es[i].value)
    decreases es, 0
  {
    if es == [] then done else MoreEntriesOf(MorePairs(done, EntryOf(es[0])), es[1..])
  }

  function CallOf(call: Call): Invocation
    requires WritableCall(call)
    decreases call
  {
    Invocation(call.name, ItemsOf(call.args))
  }

  function LinksOf(done: Chain, chain: seq<Call>): Chain
    requires forall i :: 0 <= i < |chain| ==> WritableCall(chain[i])
    decreases chain
  {
    if chain == [] then done else LinksOf(MoreCalls(done, CallOf(chain[0])), chain[1..])
  }

  // ---- it has the printed tokens, and builds what parsing keeps ----

  lemma {:induction false} WrittenIs(e: Expr, l: nat)
    requires Writable(e) && l <= ATOM_LEVEL
    ensures var d := Written(e, l);
      Respects(d) && Binding(d) >= l && Yield(d) == Print(e, l) && Value(d) == Kept(e)
    decreases e, 1
  {
    PlainIs(e);
  }

  lemma {:induction false} PlainIs(e: Expr)
    requires Writable(e)
    ensures var d := Plain(e);
      Respects(d) && Binding(d) == Level(e) && Yield(d) == Body(e) && Value(d) == Kept(e)
    decreases e, 0
  {
    match e
    case String(text) => assert Unquoted("'" + text + "'") == text;
    case Array(items) => ItemsIs(items);
    case Dict(entries) => EntriesIs(entries);
    case Binary(op, a, b) => WrittenIs(a, Precedence(op)); WrittenIs(b, Precedence(op) + 1);
    case Ternary(c, a, b) => WrittenIs(c, 2); WrittenIs(a, 0); WrittenIs(b, 1);
    case Not(x) => WrittenIs(x, NOT_LEVEL);
    case Calls(chain) =>
      CallIs(chain[0]);
      LinksIs(OneCall(CallOf(chain[0])), chain[1..]);
      assert Body(e) == PrintChain(chain);
    case _ =>
  }

  lemma {:induction false} ItemsIs(es: seq<Expr>)
    requires forall i :: 0 <= i < |es| ==> Writable(es[i])
    ensures var l := ItemsOf(es); ListRespects(l) && ListYield(l) == PrintItems(es) && ListValue(l) == KeptItems(es)
    decreases es, 1
  {
    if es != [] {
      WrittenIs(es[0], 0);
      MoreIs(OneItem(Written(es[0], 0)), es[1..]);
    }
  }

  lemma {:induction false} MoreIs(done: List, es: seq<Expr>)
    requires ListRespects(done) && forall i :: 0 <= i < |es| ==> Writable(es[i])
    ensures var l := MoreOf(done, es);
      && ListRespects(l) && ListYield(l) == ListYield(done) + PrintMore(es)
      && ListValue(l) == ListValue(done) + KeptItems(es)
    decreases es, 0
  {
    if es != [] {
      var x := Written(es[0], 0);
      WrittenIs(es[0], 0);
      MoreIs(MoreItems(done, x), es[1..]);
      Assoc4(ListYield(done), [Comma], Yield(x), PrintMore(es[1..]));
      Assoc(ListValue(done), [Value(x)], KeptItems(es[1..]));
    }
  }

  lemma {:induction false} EntryIs(entry: Entry)
    requires Writable(entry.value)
    ensures var p := EntryOf(entry);
      Respects(p.value) && PairYield(p) == PrintEntry(entry) && PairValue(p) == Entry(entry.key, Kept(entry.value))
    decreases entry, 0
  {
    WrittenIs(entry.value, 0);
    assert Unquoted("'" + entry.key + "'") == entry.key;
  }

  lemma {:induction false} EntriesIs(es: seq<Entry>)
    requires forall i :: 0 <= i < |es| ==> Writable(es[i].value)
    ensures var ps := EntriesOf(es);
      PairsRespect(ps) && PairsYield(ps) == PrintEntries(es) && PairsValue(ps) == KeptEntries([], es)
    decreases es, 1
  {
    if es != [] {
      EntryIs(es[0]);
      MoreEntriesIs(OnePair(EntryOf(es[0])), es[1..]);
    }
  }

  lemma {:induction false} MoreEntriesIs(done: Pairs, es: seq<Entry>)
    requires PairsRespect(done) && forall i :: 0 <= i < |es| ==> Writable(es[i].value)
    ensures var ps := MoreEntriesOf(done, es);
      && PairsRespect(ps) && PairsYield(ps) == PairsYield(done) + PrintMoreEntries(es)
      && PairsValue(ps) == KeptEntries(PairsValue(done), es)
    decreases es, 0
  {
    if es != [] {
      var p := EntryOf(es[0]);
      EntryIs(es[0]);
      MoreEntriesIs(MorePairs(done, p), es[1..]);
      Assoc4(PairsYield(done), [Comma], PairYield(p), PrintMoreEntries(es[1..]));
    }
  }

  lemma {:induction false} CallIs(call: Call)
    requires WritableCall(call)
    ensures var c := CallOf(call);
      ListRespects(c.args) && CallYield(c) == PrintCall(call) && CallValue(c) == KeptCall(call)
    decreases call
  {
    ItemsIs(call.args);
  }

  lemma {:induction false} LinksIs(done: Chain, chain: seq<Call>)
    requires ChainRespects(done) && forall i :: 0 <= i < |chain| ==> WritableCall(chain[i])
    ensures var c := LinksOf(done, chain);
      && ChainRespects(c) && ChainYield(c) == ChainYield(done) + PrintLinks(chain)
      && ChainValue(c) == KeptLinks(ChainValue(done), chain)
    decreases chain
  {
    if chain != [] {
      var call := CallOf(chain[0]);
      CallIs(chain[0]);
      LinksIs(MoreCalls(done, call), chain[1..]);
      Assoc4(ChainYield(done), [Dot], CallYield(call), PrintLinks(chain[1..]));
    }
  }

  /** Printing a tree and parsing the tokens gives the tree back, but for what the grammar's actions
      drop from a chain of more than two calls or a dictionary that repeats a key. */
  lemma ParseInvertsPrint(e: Expr)
    requires Writable(e)
    ensures Parses(Print(e, 0) + [End], Kept(e))
  {
    WrittenIs(e, 0);
    DerivationParses(Written(e, 0));
  }

  // ---- exactly which trees come back ----

  /** No chain has more than two calls and no dictionary repeats a key. */
  predicate Tidy(e: Expr)
    decreases e
  {
    match e
    case Array(items) => forall i :: 0 <= i < |items| ==> Tidy(items[i])
    case Dict(entries) =>
      && (forall i, j :: 0 <= i < j < |entries| ==> entries[i].key != entries[j].key)
      && (forall i :: 0 <= i < |entries| ==> Tidy(entries[i].value))
    case Binary(_, a, b) => Tidy(a) && Tidy(b)
    case Ternary(c, a, b) => Tidy(c) && Tidy(a) && Tidy(b)
    case Not(x) => Tidy(x)
    case Calls(chain) => |chain| <= 2 && forall i :: 0 <= i < |chain| ==> TidyCall(chain[i])
    case _ => true
  }

  predicate TidyCall(call: Call)
    decreases call
  {
    forall i :: 0 <= i < |call.args| ==> Tidy(call.args[i])
  }

  lemma {:induction false} KeptIsTidy(e: Expr)
    ensures Kept(e) == e <==> Tidy(e)
    decreases e, 0
  {
    match e
    case Array(items) => KeptItemsTidy(items);
    case Dict(entries) => KeptEntriesTidy([], entries);
    case Binary(_, a, b) => KeptIsTidy(a); KeptIsTidy(b);
    case Ternary(c, a, b) => KeptIsTidy(c); KeptIsTidy(a); KeptIsTidy(b);
    case Not(x) => KeptIsTidy(x);
    case Calls(chain) => KeptChainTidy(chain);
    case _ =>
  }

  lemma {:induction false} KeptItemsTidy(es: seq<Expr>)
    ensures KeptItems(es) == es <==> forall i :: 0 <= i < |es| ==> Tidy(es[i])
    decreases es, 0
  {
    if es != [] {
      KeptIsTidy(es[0]);
      KeptItemsTidy(es[1..]);
      assert es == [es[0]] + es[1..];
    }
  }

  lemma {:induction false} KeptChainTidy(chain: seq<Call>)
    ensures Kept(Calls(chain)) == Calls(chain) <==> Tidy(Calls(chain))
    decreases chain, 1
  {
    if chain != [] {
      LinksLength([KeptCall(chain[0])], chain[1..]);
      KeptItemsTidy(chain[0].args);
      if |chain| == 2 {
        KeptItemsTidy(chain[1].args);
        assert chain == [chain[0], chain[1]];
        assert KeptLinks([KeptCall(chain[0])], chain[1..]) == [KeptCall(chain[0]), KeptCall(chain[1])];
      } else if |chain| == 1 {
        assert chain == [chain[0]];
      }
    }
  }

  lemma {:induction false} LinksLength(done: seq<Call>, chain: seq<Call>)
    requires done != []
    ensures |KeptLinks(done, chain)| == if chain == [] then |done| else 2
    decreases |chain|
  {
    if chain != [] { LinksLength(SetNext(done, KeptCall(chain[0])), chain[1..]); }
  }

  predicate DistinctKeys(es: seq<Entry>) {
    forall i, j :: 0 <= i < j < |es| ==> es[i].key != es[j].key
  }

  predicate TidyValues(es: seq<Entry>) {
    forall i :: 0 <= i < |es| ==> Tidy(es[i].value)
  }

  lemma {:induction false} KeptEntriesTidy(done: seq<Entry>, es: seq<Entry>)
    requires DistinctKeys(done)
    ensures |KeptEntries(done, es)| <= |done| + |es|
    ensures KeptEntries(done, es) == done + es <==> DistinctKeys(done + es) && TidyValues(es)
    decreases es, 0
  {
    if es == [] {
      assert done + es == done;
    } else {
      var entry := Entry(es[0].key, Kept(es[0].value));
      KeptIsTidy(es[0].value);
      if e :| e in done && e.key == entry.key {
        KeptEntriesTidy(done, es[1..]);
        RepeatedKey(done, es, e);
      } else {
        KeptEntriesTidy(done + [entry], es[1..]);
        KeptPrefix(done + [entry], es[1..]);
        NewKey(done, es, entry);
        if KeptEntries(done, es) == done + es { AtPlace(done, es, entry, done + es); }
      }
    }
  }

  lemma RepeatedKey(done: seq<Entry>, es: seq<Entry>, e: Entry)
    requires es != [] && e in done && e.key == es[0].key
    ensures !DistinctKeys(done + es)
  {
    var i :| 0 <= i < |done| && done[i] == e;
    assert (done + es)[i].key == (done + es)[|done|].key;
  }

  lemma NewKey(done: seq<Entry>, es: seq<Entry>, entry: Entry)
    requires es != [] && entry.key == es[0].key
    ensures DistinctKeys(done + [entry] + es[1..]) <==> DistinctKeys(done + es)
    ensures entry == es[0] ==> done + [entry] + es[1..] == done + es
    ensures TidyValues(es) <==> Tidy(es[0].value) && TidyValues(es[1..])
  {
    var a, b := done + [entry] + es[1..], done + es;
    assert |a| == |b| && forall i :: 0 <= i < |a| ==> a[i].key == b[i].key;
    if Tidy(es[0].value) && TidyValues(es[1..]) {
      assert forall i :: 1 <= i < |es| ==> es[i] == es[1..][i - 1];
    }
  }

  lemma AtPlace(done: seq<Entry>, es: seq<Entry>, entry: Entry, kept: seq<Entry>)
    requires es != [] && done + [entry] <= kept && kept == done + es
    ensures entry == es[0]
  {
    assert kept[|done|] == (done + [entry])[|done|] && kept[|done|] == es[0];
  }

  lemma {:induction false} KeptPrefix(done: seq<Entry>, es: seq<Entry>)
    ensures done <= KeptEntries(done, es)
    decreases |es|
  {
    if es != [] { KeptPrefix(Insert(done, Entry(es[0].key, Kept(es[0].value))), es[1..]); }
  }

  /** A printed tree parses back to itself exactly when it is tidy. */
  lemma RoundTripExactly(e: Expr)
    requires Writable(e)
    ensures Parses(Print(e, 0) + [End], e) <==> Tidy(e)
  {
    ParseInvertsPrint(e);
    KeptIsTidy(e);
    if Parses(Print(e, 0) + [End], e) {
      ParseUnique(Print(e, 0) + [End], e, Kept(e));
    }
  }
}
