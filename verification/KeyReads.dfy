/** What a configured document reads at every path, from the configured pairs and the values of their
    expressions alone. */
module KeyReads {
  import opened Json
  import opened KeyMap
  import opened Merge
  import opened Options
  import opened Pointer
  import opened Sorting

  /** The first pair with its key, whose expression counts. */
  predicate FirstPair(kves: seq<Kve>, i: nat) {
    i < |kves| && forall j :: 0 <= j < i ==> kves[j].key != kves[i].key
  }

  function Path(kves: seq<Kve>, i: nat): seq<string>
    requires i < |kves|
  {
    PathOf(kves[i].key)
  }

  /** Usable keys, different keys for different paths, and at most one root key. */
  ghost predicate WellKeyed(kves: seq<Kve>) {
    && (forall i {:trigger UsableAt(kves, i)} :: 0 <= i < |kves| ==> UsableAt(kves, i))
    && (forall i, j {:trigger PathsDiffer(kves, i, j)} :: 0 <= i < |kves| && 0 <= j < |kves| ==> PathsDiffer(kves, i, j))
    && (forall i, j {:trigger BothRoots(kves, i, j)} :: 0 <= i < j < |kves| ==> !BothRoots(kves, i, j))
  }

  predicate UsableAt(kves: seq<Kve>, i: nat)
    requires i < |kves|
  {
    Usable(kves[i].key)
  }

  predicate PathsDiffer(kves: seq<Kve>, i: nat, j: nat)
    requires i < |kves| && j < |kves|
  {
    kves[i].key != kves[j].key ==> Path(kves, i) != Path(kves, j)
  }

  predicate BothRoots(kves: seq<Kve>, i: nat, j: nat)
    requires i < |kves| && j < |kves|
  {
    IsRoot(kves[i].key) && IsRoot(kves[j].key)
  }

  ghost predicate Evaluates(kves: seq<Kve>, eval: Expr -> Option<Value>, i: nat)
    requires AllGood(kves) && i < |kves|
  {
    kves[i] in kves && eval(kves[i].expr.expr).Some?
  }

  /** The key's own value, as it is read below its path at `r`. */
  ghost function ReadOwn(kves: seq<Kve>, eval: Expr -> Option<Value>, i: nat, r: seq<string>): Option<Tree>
    requires AllGood(kves) && i < |kves| && Evaluates(kves, eval, i) && Path(kves, i) <= r
  {
    At(View(eval(kves[i].expr.expr).value), r[|Path(kves, i)|..])
  }

  /** The deepest configured path at or above `r` is that of pair `i`. */
  ghost predicate Deepest(kves: seq<Kve>, i: nat, r: seq<string>) {
    && FirstPair(kves, i) && Path(kves, i) <= r
    && forall k :: 0 <= k < |kves| && Path(kves, k) <= r ==> |Path(kves, k)| <= |Path(kves, i)|
  }

  /** Unless a path is configured below `r`, the document has there what the value of the deepest configured
      path at or above `r` has, and nothing when no path is configured at or above it. */
  ghost predicate ReadsAt(kves: seq<Kve>, eval: Expr -> Option<Value>, doc: Value, r: seq<string>)
    requires AllGood(kves)
  {
    (forall k :: 0 <= k < |kves| ==> !(r < Path(kves, k))) ==>
      && (forall i :: 0 <= i < |kves| && Deepest(kves, i, r) ==>
            Evaluates(kves, eval, i) && At(View(doc), r) == ReadOwn(kves, eval, i, r))
      && ((forall i :: 0 <= i < |kves| ==> !(Path(kves, i) <= r)) ==> At(View(doc), r).None?)
  }

  /** So it does everywhere. */
  ghost predicate ReadsConfigured(kves: seq<Kve>, eval: Expr -> Option<Value>, doc: Value)
    requires AllGood(kves)
  {
    forall r :: ReadsAt(kves, eval, doc, r)
  }

  // ---- which documents there are ----

  lemma {:induction false} KeysAre(kves: seq<Kve>)
    ensures forall i :: 0 <= i < |kves| ==> Keys(kves)[i] == kves[i].key
  {
    if kves != [] { KeysAre(kves[..|kves| - 1]); }
  }

  lemma {:induction false} FirstOf(kves: seq<Kve>, key: string) returns (i: nat)
    requires key in Keys(kves)
    ensures FirstPair(kves, i) && kves[i].key == key
  {
    KeysAre(kves);
    var j: nat :| j < |Keys(kves)| && Keys(kves)[j] == key;
    i := FirstUpTo(kves, j);
  }

  lemma {:induction false} FirstUpTo(kves: seq<Kve>, j: nat) returns (i: nat)
    requires j < |kves|
    ensures i <= j && FirstPair(kves, i) && kves[i].key == kves[j].key
  {
    if FirstPair(kves, j) {
      i := j;
    } else {
      var k: nat :| k < j && kves[k].key == kves[j].key;
      i := FirstUpTo(kves, k);
    }
  }

  ghost predicate AllEvaluated(kves: seq<Kve>, eval: Expr -> Option<Value>)
    requires AllGood(kves)
  {
    forall i :: 0 <= i < |kves| && FirstPair(kves, i) ==> Evaluates(kves, eval, i)
  }

  function Result(kves: seq<Kve>, eval: Expr -> Option<Value>): Option<Value>
    requires AllGood(kves)
  {
    Evaluated(Bindings(kves), StableSorted(BY_DEPTH, Keys(kves)), eval)
  }

  /** There is a document exactly when the expression of the first pair of each key evaluates. */
  lemma ResultExists(kves: seq<Kve>, eval: Expr -> Option<Value>)
    requires AllGood(kves)
    ensures Result(kves, eval).Some? <==> AllEvaluated(kves, eval)
    ensures kves == [] ==> Result(kves, eval) == Some(Null)
  {
    var m := Bindings(kves);
    KeysAre(kves);
    forall i | 0 <= i < |kves| && FirstPair(kves, i)
      ensures kves[i].key in m && (eval(m[kves[i].key]).Some? <==> Evaluates(kves, eval, i))
    {
      FirstBinding(kves, i);
      assert kves[i] in kves;
    }
    forall k | k in m ensures exists i :: 0 <= i < |kves| && FirstPair(kves, i) && kves[i].key == k {
      var i := FirstOf(kves, k);
    }
  }

  // ---- reading it ----

  lemma {:induction false} AtSum(t: Tree, p: seq<string>, q: seq<string>)
    ensures At(t, p + q) == if At(t, p).Some? then At(At(t, p).value, q) else None
  {
    if p == [] {
      assert p + q == q;
    } else {
      assert (p + q)[1..] == p[1..] + q;
      if t.Node? && p[0] in t.m { AtSum(t.m[p[0]], p[1..], q); }
    }
  }

  lemma {:induction false} OverlayElsewhere(x: Tree, p: seq<string>, ws: seq<Write>, q: seq<string>)
    requires forall w :: w in ws && p < w.path ==> Apart(q, w.path[|p|..])
    ensures At(Overlay(x, p, ws), q) == At(x, q)
  {
    if ws != [] {
      var front, w := ws[..|ws| - 1], ws[|ws| - 1];
      OverlayElsewhere(x, p, front, q);
      assert w in ws;
      if Deeper(p, w.path) { SetElsewhere(Overlay(x, p, front), w.path[|p|..], w.value, q); }
    }
  }

  lemma {:induction false} WritesElsewhere(t: Tree, ws: seq<Write>, r: seq<string>)
    requires forall w :: w in ws ==> Apart(r, w.path)
    ensures At(WriteTrees(t, ws), r) == At(t, r)
  {
    if ws != [] {
      var front, w := ws[..|ws| - 1], ws[|ws| - 1];
      WritesElsewhere(t, front, r);
      assert w in ws;
      SetElsewhere(WriteTrees(t, front), w.path, w.value, r);
    }
  }

  lemma ApartTails(p: seq<string>, r: seq<string>, w: seq<string>)
    requires p <= r && p <= w && Apart(r, w)
    ensures Apart(r[|p|..], w[|p|..])
  {
    assert r == p + r[|p|..] && w == p + w[|p|..];
    assert r[|p|..] <= w[|p|..] ==> r <= w;
    assert w[|p|..] <= r[|p|..] ==> w <= r;
  }

  lemma IsConfigured(kves: seq<Kve>, eval: Expr -> Option<Value>)
    requires AllGood(kves) && WellKeyed(kves) && AllEvaluated(kves, eval)
    ensures Configured(Keys(kves), Values(Bindings(kves), eval))
  {
    var values := Values(Bindings(kves), eval);
    KeysAre(kves);
    forall k | k in Keys(kves) ensures k in values && Usable(k) {
      var i := FirstOf(kves, k);
      ValueIs(kves, eval, i);
      assert UsableAt(kves, i);
    }
    forall i, j | 0 <= i < j < |Keys(kves)| ensures !(IsRoot(Keys(kves)[i]) && IsRoot(Keys(kves)[j])) {
      assert !BothRoots(kves, i, j);
    }
    forall k, k' | k in Keys(kves) && k' in Keys(kves) && k != k' ensures Pointer.Tokens(k) != Pointer.Tokens(k') {
      var i := FirstOf(kves, k);
      var j := FirstOf(kves, k');
      assert PathsDiffer(kves, i, j);
    }
  }

  lemma ValueIs(kves: seq<Kve>, eval: Expr -> Option<Value>, i: nat)
    requires AllGood(kves) && FirstPair(kves, i) && Evaluates(kves, eval, i)
    ensures var values := Values(Bindings(kves), eval);
      kves[i].key in values && values[kves[i].key] == eval(kves[i].expr.expr).value
  {
    FirstBinding(kves, i);
  }

  /** The writes of a document, in their order. */
  ghost function Writes(kves: seq<Kve>, eval: Expr -> Option<Value>): seq<Write>
    requires AllGood(kves)
  {
    WritesOf(StableSorted(BY_DEPTH, Keys(kves)), Values(Bindings(kves), eval))
  }

  /** The path of a write is a configured one. */
  lemma WritePath(kves: seq<Kve>, eval: Expr -> Option<Value>, w: Write) returns (k: nat)
    requires AllGood(kves) && w in Writes(kves, eval)
    ensures k < |kves| && w.path == Path(kves, k)
  {
    var order := StableSorted(BY_DEPTH, Keys(kves));
    StableSortedPermutes(BY_DEPTH, Keys(kves));
    var j: nat :| j < |order| && Writes(kves, eval)[j] == w;
    assert order[j] in multiset(order);
    k := FirstOf(kves, order[j]);
  }

  lemma SortedUsable(keys: seq<string>, values: map<string, Value>)
    requires Configured(keys, values)
    ensures forall k :: k in StableSorted(BY_DEPTH, keys) ==> k in values && Plain(PathOf(k))
  {
    StableSortedPermutes(BY_DEPTH, keys);
    forall k | k in StableSorted(BY_DEPTH, keys) ensures k in values && Plain(PathOf(k)) {
      assert k in multiset(StableSorted(BY_DEPTH, keys));
      assert k in keys;
    }
  }

  lemma ResultIsWritten(kves: seq<Kve>, eval: Expr -> Option<Value>, doc: Value)
    requires AllGood(kves) && Result(kves, eval) == Some(doc) && kves != []
    ensures doc == WriteAll(StableSorted(BY_DEPTH, Keys(kves)), Values(Bindings(kves), eval))
  {
    KeysAre(kves);
    assert Keys(kves)[0] in Keys(kves);
  }

  lemma DocumentIs(kves: seq<Kve>, eval: Expr -> Option<Value>, doc: Value)
    requires AllGood(kves) && WellKeyed(kves) && AllEvaluated(kves, eval) && Result(kves, eval) == Some(doc) && kves != []
    ensures View(doc) == WriteTrees(Node(map[]), Writes(kves, eval))
  {
    IsConfigured(kves, eval);
    SortedUsable(Keys(kves), Values(Bindings(kves), eval));
    ResultIsWritten(kves, eval, doc);
    WriteAllView(StableSorted(BY_DEPTH, Keys(kves)), Values(Bindings(kves), eval));
  }

  lemma KeyHolds(kves: seq<Kve>, eval: Expr -> Option<Value>, i: nat)
    requires AllGood(kves) && WellKeyed(kves) && AllEvaluated(kves, eval) && i < |kves|
    ensures var values := Values(Bindings(kves), eval);
      kves[i].key in values && Holds(Keys(kves), values, kves[i].key)
  {
    KeysAre(kves);
    assert Keys(kves)[i] in Keys(kves);
    IsConfigured(kves, eval);
    EveryPathHolds(Keys(kves), Values(Bindings(kves), eval), kves[i].key);
  }

  lemma OwnHolds(kves: seq<Kve>, eval: Expr -> Option<Value>, doc: Value, i: nat)
    requires AllGood(kves) && WellKeyed(kves) && AllEvaluated(kves, eval) && Result(kves, eval) == Some(doc)
    requires FirstPair(kves, i)
    ensures Evaluates(kves, eval, i) && At(View(doc), Path(kves, i)) ==
      Some(Overlay(View(eval(kves[i].expr.expr).value), Path(kves, i), Writes(kves, eval)))
  {
    KeyHolds(kves, eval, i);
    ValueIs(kves, eval, i);
    ResultIsWritten(kves, eval, doc);
  }

  lemma OwnReads(kves: seq<Kve>, eval: Expr -> Option<Value>, doc: Value, r: seq<string>, i: nat)
    requires AllGood(kves) && WellKeyed(kves) && AllEvaluated(kves, eval) && Result(kves, eval) == Some(doc)
    requires (forall k :: 0 <= k < |kves| ==> !(r < Path(kves, k))) && Deepest(kves, i, r)
    ensures Evaluates(kves, eval, i) && At(View(doc), r) == ReadOwn(kves, eval, i, r)
  {
    OwnHolds(kves, eval, doc, i);
    var x := View(eval(kves[i].expr.expr).value);
    WritesBeside(kves, eval, x, r, i);
    BelowReads(View(doc), Path(kves, i), r, Overlay(x, Path(kves, i), Writes(kves, eval)));
  }

  lemma BelowReads(t: Tree, p: seq<string>, r: seq<string>, x: Tree)
    requires p <= r && At(t, p) == Some(x)
    ensures At(t, r) == At(x, r[|p|..])
  {
    assert r == p + r[|p|..];
    AtSum(t, p, r[|p|..]);
  }

  lemma WritesBeside(kves: seq<Kve>, eval: Expr -> Option<Value>, x: Tree, r: seq<string>, i: nat)
    requires AllGood(kves)
    requires (forall k :: 0 <= k < |kves| ==> !(r < Path(kves, k))) && Deepest(kves, i, r)
    ensures var p := Path(kves, i); At(Overlay(x, p, Writes(kves, eval)), r[|p|..]) == At(x, r[|p|..])
  {
    var p, ws := Path(kves, i), Writes(kves, eval);
    forall w | w in ws && p < w.path ensures Apart(r[|p|..], w.path[|p|..]) {
      var k := WritePath(kves, eval, w);
      BelowIsApart(kves, i, r, k);
      ApartTails(p, r, w.path);
    }
    OverlayElsewhere(x, p, ws, r[|p|..]);
  }

  /** A path below the deepest one at or above `r` is neither above nor below `r`. */
  lemma BelowIsApart(kves: seq<Kve>, i: nat, r: seq<string>, k: nat)
    requires Deepest(kves, i, r) && k < |kves| && Path(kves, i) < Path(kves, k) && !(r < Path(kves, k))
    ensures Apart(r, Path(kves, k))
  {
    NotRelated(r, Path(kves, k));
  }

  lemma NothingReads(kves: seq<Kve>, eval: Expr -> Option<Value>, doc: Value, r: seq<string>)
    requires AllGood(kves) && WellKeyed(kves) && AllEvaluated(kves, eval) && Result(kves, eval) == Some(doc)
    requires kves != [] && forall k :: 0 <= k < |kves| ==> Apart(r, Path(kves, k))
    ensures At(View(doc), r).None?
  {
    DocumentIs(kves, eval, doc);
    WritesApart(kves, eval, r);
    assert Apart(r, Path(kves, 0));
  }

  lemma WritesApart(kves: seq<Kve>, eval: Expr -> Option<Value>, r: seq<string>)
    requires AllGood(kves) && forall k :: 0 <= k < |kves| ==> Apart(r, Path(kves, k))
    ensures At(WriteTrees(Node(map[]), Writes(kves, eval)), r) == At(Node(map[]), r)
  {
    var ws := Writes(kves, eval);
    forall w | w in ws ensures Apart(r, w.path) { var k := WritePath(kves, eval, w); }
    WritesElsewhere(Node(map[]), ws, r);
  }

  /** For usable keys with different paths, the document of a configuration reads at every path as the pairs
      and the values of their expressions say. */
  lemma DocumentReads(kves: seq<Kve>, eval: Expr -> Option<Value>, doc: Value)
    requires kves != [] && AllGood(kves) && WellKeyed(kves) && Result(kves, eval) == Some(doc)
    ensures ReadsConfigured(kves, eval, doc)
  {
    ResultExists(kves, eval);
    forall r ensures ReadsAt(kves, eval, doc, r) {
      if forall k :: 0 <= k < |kves| ==> !(r < Path(kves, k)) {
        forall i | 0 <= i < |kves| && Deepest(kves, i, r)
          ensures Evaluates(kves, eval, i) && At(View(doc), r) == ReadOwn(kves, eval, i, r)
        {
          OwnReads(kves, eval, doc, r, i);
        }
        if forall i :: 0 <= i < |kves| ==> !(Path(kves, i) <= r) {
          forall k | 0 <= k < |kves| ensures Apart(r, Path(kves, k)) { NotRelated(r, Path(kves, k)); }
          NothingReads(kves, eval, doc, r);
        }
      }
    }
  }

  lemma NotRelated(r: seq<string>, p: seq<string>)
    requires !(r < p) && !(p <= r)
    ensures Apart(r, p)
  {
    assert r <= p ==> r < p || r == p;
  }

  /** In particular, the path of a key below which nothing is configured has the value of the expression of
      the first pair with the key. */
  lemma KeyReadsValue(kves: seq<Kve>, eval: Expr -> Option<Value>, doc: Value, i: nat)
    requires AllGood(kves) && WellKeyed(kves) && Result(kves, eval) == Some(doc) && FirstPair(kves, i)
    requires forall k :: 0 <= k < |kves| ==> !(Path(kves, i) < Path(kves, k))
    ensures Evaluates(kves, eval, i) && At(View(doc), Path(kves, i)) == Some(View(eval(kves[i].expr.expr).value))
  {
    DocumentReads(kves, eval, doc);
    assert ReadsAt(kves, eval, doc, Path(kves, i)) && Deepest(kves, i, Path(kves, i));
    assert Path(kves, i)[|Path(kves, i)|..] == [];
  }

  /** `KEMap::init` and `KEMap::run`. */
  method InitAndRun(kves: seq<Kve>, eval: Expr -> Option<Value>) returns (ret: int, doc: Slot)
    ensures ret == if AllGood(kves) && AllEvaluated(kves, eval) then 0 else -1
    ensures ret == 0 && kves == [] ==> doc.value == Null
    ensures ret == 0 && kves != [] && WellKeyed(kves) ==> ReadsConfigured(kves, eval, doc.value)
  {
    var keMap := new KEMap();
    ret := keMap.Init(kves);
    if ret != 0 {
      doc := new Slot(Null);
      return;
    }
    ResultExists(kves, eval);
    ret, doc := keMap.Run(eval);
    if ret == 0 && kves != [] && WellKeyed(kves) { DocumentReads(kves, eval, doc.value); }
  }
}
