/** `KEMap`: configured key paths, sorted so that a shallow path is written before a deeper one. */
module KeyMap {
  import opened Json
  import opened Merge
  import opened Options
  import opened Pointer
  import opened Sorting

  /** An expression is either literal text or a parsed program; evaluating one is a parameter of the run. */
  datatype Expr = Literal(text: string) | Program(source: string)

  /** One configured pair: `Unparsable` for a program that does not parse, `Missing` when neither a
      value nor an expression is given. */
  datatype Kve = Kve(key: string, expr: KveExpr)
  datatype KveExpr = Good(expr: Expr) | Unparsable | Missing

  // ---- the comparison of two key paths ----

  function TrimLeft(s: string): string {
    if s != "" && s[0] == '/' then TrimLeft(s[1..]) else s
  }

  function TrimRight(s: string): string {
    if s != "" && s[|s| - 1] == '/' then TrimRight(s[..|s| - 1]) else s
  }

  function Trim(s: string): string {
    TrimRight(TrimLeft(s))
  }

  /** `StringCompare::operator()` with the slash as delimiter. */
  predicate StringCompare(a: string, b: string, rootToLeaf: bool) {
    var aTrim, bTrim := Trim(a), Trim(b);
    var aLevels, bLevels := Slashes(aTrim), Slashes(bTrim);
    if aLevels == bLevels && aLevels == 0 then
      if aTrim == "" then rootToLeaf
      else if bTrim == "" then !rootToLeaf
      else false
    else if aLevels < bLevels then rootToLeaf
    else if aLevels > bLevels then !rootToLeaf
    else false
  }

  /** The depth by which keys are compared: 0 for a root key. */
  function Rank(key: string): nat {
    if Trim(key) == "" then 0 else 1 + Slashes(Trim(key))
  }

  predicate IsRoot(key: string) { Trim(key) == "" }

  /** The comparison is the strict order of ranks, except that two root keys each precede the other. */
  lemma CompareIsRank(a: string, b: string)
    ensures StringCompare(a, b, true) <==> Rank(a) < Rank(b) || (IsRoot(a) && IsRoot(b))
  {
  }

  const BY_DEPTH := (a: string, b: string) => StringCompare(a, b, true)

  // ---- the key-expression map ----

  class KEMap {
    var keMap: map<string, Expr>
    var keyOrder: seq<string>

    constructor ()
      ensures keMap == map[] && keyOrder == []
    {
      keMap, keyOrder := map[], [];
    }

    ghost predicate Valid()
      reads this
    {
      keMap.Keys == set k | k in keyOrder
    }

    method Init(kves: seq<Kve>) returns (ret: int)
      requires keMap == map[] && keyOrder == []
      modifies this
      ensures ret == if AllGood(kves) then 0 else -1
      ensures ret == 0 ==> Valid() && keMap == Bindings(kves)
      ensures ret == 0 ==> keyOrder == StableSorted(BY_DEPTH, Keys(kves))
    {
      for i := 0 to |kves|
        invariant AllGood(kves[..i])
        invariant keMap == Bindings(kves[..i]) && keyOrder == Keys(kves[..i])
      {
        OneMore(kves, i);
        if !kves[i].expr.Good? {
          return -1;
        }
        BindOne(kves, i);
        if kves[i].key !in keMap {
          keMap := keMap[kves[i].key := kves[i].expr.expr];
        }
        keyOrder := keyOrder + [kves[i].key];
      }
      assert kves[..|kves|] == kves;
      var order := new Vector(keyOrder);
      order.Sort(BY_DEPTH);
      keyOrder := order.elems;
      SortedHasKeys(kves);
      return 0;
    }

    /** Evaluates every expression and writes the values into a new document, in key order. */
    method Run(eval: Expr -> Option<Value>) returns (ret: int, doc: Slot)
      requires Valid()
      ensures fresh(doc)
      ensures ret == if Evaluated(keMap, keyOrder, eval).Some? then 0 else -1
      ensures ret == 0 ==> doc.value == Evaluated(keMap, keyOrder, eval).value
    {
      doc := new Slot(Null);
      if |keMap| == 0 {
        return 0, doc;
      }
      doc.value := Object([]);
      for i := 0 to |keyOrder|
        invariant AllEvaluate(keMap, keyOrder[..i], eval)
        invariant doc.value == WriteAll(keyOrder[..i], Values(keMap, eval))
      {
        var key := keyOrder[i];
        assert key in keyOrder;
        var value := eval(keMap[key]);
        if value.None? {
          assert !AllEvaluate(keMap, keyOrder, eval);
          EvaluatedIs(keMap, keyOrder, eval);
          return -1, doc;
        }
        WriteOneMore(keyOrder, i, Values(keMap, eval));
        EvaluateOneMore(keMap, keyOrder, i, eval);
        var _ := JsonSetValueByPath(key, doc, value.value);
      }
      assert keyOrder[..|keyOrder|] == keyOrder;
      EvaluatedIs(keMap, keyOrder, eval);
      return 0, doc;
    }
  }

  predicate AllEvaluate(keMap: map<string, Expr>, keys: seq<string>, eval: Expr -> Option<Value>) {
    forall k :: k in keys ==> k in keMap && eval(keMap[k]).Some?
  }

  lemma EvaluatedIs(keMap: map<string, Expr>, keyOrder: seq<string>, eval: Expr -> Option<Value>)
    requires keMap.Keys == set k | k in keyOrder
    ensures keMap != map[] ==> (Evaluated(keMap, keyOrder, eval).Some? <==> AllEvaluate(keMap, keyOrder, eval))
  {
    assert forall k :: k in keMap <==> k in keyOrder;
  }

  lemma EvaluateOneMore(keMap: map<string, Expr>, keys: seq<string>, i: nat, eval: Expr -> Option<Value>)
    requires i < |keys| && AllEvaluate(keMap, keys[..i], eval)
    requires keys[i] in keMap && eval(keMap[keys[i]]).Some?
    ensures AllEvaluate(keMap, keys[..i + 1], eval)
  {
    assert keys[..i + 1] == keys[..i] + [keys[i]];
  }

  lemma WriteOneMore(order: seq<string>, i: nat, values: map<string, Value>)
    requires i < |order|
    ensures WriteAll(order[..i + 1], values) ==
      if order[i] in values then Written(WriteAll(order[..i], values), order[i], values[order[i]])
      else WriteAll(order[..i], values)
  {
    assert order[..i + 1][..i] == order[..i];
  }

  /** The document of a key-expression map: null when it is empty, none when an expression fails. */
  function Evaluated(keMap: map<string, Expr>, keyOrder: seq<string>, eval: Expr -> Option<Value>): Option<Value> {
    if keMap == map[] then Some(Null)
    else if forall k :: k in keMap ==> eval(keMap[k]).Some? then Some(WriteAll(keyOrder, Values(keMap, eval)))
    else None
  }

  predicate AllGood(kves: seq<Kve>) {
    forall e :: e in kves ==> e.expr.Good?
  }

  /** The first pair with a key decides its expression. */
  function Bindings(kves: seq<Kve>): (m: map<string, Expr>)
    requires AllGood(kves)
    ensures m.Keys == set k | k in Keys(kves)
  {
    if kves == [] then map[]
    else
      var m, last := Bindings(kves[..|kves| - 1]), kves[|kves| - 1];
      assert Keys(kves) == Keys(kves[..|kves| - 1]) + [last.key];
      if last.key in m then m else m[last.key := last.expr.expr]
  }

  function Keys(kves: seq<Kve>): (ks: seq<string>)
    ensures |ks| == |kves|
  {
    if kves == [] then [] else Keys(kves[..|kves| - 1]) + [kves[|kves| - 1].key]
  }

  lemma OneMore(kves: seq<Kve>, i: nat)
    requires i < |kves|
    ensures kves[..i + 1][..i] == kves[..i] && kves[..i + 1][i] == kves[i]
    ensures AllGood(kves[..i]) && kves[i].expr.Good? ==> AllGood(kves[..i + 1])
    ensures !kves[i].expr.Good? ==> !AllGood(kves)
  {
  }

  lemma BindOne(kves: seq<Kve>, i: nat)
    requires i < |kves| && AllGood(kves[..i]) && AllGood(kves[..i + 1])
    ensures Keys(kves[..i + 1]) == Keys(kves[..i]) + [kves[i].key]
    ensures kves[i].expr.Good? && Bindings(kves[..i + 1]) ==
      var m := Bindings(kves[..i]); if kves[i].key in m then m else m[kves[i].key := kves[i].expr.expr]
  {
    OneMore(kves, i);
    assert kves[i] in kves[..i + 1];
  }

  /** The expression of a key is that of its first pair. */
  lemma {:induction false} FirstBinding(kves: seq<Kve>, i: nat)
    requires AllGood(kves) && i < |kves| && forall j :: 0 <= j < i ==> kves[j].key != kves[i].key
    ensures kves[i].expr.Good? && kves[i].key in Bindings(kves) && Bindings(kves)[kves[i].key] == kves[i].expr.expr
  {
    var n := |kves| - 1;
    assert kves[i] in kves && kves[n] in kves;
    if i < n {
      FirstBinding(kves[..n], i);
    } else {
      NotBound(kves[..n], kves[n].key);
    }
  }

  lemma NotBound(kves: seq<Kve>, key: string)
    requires AllGood(kves) && forall j :: 0 <= j < |kves| ==> kves[j].key != key
    ensures key !in Bindings(kves)
  {
    if kves != [] { NotBound(kves[..|kves| - 1], key); }
  }

  lemma SortedHasKeys(kves: seq<Kve>)
    requires AllGood(kves)
    ensures Bindings(kves).Keys == set k | k in StableSorted(BY_DEPTH, Keys(kves))
  {
    StableSortedPermutes(BY_DEPTH, Keys(kves));
  }

  function Values(m: map<string, Expr>, eval: Expr -> Option<Value>): map<string, Value> {
    map k | k in m && eval(m[k]).Some? :: eval(m[k]).value
  }

  function WriteAll(order: seq<string>, values: map<string, Value>): Value {
    if order == [] then Object([])
    else
      var doc, key := WriteAll(order[..|order| - 1], values), order[|order| - 1];
      if key in values then Written(doc, key, values[key]) else doc
  }

  // ---- writes on trees ----

  datatype Write = Write(path: seq<string>, value: Tree)

  ghost function WriteTrees(t: Tree, ws: seq<Write>): Tree {
    if ws == [] then t
    else SetTree(WriteTrees(t, ws[..|ws| - 1]), ws[|ws| - 1].path, ws[|ws| - 1].value)
  }

  ghost predicate Deeper(p: seq<string>, q: seq<string>) {
    p < q
  }

  /** `x`, written at `p`, after the writes at strictly deeper paths. */
  ghost function Overlay(x: Tree, p: seq<string>, ws: seq<Write>): Tree {
    if ws == [] then x
    else
      var o, w := Overlay(x, p, ws[..|ws| - 1]), ws[|ws| - 1];
      if Deeper(p, w.path) then SetTree(o, w.path[|p|..], w.value) else o
  }

  ghost predicate ShallowFirst(ws: seq<Write>) {
    forall i, j :: 0 <= i < j < |ws| ==> |ws[i].path| <= |ws[j].path|
  }

  ghost predicate OneValueEach(ws: seq<Write>) {
    forall i, j :: 0 <= i < j < |ws| && ws[i].path == ws[j].path ==> ws[i].value == ws[j].value
  }

  lemma {:induction false} OverlayNothing(x: Tree, p: seq<string>, ws: seq<Write>)
    requires forall w :: w in ws ==> !Deeper(p, w.path)
    ensures Overlay(x, p, ws) == x
  {
    if ws != [] { OverlayNothing(x, p, ws[..|ws| - 1]); }
  }

  /** No write is at a path above an earlier one. */
  ghost predicate NoLaterPrefix(ws: seq<Write>) {
    forall i, j :: 0 <= i < j < |ws| ==> !Deeper(ws[j].path, ws[i].path)
  }

  /** When no later write is above an earlier one, each path ends with its own value under the deeper
      writes. */
  lemma {:induction false} EachWriteHolds(t: Tree, ws: seq<Write>, i: nat)
    requires i < |ws| && NoLaterPrefix(ws) && OneValueEach(ws)
    ensures At(WriteTrees(t, ws), ws[i].path) == Some(Overlay(ws[i].value, ws[i].path, ws))
  {
    var front, w, p := ws[..|ws| - 1], ws[|ws| - 1], ws[i].path;
    var before := WriteTrees(t, front);
    if w.path == p {
      SetReadsBack(before, p, w.value, p);
      assert p[|p|..] == [];
      OverlayNothing(w.value, p, ws);
    } else {
      EachWriteHolds(t, front, i);
      if p <= w.path {
        SetReadsBack(before, w.path, w.value, p);
      } else {
        SetElsewhere(before, w.path, w.value, p);
      }
    }
  }

  ghost predicate DistinctPaths(ws: seq<Write>) {
    forall i, j :: 0 <= i < j < |ws| ==> ws[i].path != ws[j].path
  }

  ghost function Without(ws: seq<Write>, j: nat): seq<Write>
    requires j < |ws|
  {
    ws[..j] + ws[j + 1..]
  }

  lemma WithoutFront(ws: seq<Write>, j: nat)
    requires j < |ws| - 1
    ensures Without(ws, j) == Without(ws[..|ws| - 1], j) + [ws[|ws| - 1]]
  {
  }

  lemma WriteSnoc(t: Tree, ws: seq<Write>, w: Write)
    ensures WriteTrees(t, ws + [w]) == SetTree(WriteTrees(t, ws), w.path, w.value)
  {
    assert (ws + [w])[..|ws|] == ws;
  }

  /** A write can be postponed past writes of its own depth. */
  lemma {:induction false} WriteLast(t: Tree, ws: seq<Write>, j: nat)
    requires j < |ws| && DistinctPaths(ws)
    requires forall k :: j <= k < |ws| ==> |ws[k].path| == |ws[j].path|
    ensures WriteTrees(t, ws) == SetTree(WriteTrees(t, Without(ws, j)), ws[j].path, ws[j].value)
  {
    var front, u, w := ws[..|ws| - 1], ws[|ws| - 1], ws[j];
    if j == |ws| - 1 {
      assert Without(ws, j) == front;
    } else {
      assert Apart(w.path, u.path) by { assert |u.path| == |w.path| && w.path != u.path; }
      WriteLast(t, front, j);
      WithoutFront(ws, j);
      WriteSnoc(t, Without(front, j), u);
      SetCommutes(WriteTrees(t, Without(front, j)), w.path, w.value, u.path, u.value);
    }
  }

  /** Any two shallow-first orders of the same writes build the same tree. */
  lemma {:induction false} WriteOrderIrrelevant(t: Tree, ws: seq<Write>, ws': seq<Write>)
    requires multiset(ws) == multiset(ws')
    requires ShallowFirst(ws) && ShallowFirst(ws') && DistinctPaths(ws) && DistinctPaths(ws')
    ensures WriteTrees(t, ws) == WriteTrees(t, ws')
    decreases |ws|
  {
    if ws == [] {
      assert multiset(ws') == multiset{};
    } else {
      var j := LastMovesTo(ws, ws');
      WriteLast(t, ws', j);
      SubsequenceKeeps(ws', j);
      WriteOrderIrrelevant(t, ws[..|ws| - 1], Without(ws', j));
    }
  }

  lemma LastMovesTo(ws: seq<Write>, ws': seq<Write>) returns (j: nat)
    requires ws != [] && multiset(ws) == multiset(ws') && ShallowFirst(ws) && ShallowFirst(ws')
    ensures j < |ws'| && ws'[j] == ws[|ws| - 1]
    ensures forall k :: j <= k < |ws'| ==> |ws'[k].path| == |ws'[j].path|
    ensures multiset(ws[..|ws| - 1]) == multiset(Without(ws', j))
  {
    j := PlaceOfLast(ws, ws');
    LastRemoved(ws, ws', j);
    forall k | j <= k < |ws'| ensures |ws'[k].path| == |ws'[j].path| {
      LastIsDeepest(ws, ws', k);
    }
  }

  lemma PlaceOfLast(ws: seq<Write>, ws': seq<Write>) returns (j: nat)
    requires ws != [] && multiset(ws) == multiset(ws')
    ensures j < |ws'| && ws'[j] == ws[|ws| - 1]
  {
    assert ws[|ws| - 1] in multiset(ws');
    j :| 0 <= j < |ws'| && ws'[j] == ws[|ws| - 1];
  }

  lemma LastRemoved(ws: seq<Write>, ws': seq<Write>, j: nat)
    requires ws != [] && multiset(ws) == multiset(ws') && j < |ws'| && ws'[j] == ws[|ws| - 1]
    ensures multiset(ws[..|ws| - 1]) == multiset(Without(ws', j))
  {
    RemoveAt(ws', j);
    assert ws == ws[..|ws| - 1] + [ws[|ws| - 1]];
  }

  lemma LastIsDeepest(ws: seq<Write>, ws': seq<Write>, k: nat)
    requires ShallowFirst(ws) && multiset(ws) == multiset(ws') && k < |ws'|
    ensures ws != [] && |ws'[k].path| <= |ws[|ws| - 1].path|
  {
    assert ws'[k] in multiset(ws);
    var i :| 0 <= i < |ws| && ws[i] == ws'[k];
  }

  lemma SubsequenceKeeps(ws: seq<Write>, j: nat)
    requires j < |ws| && ShallowFirst(ws) && DistinctPaths(ws)
    ensures ShallowFirst(Without(ws, j)) && DistinctPaths(Without(ws, j))
  {
    assert forall i :: 0 <= i < |ws| - 1 ==> Without(ws, j)[i] == ws[if i < j then i else i + 1];
  }

  // ---- from key strings to writes ----

  /** Nothing but an optional leading slash stands around the path, or it is the root path. */
  predicate NoStraySlash(key: string) {
    key == "" || key == "/" || (key[|key| - 1] != '/' && !(key[0] == '/' && key[1] == '/'))
  }

  predicate Usable(key: string) {
    NoStraySlash(key) && Tokens(key).Some? && Plain(Tokens(key).value)
  }

  lemma {:induction false} TrimLeftId(s: string)
    requires s == "" || s[0] != '/'
    ensures TrimLeft(s) == s
  {
  }

  /** The rank that keys are compared by is the number of reference tokens. */
  lemma RankIsDepth(key: string)
    requires NoStraySlash(key) && Tokens(key).Some?
    ensures Rank(key) == |Tokens(key).value|
  {
    if key != "" && key != "/" {
      var body := Normalized(key)[1..];
      assert body == if key[0] == '/' then key[1..] else key;
      TrimLeftId(body);
      assert TrimLeft(key) == body;
      assert body != "" && body[|body| - 1] == key[|key| - 1] != '/';
      assert Trim(key) == body;
      assert Rank(key) == 1 + Slashes(body);
      assert Normalized(key) == "/" + body;
    } else {
      assert TrimLeft("/") == TrimLeft("/"[1..]);
    }
  }

  ghost predicate Configured(keys: seq<string>, values: map<string, Value>) {
    && (forall k :: k in keys ==> k in values && Usable(k))
    && (forall k, k' :: k in keys && k' in keys && k != k' ==> Tokens(k) != Tokens(k'))
    && (forall i, j :: 0 <= i < j < |keys| ==> !(IsRoot(keys[i]) && IsRoot(keys[j])))
  }

  ghost function WriteOf(key: string, values: map<string, Value>): Write {
    Write(PathOf(key), if key in values then View(values[key]) else Leaf(Null))
  }

  ghost function WritesOf(order: seq<string>, values: map<string, Value>): (ws: seq<Write>)
    ensures |ws| == |order|
    ensures forall i :: 0 <= i < |order| ==> ws[i] == WriteOf(order[i], values)
  {
    Map(k => WriteOf(k, values), order)
  }

  lemma WritesSnoc(order: seq<string>, values: map<string, Value>)
    requires order != []
    ensures WritesOf(order, values) ==
      WritesOf(order[..|order| - 1], values) + [WriteOf(order[|order| - 1], values)]
  {
  }

  lemma {:induction false} WriteAllView(order: seq<string>, values: map<string, Value>)
    requires forall k :: k in order ==> k in values && Plain(PathOf(k))
    ensures View(WriteAll(order, values)) == WriteTrees(Node(map[]), WritesOf(order, values))
  {
    if order != [] {
      var front, key := order[..|order| - 1], order[|order| - 1];
      WriteAllView(front, values);
      WritesSnoc(order, values);
      WriteSnoc(Node(map[]), WritesOf(front, values), WriteOf(key, values));
      SetView(WriteAll(front, values), PathOf(key), values[key]);
    }
  }

  ghost function Document(keys: seq<string>, values: map<string, Value>): Value {
    WriteAll(StableSorted(BY_DEPTH, keys), values)
  }

  lemma {:induction false} SortedKeys(keys: seq<string>, values: map<string, Value>)
    requires Configured(keys, values)
    ensures var order := StableSorted(BY_DEPTH, keys);
      && multiset(order) == multiset(keys)
      && (forall k :: k in order <==> k in keys)
      && ShallowFirst(WritesOf(order, values)) && OneValueEach(WritesOf(order, values))
  {
    var byRank := (a: string, b: string) => Rank(a) < Rank(b);
    var order := StableSorted(BY_DEPTH, keys);
    forall i, j | 0 <= i < j < |keys| ensures BY_DEPTH(keys[j], keys[i]) == byRank(keys[j], keys[i]) {
      CompareIsRank(keys[j], keys[i]);
    }
    SameComparisons(BY_DEPTH, byRank, keys);
    StableSortedSorts(byRank, (set k | k in keys), keys);
    StableSortedPermutes(BY_DEPTH, keys);
    forall k | k in order ensures Rank(k) == |Tokens(k).value| { RankIsDepth(k); }
    var ws := WritesOf(order, values);
    forall i, j | 0 <= i < j < |ws| ensures |ws[i].path| <= |ws[j].path| {
      assert !byRank(order[j], order[i]);
      assert order[i] in order && order[j] in order;
    }
    forall i, j | 0 <= i < j < |ws| && ws[i].path == ws[j].path ensures ws[i].value == ws[j].value {
      assert order[i] in order && order[j] in order;
      assert Tokens(order[i]) == Tokens(order[j]);
    }
  }

  /** The path of a key holds the key's own value, changed only by configured paths strictly below it. */
  ghost predicate Holds(keys: seq<string>, values: map<string, Value>, key: string)
    requires key in values
  {
    At(View(Document(keys, values)), PathOf(key)) ==
      Some(Overlay(View(values[key]), PathOf(key), WritesOf(StableSorted(BY_DEPTH, keys), values)))
  }

  lemma SortedPathHolds(keys: seq<string>, values: map<string, Value>, key: string)
    requires forall k :: k in keys ==> k in values && Plain(PathOf(k))
    requires var ws := WritesOf(StableSorted(BY_DEPTH, keys), values); NoLaterPrefix(ws) && OneValueEach(ws)
    requires key in keys
    ensures Holds(keys, values, key)
  {
    var order := StableSorted(BY_DEPTH, keys);
    StableSortedPermutes(BY_DEPTH, keys);
    WriteAllView(order, values);
    assert key in order;
    var i :| 0 <= i < |order| && order[i] == key;
    EachWriteHolds(Node(map[]), WritesOf(order, values), i);
    assert WritesOf(order, values)[i] == WriteOf(key, values);
  }

  /** Whatever the configuration order, every configured path of the document holds its own value,
      changed only by configured paths strictly below it. */
  lemma {:induction false} EveryPathHolds(keys: seq<string>, values: map<string, Value>, key: string)
    requires Configured(keys, values) && key in keys
    ensures Holds(keys, values, key)
    ensures (forall k :: k in keys ==> !Deeper(PathOf(key), PathOf(k))) ==>
      At(View(Document(keys, values)), PathOf(key)) == Some(View(values[key]))
  {
    SortedKeys(keys, values);
    SortedPathHolds(keys, values, key);
    if forall k :: k in keys ==> !Deeper(PathOf(key), PathOf(k)) {
      NothingDeeper(StableSorted(BY_DEPTH, keys), values, key);
    }
  }

  lemma NothingDeeper(order: seq<string>, values: map<string, Value>, key: string)
    requires forall k :: k in order ==> !Deeper(PathOf(key), PathOf(k))
    ensures forall x :: Overlay(x, PathOf(key), WritesOf(order, values)) == x
  {
    var ws := WritesOf(order, values);
    forall w | w in ws ensures !Deeper(PathOf(key), w.path) {
      var j :| 0 <= j < |ws| && ws[j] == w;
      assert order[j] in order;
    }
    forall x ensures Overlay(x, PathOf(key), ws) == x { OverlayNothing(x, PathOf(key), ws); }
  }

  ghost predicate Distinct(keys: seq<string>) {
    forall i, j :: 0 <= i < j < |keys| ==> keys[i] != keys[j]
  }

  lemma {:induction false} CountOnce(keys: seq<string>, k: string)
    requires Distinct(keys)
    ensures multiset(keys)[k] <= 1
  {
    if keys != [] {
      CountOnce(keys[1..], k);
      assert keys == [keys[0]] + keys[1..];
      assert keys[0] !in multiset(keys[1..]);
    }
  }

  lemma DistinctPermuted(keys: seq<string>, order: seq<string>)
    requires multiset(keys) == multiset(order) && Distinct(keys)
    ensures Distinct(order)
  {
    forall i, j | 0 <= i < j < |order| ensures order[i] != order[j] {
      CountOnce(keys, order[i]);
      RemoveAt(order, i);
      assert order[j] == (order[..i] + order[i + 1..])[j - 1];
      assert order[j] in multiset(order[..i] + order[i + 1..]);
    }
  }

  /** Reordering the configuration does not change the document, as a tree. */
  lemma ConfigurationOrderIrrelevant(keys: seq<string>, keys': seq<string>, values: map<string, Value>)
    requires Configured(keys, values) && Configured(keys', values)
    requires multiset(keys) == multiset(keys')
    requires Distinct(keys)
    ensures View(Document(keys, values)) == View(Document(keys', values))
  {
    SortedKeys(keys, values);
    SortedKeys(keys', values);
    var order, order' := StableSorted(BY_DEPTH, keys), StableSorted(BY_DEPTH, keys');
    WriteAllView(order, values);
    WriteAllView(order', values);
    MapPermutes(k => WriteOf(k, values), order, order');
    DistinctPermuted(keys, order);
    DistinctPermuted(keys, order');
    DistinctWrites(order, values);
    DistinctWrites(order', values);
    WriteOrderIrrelevant(Node(map[]), WritesOf(order, values), WritesOf(order', values));
  }

  lemma DistinctWrites(order: seq<string>, values: map<string, Value>)
    requires Distinct(order)
    requires forall k :: k in order ==> Usable(k)
    requires forall k, k' :: k in order && k' in order && k != k' ==> Tokens(k) != Tokens(k')
    ensures DistinctPaths(WritesOf(order, values))
  {
    var ws := WritesOf(order, values);
    forall i, j | 0 <= i < j < |ws| ensures ws[i].path != ws[j].path {
      assert order[i] in order && order[j] in order;
      assert Tokens(order[i]) != Tokens(order[j]);
    }
  }

  // ---- why the keys must be clean ----

  lemma StrayTokens()
    ensures Tokens("a") == Some(["a"]) && Tokens("a/") == Some(["a", ""])
    ensures !BY_DEPTH("a", "a/") && !BY_DEPTH("a/", "a")
  {
    VerbatimTokens("a", "");
    AllUnescaped(["a"]);
    AllUnescaped(["a", ""]);
    assert Normalized("a") == "/a" && "/a"[1..] == "a";
    assert Normalized("a/") == "/a/" && "/a/"[1..] == "a/" == "a" + "/" + "";
    assert TrimRight("a") == "a" && "a/"[..1] == "a";
  }

  /** With a stray slash the comparison misses the depth: the path `a/` is configured, and the write at
      `a` that comes later wipes it out. */
  lemma StraySlashLoses(x: Value)
    ensures var values := map["a/" := x, "a" := Null];
      At(View(Document(["a/", "a"], values)), PathOf("a/")) == None
  {
    var keys, values := ["a/", "a"], map["a/" := x, "a" := Null];
    StrayTokens();
    assert keys[..1] == ["a/"] && keys[..1][..0] == [];
    assert StableSorted(BY_DEPTH, keys[..1]) == ["a/"];
    assert Inserted(BY_DEPTH, ["a/"], "a") == ["a/", "a"];
    assert StableSorted(BY_DEPTH, keys) == keys;
    assert ["a"][1..] == [];
    GetAfterSet(WriteAll(keys[..1], values), ["a"], Null);
    var doc := WriteAll(keys, values);
    assert doc == SetAt(WriteAll(keys[..1], values), ["a"], Null);
    assert doc.Object? && GetAt(doc, ["a"]) == Some(Null);
    ViewLookup(doc.members, "a");
    assert ["a", ""][1..] == [""];
  }
}
