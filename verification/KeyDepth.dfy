/** Exactly when depth-sorted writes keep every configured path: the comparison must take a key for shallower
    than the keys below its path, and where some keys go on with a name and others with an index, a name must
    come first. */
module KeyDepth {
  import opened Json
  import opened KeyMap
  import opened Options
  import opened Paths
  import opened Pointer
  import opened Sorting
  import opened Writes

  /** Every token of every path can be read, no index is spelled in two ways, and no two keys have the same
      path. */
  ghost predicate Clean(keys: seq<string>) {
    && (forall k {:trigger Readable(k)} :: k in keys ==> Readable(k))
    && (forall k, k' {:trigger SpelledAlike(k, k')} :: k in keys && k' in keys ==> SpelledAlike(k, k'))
    && (forall i, j {:trigger PathsDiffer(keys, i, j)} :: 0 <= i < j < |keys| ==> PathsDiffer(keys, i, j))
  }

  predicate Readable(key: string) {
    NoDash(PathOf(key))
  }

  predicate SpelledAlike(key: string, key': string) {
    Spelled(PathOf(key), PathOf(key'))
  }

  predicate PathsDiffer(keys: seq<string>, i: nat, j: nat)
    requires i < |keys| && j < |keys|
  {
    PathOf(keys[i]) != PathOf(keys[j])
  }

  /** A key whose path is above another one's has the smaller rank. */
  predicate DepthRespectsPaths(keys: seq<string>) {
    forall k, k' :: k in keys && k' in keys && PathOf(k) < PathOf(k') ==> Rank(k) < Rank(k')
  }

  /** The paths of two keys go on from the same place, the one with an index and the other with a name. The
      place is not the document that the writes start from. */
  ghost predicate Mixed(keys: seq<string>, k: string, k': string, p: seq<string>) {
    && k in keys && k' in keys && FromIndex(p, PathOf(k)) && FromName(p, PathOf(k'))
    && (p == [] ==> HasRoot(keys))
  }

  ghost predicate HasRoot(keys: seq<string>) {
    exists k :: k in keys && PathOf(k) == []
  }

  /** There a key that goes on with a name is shallower than each that goes on with an index. */
  ghost predicate NamesFirst(keys: seq<string>) {
    forall k, k', p :: Mixed(keys, k, k', p) ==> NameBefore(keys, k, p)
  }

  ghost predicate NameBefore(keys: seq<string>, k: string, p: seq<string>) {
    exists k' :: k' in keys && FromName(p, PathOf(k')) && Rank(k') < Rank(k)
  }

  /** The writes of the keys, in this order. */
  ghost function PutOf(key: string, values: map<string, Value>): Put {
    Put(PathOf(key), if key in values then values[key] else Null)
  }

  ghost function PutsOf(order: seq<string>, values: map<string, Value>): (ws: seq<Put>)
    ensures |ws| == |order| && forall i :: 0 <= i < |order| ==> ws[i] == PutOf(order[i], values)
  {
    seq(|order|, i requires 0 <= i < |order| => PutOf(order[i], values))
  }

  /** The path of a key holds its own value, changed only by the writes strictly below it. */
  ghost predicate KeyKept(order: seq<string>, values: map<string, Value>, key: string)
    requires key in values
  {
    GetAt(WriteAll(order, values), PathOf(key)) ==
      Some(Over(values[key], PathOf(key), PutsOf(order, values), |order|))
  }

  ghost predicate HasValues(keys: seq<string>, values: map<string, Value>) {
    forall k :: k in keys ==> k in values
  }

  /** For one configuration order and all its values, the path of one key holds. */
  ghost predicate HoldsIn(keys: seq<string>, order: seq<string>, values: map<string, Value>, key: string) {
    multiset(order) == multiset(keys) && HasValues(keys, values) && key in keys ==>
      key in values && KeyKept(StableSorted(BY_DEPTH, order), values, key)
  }

  /** In every configuration order, for all values, every path holds. */
  ghost predicate EveryOrderHolds(keys: seq<string>) {
    forall order, values, key :: HoldsIn(keys, order, values, key)
  }

  lemma SameMembers(keys: seq<string>, order: seq<string>)
    requires multiset(order) == multiset(keys)
    ensures forall k :: k in order <==> k in keys
  {
    assert forall k :: k in order <==> k in multiset(order);
    assert forall k :: k in keys <==> k in multiset(keys);
  }

  lemma CleanIsDistinct(keys: seq<string>)
    requires Clean(keys)
    ensures Distinct(keys)
  {
    forall i, j | 0 <= i < j < |keys| ensures keys[i] != keys[j] { assert PathsDiffer(keys, i, j); }
  }

  lemma CleanPermuted(keys: seq<string>, order: seq<string>)
    requires Clean(keys) && multiset(order) == multiset(keys)
    ensures Clean(order)
  {
    SameMembers(keys, order);
    CleanIsDistinct(keys);
    DistinctPermuted(keys, order);
    forall i, j | 0 <= i < j < |order| ensures PathsDiffer(order, i, j) {
      assert order[i] in order && order[j] in order;
      var a :| 0 <= a < |keys| && keys[a] == order[i];
      var b :| 0 <= b < |keys| && keys[b] == order[j];
      assert if a < b then PathsDiffer(keys, a, b) else PathsDiffer(keys, b, a);
    }
  }

  lemma AfterIsWritten(order: seq<string>, values: map<string, Value>)
    requires HasValues(order, values)
    ensures After(PutsOf(order, values), |order|) == WriteAll(order, values)
  {
    var ws := PutsOf(order, values);
    var docs := seq(|order| + 1, j requires 0 <= j <= |order| => WriteAll(order[..j], values));
    assert order[..0] == [] && order[..|order|] == order;
    forall j | 0 <= j < |ws| ensures Step(ws, docs, j) { StepIsWritten(order, values, j, docs[j], docs[j + 1]); }
    TraceIs(ws, docs, |order|);
  }

  lemma StepIsWritten(order: seq<string>, values: map<string, Value>, j: nat, doc: Value, doc': Value)
    requires HasValues(order, values) && j < |order|
    requires doc == WriteAll(order[..j], values) && doc' == WriteAll(order[..j + 1], values)
    ensures doc' == SetAt(doc, PutOf(order[j], values).path, PutOf(order[j], values).value)
  {
    assert order[j] in order;
    WriteOneMore(order, j, values);
  }

  lemma KeptIsKept(order: seq<string>, values: map<string, Value>, i: nat)
    requires HasValues(order, values) && i < |order|
    ensures order[i] in order && (KeyKept(order, values, order[i]) <==> Kept(PutsOf(order, values), i))
  {
    AfterIsWritten(order, values);
    assert order[i] in order;
  }

  // ---- root keys ----

  predicate AllSlashes(s: string) {
    forall i :: 0 <= i < |s| ==> s[i] == '/'
  }

  lemma {:induction false} TrimmedLeft(s: string)
    ensures TrimLeft(s) == "" ==> AllSlashes(s)
    ensures TrimLeft(s) != "" ==> TrimLeft(s)[0] != '/'
  {
    if s != "" && s[0] == '/' { TrimmedLeft(s[1..]); }
  }

  lemma {:induction false} TrimmedRight(s: string)
    ensures TrimRight(s) == "" ==> AllSlashes(s)
  {
    if s != "" && s[|s| - 1] == '/' { TrimmedRight(s[..|s| - 1]); }
  }

  lemma RootIsSlashes(key: string)
    requires IsRoot(key)
    ensures AllSlashes(key)
  {
    TrimmedLeft(key);
    TrimmedRight(TrimLeft(key));
  }

  function Empties(n: nat): seq<string> {
    seq(n, _ => "")
  }

  lemma {:induction false} SlashesSplit(s: string)
    requires AllSlashes(s)
    ensures Split(s) == Empties(|s| + 1)
  {
    if s != "" {
      SlashesSplit(s[1..]);
      assert [""] + Empties(|s|) == Empties(|s| + 1);
    }
  }

  lemma RootPath(key: string)
    requires IsRoot(key)
    ensures PathOf(key) == if |key| <= 1 then [] else Empties(|key|)
  {
    RootIsSlashes(key);
    if |key| > 1 {
      assert Normalized(key) == key;
      SlashesSplit(key[1..]);
      AllUnescaped(Empties(|key|));
    }
  }

  lemma RootsCompare(a: string, b: string)
    requires IsRoot(a) && IsRoot(b) && PathOf(a) != PathOf(b)
    ensures PathOf(a) < PathOf(b) || PathOf(b) < PathOf(a)
  {
    RootPath(a);
    RootPath(b);
  }

  // ---- the two conditions are enough ----

  /** Two keys that are sorted by their ranks, since no two of them stand for the root. */
  lemma SortedByRank(keys: seq<string>)
    requires Clean(keys) && DepthRespectsPaths(keys)
    ensures var s := StableSorted(BY_DEPTH, keys);
      && s == StableSorted(BY_RANK, keys) && SortedBy(BY_RANK, s) && multiset(s) == multiset(keys) && Clean(s)
  {
    forall i, j | 0 <= i < j < |keys| ensures BY_DEPTH(keys[j], keys[i]) == BY_RANK(keys[j], keys[i]) {
      CompareIsRank(keys[j], keys[i]);
      assert PathsDiffer(keys, i, j);
      if IsRoot(keys[i]) && IsRoot(keys[j]) { RootsCompare(keys[i], keys[j]); }
    }
    SameComparisons(BY_DEPTH, BY_RANK, keys);
    StableSortedSorts(BY_RANK, (set k | k in keys), keys);
    StableSortedPermutes(BY_DEPTH, keys);
    CleanPermuted(keys, StableSorted(BY_DEPTH, keys));
  }

  const BY_RANK := (a: string, b: string) => Rank(a) < Rank(b)

  ghost predicate ReadsRight(keys: seq<string>) {
    DepthRespectsPaths(keys) && NamesFirst(keys)
  }

  lemma RightPermuted(keys: seq<string>, order: seq<string>)
    requires multiset(order) == multiset(keys) && ReadsRight(keys)
    ensures ReadsRight(order)
  {
    SameMembers(keys, order);
    forall k, k', p | Mixed(order, k, k', p) ensures NameBefore(order, k, p) {
      assert Mixed(keys, k, k', p) && NameBefore(keys, k, p);
    }
  }

  lemma LessIsEarlier(s: seq<string>, l: nat, i: nat)
    requires SortedBy(BY_RANK, s) && l < |s| && i < |s| && Rank(s[l]) < Rank(s[i])
    ensures l < i
  {
    assert BY_RANK(s[l], s[i]);
  }

  lemma StartIsPrefix(p: seq<string>, q: seq<string>, n: nat)
    requires SameStart(p, q, n)
    ensures IndexAt(p, n) <==> FromIndex(p[..n], p)
    ensures NameAt(q, n) <==> FromName(p[..n], q)
  {
  }

  lemma PrefixIsStart(p: seq<string>, q: seq<string>, n: nat)
    requires n <= |p| && FromName(p[..n], q)
    ensures NameAt(q, n) && SameStart(q, p, n)
  {
  }

  lemma BranchNamed(s: seq<string>, values: map<string, Value>, i: nat, j: nat, n: nat)
    requires NamesFirst(s) && SortedBy(BY_RANK, s) && i < |s| && j < |s| && Branch(PutsOf(s, values), i, j, n)
    ensures EarlierName(PutsOf(s, values), i, n)
  {
    var ws, p := PutsOf(s, values), PathOf(s[i])[..n];
    StartIsPrefix(PathOf(s[i]), PathOf(s[j]), n);
    if n == 0 { RootAmong(s, values, j); }
    assert s[i] in s && s[j] in s && Mixed(s, s[i], s[j], p) && NameBefore(s, s[i], p);
    var k' :| k' in s && FromName(p, PathOf(k')) && Rank(k') < Rank(s[i]);
    var l :| 0 <= l < |s| && s[l] == k';
    LessIsEarlier(s, l, i);
    PrefixIsStart(PathOf(s[i]), PathOf(k'), n);
    assert ws[l].path == PathOf(k');
  }

  lemma RootAmong(s: seq<string>, values: map<string, Value>, j: nat)
    requires j <= |s| && RootBefore(PutsOf(s, values), j)
    ensures HasRoot(s)
  {
    var l :| 0 <= l < j && PutsOf(s, values)[l].path == [];
    assert s[l] in s && PathOf(s[l]) == [];
  }

  lemma RightInTurn(s: seq<string>, values: map<string, Value>, i: nat, j: nat)
    requires Clean(s) && ReadsRight(s) && SortedBy(BY_RANK, s) && i < j < |s|
    ensures InTurn(PutsOf(s, values), i, j)
  {
    assert s[i] in s && s[j] in s;
    assert Readable(s[j]) && SpelledAlike(s[i], s[j]) && PathsDiffer(s, i, j) && !BY_RANK(s[j], s[i]);
    forall n: nat | Branch(PutsOf(s, values), i, j, n) ensures EarlierName(PutsOf(s, values), i, n) {
      BranchNamed(s, values, i, j, n);
    }
  }

  lemma RightInOrder(s: seq<string>, values: map<string, Value>)
    requires Clean(s) && ReadsRight(s) && SortedBy(BY_RANK, s)
    ensures InOrder(PutsOf(s, values))
  {
    var ws := PutsOf(s, values);
    forall i | 0 <= i < |ws| ensures NoDash(ws[i].path) { assert s[i] in s && Readable(s[i]); }
    forall i, j | 0 <= i < j < |ws| ensures InTurn(ws, i, j) { RightInTurn(s, values, i, j); }
  }

  lemma RightHolds(keys: seq<string>, order: seq<string>, values: map<string, Value>, key: string)
    requires Clean(keys) && ReadsRight(keys) && multiset(order) == multiset(keys)
    requires HasValues(keys, values) && key in keys
    ensures key in values && KeyKept(StableSorted(BY_DEPTH, order), values, key)
  {
    var s := StableSorted(BY_DEPTH, order);
    CleanPermuted(keys, order);
    RightPermuted(keys, order);
    SortedByRank(order);
    RightPermuted(keys, s);
    SameMembers(keys, s);
    RightInOrder(s, values);
    InOrderHeld(PutsOf(s, values), |s|);
    var i := PlaceOf(keys, s, key);
    assert HeldAt(PutsOf(s, values), |s|, i);
    KeptIsKept(s, values, i);
  }

  lemma PlaceOf(keys: seq<string>, s: seq<string>, k: string) returns (j: nat)
    requires multiset(s) == multiset(keys) && k in keys
    ensures j < |s| && s[j] == k
  {
    SameMembers(keys, s);
    j :| 0 <= j < |s| && s[j] == k;
  }

  // ---- both are needed ----

  /** Text that is longer than every token of every path. */
  function Joined(path: seq<string>): string {
    if path == [] then "" else path[0] + Joined(path[1..])
  }

  function AllTokens(keys: seq<string>): string {
    if keys == [] then "" else Joined(PathOf(keys[0])) + AllTokens(keys[1..])
  }

  lemma {:induction false} TokenIsShorter(path: seq<string>, t: string)
    requires t in path
    ensures |t| <= |Joined(path)|
  {
    if t != path[0] { TokenIsShorter(path[1..], t); }
  }

  lemma {:induction false} PathIsShorter(keys: seq<string>, k: string)
    requires k in keys
    ensures |Joined(PathOf(k))| <= |AllTokens(keys)|
  {
    if k != keys[0] { PathIsShorter(keys[1..], k); }
  }

  function NewName(keys: seq<string>): string {
    AllTokens(keys) + "z"
  }

  lemma NewNameIsNew(keys: seq<string>, k: string)
    requires k in keys
    ensures NewName(keys) !in PathOf(k)
  {
    if NewName(keys) in PathOf(k) {
      TokenIsShorter(PathOf(k), NewName(keys));
      PathIsShorter(keys, k);
    }
  }

  lemma NewNameIsName(keys: seq<string>)
    ensures Index(NewName(keys)).None? && NewName(keys) != "-"
  {
    assert NewName(keys)[|AllTokens(keys)|] == 'z';
  }

  /** Null everywhere but at `low`, which gets an object with a name that no path has. */
  function TellingValues(keys: seq<string>, low: string): map<string, Value> {
    map k | k in keys :: if k == low then Object([Member(NewName(keys), Null)]) else Null
  }

  lemma KeysTell(keys: seq<string>, s: seq<string>, i: nat)
    requires Clean(keys) && multiset(s) == multiset(keys) && i < |s|
    ensures HasValues(s, TellingValues(keys, s[i])) && HasValues(keys, TellingValues(keys, s[i]))
    ensures Telling(PutsOf(s, TellingValues(keys, s[i])), i, NewName(keys))
  {
    var ws := PutsOf(s, TellingValues(keys, s[i]));
    SameMembers(keys, s);
    CleanPermuted(keys, s);
    NewNameIsName(keys);
    assert s[i] in s;
    forall j | 0 <= j < |s| ensures Silent(ws, i, NewName(keys), j) {
      assert s[j] in s && Readable(s[j]) && SpelledAlike(s[i], s[j]);
      NewNameIsNew(keys, s[j]);
      if j < i { assert PathsDiffer(s, j, i); }
      if i < j { assert PathsDiffer(s, i, j); }
    }
  }

  /** A path that is lost in one order shows that not every order holds. */
  lemma LostInOrder(keys: seq<string>, order: seq<string>, i: nat)
    requires Clean(keys) && multiset(order) == multiset(keys) && i < |order|
    requires var s := StableSorted(BY_DEPTH, order); !Kept(PutsOf(s, TellingValues(keys, s[i])), i)
    ensures !EveryOrderHolds(keys)
  {
    var s := StableSorted(BY_DEPTH, order);
    var values := TellingValues(keys, s[i]);
    StableSortedPermutes(BY_DEPTH, order);
    KeysTell(keys, s, i);
    KeptIsKept(s, values, i);
    SameMembers(keys, s);
    assert !HoldsIn(keys, order, values, s[i]);
  }

  lemma {:induction false} InsertedKeeps<T>(lt: (T, T) -> bool, sorted: seq<T>, x: T, i: nat, j: nat)
      returns (i': nat, j': nat)
    requires i < j < |sorted|
    ensures i' < j' < |Inserted(lt, sorted, x)|
    ensures Inserted(lt, sorted, x)[i'] == sorted[i] && Inserted(lt, sorted, x)[j'] == sorted[j]
  {
    if lt(x, sorted[0]) {
      i', j' := i + 1, j + 1;
    } else if i == 0 {
      var place := InsertedHas(lt, sorted[1..], x, j - 1);
      i', j' := 0, place + 1;
    } else {
      i', j' := InsertedKeeps(lt, sorted[1..], x, i - 1, j - 1);
      i', j' := i' + 1, j' + 1;
    }
  }

  lemma InsertedHas<T>(lt: (T, T) -> bool, sorted: seq<T>, x: T, j: nat) returns (j': nat)
    requires j < |sorted|
    ensures j' < |Inserted(lt, sorted, x)| && Inserted(lt, sorted, x)[j'] == sorted[j]
  {
    if lt(x, sorted[0]) {
      j' := j + 1;
    } else if j == 0 {
      j' := 0;
    } else {
      j' := InsertedHas(lt, sorted[1..], x, j - 1);
      j' := j' + 1;
    }
  }

  /** Two elements that are sorted first keep their order whatever is sorted in after them. */
  lemma {:induction false} SortedKeeps<T>(lt: (T, T) -> bool, a: T, b: T, first: seq<T>, rest: seq<T>)
      returns (i: nat, j: nat)
    requires StableSorted(lt, first) == [a, b]
    ensures i < j < |first + rest| && StableSorted(lt, first + rest)[i] == a && StableSorted(lt, first + rest)[j] == b
    decreases |rest|
  {
    if rest == [] {
      assert first + rest == first;
      i, j := 0, 1;
    } else {
      var front, x := rest[..|rest| - 1], rest[|rest| - 1];
      assert (first + rest)[..|first + rest| - 1] == first + front;
      i, j := SortedKeeps(lt, a, b, first, front);
      i, j := InsertedKeeps(lt, StableSorted(lt, first + front), x, i, j);
    }
  }

  /** A configuration order in which `low` is written before `high`, which is not compared as deeper. */
  lemma BadOrder(keys: seq<string>, high: string, low: string) returns (order: seq<string>, i: nat, j: nat)
    requires high in keys && low in keys && high != low && Rank(low) <= Rank(high)
    ensures multiset(order) == multiset(keys)
    ensures i < j < |StableSorted(BY_DEPTH, order)|
    ensures StableSorted(BY_DEPTH, order)[i] == low && StableSorted(BY_DEPTH, order)[j] == high
  {
    var first := if IsRoot(high) && IsRoot(low) then [high, low] else [low, high];
    var rest := Rest(keys, high, low);
    order := first + rest;
    TwoSorted(high, low);
    i, j := SortedKeeps(BY_DEPTH, low, high, first, rest);
  }

  lemma SortTwo<T>(lt: (T, T) -> bool, a: T, b: T)
    ensures StableSorted(lt, [a, b]) == if lt(b, a) then [b, a] else [a, b]
  {
    var one, two := [a], [a, b];
    assert one[..0] == [] && one[1..] == [] && two[..1] == one;
    assert StableSorted(lt, one) == Inserted(lt, StableSorted(lt, []), a) == one;
    assert Inserted(lt, one[1..], b) == [b];
    assert StableSorted(lt, two) == Inserted(lt, one, b);
  }

  lemma TwoSorted(high: string, low: string)
    requires Rank(low) <= Rank(high)
    ensures StableSorted(BY_DEPTH, if IsRoot(high) && IsRoot(low) then [high, low] else [low, high]) == [low, high]
  {
    SortTwo(BY_DEPTH, high, low);
    SortTwo(BY_DEPTH, low, high);
    CompareIsRank(high, low);
    CompareIsRank(low, high);
  }

  lemma TakeOut(keys: seq<string>, a: string) returns (rest: seq<string>)
    requires a in keys
    ensures multiset(rest) + multiset{a} == multiset(keys)
  {
    var i :| 0 <= i < |keys| && keys[i] == a;
    RemoveAt(keys, i);
    rest := keys[..i] + keys[i + 1..];
    assert a in multiset(keys);
  }

  lemma Rest(keys: seq<string>, a: string, b: string) returns (rest: seq<string>)
    requires a in keys && b in keys && a != b
    ensures multiset([a, b] + rest) == multiset(keys) && multiset([b, a] + rest) == multiset(keys)
  {
    var without := TakeOut(keys, a);
    assert b in multiset(keys) && b in multiset(without);
    rest := TakeOut(without, b);
  }

  lemma DepthIsNeeded(keys: seq<string>)
    requires Clean(keys) && !DepthRespectsPaths(keys)
    ensures !EveryOrderHolds(keys)
  {
    var high, low :| high in keys && low in keys && PathOf(high) < PathOf(low) && Rank(low) <= Rank(high);
    var order, i, j := BadOrder(keys, high, low);
    var s := StableSorted(BY_DEPTH, order);
    StableSortedPermutes(BY_DEPTH, order);
    KeysTell(keys, s, i);
    ShallowLast(PutsOf(s, TellingValues(keys, s[i])), i, NewName(keys), j);
    LostInOrder(keys, order, i);
  }

  lemma {:induction false} InsertedStays(sorted: seq<string>, x: string, i: nat) returns (i': nat)
    requires i < |sorted| && forall j :: 0 <= j < i ==> Rank(sorted[j]) < Rank(sorted[i])
    ensures i' <= |sorted| && Inserted(BY_RANK, sorted, x)[i'] == sorted[i]
    ensures forall j :: 0 <= j < i' ==> Rank(Inserted(BY_RANK, sorted, x)[j]) < Rank(sorted[i])
  {
    if BY_RANK(x, sorted[0]) {
      i' := i + 1;
    } else if i == 0 {
      i' := 0;
    } else {
      i' := InsertedStays(sorted[1..], x, i - 1);
      i' := i' + 1;
    }
  }

  /** The key that is configured first comes before all others of its rank. */
  lemma {:induction false} FirstStays(order: seq<string>) returns (i: nat)
    requires order != []
    ensures var s := StableSorted(BY_RANK, order);
      i < |s| && s[i] == order[0] && forall j :: 0 <= j < i ==> Rank(s[j]) < Rank(order[0])
  {
    if |order| == 1 {
      i := 0;
    } else {
      var front, x := order[..|order| - 1], order[|order| - 1];
      i := FirstStays(front);
      i := InsertedStays(StableSorted(BY_RANK, front), x, i);
    }
  }

  /** Just the keys before the one at `i` are shallower. */
  ghost predicate FirstOfRank(s: seq<string>, i: nat)
    requires i < |s|
  {
    forall l {:trigger Shallower(s, l, i)} :: 0 <= l < |s| ==> (Shallower(s, l, i) <==> l < i)
  }

  predicate Shallower(s: seq<string>, l: nat, i: nat)
    requires l < |s| && i < |s|
  {
    Rank(s[l]) < Rank(s[i])
  }

  /** A configuration order in which `k` comes before all keys that are not shallower. */
  lemma ComesFirst(keys: seq<string>, k: string) returns (order: seq<string>, i: nat)
    requires Clean(keys) && DepthRespectsPaths(keys) && k in keys
    ensures multiset(order) == multiset(keys)
    ensures var s := StableSorted(BY_DEPTH, order);
      multiset(s) == multiset(keys) && i < |s| && s[i] == k && FirstOfRank(s, i)
  {
    var rest := TakeOut(keys, k);
    order := [k] + rest;
    assert multiset(order) == multiset{k} + multiset(rest);
    SameMembers(keys, order);
    CleanPermuted(keys, order);
    SortedByRank(order);
    i := FirstStays(order);
    var s := StableSorted(BY_DEPTH, order);
    forall l | 0 <= l < |s| ensures Rank(s[l]) < Rank(k) <==> l < i {
      if Rank(s[l]) < Rank(k) { LessIsEarlier(s, l, i); }
    }
  }

  lemma RootIsEarlier(keys: seq<string>, s: seq<string>, values: map<string, Value>, i: nat)
    requires DepthRespectsPaths(keys) && multiset(s) == multiset(keys) && i < |s| && PathOf(s[i]) != []
    requires HasRoot(keys) && FirstOfRank(s, i)
    ensures RootBefore(PutsOf(s, values), i)
  {
    var k0 :| k0 in keys && PathOf(k0) == [];
    SameMembers(keys, s);
    assert s[i] in s && PathOf(k0) < PathOf(s[i]);
    var l := PlaceOf(keys, s, k0);
    assert Shallower(s, l, i) && PutsOf(s, values)[l].path == [];
  }

  lemma NoEarlierName(keys: seq<string>, s: seq<string>, values: map<string, Value>, i: nat, p: seq<string>)
    requires multiset(s) == multiset(keys) && i < |s| && FirstOfRank(s, i) && !NameBefore(keys, s[i], p)
    ensures NoNameBefore(PutsOf(s, values), i, p)
  {
    var ws := PutsOf(s, values);
    SameMembers(keys, s);
    forall l | 0 <= l < i ensures !FromName(p, ws[l].path) {
      assert s[l] in s && Shallower(s, l, i) && ws[l].path == PathOf(s[l]);
    }
  }

  lemma LaterName(keys: seq<string>, s: seq<string>, i: nat, k': string, p: seq<string>) returns (j: nat)
    requires multiset(s) == multiset(keys) && i < |s| && FirstOfRank(s, i)
    requires Mixed(keys, s[i], k', p) && !NameBefore(keys, s[i], p)
    ensures i < j < |s| && s[j] == k'
  {
    j := PlaceOf(keys, s, k');
    assert !Shallower(s, j, i);
  }

  /** Then a later key that goes on with a name loses it. */
  lemma FirstIsLost(keys: seq<string>, s: seq<string>, i: nat, k': string, p: seq<string>)
    requires Clean(keys) && DepthRespectsPaths(keys) && multiset(s) == multiset(keys) && i < |s|
    requires FirstOfRank(s, i)
    requires Mixed(keys, s[i], k', p) && !NameBefore(keys, s[i], p)
    ensures !Kept(PutsOf(s, TellingValues(keys, s[i])), i)
  {
    var values := TellingValues(keys, s[i]);
    var j := LaterName(keys, s, i, k', p);
    KeysTell(keys, s, i);
    if p == [] { RootIsEarlier(keys, s, values, i); }
    NoEarlierName(keys, s, values, i, p);
    NameLast(PutsOf(s, values), i, NewName(keys), p, j);
  }

  lemma NamesAreNeeded(keys: seq<string>)
    requires Clean(keys) && DepthRespectsPaths(keys) && !NamesFirst(keys)
    ensures !EveryOrderHolds(keys)
  {
    var k, k', p :| Mixed(keys, k, k', p) && !NameBefore(keys, k, p);
    var order, i := ComesFirst(keys, k);
    FirstIsLost(keys, StableSorted(BY_DEPTH, order), i, k', p);
    LostInOrder(keys, order, i);
  }

  /** Every path holds in every configuration order, for all values, exactly when the comparison takes each
      key for shallower than the keys below its path, and wherever paths go on both with names and with
      indices a name comes before the indices. */
  lemma PathsHoldExactly(keys: seq<string>)
    requires Clean(keys)
    ensures EveryOrderHolds(keys) <==> DepthRespectsPaths(keys) && NamesFirst(keys)
  {
    if !DepthRespectsPaths(keys) {
      DepthIsNeeded(keys);
    } else if !NamesFirst(keys) {
      NamesAreNeeded(keys);
    } else {
      forall order, values, key ensures HoldsIn(keys, order, values, key) {
        if multiset(order) == multiset(keys) && HasValues(keys, values) && key in keys {
          RightHolds(keys, order, values, key);
        }
      }
    }
  }

  // ---- an array that a name wipes out ----

  lemma TwoTokens(a: string, b: string)
    requires Verbatim(a) && Verbatim(b) && a != "" && b != ""
    ensures PathOf(a + "/" + b) == [a, b]
  {
    VerbatimTokens(a, b);
    VerbatimTokens(b, "");
    AllUnescaped([a, b]);
    assert a[0] != '/' && (a + "/" + b)[0] == a[0];
    assert ("/" + (a + "/" + b))[1..] == a + "/" + b;
  }

  lemma SameRank()
    ensures Rank("a/0") == Rank("a/b") == 2
  {
    assert TrimRight("a/0") == "a/0" && TrimRight("a/b") == "a/b";
    assert "a/0"[1..] == "/0" && "/0"[1..] == "0" && "0"[1..] == "";
    assert "a/b"[1..] == "/b" && "/b"[1..] == "b" && "b"[1..] == "";
  }

  lemma TwoWritten(a: string, b: string, values: map<string, Value>)
    requires Rank(a) == Rank(b) == 2 && a in values && b in values
    ensures Document([a, b], values) == SetAt(SetAt(Object([]), PathOf(a), values[a]), PathOf(b), values[b])
  {
    CompareIsRank(b, a);
    SortTwo(BY_DEPTH, a, b);
    assert [a, b][..1] == [a] && [a][..0] == [];
    assert WriteAll([a], values) == SetAt(Object([]), PathOf(a), values[a]);
  }

  lemma BothWritten(values: map<string, Value>)
    requires "a/0" in values && "a/b" in values
    ensures PathOf("a/0") == ["a", "0"] && PathOf("a/b") == ["a", "b"]
    ensures Document(["a/0", "a/b"], values) ==
      SetAt(SetAt(Object([]), ["a", "0"], values["a/0"]), ["a", "b"], values["a/b"])
    ensures Document(["a/b", "a/0"], values) ==
      SetAt(SetAt(Object([]), ["a", "b"], values["a/b"]), ["a", "0"], values["a/0"])
  {
    TwoTokens("a", "0");
    TwoTokens("a", "b");
    assert "a" + "/" + "0" == "a/0" && "a" + "/" + "b" == "a/b";
    SameRank();
    TwoWritten("a/0", "a/b", values);
    TwoWritten("a/b", "a/0", values);
  }

  lemma ArrayWritten(x: Value)
    ensures var doc := SetAt(Object([]), ["a", "0"], x); Sub(doc, "a").Some? && Sub(doc, "a").value.Array?
  {
    assert Accumulated("0"[..0]) == Some(0) && Index("0") == Some(0);
    SetOne(Object([]), ["a", "0"], x, "a");
    assert ["a", "0"][1..] == ["0"];
    SetOne(Null, ["0"], x, "0");
  }

  lemma MemberFirst(x: Value, y: Value)
    ensures GetAt(SetAt(SetAt(Object([]), ["a", "b"], y), ["a", "0"], x), ["a", "0"]) == Some(x)
  {
    GetAfterSet(SetAt(Object([]), ["a", "b"], y), ["a", "0"], x);
  }

  lemma ElementFirst(x: Value, y: Value)
    ensures GetAt(SetAt(SetAt(Object([]), ["a", "0"], x), ["a", "b"], y), ["a", "0"]) == None
  {
    ArrayWritten(x);
    NameWipes(SetAt(Object([]), ["a", "0"], x), y);
  }

  /** The configuration order of an element and a member decides whether the element is lost. */
  lemma ArrayIsLost(values: map<string, Value>)
    requires "a/0" in values && "a/b" in values
    ensures GetByPath(Document(["a/0", "a/b"], values), "a/0") == None
    ensures GetByPath(Document(["a/b", "a/0"], values), "a/0") == Some(values["a/0"])
  {
    BothWritten(values);
    ElementFirst(values["a/0"], values["a/b"]);
    MemberFirst(values["a/0"], values["a/b"]);
  }

  lemma NameWipes(doc: Value, y: Value)
    requires Sub(doc, "a").Some? && Sub(doc, "a").value.Array?
    ensures GetAt(SetAt(doc, ["a", "b"], y), ["a", "0"]) == None
  {
    SetOne(doc, ["a", "b"], y, "a");
    assert ["a", "b"][1..] == ["b"] && ["a", "0"][1..] == ["0"] && ["0"][1..] == [];
    SetOne(Sub(doc, "a").value, ["b"], y, "0");
    GetBySub(SetAt(doc, ["a", "b"], y), ["a", "0"]);
  }
}
