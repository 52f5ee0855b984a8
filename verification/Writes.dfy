/** Writing values at paths, one after the other: when every path ends with its own value under the deeper
    writes, and how one is lost. */
module Writes {
  import opened Json
  import opened Options
  import opened Paths
  import opened Pointer

  datatype Put = Put(path: seq<string>, value: Value)

  /** The document after the first `j` writes. */
  ghost function After(ws: seq<Put>, j: nat): Value
    requires j <= |ws|
  {
    if j == 0 then Object([]) else SetAt(After(ws, j - 1), ws[j - 1].path, ws[j - 1].value)
  }

  /** A value, written at `p`, after those of the first `j` writes that are strictly deeper. */
  ghost function Over(x: Value, p: seq<string>, ws: seq<Put>, j: nat): Value
    requires j <= |ws|
  {
    if j == 0 then x
    else
      var o, w := Over(x, p, ws, j - 1), ws[j - 1];
      if p < w.path then SetAt(o, w.path[|p|..], w.value) else o
  }

  ghost predicate HeldAt(ws: seq<Put>, j: nat, i: nat)
    requires i < |ws| && j <= |ws|
  {
    GetAt(After(ws, j), ws[i].path) == Some(Over(ws[i].value, ws[i].path, ws, j))
  }

  /** In the end the path holds its own value, changed only by the writes strictly below it. */
  ghost predicate Kept(ws: seq<Put>, i: nat)
    requires i < |ws|
  {
    HeldAt(ws, |ws|, i)
  }

  /** Below its first `n` tokens, the path goes on with a name. */
  predicate NameAt(path: seq<string>, n: nat) {
    n < |path| && Index(path[n]).None?
  }

  predicate IndexAt(path: seq<string>, n: nat) {
    n < |path| && Index(path[n]).Some?
  }

  predicate SameStart(p: seq<string>, q: seq<string>, n: nat) {
    n <= |p| && n <= |q| && p[..n] == q[..n]
  }

  predicate Spelled(p: seq<string>, q: seq<string>) {
    forall i, j {:trigger Told(p[i], q[j])} :: 0 <= i < |p| && 0 <= j < |q| ==> Told(p[i], q[j])
  }

  lemma SpelledTold(p: seq<string>, p': seq<string>, q: seq<string>)
    requires Spelled(p', q) && p <= p'
    ensures AllTold(p, q)
  {
    forall i | 0 <= i < |p| && i < |q| ensures Told(p[i], q[i]) { assert Told(p'[i], q[i]); }
  }

  // ---- an order that keeps every path ----

  /** The later write at `j` goes on with a name where the one at `i` goes on with an index. */
  ghost predicate Branch(ws: seq<Put>, i: nat, j: nat, n: nat)
    requires i < |ws| && j < |ws|
  {
    && IndexAt(ws[i].path, n) && NameAt(ws[j].path, n) && SameStart(ws[i].path, ws[j].path, n)
    && (n == 0 ==> RootBefore(ws, j))
  }

  ghost predicate RootBefore(ws: seq<Put>, j: nat)
    requires j <= |ws|
  {
    exists l :: 0 <= l < j && ws[l].path == []
  }

  /** Before both, another one went on with a name there. */
  ghost predicate EarlierName(ws: seq<Put>, i: nat, n: nat)
    requires i < |ws|
  {
    exists l :: 0 <= l < i && NameAt(ws[l].path, n) && SameStart(ws[l].path, ws[i].path, n)
  }

  ghost predicate InTurn(ws: seq<Put>, i: nat, j: nat)
    requires i < |ws| && j < |ws|
  {
    && NoDash(ws[j].path) && Spelled(ws[i].path, ws[j].path) && !(ws[j].path <= ws[i].path)
    && forall n: nat {:trigger Branch(ws, i, j, n)} :: Branch(ws, i, j, n) ==> EarlierName(ws, i, n)
  }

  ghost predicate InOrder(ws: seq<Put>) {
    && (forall i {:trigger NoDash(ws[i].path)} :: 0 <= i < |ws| ==> NoDash(ws[i].path))
    && (forall i, j {:trigger InTurn(ws, i, j)} :: 0 <= i < j < |ws| ==> InTurn(ws, i, j))
  }

  ghost predicate ObjectAt(doc: Value, path: seq<string>) {
    GetAt(doc, path).Some? && GetAt(doc, path).value.Object?
  }

  ghost predicate NamedInObject(doc: Value, path: seq<string>, n: nat) {
    NameAt(path, n) ==> ObjectAt(doc, path[..n])
  }

  /** Wherever one of the first `j` paths goes on with a name there is an object, and so there is at the root
      as long as nothing was written there. */
  ghost predicate NamesInObjects(ws: seq<Put>, j: nat, doc: Value)
    requires j <= |ws|
  {
    && (forall i, n: nat {:trigger NamedInObject(doc, ws[i].path, n)} :: 0 <= i < j ==> NamedInObject(doc, ws[i].path, n))
    && (doc.Object? || RootBefore(ws, j))
  }

  /** Where an earlier path goes on with an index and this one with a name, there is an object. */
  lemma HeldByObject(ws: seq<Put>, doc: Value, i: nat, j: nat, n: nat)
    requires i < j < |ws| && InTurn(ws, i, j) && NamesInObjects(ws, j, doc)
    requires IndexAt(ws[i].path, n) && NameAt(ws[j].path, n) && SameStart(ws[i].path, ws[j].path, n)
    ensures ObjectAt(doc, ws[i].path[..n])
  {
    if n > 0 || RootBefore(ws, j) {
      assert Branch(ws, i, j, n);
      var l :| 0 <= l < i && NameAt(ws[l].path, n) && SameStart(ws[l].path, ws[i].path, n);
      assert NamedInObject(doc, ws[l].path, n);
    } else {
      assert ws[i].path[..n] == [];
    }
  }

  /** What is read through an array is read by an index. */
  lemma ThroughArray(v: Value, p: seq<string>, m: nat)
    requires m < |p| && GetAt(v, p).Some? && GetAt(v, p[..m]).Some? && GetAt(v, p[..m]).value.Array?
    ensures IndexAt(p, m)
  {
    assert p == p[..m] + p[m..];
    GetSum(v, p[..m], p[m..]);
  }

  lemma ForkStart(p: seq<string>, p': seq<string>, q: seq<string>)
    requires p <= p' && Apart(p, q)
    ensures var m := Fork(p, q); m < |p| && m < |q| && p[m] == p'[m] && SameStart(p', q, m) && p[..m] == p'[..m]
  {
    ForkApart(p, q);
  }

  /** What a write beside it could wipe out is held by objects. */
  lemma NotWiped(ws: seq<Put>, doc: Value, i: nat, j: nat, p: seq<string>)
    requires i < j < |ws| && InTurn(ws, i, j) && NamesInObjects(ws, j, doc)
    requires p <= ws[i].path && Apart(p, ws[j].path) && GetAt(doc, p).Some?
    ensures !Wipes(doc, ws[j].path, p)
  {
    var q := ws[j].path;
    var m := Fork(p, q);
    ForkStart(p, ws[i].path, q);
    if Index(q[m]).None? && Index(p[m]).Some? {
      HeldByObject(ws, doc, i, j, m);
    } else if GetAt(doc, p[..m]).Some? && GetAt(doc, p[..m]).value.Array? {
      ThroughArray(doc, p, m);
    }
  }

  /** Reading at or above an earlier path after one more write. */
  lemma ReadNext(ws: seq<Put>, doc: Value, i: nat, j: nat, p: seq<string>)
    requires i < j < |ws| && InTurn(ws, i, j) && NamesInObjects(ws, j, doc)
    requires p <= ws[i].path && GetAt(doc, p).Some?
    ensures var w := ws[j];
      p != w.path && GetAt(SetAt(doc, w.path, w.value), p) ==
        if p < w.path then Some(SetAt(GetAt(doc, p).value, w.path[|p|..], w.value)) else GetAt(doc, p)
  {
    var q := ws[j].path;
    assert !(q <= p);
    if p <= q {
      SetReads(doc, q, ws[j].value, p);
    } else {
      NotWiped(ws, doc, i, j, p);
      SpelledTold(p, ws[i].path, q);
      SetBeside(doc, q, ws[j].value, p);
    }
  }

  lemma SetObject(v: Value, path: seq<string>, x: Value)
    requires path != [] && path[0] != "-" && (v.Object? || Index(path[0]).None?)
    ensures SetAt(v, path, x).Object?
  {
    SetOne(v, path, x, path[0]);
  }

  lemma TailHead(q: seq<string>, p: seq<string>)
    requires p < q
    ensures q[|p|..] != [] && q[|p|..][0] == q[|p|]
  {
  }

  lemma ObjectStays(ws: seq<Put>, doc: Value, i: nat, j: nat, p: seq<string>)
    requires i < j < |ws| && InTurn(ws, i, j) && NamesInObjects(ws, j, doc)
    requires p <= ws[i].path && ObjectAt(doc, p)
    ensures ObjectAt(SetAt(doc, ws[j].path, ws[j].value), p)
  {
    ReadNext(ws, doc, i, j, p);
    if p < ws[j].path {
      TailHead(ws[j].path, p);
      SetObject(GetAt(doc, p).value, ws[j].path[|p|..], ws[j].value);
    }
  }

  lemma ObjectMade(doc: Value, q: seq<string>, x: Value, p: seq<string>)
    requires NoDash(q) && FromName(p, q)
    ensures ObjectAt(SetAt(doc, q, x), p)
  {
    SetReads(doc, q, x, p);
    TailHead(q, p);
    SetObject(AtOrNull(doc, p), q[|p|..], x);
  }

  lemma ObjectsNext(ws: seq<Put>, doc: Value, j: nat)
    requires j < |ws| && InOrder(ws) && NamesInObjects(ws, j, doc)
    ensures NamesInObjects(ws, j + 1, SetAt(doc, ws[j].path, ws[j].value))
  {
    var w := ws[j];
    var doc' := SetAt(doc, w.path, w.value);
    assert NoDash(w.path);
    forall i, n: nat | 0 <= i <= j ensures NamedInObject(doc', ws[i].path, n) {
      if NameAt(ws[i].path, n) {
        var p := ws[i].path[..n];
        if i < j {
          assert NamedInObject(doc, ws[i].path, n) && InTurn(ws, i, j);
          ObjectStays(ws, doc, i, j, p);
        } else {
          ObjectMade(doc, w.path, w.value, p);
        }
      }
    }
    RootNext(ws, doc, j);
  }

  lemma RootNext(ws: seq<Put>, doc: Value, j: nat)
    requires j < |ws| && NoDash(ws[j].path) && (doc.Object? || RootBefore(ws, j))
    ensures SetAt(doc, ws[j].path, ws[j].value).Object? || RootBefore(ws, j + 1)
  {
    if ws[j].path == [] {
      assert RootBefore(ws, j + 1);
    } else if doc.Object? {
      SetObject(doc, ws[j].path, ws[j].value);
    }
  }

  lemma {:induction false} OverNothing(ws: seq<Put>, i: nat, j: nat)
    requires j <= i < |ws| && InOrder(ws)
    ensures Over(ws[i].value, ws[i].path, ws, j) == ws[i].value
  {
    if j > 0 {
      OverNothing(ws, i, j - 1);
      assert InTurn(ws, j - 1, i);
    }
  }

  lemma HeldNext(ws: seq<Put>, i: nat, j: nat)
    requires i <= j < |ws| && InOrder(ws) && NamesInObjects(ws, j, After(ws, j)) && (i < j ==> HeldAt(ws, j, i))
    ensures HeldAt(ws, j + 1, i)
  {
    var doc, w := After(ws, j), ws[j];
    if i < j {
      assert InTurn(ws, i, j);
      ReadNext(ws, doc, i, j, ws[i].path);
    } else {
      assert NoDash(w.path);
      SetReads(doc, w.path, w.value, w.path);
      assert w.path[|w.path|..] == [];
      OverNothing(ws, i, i);
    }
  }

  lemma {:induction false} InOrderObjects(ws: seq<Put>, j: nat)
    requires InOrder(ws) && j <= |ws|
    ensures NamesInObjects(ws, j, After(ws, j))
  {
    if j > 0 {
      InOrderObjects(ws, j - 1);
      ObjectsNext(ws, After(ws, j - 1), j - 1);
    }
  }

  /** In an order in which shallow paths come first, and names before indices, every path is kept. */
  lemma {:induction false} InOrderHeld(ws: seq<Put>, j: nat)
    requires InOrder(ws) && j <= |ws|
    ensures AllHeld(ws, j)
  {
    if j > 0 {
      InOrderHeld(ws, j - 1);
      InOrderObjects(ws, j - 1);
      AllHeldNext(ws, j - 1);
    }
  }

  ghost predicate AllHeld(ws: seq<Put>, j: nat)
    requires j <= |ws|
  {
    forall i {:trigger HeldAt(ws, j, i)} :: 0 <= i < j ==> HeldAt(ws, j, i)
  }

  lemma AllHeldNext(ws: seq<Put>, j: nat)
    requires j < |ws| && InOrder(ws) && NamesInObjects(ws, j, After(ws, j)) && AllHeld(ws, j)
    ensures AllHeld(ws, j + 1)
  {
    var n := j + 1;
    forall i | 0 <= i < n ensures HeldAt(ws, n, i) { HeldNext(ws, i, j); }
  }

  // ---- how a path is lost ----

  /** All values are null but that at `i`, an object with a member `z`; no path has that name. */
  ghost predicate Telling(ws: seq<Put>, i: nat, z: string) {
    && i < |ws| && ws[i].value == Object([Member(z, Null)]) && Index(z).None? && z != "-"
    && forall j {:trigger Silent(ws, i, z, j)} :: 0 <= j < |ws| ==> Silent(ws, i, z, j)
  }

  ghost predicate Silent(ws: seq<Put>, i: nat, z: string, j: nat)
    requires i < |ws| && j < |ws|
  {
    && NoDash(ws[j].path) && Spelled(ws[i].path, ws[j].path) && z !in ws[j].path
    && (j != i ==> ws[j].value == Null)
  }

  /** The member with the name `z` of the value at `p`. */
  function Mark(p: seq<string>, z: string): seq<string> {
    p + [z]
  }

  lemma PrefixHas(r: seq<string>, q: seq<string>, z: string)
    requires z in r
    ensures r <= q ==> z in q
  {
    var i :| 0 <= i < |r| && r[i] == z;
    assert r <= q ==> q[i] == z;
  }

  /** No write is at or below it, and none reaches it by another spelling. */
  lemma MarkIsApart(p: seq<string>, z: string, q: seq<string>)
    requires Spelled(p, q) && z !in q && Index(z).None?
    ensures !(Mark(p, z) <= q) && AllTold(Mark(p, z), q)
  {
    var r := Mark(p, z);
    assert r[|p|] == z;
    forall i | 0 <= i < |r| && i < |q| ensures Told(r[i], q[i]) {
      if i < |p| { assert Told(p[i], q[i]); }
    }
    assert z in r;
    PrefixHas(r, q, z);
  }

  /** A write of null leaves an absent mark absent, and makes it so when it is above. */
  lemma AbsentStays(doc: Value, p: seq<string>, z: string, q: seq<string>)
    requires NoDash(q) && Spelled(p, q) && z !in q && Index(z).None?
    requires GetAt(doc, Mark(p, z)).None? || q <= p
    ensures GetAt(SetAt(doc, q, Null), Mark(p, z)).None?
  {
    var r := Mark(p, z);
    MarkIsApart(p, z, q);
    if q <= r {
      NullAbove(doc, q, r);
    } else {
      SetBeside(doc, q, Null, r);
    }
  }

  lemma NullAbove(doc: Value, q: seq<string>, r: seq<string>)
    requires NoDash(q) && q <= r
    ensures GetAt(SetAt(doc, q, Null), r) == if q == r then Some(Null) else None
  {
    var rest := r[|q|..];
    assert r == q + rest && q[|q|..] == [];
    SetReads(doc, q, Null, q);
    GetSum(SetAt(doc, q, Null), q, rest);
  }

  /** The documents between the writes. */
  ghost predicate Trace(ws: seq<Put>, docs: seq<Value>) {
    && |docs| == |ws| + 1 && docs[0] == Object([])
    && forall j {:trigger Step(ws, docs, j)} :: 0 <= j < |ws| ==> Step(ws, docs, j)
  }

  ghost predicate Step(ws: seq<Put>, docs: seq<Value>, j: nat)
    requires j < |ws| && |docs| == |ws| + 1
  {
    docs[j + 1] == SetAt(docs[j], ws[j].path, ws[j].value)
  }

  lemma {:induction false} TraceIs(ws: seq<Put>, docs: seq<Value>, j: nat)
    requires Trace(ws, docs) && j <= |ws|
    ensures docs[j] == After(ws, j)
  {
    if j > 0 {
      TraceIs(ws, docs, j - 1);
      assert Step(ws, docs, j - 1);
    }
  }

  lemma TraceOf(ws: seq<Put>) returns (docs: seq<Value>)
    ensures Trace(ws, docs)
  {
    docs := seq(|ws| + 1, j requires 0 <= j <= |ws| => After(ws, j));
    forall j | 0 <= j < |ws| ensures Step(ws, docs, j) { assert docs[j] == After(ws, j); }
  }

  ghost predicate Tells(ws: seq<Put>, docs: seq<Value>, i: nat, z: string) {
    Trace(ws, docs) && Telling(ws, i, z)
  }

  ghost predicate Gone(ws: seq<Put>, i: nat, z: string, doc: Value)
    requires i < |ws|
  {
    GetAt(doc, Mark(ws[i].path, z)).None?
  }

  lemma GoneNext(ws: seq<Put>, docs: seq<Value>, i: nat, z: string, j: nat)
    requires Tells(ws, docs, i, z) && i < j < |ws| && Gone(ws, i, z, docs[j])
    ensures Gone(ws, i, z, docs[j + 1])
  {
    assert Step(ws, docs, j) && Silent(ws, i, z, j);
    AbsentStays(docs[j], ws[i].path, z, ws[j].path);
  }

  lemma {:induction false} GoneToTheEnd(ws: seq<Put>, docs: seq<Value>, i: nat, z: string, j: nat)
    requires Tells(ws, docs, i, z) && i < j <= |ws| && Gone(ws, i, z, docs[j])
    ensures Gone(ws, i, z, docs[|ws|])
    decreases |ws| - j
  {
    if j < |ws| {
      GoneNext(ws, docs, i, z, j);
      GoneToTheEnd(ws, docs, i, z, j + 1);
    }
  }

  /** It is owed to the end: deeper writes stay clear of it. */
  lemma {:induction false} MarkIsOwed(ws: seq<Put>, i: nat, z: string, j: nat)
    requires Telling(ws, i, z) && j <= |ws|
    ensures var o := Over(ws[i].value, ws[i].path, ws, j); o.Object? && Sub(o, z).Some?
  {
    var p := ws[i].path;
    if j == 0 {
      assert Position(ws[i].value.members, z) == 0;
    } else {
      var q := ws[j - 1].path;
      MarkIsOwed(ws, i, z, j - 1);
      assert Silent(ws, i, z, j - 1);
      if p < q { OwedNext(Over(ws[i].value, p, ws, j - 1), p, q, ws[j - 1].value, z); }
    }
  }

  lemma OwedNext(o: Value, p: seq<string>, q: seq<string>, x: Value, z: string)
    requires p < q && NoDash(q) && z !in q && Index(z).None? && o.Object? && Sub(o, z).Some?
    ensures var o' := SetAt(o, q[|p|..], x); o'.Object? && Sub(o', z).Some?
  {
    TailHead(q, p);
    SetOne(o, q[|p|..], x, z);
  }

  /** So a path whose mark is gone is not kept. */
  lemma GoneIsLost(ws: seq<Put>, docs: seq<Value>, i: nat, z: string, j: nat)
    requires Tells(ws, docs, i, z) && i < j <= |ws| && Gone(ws, i, z, docs[j])
    ensures !Kept(ws, i)
  {
    var o := Over(ws[i].value, ws[i].path, ws, |ws|);
    GoneToTheEnd(ws, docs, i, z, j);
    MarkIsOwed(ws, i, z, |ws|);
    TraceIs(ws, docs, |ws|);
    GetSum(docs[|ws|], ws[i].path, [z]);
    GetBySub(o, [z]);
    assert [z][1..] == [];
  }

  /** A later write above it loses a path. */
  lemma ShallowLast(ws: seq<Put>, i: nat, z: string, j: nat)
    requires Telling(ws, i, z) && i < j < |ws| && ws[j].path < ws[i].path
    ensures !Kept(ws, i)
  {
    var docs := TraceOf(ws);
    assert Step(ws, docs, j) && Silent(ws, i, z, j);
    AbsentStays(docs[j], ws[i].path, z, ws[j].path);
    GoneIsLost(ws, docs, i, z, j + 1);
  }

  // ---- names after an index ----

  /** The path goes on from `p` with an index, or with a name. */
  predicate FromIndex(p: seq<string>, q: seq<string>) {
    p < q && Index(q[|p|]).Some?
  }

  predicate FromName(p: seq<string>, q: seq<string>) {
    p < q && Index(q[|p|]).None?
  }

  ghost predicate ArrayAt(doc: Value, p: seq<string>) {
    GetAt(doc, p).Some? && GetAt(doc, p).value.Array?
  }

  /** There is an array where the path goes on with an index, or its mark is gone. */
  ghost predicate ArrayOrGone(doc: Value, p: seq<string>, r: seq<string>) {
    GetAt(doc, r).None? || ArrayAt(doc, p)
  }

  lemma ReadThrough(doc: Value, p: seq<string>, r: seq<string>)
    requires p < r && GetAt(doc, r).Some?
    ensures GetAt(doc, p).Some? && Sub(GetAt(doc, p).value, r[|p|]).Some?
  {
    assert r == p + r[|p|..];
    TailHead(r, p);
    GetSum(doc, p, r[|p|..]);
  }

  /** The array stays until a name makes an object of it, which loses what is below. */
  lemma ArrayStep(doc: Value, p: seq<string>, r: seq<string>, q: seq<string>)
    requires NoDash(q) && AllTold(r, q) && FromIndex(p, r) && ArrayAt(doc, p) && !(q <= p)
    ensures ArrayOrGone(SetAt(doc, q, Null), p, r)
    ensures FromName(p, q) ==> GetAt(SetAt(doc, q, Null), r).None?
  {
    var doc' := SetAt(doc, q, Null);
    assert forall i :: 0 <= i < |p| ==> p[i] == r[i];
    if p <= q {
      SetReads(doc, q, Null, p);
      TailHead(q, p);
      assert Told(r[|p|], q[|p|]);
      SetOne(GetAt(doc, p).value, q[|p|..], Null, r[|p|]);
    } else {
      assert AllTold(p, q) by { forall i | 0 <= i < |p| && i < |q| ensures Told(p[i], q[i]) { assert Told(r[i], q[i]); } }
      SetBeside(doc, q, Null, p);
    }
    if GetAt(doc', r).Some? { ReadThrough(doc', p, r); }
  }

  lemma ArrayNext(ws: seq<Put>, docs: seq<Value>, i: nat, z: string, p: seq<string>, j: nat)
    requires Tells(ws, docs, i, z) && FromIndex(p, ws[i].path) && i < j < |ws|
    requires ArrayOrGone(docs[j], p, Mark(ws[i].path, z))
    ensures ArrayOrGone(docs[j + 1], p, Mark(ws[i].path, z))
    ensures FromName(p, ws[j].path) ==> Gone(ws, i, z, docs[j + 1])
  {
    var doc, r, q := docs[j], Mark(ws[i].path, z), ws[j].path;
    assert Step(ws, docs, j) && Silent(ws, i, z, j);
    assert docs[j + 1] == SetAt(doc, q, Null);
    if GetAt(doc, r).None? || q <= p {
      AbsentStays(doc, ws[i].path, z, q);
    } else {
      MarkIsApart(ws[i].path, z, q);
      assert r[|p|] == ws[i].path[|p|];
      ArrayStep(doc, p, r, q);
    }
  }

  lemma {:induction false} ArrayUpTo(ws: seq<Put>, docs: seq<Value>, i: nat, z: string, p: seq<string>, j: nat)
    requires Tells(ws, docs, i, z) && FromIndex(p, ws[i].path) && i < j <= |ws|
    requires ArrayOrGone(docs[i + 1], p, Mark(ws[i].path, z))
    ensures ArrayOrGone(docs[j], p, Mark(ws[i].path, z))
  {
    if i + 1 < j {
      ArrayUpTo(ws, docs, i, z, p, j - 1);
      ArrayNext(ws, docs, i, z, p, j - 1);
    }
  }

  /** Writes of null that go on with an index, go elsewhere or end above leave no object at `p`. */
  lemma NoObjectStep(doc: Value, p: seq<string>, q: seq<string>)
    requires !ObjectAt(doc, p) && NoDash(q) && AllTold(p, q) && !FromName(p, q)
    ensures !ObjectAt(SetAt(doc, q, Null), p)
  {
    if q <= p {
      NullAbove(doc, q, p);
    } else if p <= q {
      SetReads(doc, q, Null, p);
      TailHead(q, p);
      SetOne(AtOrNull(doc, p), q[|p|..], Null, q[|p|]);
    } else {
      SetBeside(doc, q, Null, p);
    }
  }

  /** No write before the one at `i` goes on from `p` with a name. */
  ghost predicate NoNameBefore(ws: seq<Put>, i: nat, p: seq<string>)
    requires i <= |ws|
  {
    forall l {:trigger FromName(p, ws[l].path)} :: 0 <= l < i ==> !FromName(p, ws[l].path)
  }

  lemma NoObjectNext(ws: seq<Put>, docs: seq<Value>, i: nat, z: string, p: seq<string>, j: nat)
    requires Tells(ws, docs, i, z) && p < ws[i].path && NoNameBefore(ws, i, p) && j < i && !ObjectAt(docs[j], p)
    ensures !ObjectAt(docs[j + 1], p)
  {
    assert Step(ws, docs, j) && Silent(ws, i, z, j) && !FromName(p, ws[j].path);
    SpelledTold(p, ws[i].path, ws[j].path);
    NoObjectStep(docs[j], p, ws[j].path);
  }

  lemma {:induction false} NoObjectBefore(ws: seq<Put>, docs: seq<Value>, i: nat, z: string, p: seq<string>, from: nat, j: nat)
    requires Tells(ws, docs, i, z) && p < ws[i].path && NoNameBefore(ws, i, p) && from <= j <= i
    requires !ObjectAt(docs[from], p)
    ensures !ObjectAt(docs[j], p)
    decreases j
  {
    if from < j {
      NoObjectBefore(ws, docs, i, z, p, from, j - 1);
      NoObjectNext(ws, docs, i, z, p, j - 1);
    }
  }

  /** There is no object at `p` at the start, unless that is the root, or after a write of null to the root. */
  lemma WhereItStarts(ws: seq<Put>, docs: seq<Value>, i: nat, z: string, p: seq<string>) returns (from: nat)
    requires Tells(ws, docs, i, z) && (p == [] ==> RootBefore(ws, i))
    ensures from <= i && !ObjectAt(docs[from], p)
  {
    if p == [] {
      var l :| 0 <= l < i && ws[l].path == [];
      assert Step(ws, docs, l) && Silent(ws, i, z, l);
      from := l + 1;
    } else {
      from := 0;
      GetBySub(Object([]), p);
    }
  }

  /** Then the write at `i` makes an array there. */
  lemma ArrayMade(doc: Value, q: seq<string>, x: Value, p: seq<string>)
    requires NoDash(q) && FromIndex(p, q) && !ObjectAt(doc, p)
    ensures ArrayAt(SetAt(doc, q, x), p)
  {
    SetReads(doc, q, x, p);
    TailHead(q, p);
    SetOne(AtOrNull(doc, p), q[|p|..], x, q[|p|]);
  }

  lemma ArrayFrom(ws: seq<Put>, docs: seq<Value>, i: nat, z: string, p: seq<string>)
    requires Tells(ws, docs, i, z) && FromIndex(p, ws[i].path) && !ObjectAt(docs[i], p)
    ensures ArrayAt(docs[i + 1], p)
  {
    assert Step(ws, docs, i) && Silent(ws, i, z, i);
    ArrayMade(docs[i], ws[i].path, ws[i].value, p);
  }

  /** A path that goes on with an index before all that go on with a name is lost to them. */
  lemma NameLast(ws: seq<Put>, i: nat, z: string, p: seq<string>, j: nat)
    requires Telling(ws, i, z) && i < j < |ws| && NoNameBefore(ws, i, p) && (p == [] ==> RootBefore(ws, i))
    requires FromIndex(p, ws[i].path) && FromName(p, ws[j].path)
    ensures !Kept(ws, i)
  {
    var docs := TraceOf(ws);
    var from := WhereItStarts(ws, docs, i, z, p);
    NoObjectBefore(ws, docs, i, z, p, from, i);
    ArrayFrom(ws, docs, i, z, p);
    NameAfter(ws, docs, i, z, p, j);
  }

  lemma NameAfter(ws: seq<Put>, docs: seq<Value>, i: nat, z: string, p: seq<string>, j: nat)
    requires Tells(ws, docs, i, z) && FromIndex(p, ws[i].path) && i < j < |ws|
    requires ArrayAt(docs[i + 1], p) && FromName(p, ws[j].path)
    ensures !Kept(ws, i)
  {
    ArrayUpTo(ws, docs, i, z, p, j);
    ArrayNext(ws, docs, i, z, p, j);
    GoneIsLost(ws, docs, i, z, j + 1);
  }
}
