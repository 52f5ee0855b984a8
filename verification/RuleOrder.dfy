/** Exactly when the index of intervention rules answers like a plain reading of the rule file. */
module RuleOrder {
  import opened Intervene
  import opened Options

  type Compiles = string -> bool

  /** The index gives the plain reading for every way in which patterns can match. */
  ghost predicate IndexAgrees(rules: seq<Rule>, compiles: Compiles, service: bool) {
    forall matches: (string, string) -> bool, searches: (string, string) -> bool, source: string ::
      Indexed(rules, service, source, Engine(compiles, matches, searches)) ==
      PlainTarget(rules, service, source, Engine(compiles, matches, searches))
  }

  predicate IsOf(r: Rule, compiles: Compiles, entire: bool, service: bool) {
    compiles(r.pattern) && r.entireMatch == entire && r.serviceIntervene == service
  }

  /** The patterns of one kind, in file order. */
  function KindPatterns(rules: seq<Rule>, compiles: Compiles, entire: bool, service: bool): seq<string> {
    if rules == [] then []
    else
      (if IsOf(rules[0], compiles, entire, service) then [rules[0].pattern] else []) +
      KindPatterns(rules[1..], compiles, entire, service)
  }

  /** The first place of a pattern, or the length of the list. */
  function First(xs: seq<string>, x: string): (i: nat)
    ensures i <= |xs| && (i < |xs| <==> x in xs) && (i < |xs| ==> xs[i] == x)
    ensures forall k :: 0 <= k < i ==> xs[k] != x
  {
    if xs == [] || xs[0] == x then 0 else 1 + First(xs[1..], x)
  }

  /** Two patterns of the kind with different first targets, the one first among the rules of the kind and
      the other first among all compiled rules. */
  predicate Swapped(rules: seq<Rule>, compiles: Compiles, entire: bool, service: bool, p: string, q: string) {
    var all, kind := Patterns(rules, compiles, entire), KindPatterns(rules, compiles, entire, service);
    && p in kind && q in kind && First(kind, p) < First(kind, q) && First(all, q) <= First(all, p)
    && FirstTarget(rules, compiles, entire, service, p) != FirstTarget(rules, compiles, entire, service, q)
  }

  /** Patterns of the kind with different first targets come up in the same order among all compiled
      rules as among the rules of the kind. */
  ghost predicate SameOrder(rules: seq<Rule>, compiles: Compiles, entire: bool, service: bool) {
    forall p, q :: !Swapped(rules, compiles, entire, service, p, q)
  }

  function FirstTarget(rules: seq<Rule>, compiles: Compiles, entire: bool, service: bool, p: string): Option<string> {
    var targets := Targets(rules, compiles, service);
    if Key(p, entire) in targets then Some(targets[Key(p, entire)]) else None
  }

  /** The target of the first rule of the kind that has the pattern. */
  function KindTarget(rules: seq<Rule>, compiles: Compiles, entire: bool, service: bool, p: string): Option<string> {
    if rules == [] then None
    else if IsOf(rules[0], compiles, entire, service) && rules[0].pattern == p then Some(rules[0].target)
    else KindTarget(rules[1..], compiles, entire, service, p)
  }

  /** The map has each compiled pattern under its key exactly when the pattern is one of the kind, and then
      with the target of its first rule. */
  ghost predicate TargetsMatch(rules: seq<Rule>, compiles: Compiles, entire: bool, service: bool) {
    forall p :: p in Patterns(rules, compiles, entire) ==>
      FirstTarget(rules, compiles, entire, service, p) == KindTarget(rules, compiles, entire, service, p)
  }

  // ---- the patterns of a kind and the keys of its map ----

  lemma {:induction false} KindTargetFirst(rules: seq<Rule>, compiles: Compiles, entire: bool, service: bool, p: string)
      returns (i: nat)
    ensures i <= |rules| && forall j :: 0 <= j < i ==> !(IsOf(rules[j], compiles, entire, service) && rules[j].pattern == p)
    ensures i < |rules| ==> IsOf(rules[i], compiles, entire, service) && rules[i].pattern == p
    ensures KindTarget(rules, compiles, entire, service, p) == if i < |rules| then Some(rules[i].target) else None
  {
    if rules == [] || (IsOf(rules[0], compiles, entire, service) && rules[0].pattern == p) {
      i := 0;
    } else {
      i := KindTargetFirst(rules[1..], compiles, entire, service, p);
      i := i + 1;
    }
  }

  lemma {:induction false} KindHasTarget(rules: seq<Rule>, compiles: Compiles, entire: bool, service: bool, p: string)
    ensures p in KindPatterns(rules, compiles, entire, service) <==>
      KindTarget(rules, compiles, entire, service, p).Some?
  {
    if rules != [] { KindHasTarget(rules[1..], compiles, entire, service, p); }
  }

  lemma {:induction false} InKind(rules: seq<Rule>, compiles: Compiles, entire: bool, service: bool, p: string)
    ensures p in KindPatterns(rules, compiles, entire, service) <==>
      exists r :: r in rules && IsOf(r, compiles, entire, service) && r.pattern == p
  {
    if rules != [] {
      assert rules == [rules[0]] + rules[1..];
      InKind(rules[1..], compiles, entire, service, p);
    }
  }

  lemma {:induction false} InAll(rules: seq<Rule>, compiles: Compiles, entire: bool, p: string)
    ensures p in Patterns(rules, compiles, entire) <==>
      exists r :: r in rules && compiles(r.pattern) && r.entireMatch == entire && r.pattern == p
  {
    if rules != [] {
      var front, last := rules[..|rules| - 1], rules[|rules| - 1];
      assert rules == front + [last];
      InAll(front, compiles, entire, p);
    }
  }

  lemma KindInAll(rules: seq<Rule>, compiles: Compiles, entire: bool, service: bool, p: string)
    requires p in KindPatterns(rules, compiles, entire, service)
    ensures p in Patterns(rules, compiles, entire)
  {
    InKind(rules, compiles, entire, service, p);
    InAll(rules, compiles, entire, p);
  }

  // ---- the first live pattern of a list ----

  predicate Live(p: string, entire: bool, targets: map<string, string>, source: string, engine: Engine) {
    Key(p, entire) in targets && Applies(engine, source, p, entire)
  }

  lemma {:induction false} HitFirst(ps: seq<string>, entire: bool, targets: map<string, string>, source: string,
                                    engine: Engine) returns (k: nat)
    ensures k <= |ps| && forall j :: 0 <= j < k ==> !Live(ps[j], entire, targets, source, engine)
    ensures k < |ps| ==> Live(ps[k], entire, targets, source, engine) && First(ps, ps[k]) == k
    ensures FirstHit(ps, entire, targets, source, engine) ==
      if k < |ps| then Some(targets[Key(ps[k], entire)]) else None
  {
    if ps == [] || Live(ps[0], entire, targets, source, engine) {
      k := 0;
    } else {
      k := HitFirst(ps[1..], entire, targets, source, engine);
      k := k + 1;
    }
  }

  /** A plain scan for one kind finds what the kind's own list of patterns would. */
  lemma {:induction false} ScanIsKindHit(rules: seq<Rule>, k: nat, service: bool, entire: bool, source: string,
                                         engine: Engine)
    requires TargetsMatch(rules, engine.compiles, entire, service) && k <= |rules|
    requires forall i :: 0 <= i < k ==> !Fires(rules[i], service, entire, source, engine)
    ensures Scan(rules[k..], service, entire, source, engine) ==
      FirstHit(KindPatterns(rules[k..], engine.compiles, entire, service), entire,
               Targets(rules, engine.compiles, service), source, engine)
    decreases |rules| - k
  {
    if k < |rules| {
      var r, rest := rules[k], KindPatterns(rules[k + 1..], engine.compiles, entire, service);
      assert rules[k..][0] == r && rules[k..][1..] == rules[k + 1..];
      if IsOf(r, engine.compiles, entire, service) {
        FirstOwner(rules, k, service, entire, source, engine);
        assert ([r.pattern] + rest)[1..] == rest;
      } else {
        assert [] + rest == rest;
      }
      if !Fires(r, service, entire, source, engine) { ScanIsKindHit(rules, k + 1, service, entire, source, engine); }
    }
  }

  lemma FirstOwner(rules: seq<Rule>, k: nat, service: bool, entire: bool, source: string, engine: Engine)
    requires k < |rules| && IsOf(rules[k], engine.compiles, entire, service)
    requires TargetsMatch(rules, engine.compiles, entire, service)
    requires forall i :: 0 <= i < k ==> !Fires(rules[i], service, entire, source, engine)
    ensures var key, targets := Key(rules[k].pattern, entire), Targets(rules, engine.compiles, service);
      key in targets && (Fires(rules[k], service, entire, source, engine) ==> targets[key] == rules[k].target)
  {
    var p := rules[k].pattern;
    InAll(rules, engine.compiles, entire, p);
    assert rules[k] in rules;
    var i := KindTargetFirst(rules, engine.compiles, entire, service, p);
    assert FirstTarget(rules, engine.compiles, entire, service, p) == KindTarget(rules, engine.compiles, entire, service, p);
    assert i < k ==> !Fires(rules[i], service, entire, source, engine);
  }

  // ---- both directions ----

  predicate SwappedIn(all: seq<string>, kind: seq<string>, entire: bool, targets: map<string, string>, p: string,
                      q: string)
  {
    && p in kind && q in kind && First(kind, p) < First(kind, q) && First(all, q) <= First(all, p)
    && Key(p, entire) in targets && Key(q, entire) in targets && targets[Key(p, entire)] != targets[Key(q, entire)]
  }

  /** Two lists with the same live patterns give the same target when they order patterns with different
      targets in the same way. */
  lemma SameFirstHit(all: seq<string>, kind: seq<string>, entire: bool, targets: map<string, string>, source: string,
                     engine: Engine)
    requires forall p :: p in all ==> (Key(p, entire) in targets <==> p in kind)
    requires forall p :: p in kind ==> p in all
    requires forall p, q :: !SwappedIn(all, kind, entire, targets, p, q)
    ensures FirstHit(all, entire, targets, source, engine) == FirstHit(kind, entire, targets, source, engine)
  {
    var a := HitFirst(all, entire, targets, source, engine);
    var b := HitFirst(kind, entire, targets, source, engine);
    if a < |all| { NotBefore(kind, all[a], b, entire, targets, source, engine); }
    if b < |kind| { NotBefore(all, kind[b], a, entire, targets, source, engine); }
    if a < |all| && b < |kind| && all[a] != kind[b] {
      assert First(kind, kind[b]) < First(kind, all[a]) && First(all, all[a]) < First(all, kind[b]);
      assert !SwappedIn(all, kind, entire, targets, kind[b], all[a]);
    }
  }

  lemma NotBefore(ps: seq<string>, p: string, k: nat, entire: bool, targets: map<string, string>, source: string,
                  engine: Engine)
    requires Live(p, entire, targets, source, engine) && k <= |ps|
    requires forall j :: 0 <= j < k ==> !Live(ps[j], entire, targets, source, engine)
    ensures k <= First(ps, p)
  {
  }

  lemma OrderedHits(rules: seq<Rule>, service: bool, entire: bool, source: string, engine: Engine)
    requires TargetsMatch(rules, engine.compiles, entire, service) && SameOrder(rules, engine.compiles, entire, service)
    ensures var targets := Targets(rules, engine.compiles, service);
      FirstHit(Patterns(rules, engine.compiles, entire), entire, targets, source, engine) ==
      FirstHit(KindPatterns(rules, engine.compiles, entire, service), entire, targets, source, engine)
  {
    var all, kind := Patterns(rules, engine.compiles, entire), KindPatterns(rules, engine.compiles, entire, service);
    var targets := Targets(rules, engine.compiles, service);
    forall p | p in all ensures Key(p, entire) in targets <==> p in kind {
      KindHasTarget(rules, engine.compiles, entire, service, p);
    }
    forall p | p in kind ensures p in all { KindInAll(rules, engine.compiles, entire, service, p); }
    forall p, q ensures !SwappedIn(all, kind, entire, targets, p, q) {
      assert !Swapped(rules, engine.compiles, entire, service, p, q);
    }
    SameFirstHit(all, kind, entire, targets, source, engine);
  }

  /** For one way of matching, the index reads the file right. */
  ghost predicate ReadsRight(rules: seq<Rule>, compiles: Compiles, entire: bool, service: bool) {
    TargetsMatch(rules, compiles, entire, service) && SameOrder(rules, compiles, entire, service)
  }

  lemma RightAgrees(rules: seq<Rule>, service: bool, source: string, engine: Engine)
    requires forall entire :: ReadsRight(rules, engine.compiles, entire, service)
    ensures Indexed(rules, service, source, engine) == PlainTarget(rules, service, source, engine)
  {
    assert rules[0..] == rules;
    assert ReadsRight(rules, engine.compiles, true, service) && ReadsRight(rules, engine.compiles, false, service);
    OrderedHits(rules, service, true, source, engine);
    OrderedHits(rules, service, false, source, engine);
    ScanIsKindHit(rules, 0, service, true, source, engine);
    ScanIsKindHit(rules, 0, service, false, source, engine);
  }

  /** A way of matching in which just two patterns apply, to whole texts or inside them. */
  function Telling(compiles: Compiles, entire: bool, p: string, q: string): Engine {
    Engine(compiles, (s, x) => entire && (x == p || x == q), (s, x) => !entire && (x == p || x == q))
  }

  lemma {:induction false} NoneLive(ps: seq<string>, entire: bool, targets: map<string, string>, engine: Engine)
    requires forall p :: !Applies(engine, "", p, entire)
    ensures FirstHit(ps, entire, targets, "", engine) == None
  {
    if ps != [] { NoneLive(ps[1..], entire, targets, engine); }
  }

  lemma {:induction false} NoneFires(rules: seq<Rule>, service: bool, entire: bool, engine: Engine)
    requires forall p :: !Applies(engine, "", p, entire)
    ensures Scan(rules, service, entire, "", engine) == None
  {
    if rules != [] { NoneFires(rules[1..], service, entire, engine); }
  }

  /** Then only one of the two ways of matching decides. */
  lemma OneWayDecides(rules: seq<Rule>, compiles: Compiles, entire: bool, service: bool, p: string, q: string)
    ensures var engine := Telling(compiles, entire, p, q);
      && Indexed(rules, service, "", engine) ==
         FirstHit(Patterns(rules, compiles, entire), entire, Targets(rules, compiles, service), "", engine)
      && PlainTarget(rules, service, "", engine) == Scan(rules, service, entire, "", engine)
  {
    var engine := Telling(compiles, entire, p, q);
    NoneLive(Patterns(rules, compiles, !entire), !entire, Targets(rules, compiles, service), engine);
    NoneFires(rules, service, !entire, engine);
  }

  lemma {:induction false} ScanOne(rules: seq<Rule>, compiles: Compiles, entire: bool, service: bool, p: string)
    ensures Scan(rules, service, entire, "", Telling(compiles, entire, p, p)) ==
      KindTarget(rules, compiles, entire, service, p)
  {
    if rules != [] { ScanOne(rules[1..], compiles, entire, service, p); }
  }

  /** A pattern whose target in the map is not that of its first rule shows when it alone applies. */
  lemma MismatchShows(rules: seq<Rule>, compiles: Compiles, entire: bool, service: bool, p: string)
    requires p in Patterns(rules, compiles, entire)
    requires FirstTarget(rules, compiles, entire, service, p) != KindTarget(rules, compiles, entire, service, p)
    ensures var engine := Telling(compiles, entire, p, p);
      Indexed(rules, service, "", engine) != PlainTarget(rules, service, "", engine)
  {
    var all, targets := Patterns(rules, compiles, entire), Targets(rules, compiles, service);
    var engine := Telling(compiles, entire, p, p);
    OneWayDecides(rules, compiles, entire, service, p, p);
    ScanOne(rules, compiles, entire, service, p);
    var k := HitFirst(all, entire, targets, "", engine);
    assert Live(all[First(all, p)], entire, targets, "", engine) <==> Key(p, entire) in targets;
  }

  lemma TwoLive(rules: seq<Rule>, ps: seq<string>, service: bool, entire: bool, compiles: Compiles, p: string, q: string)
    requires p in ps && q in ps && First(ps, p) < First(ps, q)
    requires FirstTarget(rules, compiles, entire, service, p).Some?
    ensures FirstHit(ps, entire, Targets(rules, compiles, service), "", Telling(compiles, entire, p, q))
      == FirstTarget(rules, compiles, entire, service, p)
    ensures FirstHit(ps, entire, Targets(rules, compiles, service), "", Telling(compiles, entire, q, p))
      == FirstTarget(rules, compiles, entire, service, p)
  {
    var targets := Targets(rules, compiles, service);
    var k := HitFirst(ps, entire, targets, "", Telling(compiles, entire, p, q));
    var k' := HitFirst(ps, entire, targets, "", Telling(compiles, entire, q, p));
    assert Live(ps[First(ps, p)], entire, targets, "", Telling(compiles, entire, p, q));
    assert Live(ps[First(ps, p)], entire, targets, "", Telling(compiles, entire, q, p));
  }

  lemma KindIsKeyed(rules: seq<Rule>, compiles: Compiles, entire: bool, service: bool, p: string)
    requires TargetsMatch(rules, compiles, entire, service) && p in KindPatterns(rules, compiles, entire, service)
    ensures p in Patterns(rules, compiles, entire) && FirstTarget(rules, compiles, entire, service, p).Some?
  {
    KindInAll(rules, compiles, entire, service, p);
    KindHasTarget(rules, compiles, entire, service, p);
  }

  lemma FirstDiffers(xs: seq<string>, p: string, q: string)
    requires p in xs && p != q
    ensures First(xs, p) != First(xs, q)
  {
  }

  /** Two patterns that the index tries in the wrong order show when they alone apply. */
  lemma DisorderShows(rules: seq<Rule>, compiles: Compiles, entire: bool, service: bool, p: string, q: string)
    requires TargetsMatch(rules, compiles, entire, service) && Swapped(rules, compiles, entire, service, p, q)
    ensures var engine := Telling(compiles, entire, p, q);
      Indexed(rules, service, "", engine) != PlainTarget(rules, service, "", engine)
  {
    var all, kind := Patterns(rules, compiles, entire), KindPatterns(rules, compiles, entire, service);
    KindIsKeyed(rules, compiles, entire, service, p);
    KindIsKeyed(rules, compiles, entire, service, q);
    FirstDiffers(all, p, q);
    TwoLive(rules, kind, service, entire, compiles, p, q);
    TwoLive(rules, all, service, entire, compiles, q, p);
    assert rules[0..] == rules;
    ScanIsKindHit(rules, 0, service, entire, "", Telling(compiles, entire, p, q));
    OneWayDecides(rules, compiles, entire, service, p, q);
  }

  lemma WrongDisagrees(rules: seq<Rule>, compiles: Compiles, entire: bool, service: bool)
    requires !ReadsRight(rules, compiles, entire, service)
    ensures !IndexAgrees(rules, compiles, service)
  {
    var engine;
    if !TargetsMatch(rules, compiles, entire, service) {
      var p :| p in Patterns(rules, compiles, entire) &&
        FirstTarget(rules, compiles, entire, service, p) != KindTarget(rules, compiles, entire, service, p);
      MismatchShows(rules, compiles, entire, service, p);
      engine := Telling(compiles, entire, p, p);
    } else {
      var p, q :| Swapped(rules, compiles, entire, service, p, q);
      DisorderShows(rules, compiles, entire, service, p, q);
      engine := Telling(compiles, entire, p, q);
    }
    assert engine == Engine(compiles, engine.matches, engine.searches);
  }

  /** The index answers like the plain reading, however patterns match, exactly when for both ways of
      matching its map has the patterns of the kind with the targets of their first rules, and rules of the
      other kind reorder no two of them that have different targets. */
  lemma IndexAgreesExactly(rules: seq<Rule>, compiles: Compiles, service: bool)
    ensures IndexAgrees(rules, compiles, service) <==> forall entire :: ReadsRight(rules, compiles, entire, service)
  {
    if entire :| !ReadsRight(rules, compiles, entire, service) {
      WrongDisagrees(rules, compiles, entire, service);
    } else {
      forall matches: (string, string) -> bool, searches: (string, string) -> bool, source: string
        ensures Indexed(rules, service, source, Engine(compiles, matches, searches)) ==
                PlainTarget(rules, service, source, Engine(compiles, matches, searches))
      {
        RightAgrees(rules, service, source, Engine(compiles, matches, searches));
      }
    }
  }

  // ---- patterns that end in the search suffix ----

  predicate NoSuffixes(rules: seq<Rule>) {
    forall r :: r in rules ==> !EndsInSuffix(r.pattern)
  }

  /** Without suffixes a key tells the pattern and the way of matching. */
  lemma KeyTells(rules: seq<Rule>, r: Rule, p: string, entire: bool)
    requires NoSuffixes(rules) && r in rules && !EndsInSuffix(p) && Key(r.pattern, r.entireMatch) == Key(p, entire)
    ensures r.pattern == p && r.entireMatch == entire
  {
    if r.entireMatch == entire {
      SameKeySamePattern(r, Rule(p, "", entire, false));
    } else if r.entireMatch {
      SuffixedKey(r.pattern, p);
    } else {
      SuffixedKey(p, r.pattern);
    }
  }

  /** Only such patterns can get the target of another one. */
  lemma NoSuffixesMatch(rules: seq<Rule>, compiles: Compiles, entire: bool, service: bool)
    requires NoSuffixes(rules)
    ensures TargetsMatch(rules, compiles, entire, service)
  {
    forall p | p in Patterns(rules, compiles, entire)
      ensures FirstTarget(rules, compiles, entire, service, p) == KindTarget(rules, compiles, entire, service, p)
    {
      InAll(rules, compiles, entire, p);
      var i := TargetsFirst(rules, compiles, service, Key(p, entire));
      var j := KindTargetFirst(rules, compiles, entire, service, p);
      if j < |rules| { assert Owns(rules[j], compiles, service, Key(p, entire)); }
      if i < |rules| { KeyTells(rules, rules[i], p, entire); }
    }
  }

  /** The first pattern is the key of the second, which gets the target of the first rule. */
  lemma SuffixTakesTarget()
    ensures var rules := [Rule("a__SEARCH", "first", true, true), Rule("a", "second", false, true)];
      !IndexAgrees(rules, p => true, true)
  {
    assert "a__SEARCH" == "a" + SEARCH;
    var r0, r1 := Rule("a" + SEARCH, "first", true, true), Rule("a", "second", false, true);
    var rules, compiles: Compiles := [r0, r1], p => true;
    assert rules[..1] == [r0] && [r0][..0] == [];
    assert Targets([r0], compiles, true) == map["a" + SEARCH := "first"];
    assert Targets(rules, compiles, true) == map["a" + SEARCH := "first"];
    assert Patterns([r0], compiles, false) == [] && Patterns(rules, compiles, false) == ["a"];
    assert rules[1..] == [r1];
    assert KindTarget([r1], compiles, false, true, "a") == Some("second");
    MismatchShows(rules, compiles, false, true, "a");
    WrongDisagrees(rules, compiles, false, true);
  }
}
