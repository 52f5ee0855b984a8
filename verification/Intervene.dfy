/** Intervention rules: two lists of patterns and two maps from a pattern's key to a target. */
module Intervene {
  import opened Options

  /** The regular expression engine: which patterns compile, and when one matches a whole text or
      occurs in it. */
  datatype Engine = Engine(compiles: string -> bool, matches: (string, string) -> bool, searches: (string, string) -> bool)

  datatype Rule = Rule(pattern: string, target: string, entireMatch: bool, serviceIntervene: bool)

  const SEARCH := "__SEARCH"

  function Key(pattern: string, entire: bool): string {
    if entire then pattern else pattern + SEARCH
  }

  class FlowInterveneConfig {
    var matchList: seq<string>
    var searchList: seq<string>
    var patternServiceMap: map<string, string>
    var patternFlowMap: map<string, string>

    constructor ()
      ensures matchList == searchList == [] && patternServiceMap == patternFlowMap == map[]
    {
      matchList, searchList, patternServiceMap, patternFlowMap := [], [], map[], map[];
    }

    ghost predicate Indexes(rules: seq<Rule>, engine: Engine)
      reads this
    {
      && matchList == Patterns(rules, engine.compiles, true)
      && searchList == Patterns(rules, engine.compiles, false)
      && patternServiceMap == Targets(rules, engine.compiles, true)
      && patternFlowMap == Targets(rules, engine.compiles, false)
    }

    method InitByInterveneFile(rules: seq<Rule>, engine: Engine)
      requires matchList == searchList == [] && patternServiceMap == patternFlowMap == map[]
      modifies this
      ensures Indexes(rules, engine)
    {
      for i := 0 to |rules|
        invariant Indexes(rules[..i], engine)
      {
        var rule := rules[i];
        assert rules[..i + 1][..i] == rules[..i];
        if engine.compiles(rule.pattern) {
          var key;
          if rule.entireMatch {
            matchList := matchList + [rule.pattern];
            key := rule.pattern;
          } else {
            searchList := searchList + [rule.pattern];
            key := rule.pattern + SEARCH;
          }
          if rule.serviceIntervene {
            if key !in patternServiceMap { patternServiceMap := patternServiceMap[key := rule.target]; }
          } else {
            if key !in patternFlowMap { patternFlowMap := patternFlowMap[key := rule.target]; }
          }
        }
      }
      assert rules[..|rules|] == rules;
    }

    /** `evaluate_target_service` (`service`) and `evaluate_target_flow`, which differ in the map only. */
    method EvaluateTarget(service: bool, source: string, engine: Engine) returns (target: Option<string>)
      ensures target == Hit(matchList, searchList, if service then patternServiceMap else patternFlowMap, source, engine)
    {
      var targets := if service then patternServiceMap else patternFlowMap;
      for i := 0 to |matchList|
        invariant FirstHit(matchList, true, targets, source, engine) ==
                  FirstHit(matchList[i..], true, targets, source, engine)
      {
        if matchList[i] in targets && engine.matches(source, matchList[i]) {
          return Some(targets[matchList[i]]);
        }
      }
      for i := 0 to |searchList|
        invariant FirstHit(searchList, false, targets, source, engine) ==
                  FirstHit(searchList[i..], false, targets, source, engine)
      {
        if searchList[i] + SEARCH in targets && engine.searches(source, searchList[i]) {
          return Some(targets[searchList[i] + SEARCH]);
        }
      }
      return None;
    }
  }

  function Patterns(rules: seq<Rule>, compiles: string -> bool, entire: bool): seq<string> {
    if rules == [] then []
    else
      var front, r := Patterns(rules[..|rules| - 1], compiles, entire), rules[|rules| - 1];
      if compiles(r.pattern) && r.entireMatch == entire then front + [r.pattern] else front
  }

  function Targets(rules: seq<Rule>, compiles: string -> bool, service: bool): map<string, string> {
    if rules == [] then map[]
    else
      var front, r := Targets(rules[..|rules| - 1], compiles, service), rules[|rules| - 1];
      var key := Key(r.pattern, r.entireMatch);
      if compiles(r.pattern) && r.serviceIntervene == service && key !in front then front[key := r.target] else front
  }

  predicate Applies(engine: Engine, source: string, pattern: string, entire: bool) {
    if entire then engine.matches(source, pattern) else engine.searches(source, pattern)
  }

  function FirstHit(patterns: seq<string>, entire: bool, targets: map<string, string>, source: string, engine: Engine)
    : Option<string>
  {
    if patterns == [] then None
    else if Key(patterns[0], entire) in targets && Applies(engine, source, patterns[0], entire)
    then Some(targets[Key(patterns[0], entire)])
    else FirstHit(patterns[1..], entire, targets, source, engine)
  }

  function Hit(matchList: seq<string>, searchList: seq<string>, targets: map<string, string>, source: string,
               engine: Engine): Option<string>
  {
    var hit := FirstHit(matchList, true, targets, source, engine);
    if hit.Some? then hit else FirstHit(searchList, false, targets, source, engine)
  }

  /** The answer of the index that the rules build. */
  function Indexed(rules: seq<Rule>, service: bool, source: string, engine: Engine): Option<string> {
    Hit(Patterns(rules, engine.compiles, true), Patterns(rules, engine.compiles, false),
        Targets(rules, engine.compiles, service), source, engine)
  }

  // ---- the plain reading of a rule file ----

  predicate Fires(r: Rule, service: bool, entire: bool, source: string, engine: Engine) {
    && engine.compiles(r.pattern) && r.serviceIntervene == service && r.entireMatch == entire
    && Applies(engine, source, r.pattern, entire)
  }

  function Scan(rules: seq<Rule>, service: bool, entire: bool, source: string, engine: Engine): Option<string> {
    if rules == [] then None
    else if Fires(rules[0], service, entire, source, engine) then Some(rules[0].target)
    else Scan(rules[1..], service, entire, source, engine)
  }

  /** The first rule of the kind that matches the whole text, else the first whose pattern occurs in it. */
  function PlainTarget(rules: seq<Rule>, service: bool, source: string, engine: Engine): Option<string> {
    var hit := Scan(rules, service, true, source, engine);
    if hit.Some? then hit else Scan(rules, service, false, source, engine)
  }

  /** Rules that share a key agree in kind and in the way of matching. This holds in particular when
      patterns are distinct and none ends in the search suffix. */
  predicate KeysAgree(rules: seq<Rule>, engine: Engine) {
    forall i, j :: 0 <= i < |rules| && 0 <= j < |rules| && SameKey(rules[i], rules[j], engine) ==>
      rules[i].serviceIntervene == rules[j].serviceIntervene && rules[i].entireMatch == rules[j].entireMatch
  }

  predicate SameKey(a: Rule, b: Rule, engine: Engine) {
    && engine.compiles(a.pattern) && engine.compiles(b.pattern)
    && Key(a.pattern, a.entireMatch) == Key(b.pattern, b.entireMatch)
  }

  predicate Owns(r: Rule, compiles: string -> bool, service: bool, key: string) {
    compiles(r.pattern) && r.serviceIntervene == service && Key(r.pattern, r.entireMatch) == key
  }

  lemma LastTarget(rules: seq<Rule>, compiles: string -> bool, service: bool, key: string)
    requires rules != []
    ensures var front, r := Targets(rules[..|rules| - 1], compiles, service), rules[|rules| - 1];
      var all := Targets(rules, compiles, service);
      && (key in all <==> key in front || Owns(r, compiles, service, key))
      && (key in all ==> all[key] == if key in front then front[key] else r.target)
  {
  }

  /** A map holds the target of the first rule of its kind with the key. */
  lemma {:induction false} TargetsFirst(rules: seq<Rule>, compiles: string -> bool, service: bool, key: string)
      returns (i: nat)
    ensures key in Targets(rules, compiles, service) <==> i < |rules|
    ensures i < |rules| ==>
      Owns(rules[i], compiles, service, key) && Targets(rules, compiles, service)[key] == rules[i].target
    ensures forall j :: 0 <= j < i && j < |rules| ==> !Owns(rules[j], compiles, service, key)
  {
    if rules == [] {
      i := 0;
    } else {
      var n := |rules| - 1;
      i := TargetsFirst(rules[..n], compiles, service, key);
      LastTarget(rules, compiles, service, key);
      if i >= n {
        i := if Owns(rules[n], compiles, service, key) then n else n + 1;
      }
    }
  }

  lemma PatternsCons(r: Rule, rules: seq<Rule>, compiles: string -> bool, entire: bool)
    ensures Patterns([r] + rules, compiles, entire) ==
      (if compiles(r.pattern) && r.entireMatch == entire then [r.pattern] else []) + Patterns(rules, compiles, entire)
    decreases |rules|
  {
    if rules == [] {
      assert ([r] + rules)[..0] == [];
    } else {
      assert ([r] + rules)[..|rules|] == [r] + rules[..|rules| - 1];
      PatternsCons(r, rules[..|rules| - 1], compiles, entire);
    }
  }

  lemma {:induction false} HitIsScan(rules: seq<Rule>, k: nat, service: bool, entire: bool, source: string, engine: Engine)
    requires KeysAgree(rules, engine) && k <= |rules|
    requires forall i :: 0 <= i < k ==> !Fires(rules[i], service, entire, source, engine)
    ensures FirstHit(Patterns(rules[k..], engine.compiles, entire), entire,
                     Targets(rules, engine.compiles, service), source, engine) ==
            Scan(rules[k..], service, entire, source, engine)
    decreases |rules| - k
  {
    if k < |rules| {
      var r, targets := rules[k], Targets(rules, engine.compiles, service);
      assert rules[k..] == [r] + rules[k + 1..];
      PatternsCons(r, rules[k + 1..], engine.compiles, entire);
      var i := TargetsFirst(rules, engine.compiles, service, Key(r.pattern, r.entireMatch));
      if Fires(r, service, entire, source, engine) {
        assert Owns(rules[k], engine.compiles, service, Key(r.pattern, r.entireMatch));
        assert i <= k;
        assert rules[i].pattern == r.pattern by { SameKeySamePattern(rules[i], r); }
        assert Fires(rules[i], service, entire, source, engine);
        assert i == k;
      } else {
        if i < |rules| && engine.compiles(r.pattern) {
          assert SameKey(rules[i], rules[k], engine);
        }
        var rest := Patterns(rules[k + 1..], engine.compiles, entire);
        assert [] + rest == rest && ([r.pattern] + rest)[1..] == rest;
        HitIsScan(rules, k + 1, service, entire, source, engine);
      }
    }
  }

  lemma SameKeySamePattern(a: Rule, b: Rule)
    requires a.entireMatch == b.entireMatch && Key(a.pattern, a.entireMatch) == Key(b.pattern, b.entireMatch)
    ensures a.pattern == b.pattern
  {
    if !a.entireMatch {
      assert a.pattern == (a.pattern + SEARCH)[..|a.pattern + SEARCH| - |SEARCH|];
      assert b.pattern == (b.pattern + SEARCH)[..|b.pattern + SEARCH| - |SEARCH|];
    }
  }

  /** When the keys agree, the index answers like the plain reading of the file. */
  lemma IndexIsPlainReading(rules: seq<Rule>, service: bool, source: string, engine: Engine)
    requires KeysAgree(rules, engine)
    ensures Indexed(rules, service, source, engine) == PlainTarget(rules, service, source, engine)
  {
    assert rules[0..] == rules;
    HitIsScan(rules, 0, service, true, source, engine);
    HitIsScan(rules, 0, service, false, source, engine);
  }

  // ---- the answer, rule by rule ----

  /** A rule of the kind for whole texts whose pattern matches the text. */
  predicate MatchesWhole(r: Rule, service: bool, source: string, engine: Engine) {
    engine.compiles(r.pattern) && r.serviceIntervene == service && r.entireMatch && engine.matches(source, r.pattern)
  }

  /** A rule of the kind for parts of texts whose pattern occurs in the text. */
  predicate OccursIn(r: Rule, service: bool, source: string, engine: Engine) {
    engine.compiles(r.pattern) && r.serviceIntervene == service && !r.entireMatch && engine.searches(source, r.pattern)
  }

  predicate Answers(rules: seq<Rule>, i: nat, service: bool, source: string, engine: Engine) {
    i < |rules| &&
    if MatchesWhole(rules[i], service, source, engine) then
      forall j :: 0 <= j < i ==> !MatchesWhole(rules[j], service, source, engine)
    else
      && OccursIn(rules[i], service, source, engine)
      && (forall j :: 0 <= j < i ==> !OccursIn(rules[j], service, source, engine))
      && (forall j :: 0 <= j < |rules| ==> !MatchesWhole(rules[j], service, source, engine))
  }

  lemma {:induction false} ScanFirst(rules: seq<Rule>, service: bool, entire: bool, source: string, engine: Engine)
      returns (i: nat)
    ensures i <= |rules| && forall j :: 0 <= j < i ==> !Fires(rules[j], service, entire, source, engine)
    ensures i < |rules| ==> Fires(rules[i], service, entire, source, engine)
    ensures Scan(rules, service, entire, source, engine) == if i < |rules| then Some(rules[i].target) else None
  {
    if rules == [] || Fires(rules[0], service, entire, source, engine) {
      i := 0;
    } else {
      i := ScanFirst(rules[1..], service, entire, source, engine);
      i := i + 1;
    }
  }

  /** The plain reading is the target of the first rule of the kind that matches the whole text, or if none does
      of the first whose pattern occurs in it, or nothing. */
  lemma PlainMeaning(rules: seq<Rule>, service: bool, source: string, engine: Engine)
    ensures forall i :: 0 <= i < |rules| && Answers(rules, i, service, source, engine) ==>
      PlainTarget(rules, service, source, engine) == Some(rules[i].target)
    ensures PlainTarget(rules, service, source, engine).None? <==>
      forall j :: 0 <= j < |rules| ==>
        !MatchesWhole(rules[j], service, source, engine) && !OccursIn(rules[j], service, source, engine)
  {
    var w := ScanFirst(rules, service, true, source, engine);
    var o := ScanFirst(rules, service, false, source, engine);
    forall r ensures Fires(r, service, true, source, engine) <==> MatchesWhole(r, service, source, engine) {}
    forall r ensures Fires(r, service, false, source, engine) <==> OccursIn(r, service, source, engine) {}
  }

  /** The index of one rule for whole texts and one for parts. */
  lemma TwoRules(m: string, t: string, s: string, u: string, service: bool, source: string, engine: Engine)
    requires engine.compiles(m) && engine.compiles(s) && m != s + SEARCH
    ensures Indexed([Rule(m, t, true, service), Rule(s, u, false, service)], service, source, engine) ==
      if engine.matches(source, m) then Some(t) else if engine.searches(source, s) then Some(u) else None
  {
    var rules := [Rule(m, t, true, service), Rule(s, u, false, service)];
    IndexIsPlainReading(rules, service, source, engine);
    PlainMeaning(rules, service, source, engine);
    if engine.matches(source, m) {
      assert Answers(rules, 0, service, source, engine);
    } else if engine.searches(source, s) {
      assert Answers(rules, 1, service, source, engine);
    }
  }

  /** One pattern can have a rule of each way of matching. */
  lemma OnePatternBothWays(m: string, t: string, u: string, service: bool, source: string, engine: Engine)
    requires engine.compiles(m)
    ensures Indexed([Rule(m, t, true, service), Rule(m, u, false, service)], service, source, engine) ==
      if engine.matches(source, m) then Some(t) else if engine.searches(source, m) then Some(u) else None
  {
    assert |m + SEARCH| == |m| + 8;
    TwoRules(m, t, m, u, service, source, engine);
  }

  predicate EndsInSuffix(pattern: string) {
    |SEARCH| <= |pattern| && pattern[|pattern| - |SEARCH|..] == SEARCH
  }

  /** Distinct patterns without the search suffix have keys that agree. */
  lemma DistinctPatternsAgree(rules: seq<Rule>, engine: Engine)
    requires forall i, j :: 0 <= i < j < |rules| ==> rules[i].pattern != rules[j].pattern
    requires forall i :: 0 <= i < |rules| ==> !EndsInSuffix(rules[i].pattern)
    ensures KeysAgree(rules, engine)
  {
    forall i, j | 0 <= i < |rules| && 0 <= j < |rules| && SameKey(rules[i], rules[j], engine)
      ensures rules[i] == rules[j]
    {
      var a, b := rules[i], rules[j];
      if a.entireMatch == b.entireMatch {
        SameKeySamePattern(a, b);
      } else if a.entireMatch {
        SuffixedKey(a.pattern, b.pattern);
      } else {
        SuffixedKey(b.pattern, a.pattern);
      }
    }
  }

  lemma SuffixedKey(p: string, q: string)
    requires p == q + SEARCH
    ensures EndsInSuffix(p)
  {
  }

  /** A pattern used by rules of both kinds lets a later rule win over an earlier one. */
  lemma SharedPatternReorders()
    ensures exists rules, engine: Engine ::
      Indexed(rules, false, "x", engine) != PlainTarget(rules, false, "x", engine)
  {
    var engine := Engine(p => true, (s, p) => true, (s, p) => true);
    var r0, r1, r2 := Rule("a", "s", true, true), Rule("b", "first", true, false), Rule("a", "second", true, false);
    var rules := [r0, r1, r2];
    assert [r0][..0] == [] && [r0, r1][..1] == [r0] && rules[..2] == [r0, r1];
    assert Targets([r0], engine.compiles, false) == map[];
    assert Targets([r0, r1], engine.compiles, false) == map["b" := "first"];
    assert Targets(rules, engine.compiles, false) == map["b" := "first", "a" := "second"];
    PatternsCons(r0, [r1, r2], engine.compiles, true);
    assert rules == [r0] + [r1, r2];
    assert Patterns(rules, engine.compiles, true)[0] == "a";
    assert rules[1..] == [r1, r2];
    assert !Fires(r0, false, true, "x", engine) && Fires(r1, false, true, "x", engine);
    assert Scan(rules, false, true, "x", engine) == Scan([r1, r2], false, true, "x", engine) == Some("first");
    assert PlainTarget(rules, false, "x", engine) == Some("first");
  }
}
