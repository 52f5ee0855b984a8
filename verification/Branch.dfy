/** Output blocks: the first `if` block whose conditions hold, or the default, supplies the output.
    Each block runs in a scope of its own. */
module Branch {
  import opened Json
  import opened KeyMap
  import opened Merge
  import opened Options
  import opened Pointer
  import opened Scope

  /** Evaluating an expression in a chain of scopes. */
  type Evaluator = (Expr, Frames) -> Option<Value>

  /** A key-expression map after initialisation. */
  datatype Keys = Keys(exprs: map<string, Expr>, order: seq<string>) {
    predicate Valid() {
      && (forall k :: k in order ==> k in exprs)
      && (forall k :: k in order ==> PathOf(k) != [])
    }
  }

  datatype IfConfig = IfConfig(definition: Keys, condition: seq<Expr>, output: Keys, next: Option<string>)

  /** `flow` tells the blocks of a flow node from those of a backend response. */
  datatype OutputConfig = OutputConfig(flow: bool, ifs: seq<IfConfig>, output: Keys, next: Option<string>) {
    predicate Valid() {
      forall b :: b in ifs ==> b.definition.Valid()
    }
  }

  function Document(keys: Keys, fs: Frames, eval: Evaluator): Option<Value> {
    Evaluated(keys.exprs, keys.order, e => eval(e, fs))
  }

  // ---- conditions and definitions ----

  datatype Cond = Holds(value: bool) | Failed

  /** Conditions are evaluated in order up to the first that is false. */
  function LogicalAnd(conditions: seq<Expr>, fs: Frames, eval: Evaluator): Cond {
    if conditions == [] then Holds(true)
    else
      var v := eval(conditions[0], fs);
      if v.None? || !v.value.Bool? then Failed
      else if !v.value.b then Holds(false)
      else LogicalAnd(conditions[1..], fs, eval)
  }

  method RunConditions(conditions: seq<Expr>, context: ExpressionContext, eval: Evaluator) returns (ret: int, value: bool)
    requires context.Valid()
    ensures LogicalAnd(conditions, context.Frames(), eval) == if ret == 0 then Holds(value) else Failed
  {
    value := true;
    var fs := context.Visible();
    for i := 0 to |conditions|
      invariant value && LogicalAnd(conditions[i..], fs, eval) == LogicalAnd(conditions, fs, eval)
    {
      var v := eval(conditions[i], fs);
      if v.None? {
        return -1, value;
      }
      if !v.value.Bool? {
        return -1, value;
      }
      if !v.value.b {
        return 0, false;
      }
    }
    return 0, value;
  }

  /** The scopes after the definitions, and whether all of them evaluated. */
  function Defined(keys: Keys, order: seq<string>, fs: Frames, eval: Evaluator): (r: (Frames, bool))
    requires fs != [] && forall k :: k in order ==> k in keys.exprs
    ensures |r.0| == |fs|
  {
    if order == [] then (fs, true)
    else
      var v := eval(keys.exprs[order[0]], fs);
      if v.None? then (fs, false)
      else Defined(keys, order[1..], SetByPathIn(fs, order[0], v.value), eval)
  }

  lemma DefinedNext(keys: Keys, i: nat, fs: Frames, eval: Evaluator)
    requires keys.Valid() && i < |keys.order| && fs != []
    ensures keys.order[i] in keys.exprs
    ensures var v := eval(keys.exprs[keys.order[i]], fs);
      Defined(keys, keys.order[i..], fs, eval) ==
        if v.None? then (fs, false)
        else Defined(keys, keys.order[i + 1..], SetByPathIn(fs, keys.order[i], v.value), eval)
  {
    assert keys.order[i..][1..] == keys.order[i + 1..];
  }

  method RunDef(keys: Keys, context: ExpressionContext, eval: Evaluator) returns (ret: int)
    requires keys.Valid() && context.Valid()
    modifies context
    ensures (context.Frames(), ret == 0) == Defined(keys, keys.order, old(context.Frames()), eval)
  {
    ghost var start := context.Frames();
    for i := 0 to |keys.order|
      invariant context.Frames() != []
      invariant Defined(keys, keys.order[i..], context.Frames(), eval) == Defined(keys, keys.order, start, eval)
    {
      var key := keys.order[i];
      assert key in keys.order;
      DefinedNext(keys, i, context.Frames(), eval);
      var fs := context.Visible();
      var value := eval(keys.exprs[key], fs);
      if value.None? {
        return -1;
      }
      var _ := context.SetVariableByPath(key, value.value);
    }
    return 0;
  }

  /** A block, in the scopes that begin with its own. */
  function BlockRun(b: IfConfig, fs: Frames, eval: Evaluator): (r: (Frames, bool))
    requires fs != [] && b.definition.Valid()
    ensures |r.0| == |fs|
  {
    var cond := LogicalAnd(b.condition, fs, eval);
    if cond.Failed? then (fs, false)
    else
      var fs1 := SetIn(fs, "cond", Bool(cond.value));
      if !cond.value then (fs1, true)
      else
        var (fs2, ok) := Defined(b.definition, b.definition.order, fs1, eval);
        var doc := Document(b.output, fs2, eval);
        if !ok || doc.None? then (fs2, false)
        else if doc.value == Null then (fs2, true)
        else (MergeIn(fs2, "output", doc.value), true)
  }

  method RunBlock(b: IfConfig, context: ExpressionContext, eval: Evaluator) returns (ret: int)
    requires b.definition.Valid() && context.Valid()
    modifies context.chain
    ensures (context.Frames(), ret == 0) == BlockRun(b, old(context.Frames()), eval)
  {
    var cond, value := RunConditions(b.condition, context, eval);
    if cond != 0 {
      return -1;
    }
    context.SetVariable("cond", Bool(value));
    if !value {
      return 0;
    }
    var defined := RunDef(b.definition, context, eval);
    if defined != 0 {
      return -1;
    }
    var fs := context.Visible();
    var doc := Document(b.output, fs, eval);
    if doc.None? {
      return -1;
    }
    if doc.value != Null {
      context.MergeVariable("output", doc.value);
    }
    return 0;
  }

  /** A block of a flow node also sets its successor, whether or not it ran without an error. */
  function BlockScopes(config: OutputConfig, b: IfConfig, fs: Frames, eval: Evaluator): (r: (Frames, bool))
    requires fs != [] && b.definition.Valid()
    ensures |r.0| == |fs|
  {
    var (fs1, ok) := BlockRun(b, fs, eval);
    if !config.flow then (fs1, ok)
    else if b.next.Some? then (SetIn(fs1, "next", String(b.next.value)), true)
    else (fs1, true)
  }

  method RunFlowBlock(config: OutputConfig, b: IfConfig, context: ExpressionContext, eval: Evaluator) returns (ret: int)
    requires b.definition.Valid() && context.Valid()
    modifies context.chain
    ensures (context.Frames(), ret == 0) == BlockScopes(config, b, old(context.Frames()), eval)
  {
    ret := RunBlock(b, context, eval);
    if config.flow {
      if b.next.Some? {
        context.SetVariable("next", String(b.next.value));
      }
      ret := 0;
    }
  }

  // ---- choosing a block ----

  function WithOutput(fs: Frames, output: Option<Value>): (r: Frames)
    requires fs != []
    ensures |r| == |fs|
  {
    if output.Some? then MergeIn(fs, "output", output.value) else fs
  }

  function WithNext(fs: Frames, next: Option<Value>): (r: Frames)
    requires fs != []
    ensures |r| == |fs|
  {
    if next.Some? then SetIn(fs, "next", next.value) else fs
  }

  /** The scopes after a block was chosen: its output is merged outside, and its successor set. */
  function Exported(config: OutputConfig, inner: Frames): (r: Frames)
    requires |inner| >= 2
    ensures |r| == |inner| - 1
  {
    WithNext(WithOutput(inner[1..], Lookup(inner, "output")), if config.flow then Lookup(inner, "next") else None)
  }

  function DefaultRun(config: OutputConfig, fs: Frames, eval: Evaluator): (r: (Frames, int))
    requires fs != []
    ensures |r.0| == |fs|
  {
    var doc := Document(config.output, fs, eval);
    if doc.None? then (fs, -1)
    else
      var fs1 := if doc.value == Null then fs else MergeIn(fs, "output", doc.value);
      (if config.flow && config.next.Some? then SetIn(fs1, "next", String(config.next.value)) else fs1, 0)
  }

  datatype Trial = Rejected | Decided(ret: int)

  /** One block: whether it settles the output, and the scopes outside it afterwards. */
  function Try(config: OutputConfig, b: IfConfig, fs: Frames, eval: Evaluator): (r: (Frames, Trial))
    requires fs != [] && b.definition.Valid()
    ensures |r.0| == |fs|
  {
    var (inner, ok) := BlockScopes(config, b, [[]] + fs, eval);
    var cond := Lookup(inner, "cond");
    if !ok then (inner[1..], Rejected)
    else if cond.None? then (inner[1..], Decided(-1))
    else if cond.value == Bool(true) then (Exported(config, inner), Decided(0))
    else (inner[1..], Rejected)
  }

  function Choose(config: OutputConfig, ifs: seq<IfConfig>, fs: Frames, eval: Evaluator): (r: (Frames, int))
    requires fs != [] && forall b :: b in ifs ==> b.definition.Valid()
    ensures |r.0| == |fs|
    decreases |ifs|
  {
    if ifs == [] then DefaultRun(config, fs, eval)
    else
      var (outer, trial) := Try(config, ifs[0], fs, eval);
      if trial.Decided? then (outer, trial.ret) else Choose(config, ifs[1..], outer, eval)
  }

  method ExportOutput(output: Option<Value>, context: ExpressionContext)
    requires context.Valid()
    modifies context.chain
    ensures context.Frames() == WithOutput(old(context.Frames()), output)
  {
    if output.Some? {
      context.MergeVariable("output", output.value);
    }
  }

  method ExportNext(next: Option<Value>, context: ExpressionContext)
    requires context.Valid()
    modifies context
    ensures context.Frames() == WithNext(old(context.Frames()), next)
  {
    if next.Some? {
      context.SetVariable("next", next.value);
    }
  }

  /** Merges the output of the chosen block into the outer scope and sets the successor there. */
  method Export(config: OutputConfig, inner: ExpressionContext, context: ExpressionContext)
    requires context.Valid() && inner.Valid() && inner.chain == [inner] + context.chain
    modifies context.chain
    ensures context.Frames() == Exported(config, old(inner.Frames()))
  {
    ghost var fs := inner.Frames();
    OuterFrames(inner, context);
    var output := inner.GetVariable("output");
    var next := inner.GetVariable("next");
    ExportOutput(output, context);
    ExportNext(if config.flow then next else None, context);
  }

  method TryBlock(config: OutputConfig, b: IfConfig, context: ExpressionContext, eval: Evaluator) returns (trial: Trial)
    requires b.definition.Valid() && context.Valid()
    modifies context.chain
    ensures (context.Frames(), trial) == Try(config, b, old(context.Frames()), eval)
  {
    var inner := new ExpressionContext.Inner(context);
    var ret := RunFlowBlock(config, b, inner, eval);
    OuterFrames(inner, context);
    if ret != 0 {
      return Rejected;
    }
    var cond := inner.GetVariable("cond");
    if cond.None? {
      return Decided(-1);
    }
    if cond.value != Bool(true) {
      return Rejected;
    }
    Export(config, inner, context);
    return Decided(0);
  }

  method RunDefault(config: OutputConfig, context: ExpressionContext, eval: Evaluator) returns (ret: int)
    requires context.Valid()
    modifies context.chain
    ensures (context.Frames(), ret) == DefaultRun(config, old(context.Frames()), eval)
  {
    var fs := context.Visible();
    var doc := Document(config.output, fs, eval);
    if doc.None? {
      return -1;
    }
    if doc.value != Null {
      context.MergeVariable("output", doc.value);
    }
    if config.flow && config.next.Some? {
      context.SetVariable("next", String(config.next.value));
    }
    return 0;
  }

  /** `FlowConfig::output` and the choice in `BackendResponseConfig::run`. */
  method Output(config: OutputConfig, context: ExpressionContext, eval: Evaluator) returns (ret: int)
    requires config.Valid() && context.Valid()
    modifies context.chain
    ensures (context.Frames(), ret) == Choose(config, config.ifs, old(context.Frames()), eval)
  {
    ghost var start := context.Frames();
    for i := 0 to |config.ifs|
      invariant context.Frames() != []
      invariant Choose(config, config.ifs[i..], context.Frames(), eval) == Choose(config, config.ifs, start, eval)
    {
      assert config.ifs[i] in config.ifs && config.ifs[i..][1..] == config.ifs[i + 1..];
      var trial := TryBlock(config, config.ifs[i], context, eval);
      if trial.Decided? {
        return trial.ret;
      }
    }
    ret := RunDefault(config, context, eval);
  }

  // ---- which block it is ----

  /** The block's conditions hold in a fresh scope inside `fs`. */
  predicate Accepts(b: IfConfig, fs: Frames, eval: Evaluator) {
    LogicalAnd(b.condition, [[]] + fs, eval) == Holds(true)
  }

  /** No condition fails to evaluate. */
  predicate Decides(b: IfConfig, fs: Frames, eval: Evaluator) {
    LogicalAnd(b.condition, [[]] + fs, eval).Holds?
  }

  /** Condition `i` is the first that is not true. */
  predicate StopsAt(conditions: seq<Expr>, fs: Frames, eval: Evaluator, i: nat) {
    && i < |conditions| && eval(conditions[i], fs) != Some(Bool(true))
    && forall j :: 0 <= j < i ==> eval(conditions[j], fs) == Some(Bool(true))
  }

  lemma {:induction false} AndStops(conditions: seq<Expr>, fs: Frames, eval: Evaluator, i: nat)
    requires StopsAt(conditions, fs, eval, i)
    ensures LogicalAnd(conditions, fs, eval) == if eval(conditions[i], fs) == Some(Bool(false)) then Holds(false) else Failed
  {
    if i > 0 {
      assert eval(conditions[0], fs) == Some(Bool(true));
      assert forall j :: 0 <= j < i - 1 ==> conditions[1..][j] == conditions[j + 1];
      AndStops(conditions[1..], fs, eval, i - 1);
    }
  }

  lemma {:induction false} AndHolds(conditions: seq<Expr>, fs: Frames, eval: Evaluator)
    ensures LogicalAnd(conditions, fs, eval) == Holds(true) <==>
      forall i :: 0 <= i < |conditions| ==> eval(conditions[i], fs) == Some(Bool(true))
  {
    if conditions != [] {
      AndHolds(conditions[1..], fs, eval);
      if eval(conditions[0], fs) == Some(Bool(true)) {
        forall i | 1 <= i < |conditions| ensures conditions[i] == conditions[1..][i - 1] {}
      }
    }
  }

  /** A block is accepted exactly when each of its conditions evaluates to true in its fresh scope; otherwise
      it decides exactly when the first that is not true is false. */
  lemma AcceptsExactly(b: IfConfig, fs: Frames, eval: Evaluator)
    ensures Accepts(b, fs, eval) <==>
      forall i :: 0 <= i < |b.condition| ==> eval(b.condition[i], [[]] + fs) == Some(Bool(true))
    ensures Decides(b, fs, eval) <==>
      forall i: nat :: StopsAt(b.condition, [[]] + fs, eval, i) ==> eval(b.condition[i], [[]] + fs) == Some(Bool(false))
  {
    AndHolds(b.condition, [[]] + fs, eval);
    if i: nat :| StopsAt(b.condition, [[]] + fs, eval, i) {
      AndStops(b.condition, [[]] + fs, eval, i);
      forall j: nat | StopsAt(b.condition, [[]] + fs, eval, j) ensures j == i {}
    } else {
      AllTrueOrStops(b.condition, [[]] + fs, eval, |b.condition|);
    }
  }

  lemma {:induction false} AllTrueOrStops(conditions: seq<Expr>, fs: Frames, eval: Evaluator, n: nat)
    requires n <= |conditions| && forall i: nat :: !StopsAt(conditions, fs, eval, i)
    ensures forall i :: 0 <= i < n ==> eval(conditions[i], fs) == Some(Bool(true))
  {
    if n > 0 {
      AllTrueOrStops(conditions, fs, eval, n - 1);
      assert !StopsAt(conditions, fs, eval, n - 1);
    }
  }

  // ---- what definitions define ----

  /** A key that names one variable. */
  predicate NamesVariable(key: string) {
    PathOf(key) == [key]
  }

  lemma NamedWrite(fs: Frames, key: string, value: Value, k: string)
    requires fs != [] && NamesVariable(key)
    ensures Lookup(SetByPathIn(fs, key, value), k) == if k == key then Some(value) else Lookup(fs, k)
  {
    var ms := fs[0];
    var ms' := if HasMember(ms, key) then AssignMember(ms, key, value) else AddMember(ms, key, value);
    SetMember(ms, key, value);
    if HasMember(ms, key) { AssignReads(ms, key, value, k); } else { AddReads(ms, key, value, k); }
    assert fs[0 := ms'][1..] == fs[1..];
  }

  lemma SetMember(ms: seq<Member>, key: string, value: Value)
    ensures SetAt(Object(ms), [key], value) ==
      Object(if HasMember(ms, key) then AssignMember(ms, key, value) else AddMember(ms, key, value))
  {
    var path := [key];
    assert path[0] == key && path[1..] == [] && Container(Object(ms), key) == Object(ms);
    assert forall v :: SetAt(v, path[1..], value) == value;
  }

  lemma {:induction false} OthersKept(keys: Keys, order: seq<string>, fs: Frames, eval: Evaluator, k: string)
    requires fs != [] && (forall x :: x in order ==> x in keys.exprs && NamesVariable(x)) && k !in order
    ensures Lookup(Defined(keys, order, fs, eval).0, k) == Lookup(fs, k)
    decreases |order|
  {
    if order != [] {
      var v := eval(keys.exprs[order[0]], fs);
      if v.Some? {
        NamedWrite(fs, order[0], v.value, k);
        OthersKept(keys, order[1..], SetByPathIn(fs, order[0], v.value), eval, k);
      }
    }
  }

  /** The scopes in which definition `i` is evaluated: those after the definitions before it. */
  function ScopesAt(keys: Keys, order: seq<string>, fs: Frames, eval: Evaluator, i: nat): (r: Frames)
    requires fs != [] && i <= |order| && forall x :: x in order ==> x in keys.exprs
    ensures r != []
  {
    Defined(keys, order[..i], fs, eval).0
  }

  lemma ScopesShift(keys: Keys, order: seq<string>, fs: Frames, eval: Evaluator, i: nat)
    requires fs != [] && 0 < i <= |order| && forall x :: x in order ==> x in keys.exprs
    requires eval(keys.exprs[order[0]], fs).Some?
    ensures ScopesAt(keys, order, fs, eval, i) ==
      ScopesAt(keys, order[1..], SetByPathIn(fs, order[0], eval(keys.exprs[order[0]], fs).value), eval, i - 1)
  {
    assert order[..i][1..] == order[1..][..i - 1];
  }

  /** Definitions with different names, in their order: each variable afterwards reads as the value of its
      expression in the scopes that the definitions before it left. */
  lemma {:induction false} DefinitionReads(keys: Keys, order: seq<string>, fs: Frames, eval: Evaluator, i: nat)
    requires fs != [] && i < |order| && forall x :: x in order ==> x in keys.exprs && NamesVariable(x)
    requires (forall j, k :: 0 <= j < k < |order| ==> order[j] != order[k]) && Defined(keys, order, fs, eval).1
    ensures var v := eval(keys.exprs[order[i]], ScopesAt(keys, order, fs, eval, i));
      v.Some? && Lookup(Defined(keys, order, fs, eval).0, order[i]) == v
    decreases |order|
  {
    var v := eval(keys.exprs[order[0]], fs);
    var fs' := SetByPathIn(fs, order[0], v.value);
    if i == 0 {
      assert order[..0] == [];
      NamedWrite(fs, order[0], v.value, order[0]);
      OthersKept(keys, order[1..], fs', eval, order[0]);
    } else {
      DefinitionReads(keys, order[1..], fs', eval, i - 1);
      ScopesShift(keys, order, fs, eval, i);
    }
  }

  /** A block whose conditions do not hold leaves every outer variable as it was. */
  lemma RejectedLeavesAlone(config: OutputConfig, b: IfConfig, fs: Frames, eval: Evaluator)
    requires fs != [] && b.definition.Valid() && Decides(b, fs, eval) && !Accepts(b, fs, eval)
    ensures Try(config, b, fs, eval) == (fs, Rejected)
  {
    var f := [[]] + fs;
    var own := AddMember([], "cond", Bool(false));
    assert SetIn(f, "cond", Bool(false)) == [own] + fs;
    assert BlockRun(b, f, eval) == ([own] + fs, true);
    if config.flow && b.next.Some? {
      assert SetIn([own] + fs, "next", String(b.next.value)) == [AddMember(own, "next", String(b.next.value))] + fs;
    }
  }

  /** The first block whose conditions hold, or the number of blocks. */
  function FirstAccepting(ifs: seq<IfConfig>, fs: Frames, eval: Evaluator): (i: nat)
    ensures i <= |ifs| && (i < |ifs| ==> Accepts(ifs[i], fs, eval))
    ensures forall k :: 0 <= k < i ==> !Accepts(ifs[k], fs, eval)
  {
    if ifs == [] || Accepts(ifs[0], fs, eval) then 0 else 1 + FirstAccepting(ifs[1..], fs, eval)
  }

  /** When no condition fails, the choice is the first accepting block alone, run as if the rejected
      blocks before it were not there, or the default when there is none. */
  lemma {:induction false} FirstMatchDecides(config: OutputConfig, ifs: seq<IfConfig>, fs: Frames, eval: Evaluator)
    requires fs != [] && forall b :: b in ifs ==> b.definition.Valid() && Decides(b, fs, eval)
    ensures var i := FirstAccepting(ifs, fs, eval);
      Choose(config, ifs, fs, eval) ==
        if i == |ifs| then DefaultRun(config, fs, eval) else Choose(config, ifs[i..], fs, eval)
    decreases |ifs|
  {
    if ifs != [] && !Accepts(ifs[0], fs, eval) {
      RejectedLeavesAlone(config, ifs[0], fs, eval);
      FirstMatchDecides(config, ifs[1..], fs, eval);
      var i := FirstAccepting(ifs[1..], fs, eval);
      assert ifs[1..][i..] == ifs[1 + i..];
    } else {
      assert ifs[0..] == ifs;
    }
  }

  lemma {:induction false} DefinedInside(keys: Keys, order: seq<string>, fs: Frames, eval: Evaluator)
    requires fs != [] && forall k :: k in order ==> k in keys.exprs
    ensures Defined(keys, order, fs, eval).0[1..] == fs[1..]
    decreases |order|
  {
    if order != [] {
      var v := eval(keys.exprs[order[0]], fs);
      if v.Some? {
        DefinedInside(keys, order[1..], SetByPathIn(fs, order[0], v.value), eval);
      }
    }
  }

  lemma AddedLookup(own: seq<Member>, fs: Frames, key: string, value: Value, k: string)
    requires !HasMember(own, key)
    ensures SetIn([own] + fs, key, value) == [AddMember(own, key, value)] + fs
    ensures HasMember(AddMember(own, key, value), k) <==> k == key || HasMember(own, k)
    ensures Lookup([AddMember(own, key, value)] + fs, k) == if k == key then Some(value) else Lookup([own] + fs, k)
  {
    var own' := AddMember(own, key, value);
    if HasMember(own, k) { PositionIs(own', k, Position(own, k)); }
    else if k == key { PositionIs(own', k, |own|); }
    else { assert forall i :: 0 <= i < |own'| ==> own'[i].name != k; }
    assert ([own'] + fs)[1..] == fs && ([own] + fs)[1..] == fs;
  }

  /** What a block puts into its own scope is what is exported, when nothing outside is in the way. */
  lemma ExportsOwn(config: OutputConfig, own: seq<Member>, fs: Frames, doc: Value, next: Option<string>)
    requires fs != [] && Lookup([own] + fs, "output").None? && (config.flow ==> Lookup([own] + fs, "next").None?)
    requires Lookup([own] + fs, "cond") == Some(Bool(true))
    ensures var own1 := if doc == Null then own else AddMember(own, "output", doc);
      var own2 := if config.flow && next.Some? then AddMember(own1, "next", String(next.value)) else own1;
      var fs1 := if doc == Null then fs else SetIn(fs, "output", doc);
      && (doc != Null ==> MergeIn([own] + fs, "output", doc) == [own1] + fs)
      && (config.flow && next.Some? ==> SetIn([own1] + fs, "next", String(next.value)) == [own2] + fs)
      && Lookup([own2] + fs, "cond") == Some(Bool(true))
      && Exported(config, [own2] + fs) == if config.flow && next.Some? then SetIn(fs1, "next", String(next.value)) else fs1
  {
    LookupIsOwners([own] + fs, "output");
    LookupIsOwners(fs, "output");
    assert ([own] + fs)[1..] == fs;
    var own1 := if doc == Null then own else AddMember(own, "output", doc);
    if doc != Null {
      AddedLookup(own, fs, "output", doc, "output");
      AddedLookup(own, fs, "output", doc, "next");
      AddedLookup(own, fs, "output", doc, "cond");
    }
    if config.flow && next.Some? {
      AddedLookup(own1, fs, "next", String(next.value), "output");
      AddedLookup(own1, fs, "next", String(next.value), "next");
      AddedLookup(own1, fs, "next", String(next.value), "cond");
      assert ([AddMember(own1, "next", String(next.value))] + fs)[1..] == fs;
    }
    assert ([own1] + fs)[1..] == fs;
  }

  /** The scopes in which an accepted block's definitions start. */
  function Entered(fs: Frames): (r: Frames)
    ensures r != []
  {
    [AddMember([], "cond", Bool(true))] + fs
  }

  /** The scopes after one document and one successor have been put into the outer scope. */
  function Settled(config: OutputConfig, fs: Frames, doc: Value, next: Option<string>): Frames
    requires fs != []
  {
    var fs1 := if doc == Null then fs else SetIn(fs, "output", doc);
    if config.flow && next.Some? then SetIn(fs1, "next", String(next.value)) else fs1
  }

  /** The definitions and the output of an accepted block evaluate, and neither the definitions nor the outer
      scopes bind what the block sets, which is the successor in a flow node only. */
  predicate Evaluates(config: OutputConfig, b: IfConfig, fs: Frames, eval: Evaluator)
    requires b.definition.Valid()
  {
    var (after, ok) := Defined(b.definition, b.definition.order, Entered(fs), eval);
    && ok && Document(b.output, after, eval).Some?
    && Lookup(after, "output").None? && (config.flow ==> Lookup(after, "next").None?)
    && Lookup(after, "cond") == Some(Bool(true))
  }

  /** The chosen block: its definitions and output evaluate, and what it sets is bound neither outside nor
      by the definitions. Then exactly its document becomes the output, its successor the
      successor, and nothing else outside changes. */
  lemma ChosenBlockDecides(config: OutputConfig, b: IfConfig, fs: Frames, eval: Evaluator)
    requires fs != [] && b.definition.Valid() && Accepts(b, fs, eval)
    requires Evaluates(config, b, fs, eval)
    ensures var after := Defined(b.definition, b.definition.order, Entered(fs), eval).0;
      Try(config, b, fs, eval) == (Settled(config, fs, Document(b.output, after, eval).value, b.next), Decided(0))
  {
    var after := Defined(b.definition, b.definition.order, Entered(fs), eval).0;
    ChosenRuns(b, fs, eval);
    ExportsOwn(config, after[0], fs, Document(b.output, after, eval).value, b.next);
  }

  /** A block works in a scope of its own. */
  lemma EntersInside(b: IfConfig, fs: Frames, eval: Evaluator)
    requires fs != [] && b.definition.Valid()
    ensures [[]] + fs != [] && SetIn([[]] + fs, "cond", Bool(true)) == Entered(fs)
    ensures var after := Defined(b.definition, b.definition.order, Entered(fs), eval).0; after == [after[0]] + fs
  {
    DefinedInside(b.definition, b.definition.order, Entered(fs), eval);
    assert Entered(fs)[1..] == fs;
  }

  lemma ChosenRuns(b: IfConfig, fs: Frames, eval: Evaluator)
    requires fs != [] && b.definition.Valid() && Accepts(b, fs, eval)
    requires var (after, ok) := Defined(b.definition, b.definition.order, Entered(fs), eval);
      ok && Document(b.output, after, eval).Some?
    ensures var after := Defined(b.definition, b.definition.order, Entered(fs), eval).0;
      var doc := Document(b.output, after, eval).value;
      && after == [after[0]] + fs
      && BlockRun(b, [[]] + fs, eval) == (if doc == Null then after else MergeIn(after, "output", doc), true)
  {
    EntersInside(b, fs, eval);
  }

  /** When no condition fails and what is chosen evaluates, exactly one source is merged: the document of the
      first block whose conditions hold, with its successor, or that of the default; nothing else outside
      changes. */
  lemma OneSourceDecides(config: OutputConfig, ifs: seq<IfConfig>, fs: Frames, eval: Evaluator)
    requires fs != [] && Lookup(fs, "output").None?
    requires forall b :: b in ifs ==> b.definition.Valid() && Decides(b, fs, eval)
    requires var i := FirstAccepting(ifs, fs, eval);
      if i < |ifs| then ifs[i].definition.Valid() && Evaluates(config, ifs[i], fs, eval)
      else Document(config.output, fs, eval).Some?
    ensures var i := FirstAccepting(ifs, fs, eval);
      Choose(config, ifs, fs, eval) ==
        if i < |ifs| then
          var after := Defined(ifs[i].definition, ifs[i].definition.order, Entered(fs), eval).0;
          (Settled(config, fs, Document(ifs[i].output, after, eval).value, ifs[i].next), 0)
        else (Settled(config, fs, Document(config.output, fs, eval).value, config.next), 0)
  {
    var i := FirstAccepting(ifs, fs, eval);
    FirstMatchDecides(config, ifs, fs, eval);
    if i < |ifs| {
      ChosenBlockDecides(config, ifs[i], fs, eval);
      assert ifs[i..][0] == ifs[i];
    } else {
      LookupIsOwners(fs, "output");
    }
  }

  // ---- an output that is there already ----

  lemma MergedTwice(x: seq<Member>, y: seq<Member>)
    requires DupFreeMembers(x) && DupFreeMembers(y)
    ensures var m := Merged(x, y);
      View(Object(m)) == MergeTree(View(Object(x)), View(Object(y))) && View(Object(Merged(m, m))) == View(Object(m))
  {
    var m := Merged(x, y);
    MergeView(x, y);
    MergeView(m, m);
    MergeSelf(View(Object(m)));
    assert View(Object(Merged(m, m))) == MergeTree(View(Object(m)), View(Object(m)));
  }

  lemma MergeInOuter(own: seq<Member>, fs: Frames, key: string, value: Value)
    requires !HasMember(own, key) && Lookup(fs, key).Some?
    ensures MergeIn([own] + fs, key, value) == [own] + MergeIn(fs, key, value)
  {
    LookupIsOwners(fs, key);
    assert ([own] + fs)[1..] == fs;
    var i := Owner(fs, key);
    assert Owner([own] + fs, key) == i + 1 && ([own] + fs)[i + 1] == fs[i];
  }

  /** The output of a chosen block is merged into an output that the outer scopes have, such as that of a
      template. */
  lemma OutputIsMerged(config: OutputConfig, b: IfConfig, fs: Frames, eval: Evaluator, was: Value)
    requires fs != [] && b.definition.Valid() && Accepts(b, fs, eval)
    requires Lookup(fs, "output") == Some(was) && was.Object? && DupFree(was)
    requires var (after, ok) := Defined(b.definition, b.definition.order, Entered(fs), eval);
      && ok && !HasMember(after[0], "output") && Lookup(after, "cond") == Some(Bool(true))
      && var doc := Document(b.output, after, eval); doc.Some? && doc.value.Object? && DupFree(doc.value)
    ensures var doc := Document(b.output, Defined(b.definition, b.definition.order, Entered(fs), eval).0, eval).value;
      var (fs', trial) := Try(config, b, fs, eval);
      trial == Decided(0) && Lookup(fs', "output").Some? &&
      View(Lookup(fs', "output").value) == MergeTree(View(was), View(doc))
  {
    var after := Defined(b.definition, b.definition.order, Entered(fs), eval).0;
    var doc := Document(b.output, after, eval).value;
    ChosenRuns(b, fs, eval);
    MergeInOuter(after[0], fs, "output", doc);
    MergedTwice(was.members, doc.members);
    MergeReads(fs, "output", doc, "output");
    ExportsMerged(config, after[0], MergeIn(fs, "output", doc), b.next, Merged(was.members, doc.members));
    CondStays(after[0], fs, doc);
  }

  lemma CondStays(own: seq<Member>, fs: Frames, doc: Value)
    requires fs != []
    ensures Lookup([own] + MergeIn(fs, "output", doc), "cond") == Lookup([own] + fs, "cond")
  {
    MergeReads(fs, "output", doc, "cond");
    assert ([own] + MergeIn(fs, "output", doc))[1..] == MergeIn(fs, "output", doc) && ([own] + fs)[1..] == fs;
  }

  /** Exporting an output that is already outside leaves it as it is, up to the order of members. */
  lemma ExportsMerged(config: OutputConfig, own: seq<Member>, fs: Frames, next: Option<string>, m: seq<Member>)
    requires fs != [] && !HasMember(own, "output") && Lookup(fs, "output") == Some(Object(m))
    ensures var inner := if config.flow && next.Some? then SetIn([own] + fs, "next", String(next.value)) else [own] + fs;
      && Lookup(inner, "cond") == Lookup([own] + fs, "cond") && inner[1..] == fs
      && Lookup(Exported(config, inner), "output") == Some(Object(Merged(m, m)))
  {
    var inner := if config.flow && next.Some? then SetIn([own] + fs, "next", String(next.value)) else [own] + fs;
    assert ([own] + fs)[1..] == fs && inner[1..] == fs;
    if next.Some? {
      SetReads([own] + fs, "next", String(next.value), "cond");
      SetReads([own] + fs, "next", String(next.value), "output");
    }
    assert Lookup(inner, "output") == Some(Object(m));
    var fs1 := MergeIn(fs, "output", Object(m));
    MergeReads(fs, "output", Object(m), "output");
    var exported := if config.flow then Lookup(inner, "next") else None;
    if exported.Some? { SetReads(fs1, "next", exported.value, "output"); }
  }

  /** So is the output of the default. */
  lemma DefaultIsMerged(config: OutputConfig, fs: Frames, eval: Evaluator, was: Value)
    requires fs != [] && Lookup(fs, "output") == Some(was) && was.Object?
    requires var doc := Document(config.output, fs, eval); doc.Some? && doc.value.Object?
    ensures var doc, (fs', ret) := Document(config.output, fs, eval).value, DefaultRun(config, fs, eval);
      ret == 0 && Lookup(fs', "output") == Some(Object(Merged(was.members, doc.members)))
  {
    var doc := Document(config.output, fs, eval).value;
    MergeReads(fs, "output", doc, "output");
    if config.next.Some? { SetReads(MergeIn(fs, "output", doc), "next", String(config.next.value), "output"); }
  }

  // ---- blocks that fail ----

  /** A condition that fails to evaluate: the block of a backend response is passed over, but that of a flow
      node, which runs on after the failure, ends the choice with an error when no outer scope has `cond`. */
  lemma FailedCondition(config: OutputConfig, b: IfConfig, fs: Frames, eval: Evaluator)
    requires fs != [] && b.definition.Valid() && !Decides(b, fs, eval) && Lookup(fs, "cond").None?
    ensures Try(config, b, fs, eval) == (fs, if config.flow then Decided(-1) else Rejected)
  {
    var f := [[]] + fs;
    assert f[1..] == fs && BlockRun(b, f, eval) == (f, false);
    assert Lookup(f, "cond") == None;
    if b.next.Some? {
      AddedLookup([], fs, "next", String(b.next.value), "cond");
      assert ([AddMember([], "next", String(b.next.value))] + fs)[1..] == fs;
    }
  }

  /** The output of an accepted block does not evaluate, with nothing in the way of what the block sets. */
  predicate OutputFails(config: OutputConfig, b: IfConfig, fs: Frames, eval: Evaluator)
    requires b.definition.Valid()
  {
    var (after, ok) := Defined(b.definition, b.definition.order, Entered(fs), eval);
    && (!ok || Document(b.output, after, eval).None?)
    && Lookup(after, "output").None? && (config.flow ==> Lookup(after, "next").None?)
    && Lookup(after, "cond") == Some(Bool(true))
  }

  /** Then too the block of a backend response is passed over; that of a flow node is chosen, with its successor
      and without an output. */
  lemma FailedOutput(config: OutputConfig, b: IfConfig, fs: Frames, eval: Evaluator)
    requires fs != [] && b.definition.Valid() && Accepts(b, fs, eval) && OutputFails(config, b, fs, eval)
    ensures Try(config, b, fs, eval) ==
      if config.flow then (Settled(config, fs, Null, b.next), Decided(0)) else (fs, Rejected)
  {
    var after := Defined(b.definition, b.definition.order, Entered(fs), eval).0;
    FailedRuns(b, fs, eval);
    assert after[1..] == fs;
    if config.flow { ExportsOwn(config, after[0], fs, Null, b.next); }
  }

  lemma FailedRuns(b: IfConfig, fs: Frames, eval: Evaluator)
    requires fs != [] && b.definition.Valid() && Accepts(b, fs, eval)
    requires var (after, ok) := Defined(b.definition, b.definition.order, Entered(fs), eval);
      !ok || Document(b.output, after, eval).None?
    ensures var after := Defined(b.definition, b.definition.order, Entered(fs), eval).0;
      after == [after[0]] + fs && BlockRun(b, [[]] + fs, eval) == (after, false)
  {
    EntersInside(b, fs, eval);
  }

  // ---- scopes further out ----

  /** A variable that is bound only in the first `k` scopes, if at all, changes only there. */
  lemma MergeInKeeps(fs: Frames, key: string, value: Value, k: nat)
    requires 0 < k <= |fs| && Lookup(fs[k..], key).None?
    ensures MergeIn(fs, key, value)[k..] == fs[k..]
  {
    LookupIsOwners(fs[k..], key);
    forall j | k <= j < |fs| ensures !HasMember(fs[j], key) {
      assert fs[j] == fs[k..][j - k];
    }
  }

  /** The scopes outside the inner one stay as they are when they do not bind `output`. */
  lemma {:induction false} ChooseKeepsOuter(config: OutputConfig, ifs: seq<IfConfig>, fs: Frames, eval: Evaluator)
    requires fs != [] && forall b :: b in ifs ==> b.definition.Valid()
    requires Lookup(fs[1..], "output").None?
    ensures Choose(config, ifs, fs, eval).0[1..] == fs[1..]
    decreases |ifs|
  {
    if ifs == [] {
      var doc := Document(config.output, fs, eval);
      if doc.Some? { MergeInKeeps(fs, "output", doc.value, 1); }
    } else {
      TryKeepsOuter(config, ifs[0], fs, eval);
      ChooseKeepsOuter(config, ifs[1..], Try(config, ifs[0], fs, eval).0, eval);
    }
  }

  lemma TryKeepsOuter(config: OutputConfig, b: IfConfig, fs: Frames, eval: Evaluator)
    requires fs != [] && b.definition.Valid() && Lookup(fs[1..], "output").None?
    ensures Try(config, b, fs, eval).0[1..] == fs[1..]
  {
    var inner := BlockScopes(config, b, [[]] + fs, eval).0;
    assert ([[]] + fs)[2..] == fs[1..];
    BlockKeepsOuter(b, [[]] + fs, eval);
    assert inner[2..] == fs[1..] && inner[1..][1..] == inner[2..];
    var output := Lookup(inner, "output");
    if output.Some? { MergeInKeeps(inner[1..], "output", output.value, 1); }
  }

  lemma BlockKeepsOuter(b: IfConfig, fs: Frames, eval: Evaluator)
    requires |fs| >= 2 && b.definition.Valid() && Lookup(fs[2..], "output").None?
    ensures BlockRun(b, fs, eval).0[2..] == fs[2..]
  {
    var cond := LogicalAnd(b.condition, fs, eval);
    if cond.Holds? {
      var fs1 := SetIn(fs, "cond", Bool(cond.value));
      DefinedInside(b.definition, b.definition.order, fs1, eval);
      var fs2 := Defined(b.definition, b.definition.order, fs1, eval).0;
      assert fs2[2..] == fs2[1..][1..] == fs1[1..][1..] == fs[2..];
      var doc := Document(b.output, fs2, eval);
      if doc.Some? { MergeInKeeps(fs2, "output", doc.value, 2); }
    }
  }
}
