/** Delivery: the response of a classifier decides which services of the next node are recalled. */
module Deliver {
  import opened Json

  datatype Kind = NullKind | FalseKind | TrueKind | ObjectKind | ArrayKind | StringKind | NumberKind

  function KindOf(v: Value): Kind {
    match v
    case Null => NullKind
    case Bool(b) => if b then TrueKind else FalseKind
    case Object(_) => ObjectKind
    case Array(_) => ArrayKind
    case String(_) => StringKind
    case Number(_) => NumberKind
  }

  /** `deliverServices[i]` is delivered to when class `i + 1` passes `thresholds[i]`. */
  datatype DeliverConfig = DeliverConfig(classNum: nat, deliverServices: seq<string>, thresholds: seq<Value>) {
    predicate Valid() {
      0 < classNum && |deliverServices| == |thresholds| == classNum - 1
    }
  }

  /** The score of a class fails its threshold. */
  predicate Fails(score: Value, threshold: Value) {
    || KindOf(score) != KindOf(threshold)
    || (score.String? && score.s != threshold.s)
    || (score.Number? && score.n < threshold.n)
  }

  /** One score for each class, or a single string. */
  predicate WellFormed(config: DeliverConfig, response: Value) {
    && response.Array?
    && (if |response.items| == 1 then response.items[0].String? else |response.items| == config.classNum)
  }

  /** The score that class `i` is judged by. A single string is padded by pushing one copy of it again and
      again; the first push moves the string out, so that later classes get null. */
  function Score(response: Value, i: nat): Value
    requires response.Array? && response.items != [] && (|response.items| == 1 || i < |response.items|)
  {
    if |response.items| > 1 then response.items[i] else if i <= 1 then response.items[0] else Null
  }

  /** The services, among the first `n`, whose class fails. */
  function Failing(config: DeliverConfig, response: Value, n: nat): seq<string>
    requires config.Valid() && WellFormed(config, response) && n < config.classNum
  {
    if n == 0 then []
    else
      Failing(config, response, n - 1) +
      if Fails(Score(response, n), config.thresholds[n - 1]) then [config.deliverServices[n - 1]] else []
  }

  method FilteroutByResponse(config: DeliverConfig, response: Value) returns (filterout: seq<string>)
    requires config.Valid()
    ensures filterout ==
      if WellFormed(config, response) then Failing(config, response, config.classNum - 1) else []
  {
    filterout := [];
    if !response.Array? {
      return;
    }
    if |response.items| == 0 {
      return;
    }
    var responseArray := response.items;
    if |responseArray| == 1 && !responseArray[0].String? {
      return;
    } else if |responseArray| == 1 {
      var value := responseArray[0];
      for idx := 1 to config.classNum
        invariant |responseArray| == idx && value == (if idx == 1 then response.items[0] else Null)
        invariant forall k :: 0 <= k < idx ==> responseArray[k] == Score(response, k)
      {
        responseArray := responseArray + [value];
        value := Null;
      }
    }
    if config.classNum != |responseArray| {
      return;
    }
    for idx := 1 to config.classNum
      invariant filterout == Failing(config, response, idx - 1)
    {
      var service := config.deliverServices[idx - 1];
      if KindOf(responseArray[idx]) != KindOf(config.thresholds[idx - 1]) {
        filterout := filterout + [service];
      } else if responseArray[idx].String? && responseArray[idx].s != config.thresholds[idx - 1].s {
        filterout := filterout + [service];
      } else if responseArray[idx].Number? && responseArray[idx].n < config.thresholds[idx - 1].n {
        filterout := filterout + [service];
      }
    }
  }

  datatype Recall = Recall(service: string, priority: int)

  function Kept(services: seq<Recall>, filterout: set<string>): seq<Recall> {
    if services == [] then []
    else
      var front, r := Kept(services[..|services| - 1], filterout), services[|services| - 1];
      if r.service in filterout then front else front + [r]
  }

  /** The services that a run of the backend engine recalls: an intervention replaces them all. */
  method SelectServices(configServices: seq<Recall>, filteroutServices: seq<string>, interveneService: string)
    returns (recallServices: seq<Recall>)
    ensures recallServices ==
      if interveneService != "" then [Recall(interveneService, 0)]
      else Kept(configServices, set s | s in filteroutServices)
  {
    recallServices := [];
    var filterout := set s | s in filteroutServices;
    if interveneService != "" {
      recallServices := [Recall(interveneService, 0)];
    } else {
      for i := 0 to |configServices|
        invariant recallServices == Kept(configServices[..i], filterout)
      {
        assert configServices[..i + 1][..i] == configServices[..i];
        if configServices[i].service !in filterout {
          recallServices := recallServices + [configServices[i]];
        }
      }
      assert configServices[..|configServices|] == configServices;
    }
  }

  // ---- the split of the configured services ----

  /** The recall list of a deliver node. */
  function Configured(config: DeliverConfig): seq<Recall> {
    seq(|config.deliverServices|, i requires 0 <= i < |config.deliverServices| => Recall(config.deliverServices[i], 0))
  }

  function Filterout(config: DeliverConfig, response: Value): seq<string>
    requires config.Valid()
  {
    if WellFormed(config, response) then Failing(config, response, config.classNum - 1) else []
  }

  lemma {:induction false} FailingIs(config: DeliverConfig, response: Value, n: nat, service: string)
    requires config.Valid() && WellFormed(config, response) && n < config.classNum
    ensures service in Failing(config, response, n) <==>
      exists i :: 0 <= i < n && config.deliverServices[i] == service && Fails(Score(response, i + 1), config.thresholds[i])
  {
    if n > 0 {
      FailingIs(config, response, n - 1, service);
    }
  }

  lemma {:induction false} KeptIs(services: seq<Recall>, filterout: set<string>, r: Recall)
    ensures r in Kept(services, filterout) <==> r in services && r.service !in filterout
  {
    if services != [] {
      KeptIs(services[..|services| - 1], filterout, r);
      assert services == services[..|services| - 1] + [services[|services| - 1]];
    }
  }

  /** A class that delivers to the service fails its threshold. */
  ghost predicate SomeClassFails(config: DeliverConfig, response: Value, service: string)
    requires config.Valid() && WellFormed(config, response)
  {
    exists i :: 0 <= i < |config.deliverServices| && config.deliverServices[i] == service &&
      Fails(Score(response, i + 1), config.thresholds[i])
  }

  /** Each configured service is either recalled or filtered out, never both, and nothing else is; it is
      filtered out exactly when the response is well formed and a class that delivers to it fails. */
  lemma DeliverySplits(config: DeliverConfig, response: Value, service: string)
    requires config.Valid()
    ensures var out := Filterout(config, response);
      var recalled := Kept(Configured(config), set s | s in out);
      && (service in config.deliverServices <==> service in out || Recall(service, 0) in recalled)
      && !(service in out && Recall(service, 0) in recalled)
      && (service in out <==> WellFormed(config, response) && SomeClassFails(config, response, service))
  {
    var out := Filterout(config, response);
    KeptIs(Configured(config), (set s | s in out), Recall(service, 0));
    if WellFormed(config, response) {
      FailingIs(config, response, config.classNum - 1, service);
    }
    if service in config.deliverServices {
      var i :| 0 <= i < |config.deliverServices| && config.deliverServices[i] == service;
      assert Configured(config)[i] == Recall(service, 0);
    }
  }

  // ---- scores and thresholds ----

  /** A score that is delivered to: a number that is not below the threshold, the same string, the same
      boolean, null for null, and anything of the same kind for an object or an array. */
  predicate Passes(score: Value, threshold: Value) {
    match (score, threshold)
    case (Number(s), Number(t)) => t <= s
    case (String(a), String(b)) => a == b
    case (Bool(a), Bool(b)) => a == b
    case (Null, Null) => true
    case (Object(_), Object(_)) => true
    case (Array(_), Array(_)) => true
    case _ => false
  }

  ghost predicate Recalled(config: DeliverConfig, response: Value, service: string)
    requires config.Valid()
  {
    Recall(service, 0) in Kept(Configured(config), set s | s in Filterout(config, response))
  }

  /** One score for each class, of which there are at least two. */
  predicate ScoreList(config: DeliverConfig, response: Value) {
    response.Array? && |response.items| == config.classNum >= 2
  }

  /** A configured service is recalled exactly when the scores of all the classes that deliver to it pass. */
  lemma RecalledExactly(config: DeliverConfig, response: Value, service: string)
    requires config.Valid() && ScoreList(config, response)
    ensures Recalled(config, response, service) <==>
      && service in config.deliverServices
      && forall i :: 0 <= i < |config.deliverServices| && config.deliverServices[i] == service ==>
           Passes(response.items[i + 1], config.thresholds[i])
  {
    DeliverySplits(config, response, service);
    forall i | 0 <= i < |config.thresholds|
      ensures Fails(Score(response, i + 1), config.thresholds[i]) <==> !Passes(response.items[i + 1], config.thresholds[i])
    {
    }
  }

  predicate DistinctServices(config: DeliverConfig) {
    forall i, j :: 0 <= i < j < |config.deliverServices| ==> config.deliverServices[i] != config.deliverServices[j]
  }

  /** With different services: a number delivers from the threshold on, and a number never passes a string. */
  lemma NumberDelivers(config: DeliverConfig, response: Value, i: nat, score: real)
    requires config.Valid() && ScoreList(config, response) && DistinctServices(config)
    requires i < |config.deliverServices| && response.items[i + 1] == Number(score)
    ensures Recalled(config, response, config.deliverServices[i]) <==>
      config.thresholds[i].Number? && config.thresholds[i].n <= score
  {
    RecalledExactly(config, response, config.deliverServices[i]);
  }

  /** A string delivers when it is the threshold. */
  lemma TextDelivers(config: DeliverConfig, response: Value, i: nat, text: string)
    requires config.Valid() && ScoreList(config, response) && DistinctServices(config)
    requires i < |config.deliverServices| && response.items[i + 1] == String(text)
    ensures Recalled(config, response, config.deliverServices[i]) <==> config.thresholds[i] == String(text)
  {
    RecalledExactly(config, response, config.deliverServices[i]);
  }

  /** Raising one score never drops a service. */
  lemma RaisingKeeps(config: DeliverConfig, response: Value, class': nat, low: real, high: real, service: string)
    requires config.Valid() && ScoreList(config, response) && class' < |response.items|
    requires response.items[class'] == Number(low) && low <= high
    requires Recalled(config, response, service)
    ensures Recalled(config, Array(response.items[class' := Number(high)]), service)
  {
    RecalledExactly(config, response, service);
    RecalledExactly(config, Array(response.items[class' := Number(high)]), service);
  }

  /** A response that is not well formed filters nothing out. */
  lemma MalformedKeepsAll(config: DeliverConfig, response: Value, service: string)
    requires config.Valid() && service in config.deliverServices
    requires !response.Array? || (|response.items| == 1 && !response.items[0].String?)
      || (|response.items| != 1 && |response.items| != config.classNum)
    ensures Recalled(config, response, service)
  {
    DeliverySplits(config, response, service);
  }

  // ---- when one string stands for every class ----

  /** Class `i + 1` fails for the string as it is judged, and as it would be judged were the string there. */
  predicate FailsAsIs(config: DeliverConfig, text: string, i: nat)
    requires config.Valid() && i < |config.thresholds|
  {
    Fails(Score(Array([String(text)]), i + 1), config.thresholds[i])
  }

  predicate FailsForText(config: DeliverConfig, text: string, i: nat)
    requires config.Valid() && i < |config.thresholds|
  {
    Fails(String(text), config.thresholds[i])
  }

  /** No threshold after the first is null or the string itself. */
  ghost predicate LaterThresholdsDiffer(config: DeliverConfig, text: string)
    requires config.Valid()
  {
    forall i :: 1 <= i < |config.thresholds| ==> config.thresholds[i] != Null && config.thresholds[i] != String(text)
  }

  lemma SameJudgement(config: DeliverConfig, text: string, i: nat)
    requires config.Valid() && i < |config.thresholds|
    ensures (FailsAsIs(config, text, i) <==> FailsForText(config, text, i)) <==>
      i == 0 || (config.thresholds[i] != Null && config.thresholds[i] != String(text))
  {
  }

  /** A single string judges every class as if it were there for each of them exactly when no threshold
      after the first is null or the string itself. */
  lemma OneStringStandsExactly(config: DeliverConfig, text: string)
    requires config.Valid()
    ensures (forall i :: 0 <= i < |config.thresholds| ==> (FailsAsIs(config, text, i) <==> FailsForText(config, text, i)))
      <==> LaterThresholdsDiffer(config, text)
  {
    forall i | 0 <= i < |config.thresholds|
      ensures (FailsAsIs(config, text, i) <==> FailsForText(config, text, i)) <==>
        i == 0 || (config.thresholds[i] != Null && config.thresholds[i] != String(text))
    {
      SameJudgement(config, text, i);
    }
  }

  /** The services that drop out when the string is there for every class. */
  ghost predicate DropsForText(config: DeliverConfig, text: string, service: string)
    requires config.Valid()
  {
    exists i :: 0 <= i < |config.deliverServices| && config.deliverServices[i] == service && FailsForText(config, text, i)
  }

  lemma DroppedAsIs(config: DeliverConfig, text: string, service: string)
    requires config.Valid()
    ensures service in Filterout(config, Array([String(text)])) <==>
      exists i :: 0 <= i < |config.deliverServices| && config.deliverServices[i] == service && FailsAsIs(config, text, i)
  {
    FailingIs(config, Array([String(text)]), config.classNum - 1, service);
  }

  /** With different services, the services filtered out are those that the string in every class would
      drop, exactly when no threshold after the first is null or the string itself. */
  lemma OneStringDelivery(config: DeliverConfig, text: string)
    requires config.Valid()
    requires forall i, j :: 0 <= i < j < |config.deliverServices| ==> config.deliverServices[i] != config.deliverServices[j]
    ensures (forall service :: service in Filterout(config, Array([String(text)])) <==> DropsForText(config, text, service))
      <==> LaterThresholdsDiffer(config, text)
  {
    OneStringStandsExactly(config, text);
    forall service ensures service in Filterout(config, Array([String(text)])) <==>
      exists i :: 0 <= i < |config.deliverServices| && config.deliverServices[i] == service && FailsAsIs(config, text, i)
    {
      DroppedAsIs(config, text, service);
    }
    if i :| 0 <= i < |config.thresholds| && (FailsAsIs(config, text, i) <==> !FailsForText(config, text, i)) {
      var service := config.deliverServices[i];
      assert service in Filterout(config, Array([String(text)])) <==> FailsAsIs(config, text, i);
      assert DropsForText(config, text, service) <==> FailsForText(config, text, i);
    }
  }

  /** One string, three classes, the string as both thresholds: the second service is filtered out. */
  lemma OneStringDropsLater()
    ensures Filterout(DeliverConfig(3, ["a", "b"], [String("x"), String("x")]), Array([String("x")])) == ["b"]
  {
    var config, response := DeliverConfig(3, ["a", "b"], [String("x"), String("x")]), Array([String("x")]);
    assert Failing(config, response, 0) == [];
    assert Failing(config, response, 1) == [];
    assert Failing(config, response, 2) == ["b"];
  }

  /** What is recalled keeps the configured order: an earlier part of the list contributes first. */
  lemma {:induction false} KeptKeepsOrder(a: seq<Recall>, b: seq<Recall>, filterout: set<string>)
    ensures Kept(a + b, filterout) == Kept(a, filterout) + Kept(b, filterout)
    decreases |b|
  {
    if b == [] {
      assert a + b == a;
    } else {
      var front := b[..|b| - 1];
      assert (a + b)[..|a + b| - 1] == a + front;
      KeptKeepsOrder(a, front, filterout);
    }
  }
}
