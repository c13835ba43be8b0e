// Cost scenarios and their totals (src/intake/costs/calculator.py). Amounts are exact; a scenario is a value in
// the registry.
module CostLedger {
  import opened Prelude

  datatype Frequency = OneTime | Hourly | Daily | Weekly | Monthly | Yearly | UsageBased | OnDemand

  datatype Confidence = Verified | Confirmed | Estimated | Projected | ConfidenceUnknown

  datatype Risk = Low | Medium | High | Uncertain | RiskUnknown

  datatype LineItem = LineItem(
    id: string, scenarioId: string, provider: string, quantity: real, unitPrice: real, total: real,
    frequency: Frequency, confidence: Confidence, risk: Risk)

  /** The totals are `None` until the first recalculation. */
  datatype Scenario = Scenario(
    items: seq<LineItem>, monthly: Option<real>, oneTime: Option<real>, total: Option<real>,
    confidence: Confidence, risk: Risk)

  datatype Receipt = Receipt(monthly: real, oneTime: real, total: real, providerCosts: real, intakeCosts: real,
    breakdown: map<string, real>)

  datatype Summary = Summary(monthly: real, oneTime: real, total: real, items: seq<LineItem>)

  datatype Error = ScenarioNotFound | LineItemNotFound | NoTotals

  const FRESH := Scenario([], None, None, None, ConfidenceUnknown, RiskUnknown)

  // ---- Sums --------------------------------------------------------------------------------------

  /** The total of the items that `keep` selects. */
  function Sum(items: seq<LineItem>, keep: LineItem -> bool): real {
    if items == [] then 0.0
    else Sum(items[..|items| - 1], keep) + if keep(items[|items| - 1]) then items[|items| - 1].total else 0.0
  }

  function All(): LineItem -> bool { _ => true }

  function IsOneTime(): LineItem -> bool { (li: LineItem) => li.frequency == OneTime }

  function IsRecurring(): LineItem -> bool { (li: LineItem) => li.frequency != OneTime }

  function OfProvider(p: string): LineItem -> bool { (li: LineItem) => li.provider == p }

  function HasId(id: string): LineItem -> bool { (li: LineItem) => li.id == id }

  // ---- Quality -------------------------------------------------------------------------------------

  /** An enum value missing from the order map counts like the last one. */
  function ConfidenceOrder(c: Confidence): nat {
    match c case Verified => 0 case Confirmed => 1 case Estimated => 2 case Projected => 3 case ConfidenceUnknown => 4
  }

  function RiskOrder(r: Risk): nat {
    match r case Low => 0 case Medium => 1 case High => 2 case Uncertain => 3 case RiskUnknown => 3
  }

  /** The worst confidence of the items and a starting value; the first of equals stays. */
  function WorstConfidence(start: Confidence, items: seq<LineItem>): Confidence {
    if items == [] then start
    else
      var worst := WorstConfidence(start, items[..|items| - 1]);
      var c := items[|items| - 1].confidence;
      if ConfidenceOrder(c) > ConfidenceOrder(worst) then c else worst
  }

  function WorstRisk(start: Risk, items: seq<LineItem>): Risk {
    if items == [] then start
    else
      var worst := WorstRisk(start, items[..|items| - 1]);
      var r := items[|items| - 1].risk;
      if RiskOrder(r) > RiskOrder(worst) then r else worst
  }

  function Recalculated(sc: Scenario): Scenario {
    var monthly, oneTime := Sum(sc.items, IsRecurring()), Sum(sc.items, IsOneTime());
    sc.(monthly := Some(monthly), oneTime := Some(oneTime), total := Some(monthly + oneTime),
        confidence := if sc.items == [] then ConfidenceUnknown else WorstConfidence(sc.confidence, sc.items),
        risk := if sc.items == [] then RiskUnknown else WorstRisk(sc.risk, sc.items))
  }

  // ---- Operations -----------------------------------------------------------------------------------

  type Registry = map<string, Scenario>

  function IndexOf(items: seq<LineItem>, id: string): (i: nat)
    ensures i <= |items|
    ensures i < |items| ==> items[i].id == id
    ensures forall k :: 0 <= k < i ==> items[k].id != id
  {
    if items == [] || items[0].id == id then 0 else 1 + IndexOf(items[1..], id)
  }

  function Add(reg: Registry, li: LineItem): Registry
    requires li.scenarioId in reg
  {
    var sc := reg[li.scenarioId];
    reg[li.scenarioId := Recalculated(sc.(items := sc.items + [li]))]
  }

  function Update(reg: Registry, li: LineItem): (Registry, Option<Error>) {
    if li.scenarioId !in reg then (reg, Some(ScenarioNotFound))
    else
      var sc := reg[li.scenarioId];
      var i := IndexOf(sc.items, li.id);
      if i == |sc.items| then (reg, Some(LineItemNotFound))
      else (reg[li.scenarioId := Recalculated(sc.(items := sc.items[i := li]))], None)
  }

  function Without(items: seq<LineItem>, id: string): seq<LineItem> {
    Select(items, (li: LineItem) => li.id != id)
  }

  function Delete(reg: Registry, scenarioId: string, id: string): Registry {
    if scenarioId !in reg then reg
    else
      var sc := reg[scenarioId];
      reg[scenarioId := Recalculated(sc.(items := Without(sc.items, id)))]
  }

  /** What a breakdown by provider has to say of the items. */
  ghost predicate Breaks(breakdown: map<string, real>, items: seq<LineItem>) {
    && (forall p :: p in breakdown <==> exists i :: 0 <= i < |items| && items[i].provider == p)
    && (forall p :: p in breakdown ==> breakdown[p] == Sum(items, OfProvider(p)))
  }

  ghost predicate Summarizes(result: map<string, Summary>, items: seq<LineItem>) {
    && (forall p :: p in result <==> exists i :: 0 <= i < |items| && items[i].provider == p)
    && (forall p :: p in result ==>
          && result[p].total == Sum(items, OfProvider(p))
          && result[p].total == result[p].monthly + result[p].oneTime
          && result[p].oneTime == Sum(items, (li: LineItem) => li.provider == p && li.frequency == OneTime)
          && result[p].items == Select(items, OfProvider(p)))
  }

  class CostCalculator {
    var scenarios: Registry

    constructor ()
      ensures scenarios == map[]
    {
      scenarios := map[];
    }

    method CreateScenario(id: string)
      modifies this
      ensures scenarios == old(scenarios)[id := FRESH]
    {
      scenarios := scenarios[id := FRESH];
    }

    method AddLineItem(
      id: string, scenarioId: string, provider: string, quantity: real, unitPrice: real, frequency: Frequency,
      confidence: Confidence, risk: Risk)
      returns (res: Result<LineItem, Error>)
      modifies this
      ensures scenarioId !in old(scenarios) ==> res == Err(ScenarioNotFound) && scenarios == old(scenarios)
      ensures scenarioId in old(scenarios) ==>
                && res == Ok(LineItem(id, scenarioId, provider, quantity, unitPrice, quantity * unitPrice,
                    frequency, confidence, risk))
                && scenarios == Add(old(scenarios), res.value)
    {
      if scenarioId !in scenarios { return Err(ScenarioNotFound); }
      var scenario := scenarios[scenarioId];
      var li := LineItem(id, scenarioId, provider, quantity, unitPrice, quantity * unitPrice, frequency,
          confidence, risk);
      scenario := scenario.(items := scenario.items + [li]);
      scenario := RecalculateTotals(scenario);
      scenarios := scenarios[scenarioId := scenario];
      return Ok(li);
    }

    method UpdateLineItem(li: LineItem) returns (error: Option<Error>)
      modifies this
      ensures (scenarios, error) == Update(old(scenarios), li)
    {
      hide Recalculated;
      if li.scenarioId !in scenarios { return Some(ScenarioNotFound); }
      var scenario := scenarios[li.scenarioId];
      var i := 0;
      while i < |scenario.items|
        invariant 0 <= i <= |scenario.items|
        invariant forall k :: 0 <= k < i ==> scenario.items[k].id != li.id
        invariant scenarios == old(scenarios)
      {
        if scenario.items[i].id == li.id {
          assert i == IndexOf(scenario.items, li.id);
          scenario := scenario.(items := scenario.items[i := li]);
          scenario := RecalculateTotals(scenario);
          scenarios := scenarios[li.scenarioId := scenario];
          return None;
        }
        i := i + 1;
      }
      return Some(LineItemNotFound);
    }

    method DeleteLineItem(scenarioId: string, id: string) returns (found: bool)
      modifies this
      ensures scenarios == Delete(old(scenarios), scenarioId, id)
      ensures found <==> scenarioId in old(scenarios)
    {
      if scenarioId !in scenarios { return false; }
      var scenario := scenarios[scenarioId];
      scenario := scenario.(items := Select(scenario.items, (li: LineItem) => li.id != id));
      scenario := RecalculateTotals(scenario);
      scenarios := scenarios[scenarioId := scenario];
      return true;
    }

    method GenerateReceipt(scenarioId: string) returns (res: Result<Receipt, Error>)
      ensures scenarioId !in scenarios ==> res == Err(ScenarioNotFound)
      ensures scenarioId in scenarios ==>
                var sc := scenarios[scenarioId];
                if sc.monthly.None? || sc.oneTime.None? || sc.total.None? then res == Err(NoTotals)
                else
                  && res.Ok? && Breaks(res.value.breakdown, sc.items)
                  && res.value.monthly == sc.monthly.value && res.value.oneTime == sc.oneTime.value
                  && res.value.total == sc.total.value
                  && res.value.providerCosts == sc.monthly.value + sc.oneTime.value && res.value.intakeCosts == 0.0
    {
      hide Breaks;
      if scenarioId !in scenarios { return Err(ScenarioNotFound); }
      var scenario := scenarios[scenarioId];
      var breakdown := ProviderBreakdown(scenario.items);
      if scenario.monthly.None? || scenario.oneTime.None? || scenario.total.None? { return Err(NoTotals); }
      return Ok(Receipt(scenario.monthly.value, scenario.oneTime.value, scenario.total.value,
                        scenario.monthly.value + scenario.oneTime.value, 0.0, breakdown));
    }

    method GetCostSummaryByProvider(scenarioId: string) returns (res: Result<map<string, Summary>, Error>)
      ensures scenarioId !in scenarios ==> res == Err(ScenarioNotFound)
      ensures scenarioId in scenarios ==> res.Ok? && Summarizes(res.value, scenarios[scenarioId].items)
    {
      hide Summarizes;
      if scenarioId !in scenarios { return Err(ScenarioNotFound); }
      var items := scenarios[scenarioId].items;
      var result: map<string, Summary> := map[];
      NothingSummarized();
      var i := 0;
      assert items[..0] == [];
      while i < |items|
        invariant 0 <= i <= |items|
        invariant Summarizes(result, items[..i])
      {
        var li := items[i];
        var row := if li.provider in result then result[li.provider] else Summary(0.0, 0.0, 0.0, []);
        row := row.(total := row.total + li.total);
        if li.frequency == OneTime {
          row := row.(oneTime := row.oneTime + li.total);
        } else {
          row := row.(monthly := row.monthly + li.total);
        }
        row := row.(items := row.items + [li]);
        SummaryStep(result, items[..i], li, row);
        assert items[..i + 1] == items[..i] + [li];
        result := result[li.provider := row];
        i := i + 1;
      }
      assert items[..i] == items;
      return Ok(result);
    }
  }

  /** `_recalculate_scenario_totals` with `_recalculate_scenario_quality`. */
  method RecalculateTotals(scenario: Scenario) returns (out: Scenario)
    ensures out == Recalculated(scenario)
  {
    var items := scenario.items;
    var monthly, oneTime := 0.0, 0.0;
    var i := 0;
    while i < |items|
      invariant 0 <= i <= |items|
      invariant monthly == Sum(items[..i], IsRecurring()) && oneTime == Sum(items[..i], IsOneTime())
    {
      assert items[..i + 1][..i] == items[..i];
      if items[i].frequency == OneTime {
        oneTime := oneTime + items[i].total;
      } else {
        monthly := monthly + items[i].total;
      }
      i := i + 1;
    }
    assert items[..i] == items;
    var confidence, risk := RecalculateQuality(scenario);
    out := scenario.(monthly := Some(monthly), oneTime := Some(oneTime), total := Some(monthly + oneTime),
                     confidence := confidence, risk := risk);
  }

  method RecalculateQuality(scenario: Scenario) returns (confidence: Confidence, risk: Risk)
    ensures confidence == Recalculated(scenario).confidence && risk == Recalculated(scenario).risk
  {
    var items := scenario.items;
    if items == [] { return ConfidenceUnknown, RiskUnknown; }
    confidence, risk := scenario.confidence, scenario.risk;
    var i := 0;
    while i < |items|
      invariant 0 <= i <= |items|
      invariant confidence == WorstConfidence(scenario.confidence, items[..i])
              && risk == WorstRisk(scenario.risk, items[..i])
    {
      assert items[..i + 1][..i] == items[..i];
      if ConfidenceOrder(items[i].confidence) > ConfidenceOrder(confidence) { confidence := items[i].confidence; }
      if RiskOrder(items[i].risk) > RiskOrder(risk) { risk := items[i].risk; }
      i := i + 1;
    }
    assert items[..i] == items;
  }

  method ProviderBreakdown(items: seq<LineItem>) returns (breakdown: map<string, real>)
    ensures Breaks(breakdown, items)
  {
    hide Breaks;
    breakdown := map[];
    NothingBroken();
    var i := 0;
    assert items[..0] == [];
    while i < |items|
      invariant 0 <= i <= |items|
      invariant Breaks(breakdown, items[..i])
    {
      var key := items[i].provider;
      var sofar := if key in breakdown then breakdown[key] else 0.0;
      BreakStep(breakdown, items[..i], items[i]);
      assert items[..i + 1] == items[..i] + [items[i]];
      breakdown := breakdown[key := sofar + items[i].total];
      i := i + 1;
    }
    assert items[..i] == items;
  }

  lemma NothingBroken()
    ensures Breaks(map[], [])
  {
  }

  lemma NothingSummarized()
    ensures Summarizes(map[], [])
  {
  }

  lemma SumStep(items: seq<LineItem>, li: LineItem, keep: LineItem -> bool)
    ensures Sum(items + [li], keep) == Sum(items, keep) + if keep(li) then li.total else 0.0
  {
    assert (items + [li])[..|items|] == items;
  }

  lemma {:induction false} SumOfNone(items: seq<LineItem>, keep: LineItem -> bool)
    requires forall i :: 0 <= i < |items| ==> !keep(items[i])
    ensures Sum(items, keep) == 0.0
  {
    if items != [] { SumOfNone(items[..|items| - 1], keep); }
  }

  lemma {:induction false} SelectOfNone(items: seq<LineItem>, keep: LineItem -> bool)
    requires forall i :: 0 <= i < |items| ==> !keep(items[i])
    ensures Select(items, keep) == []
  {
    if items != [] { SelectOfNone(items[1..], keep); }
  }

  predicate Occurs(items: seq<LineItem>, p: string) {
    exists i :: 0 <= i < |items| && items[i].provider == p
  }

  lemma OccursStep(items: seq<LineItem>, li: LineItem, p: string)
    ensures Occurs(items + [li], p) <==> Occurs(items, p) || li.provider == p
  {
    var all := items + [li];
    assert all[|items|] == li;
    if Occurs(items, p) {
      var i :| 0 <= i < |items| && items[i].provider == p;
      assert all[i].provider == p;
    }
  }

  lemma BreakStep(breakdown: map<string, real>, items: seq<LineItem>, li: LineItem)
    requires Breaks(breakdown, items)
    ensures var sofar := if li.provider in breakdown then breakdown[li.provider] else 0.0;
            Breaks(breakdown[li.provider := sofar + li.total], items + [li])
  {
    hide Sum;
    var next := breakdown[li.provider := (if li.provider in breakdown then breakdown[li.provider] else 0.0) + li.total];
    forall p ensures p in next <==> Occurs(items + [li], p) {
      OccursStep(items, li, p);
      assert p in breakdown <==> Occurs(items, p);
    }
    forall p | p in next ensures next[p] == Sum(items + [li], OfProvider(p)) {
      SumStep(items, li, OfProvider(p));
      if p !in breakdown {
        assert !Occurs(items, p);
        SumOfNone(items, OfProvider(p));
      }
    }
  }

  lemma SummaryStep(result: map<string, Summary>, items: seq<LineItem>, li: LineItem, row: Summary)
    requires Summarizes(result, items)
    requires var before := if li.provider in result then result[li.provider] else Summary(0.0, 0.0, 0.0, []);
             row == Summary(before.monthly + (if li.frequency == OneTime then 0.0 else li.total),
                            before.oneTime + (if li.frequency == OneTime then li.total else 0.0),
                            before.total + li.total, before.items + [li])
    ensures Summarizes(result[li.provider := row], items + [li])
  {
    hide Sum, Select;
    var next := result[li.provider := row];
    forall p ensures p in next <==> Occurs(items + [li], p) {
      OccursStep(items, li, p);
      assert p in result <==> Occurs(items, p);
    }
    forall p | p in next
      ensures && next[p].total == Sum(items + [li], OfProvider(p))
              && next[p].total == next[p].monthly + next[p].oneTime
              && next[p].oneTime == Sum(items + [li], (x: LineItem) => x.provider == p && x.frequency == OneTime)
              && next[p].items == Select(items + [li], OfProvider(p))
    {
      var once := (x: LineItem) => x.provider == p && x.frequency == OneTime;
      SumStep(items, li, OfProvider(p));
      SumStep(items, li, once);
      SelectConcat(items, [li], OfProvider(p));
      SelectOne(li, OfProvider(p));
      if p !in result {
        assert !Occurs(items, p);
        SumOfNone(items, OfProvider(p));
        SumOfNone(items, once);
        SelectOfNone(items, OfProvider(p));
      }
    }
  }

  lemma SelectOne(li: LineItem, keep: LineItem -> bool)
    ensures Select([li], keep) == if keep(li) then [li] else []
  {
    assert [li][1..] == [];
  }

  lemma {:induction false} SumSame(items: seq<LineItem>, keep: LineItem -> bool, keep': LineItem -> bool)
    requires forall li :: keep(li) == keep'(li)
    ensures Sum(items, keep) == Sum(items, keep')
  {
    if items != [] { SumSame(items[..|items| - 1], keep, keep'); }
  }

  /** Every frequency but a single payment counts as monthly, at its full amount. */
  lemma FrequenciesCounted(sc: Scenario)
    ensures var out := Recalculated(sc);
            && out.oneTime == Some(Sum(sc.items, (li: LineItem) => li.frequency == OneTime))
            && out.monthly == Some(Sum(sc.items, (li: LineItem) =>
                 li.frequency in {Hourly, Daily, Weekly, Monthly, Yearly, UsageBased, OnDemand}))
            && out.items == sc.items
  {
    SumSame(sc.items, IsOneTime(), (li: LineItem) => li.frequency == OneTime);
    SumSame(sc.items, IsRecurring(), (li: LineItem) =>
      li.frequency in {Hourly, Daily, Weekly, Monthly, Yearly, UsageBased, OnDemand});
  }

  // ---- Conservation ---------------------------------------------------------------------------------

  lemma {:induction false} SumSplits(items: seq<LineItem>)
    ensures Sum(items, IsRecurring()) + Sum(items, IsOneTime()) == Sum(items, All())
  {
    if items != [] { SumSplits(items[..|items| - 1]); }
  }

  lemma {:induction false} SumConcat(a: seq<LineItem>, b: seq<LineItem>, keep: LineItem -> bool)
    ensures Sum(a + b, keep) == Sum(a, keep) + Sum(b, keep)
  {
    if b == [] {
      assert a + b == a;
    } else {
      var last := b[|b| - 1];
      SumConcat(a, b[..|b| - 1], keep);
      assert a + b == a + b[..|b| - 1] + [last];
      SumStep(a + b[..|b| - 1], last, keep);
    }
  }

  /** The sum of a list with one item replaced. */
  lemma SumReplace(items: seq<LineItem>, i: nat, li: LineItem)
    requires i < |items|
    ensures Sum(items[i := li], All()) == Sum(items, All()) - items[i].total + li.total
  {
    hide Sum;
    assert items[i := li] == items[..i] + [li] + items[i + 1..];
    assert items == items[..i] + [items[i]] + items[i + 1..];
    SumConcat(items[..i] + [li], items[i + 1..], All());
    SumConcat(items[..i] + [items[i]], items[i + 1..], All());
    SumStep(items[..i], li, All());
    SumStep(items[..i], items[i], All());
  }

  lemma {:induction false} SumWithout(items: seq<LineItem>, id: string)
    ensures Sum(Without(items, id), All()) == Sum(items, All()) - Sum(items, HasId(id))
  {
    if items != [] {
      var first, rest := items[0], items[1..];
      SumWithout(rest, id);
      assert items == [first] + rest;
      SumConcat([first], rest, All());
      SumConcat([first], rest, HasId(id));
      SumConcat(if first.id != id then [first] else [], Without(rest, id), All());
      SumSingle(first, All());
      SumSingle(first, HasId(id));
    }
  }

  lemma SumSingle(li: LineItem, keep: LineItem -> bool)
    ensures Sum([li], keep) == if keep(li) then li.total else 0.0
  {
    SumStep([], li, keep);
    assert [] + [li] == [li];
  }

  /** Either nothing was computed yet, or the totals agree with the items and with each other. */
  predicate Balanced(sc: Scenario) {
    || (sc.monthly.None? && sc.oneTime.None? && sc.total.None? && sc.items == [])
    || (&& sc.monthly == Some(Sum(sc.items, IsRecurring())) && sc.oneTime == Some(Sum(sc.items, IsOneTime()))
        && sc.total == Some(sc.monthly.value + sc.oneTime.value) && sc.total.value == Sum(sc.items, All()))
  }

  /** The sum of a scenario's items: what its total is, once there is one. */
  function Ledger(reg: Registry, id: string): real {
    if id in reg then Sum(reg[id].items, All()) else 0.0
  }

  lemma RecalculatedBalanced(sc: Scenario)
    ensures Balanced(Recalculated(sc)) && Recalculated(sc).total == Some(Sum(sc.items, All()))
  {
    SumSplits(sc.items);
  }

  /** An added item moves its scenario's total by exactly its own, and no other scenario's. */
  lemma AddConserves(reg: Registry, li: LineItem, id: string)
    requires li.scenarioId in reg
    ensures Ledger(Add(reg, li), id) == Ledger(reg, id) + if id == li.scenarioId then li.total else 0.0
    ensures Add(reg, li)[li.scenarioId].total == Some(Ledger(reg, li.scenarioId) + li.total)
  {
    hide Sum;
    var sc := reg[li.scenarioId];
    SumStep(sc.items, li, All());
    RecalculatedBalanced(sc.(items := sc.items + [li]));
  }

  /** An updated item moves the total by the difference to the item it replaces, which is the first with its id. */
  lemma UpdateConserves(reg: Registry, li: LineItem, id: string)
    ensures var (after, error) := Update(reg, li);
            if error.Some? then after == reg
            else
              var items := reg[li.scenarioId].items;
              Ledger(after, id) ==
              Ledger(reg, id) + if id == li.scenarioId then li.total - items[IndexOf(items, li.id)].total else 0.0
    ensures Update(reg, li).1 == None <==>
            li.scenarioId in reg &&
            var items := reg[li.scenarioId].items; exists i :: 0 <= i < |items| && items[i].id == li.id
  {
    hide Sum;
    if li.scenarioId in reg {
      var items := reg[li.scenarioId].items;
      var i := IndexOf(items, li.id);
      if i < |items| { SumReplace(items, i, li); }
    }
  }

  /** A deletion takes away the totals of all items with the id, and nothing else. */
  lemma DeleteConserves(reg: Registry, scenarioId: string, itemId: string, id: string)
    ensures Ledger(Delete(reg, scenarioId, itemId), id) ==
            Ledger(reg, id) - if id == scenarioId && id in reg then Sum(reg[id].items, HasId(itemId)) else 0.0
  {
    hide Sum, Without;
    if scenarioId in reg { SumWithout(reg[scenarioId].items, itemId); }
  }

  // ---- Runs -------------------------------------------------------------------------------------------

  datatype Op =
    | Create(id: string)
    | AddItem(li: LineItem)
    | UpdateItem(li: LineItem)
    | DeleteItem(scenarioId: string, id: string)

  function Step(reg: Registry, op: Op): Registry {
    match op
    case Create(id) => reg[id := FRESH]
    case AddItem(li) => if li.scenarioId in reg then Add(reg, li) else reg
    case UpdateItem(li) => Update(reg, li).0
    case DeleteItem(scenarioId, id) => Delete(reg, scenarioId, id)
  }

  function Run(ops: seq<Op>): Registry {
    if ops == [] then map[] else Step(Run(ops[..|ops| - 1]), ops[|ops| - 1])
  }

  lemma {:induction false} UnknownIsWorst(start: Confidence, startRisk: Risk, items: seq<LineItem>)
    ensures start == ConfidenceUnknown ==> WorstConfidence(start, items) == ConfidenceUnknown
    ensures startRisk == RiskUnknown ==> WorstRisk(startRisk, items) == RiskUnknown
  {
    if items != [] { UnknownIsWorst(start, startRisk, items[..|items| - 1]); }
  }

  /** After every run each scenario's totals balance, and its overall quality has never left UNKNOWN: the fold starts
      from the stored value, which no item outranks. */
  lemma {:induction false} RunBalanced(ops: seq<Op>, id: string)
    requires id in Run(ops)
    ensures Balanced(Run(ops)[id])
    ensures Run(ops)[id].confidence == ConfidenceUnknown && Run(ops)[id].risk == RiskUnknown
  {
    hide Balanced, Sum;
    var before := Run(ops[..|ops| - 1]);
    if id in before { RunBalanced(ops[..|ops| - 1], id); }
    FreshBalanced();
    match ops[|ops| - 1]
    case Create(_) =>
    case AddItem(li) =>
      if li.scenarioId == id {
        var sc := before[id].(items := before[id].items + [li]);
        RecalculatedBalanced(sc);
        UnknownIsWorst(sc.confidence, sc.risk, sc.items);
      }
    case UpdateItem(li) =>
      if li.scenarioId == id {
        var i := IndexOf(before[id].items, li.id);
        if i < |before[id].items| {
          var sc := before[id].(items := before[id].items[i := li]);
          RecalculatedBalanced(sc);
          UnknownIsWorst(sc.confidence, sc.risk, sc.items);
        }
      }
    case DeleteItem(scenarioId, itemId) =>
      if scenarioId == id && id in before {
        var sc := before[id].(items := Without(before[id].items, itemId));
        RecalculatedBalanced(sc);
        UnknownIsWorst(sc.confidence, sc.risk, sc.items);
      }
  }

  lemma FreshBalanced()
    ensures Balanced(FRESH)
  {
  }

  // ---- Breakdowns ---------------------------------------------------------------------------------------

  /** The sum of a breakdown. */
  ghost function MapTotal(m: map<string, real>): real {
    if m == map[] then 0.0
    else
      var p :| p in m;
      m[p] + MapTotal(m - {p})
  }

  lemma {:induction false} MapTotalSplit(m: map<string, real>, p: string)
    requires p in m
    ensures MapTotal(m) == m[p] + MapTotal(m - {p})
    decreases |m|
  {
    var q :| q in m && MapTotal(m) == m[q] + MapTotal(m - {q});
    if p != q {
      MapTotalSplit(m - {q}, p);
      MapTotalSplit(m - {p}, q);
      assert m - {q} - {p} == m - {p} - {q};
    }
  }

  lemma MapTotalUpdate(m: map<string, real>, p: string, v: real)
    ensures MapTotal(m[p := v]) == MapTotal(m) - (if p in m then m[p] else 0.0) + v
  {
    MapTotalSplit(m[p := v], p);
    if p in m {
      MapTotalSplit(m, p);
      assert m[p := v] - {p} == m - {p};
    } else {
      assert m[p := v] - {p} == m;
    }
  }

  lemma {:induction false} BreakdownTotal(breakdown: map<string, real>, items: seq<LineItem>)
    requires Breaks(breakdown, items)
    ensures MapTotal(breakdown) == Sum(items, All())
    decreases |items|
  {
    hide Breaks, Sum, MapTotal;
    if items == [] {
      NoProviders(breakdown);
    } else {
      var init, li := items[..|items| - 1], items[|items| - 1];
      assert items == init + [li];
      var before := ProviderSums(init);
      BreakdownTotal(before, init);
      BreakStep(before, init, li);
      var sofar := if li.provider in before then before[li.provider] else 0.0;
      BreaksUnique(breakdown, before[li.provider := sofar + li.total], items);
      MapTotalUpdate(before, li.provider, sofar + li.total);
      SumStep(init, li, All());
    }
  }

  lemma {:induction false} ProviderSums(items: seq<LineItem>) returns (m: map<string, real>)
    ensures Breaks(m, items)
  {
    hide Breaks;
    if items == [] {
      m := map[];
      NothingBroken();
    } else {
      var init, li := items[..|items| - 1], items[|items| - 1];
      var before := ProviderSums(init);
      BreakStep(before, init, li);
      assert items == init + [li];
      m := before[li.provider := (if li.provider in before then before[li.provider] else 0.0) + li.total];
    }
  }

  lemma BreaksUnique(a: map<string, real>, b: map<string, real>, items: seq<LineItem>)
    requires Breaks(a, items) && Breaks(b, items)
    ensures a == b
  {
  }

  lemma NoProviders(m: map<string, real>)
    requires Breaks(m, [])
    ensures MapTotal(m) == 0.0 && Sum([], All()) == 0.0
  {
    assert m == map[];
  }

  /** In every reachable scenario that has totals, a receipt's breakdown adds up to its total, and it is the summary by
      provider, provider by provider. */
  lemma BreakdownsAgree(ops: seq<Op>, id: string, breakdown: map<string, real>, summary: map<string, Summary>)
    requires id in Run(ops) && Breaks(breakdown, Run(ops)[id].items) && Summarizes(summary, Run(ops)[id].items)
    requires Run(ops)[id].total.Some?
    ensures MapTotal(breakdown) == Run(ops)[id].total.value
    ensures breakdown.Keys == summary.Keys && forall p :: p in breakdown ==> breakdown[p] == summary[p].total
    ensures forall p :: p in breakdown ==> breakdown[p] == summary[p].monthly + summary[p].oneTime
  {
    hide Run, Sum, MapTotal, Select;
    RunBalanced(ops, id);
    BreakdownTotal(breakdown, Run(ops)[id].items);
    var items := Run(ops)[id].items;
    forall p ensures p in breakdown <==> p in summary {
      assert p in breakdown <==> exists i :: 0 <= i < |items| && items[i].provider == p;
    }
  }

  /** What the operations leave of a scenario's items: an addition goes to the end, an update replaces the first
      item with its id in place, a deletion drops every item with the id and keeps the order of the rest. */
  lemma ItemsExactly(reg: Registry, li: LineItem, scenarioId: string, id: string)
    ensures li.scenarioId in reg ==> Add(reg, li)[li.scenarioId].items == reg[li.scenarioId].items + [li]
    ensures Update(reg, li).1 == None ==>
              && li.scenarioId in reg
              && var before, after := reg[li.scenarioId].items, Update(reg, li).0[li.scenarioId].items;
              && |after| == |before|
              && exists i :: 0 <= i < |before| && before[i].id == li.id && after == before[i := li]
                             && forall k :: 0 <= k < i ==> before[k].id != li.id
    ensures scenarioId in reg ==>
              Delete(reg, scenarioId, id)[scenarioId].items ==
              Select(reg[scenarioId].items, (x: LineItem) => x.id != id)
  {
    hide Sum, WorstConfidence, WorstRisk;
    if li.scenarioId in reg {
      var items := reg[li.scenarioId].items;
      var i := IndexOf(items, li.id);
      if i < |items| {
        assert items[i].id == li.id && items[i := li] == Update(reg, li).0[li.scenarioId].items;
      }
    }
  }
}
