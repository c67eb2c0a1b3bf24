/** The scenario matrix runner: its cost estimates and guards, and its nested loop with early exits. */
module Matrix {
  import opened Text

  // ---------------------------------------------------------------------------
  // Cost estimates
  // ---------------------------------------------------------------------------

  datatype Resources = Resources(driverVcpu: nat, driverMemoryGb: nat, executorVcpu: nat, executorMemoryGb: nat,
                                 executorInstances: nat)

  datatype Scenario = Scenario(repeat: nat, submitRun: bool, resources: Resources, timeoutSeconds: Option<nat>,
                               expectsBlock: bool)

  datatype Architecture = X86 | Arm64 | Mixed

  datatype Pricing = Pricing(vcpuPerSecond: real, memoryGbPerSecond: real, arm64DiscountPct: real, mixedDiscountPct: real)

  datatype Config = Config(scenarios: seq<Scenario>, defaultTimeout: nat, architecture: Architecture)

  /** Rates that the settings validation lets through. */
  predicate ValidPricing(p: Pricing) {
    p.vcpuPerSecond > 0.0 && p.memoryGbPerSecond > 0.0
  }

  function Multiplier(architecture: Architecture, p: Pricing): real {
    var pct := match architecture case Arm64 => p.arm64DiscountPct case Mixed => p.mixedDiscountPct case X86 => 0.0;
    var kept := 1.0 - pct / 100.0;
    if architecture == X86 || kept > 0.0 then kept else 0.0
  }

  /** Python's `int(...)` of a number: toward zero. */
  function Truncated(x: real): int {
    if x >= 0.0 then x.Floor else -((-x).Floor)
  }

  function RunCost(r: Resources, timeout: nat, architecture: Architecture, p: Pricing): int {
    var vcpuSeconds := timeout * (r.driverVcpu + r.executorVcpu * r.executorInstances);
    var memoryGbSeconds := timeout * (r.driverMemoryGb + r.executorMemoryGb * r.executorInstances);
    var usd := vcpuSeconds as real * p.vcpuPerSecond + memoryGbSeconds as real * p.memoryGbPerSecond;
    Truncated(usd * 1_000_000.0 * Multiplier(architecture, p))
  }

  /** The estimate of one iteration of a scenario: nothing is submitted, nothing is paid. */
  function IterationCost(s: Scenario, config: Config, p: Pricing): int {
    var timeout := if s.timeoutSeconds.Some? && s.timeoutSeconds.value != 0 then s.timeoutSeconds.value
                   else config.defaultTimeout;
    if s.submitRun then RunCost(s.resources, timeout, config.architecture, p) else 0
  }

  function ScenarioCost(s: Scenario, config: Config, p: Pricing): int {
    IterationCost(s, config, p) * s.repeat
  }

  function ScenarioCosts(scenarios: seq<Scenario>, config: Config, p: Pricing): int {
    if scenarios == [] then 0
    else
      var last := |scenarios| - 1;
      ScenarioCosts(scenarios[..last], config, p) + ScenarioCost(scenarios[last], config, p)
  }

  function MatrixCost(config: Config, p: Pricing): int {
    ScenarioCosts(config.scenarios, config, p)
  }

  lemma Product(x: real, y: real)
    requires x >= 0.0 && y >= 0.0
    ensures x * y >= 0.0
  {
  }

  lemma UsdIsNotNegative(vcpuSeconds: nat, memoryGbSeconds: nat, p: Pricing)
    requires ValidPricing(p)
    ensures vcpuSeconds as real * p.vcpuPerSecond + memoryGbSeconds as real * p.memoryGbPerSecond >= 0.0
  {
    Product(vcpuSeconds as real, p.vcpuPerSecond);
    Product(memoryGbSeconds as real, p.memoryGbPerSecond);
  }

  lemma MicrosAreNotNegative(usd: real, multiplier: real)
    requires usd >= 0.0 && multiplier >= 0.0
    ensures Truncated(usd * 1_000_000.0 * multiplier) >= 0
  {
    Product(usd * 1_000_000.0, multiplier);
  }

  lemma MultiplierIsNotNegative(architecture: Architecture, p: Pricing)
    ensures Multiplier(architecture, p) >= 0.0
  {
  }

  lemma RunCostIsNotNegative(r: Resources, timeout: nat, architecture: Architecture, p: Pricing)
    requires ValidPricing(p)
    ensures RunCost(r, timeout, architecture, p) >= 0
  {
    var vcpuSeconds: nat := timeout * (r.driverVcpu + r.executorVcpu * r.executorInstances);
    var memoryGbSeconds: nat := timeout * (r.driverMemoryGb + r.executorMemoryGb * r.executorInstances);
    UsdIsNotNegative(vcpuSeconds, memoryGbSeconds, p);
    MultiplierIsNotNegative(architecture, p);
    MicrosAreNotNegative(vcpuSeconds as real * p.vcpuPerSecond + memoryGbSeconds as real * p.memoryGbPerSecond,
                         Multiplier(architecture, p));
  }

  /** What a discount in percent leaves of a price, never less than nothing. */
  predicate Leaves(pct: real, kept: real) {
    if pct <= 100.0 then kept * 100.0 == 100.0 - pct else kept == 0.0
  }

  /** The estimate is the price of the driver and of all executors for the whole timeout, less the discount
      of the architecture, in whole millionths of a dollar. */
  lemma RunCostIsRounded(r: Resources, timeout: nat, architecture: Architecture, p: Pricing, kept: real)
    requires ValidPricing(p)
    requires architecture.X86? ==> kept == 1.0
    requires architecture.Arm64? ==> Leaves(p.arm64DiscountPct, kept)
    requires architecture.Mixed? ==> Leaves(p.mixedDiscountPct, kept)
    ensures var vcpu, memory := r.driverVcpu + r.executorVcpu * r.executorInstances,
                                r.driverMemoryGb + r.executorMemoryGb * r.executorInstances;
      var usd := (timeout * vcpu) as real * p.vcpuPerSecond + (timeout * memory) as real * p.memoryGbPerSecond;
      var cost := RunCost(r, timeout, architecture, p);
      cost as real <= usd * 1_000_000.0 * kept < (cost + 1) as real
  {
    assert Multiplier(architecture, p) == kept;
    var vcpuSeconds: nat := timeout * (r.driverVcpu + r.executorVcpu * r.executorInstances);
    var memoryGbSeconds: nat := timeout * (r.driverMemoryGb + r.executorMemoryGb * r.executorInstances);
    UsdIsNotNegative(vcpuSeconds, memoryGbSeconds, p);
    MultiplierIsNotNegative(architecture, p);
    RoundedDown(vcpuSeconds as real * p.vcpuPerSecond + memoryGbSeconds as real * p.memoryGbPerSecond, kept);
  }

  lemma RoundedDown(usd: real, kept: real)
    requires usd >= 0.0 && kept >= 0.0
    ensures var micros := Truncated(usd * 1_000_000.0 * kept);
      micros as real <= usd * 1_000_000.0 * kept < (micros + 1) as real
  {
    Product(usd * 1_000_000.0, kept);
  }

  /** A scenario's own timeout counts unless it has none or zero; one that submits nothing costs nothing. */
  lemma IterationCostIs(s: Scenario, config: Config, p: Pricing, timeout: nat)
    ensures !s.submitRun ==> IterationCost(s, config, p) == 0
    ensures s.submitRun && timeout > 0 && s.timeoutSeconds == Some(timeout) ==>
      IterationCost(s, config, p) == RunCost(s.resources, timeout, config.architecture, p)
    ensures s.submitRun && s.timeoutSeconds in {None, Some(0)} ==>
      IterationCost(s, config, p) == RunCost(s.resources, config.defaultTimeout, config.architecture, p)
  {
  }

  lemma CostIsNotNegative(s: Scenario, config: Config, p: Pricing)
    requires ValidPricing(p)
    ensures IterationCost(s, config, p) >= 0
  {
    var timeout := if s.timeoutSeconds.Some? && s.timeoutSeconds.value != 0 then s.timeoutSeconds.value
                   else config.defaultTimeout;
    RunCostIsNotNegative(s.resources, timeout, config.architecture, p);
  }

  // ---------------------------------------------------------------------------
  // Guards
  // ---------------------------------------------------------------------------

  datatype Options = Options(maxEstimatedCostUsd: Option<real>, maxScenarioCostUsd: Option<real>,
                             allowOverBudget: bool, failFast: bool)

  /** A guard lets an estimate pass: no cap, within the cap, or overridden. */
  predicate Allowed(micros: int, cap: Option<real>, allowOverBudget: bool) {
    cap.None? || micros as real / 1_000_000.0 <= cap.value || allowOverBudget
  }

  /** The estimate, in millionths of a dollar, is over the cap, and nobody overrides it. */
  predicate OverBudget(micros: int, cap: Option<real>, allowOverBudget: bool) {
    cap.Some? && !allowOverBudget && micros as real > cap.value * 1_000_000.0
  }

  lemma StoppedOnlyOverBudget(micros: int, cap: Option<real>, allowOverBudget: bool)
    ensures Allowed(micros, cap, allowOverBudget) <==> !OverBudget(micros, cap, allowOverBudget)
  {
  }

  /** Pricing is looked up anew by every guard: first for the matrix, then for each scenario. */
  type PriceList = nat -> Pricing

  predicate MatrixAllowed(config: Config, options: Options, prices: PriceList) {
    Allowed(MatrixCost(config, prices(0)), options.maxEstimatedCostUsd, options.allowOverBudget)
  }

  predicate ScenarioAllowed(config: Config, options: Options, prices: PriceList, i: nat) {
    i < |config.scenarios| ==>
      Allowed(ScenarioCost(config.scenarios[i], config, prices(i + 1)), options.maxScenarioCostUsd, options.allowOverBudget)
  }

  // ---------------------------------------------------------------------------
  // The plan, and what running a part of it gives
  // ---------------------------------------------------------------------------

  datatype Item = Item(scenario: nat, iteration: nat)

  datatype Result = Result(item: Item, passed: bool, expectedBlock: bool)

  /** The service under test: whether an iteration passes. */
  type Service = Item -> bool

  function Iterations(scenario: nat, count: nat): seq<Item> {
    if count == 0 then [] else Iterations(scenario, count - 1) + [Item(scenario, count)]
  }

  /** Every iteration of every scenario, in order. */
  function Plan(scenarios: seq<Scenario>): seq<Item> {
    if scenarios == [] then []
    else
      var last := |scenarios| - 1;
      Plan(scenarios[..last]) + Iterations(last, scenarios[last].repeat)
  }

  function Repeats(scenarios: seq<Scenario>): nat {
    if scenarios == [] then 0 else Repeats(scenarios[..|scenarios| - 1]) + scenarios[|scenarios| - 1].repeat
  }

  function ResultOf(scenarios: seq<Scenario>, service: Service, item: Item): Result {
    Result(item, service(item), item.scenario < |scenarios| && scenarios[item.scenario].expectsBlock)
  }

  function Ran(scenarios: seq<Scenario>, service: Service, items: seq<Item>): seq<Result> {
    if items == [] then []
    else
      var last := |items| - 1;
      Ran(scenarios, service, items[..last]) + [ResultOf(scenarios, service, items[last])]
  }

  function Failures(results: seq<Result>): nat {
    if results == [] then 0
    else
      var last := |results| - 1;
      Failures(results[..last]) + if results[last].passed then 0 else 1
  }

  function Passes(results: seq<Result>): nat {
    if results == [] then 0
    else
      var last := |results| - 1;
      Passes(results[..last]) + if results[last].passed then 1 else 0
  }

  function ExpectedBlocks(results: seq<Result>): nat {
    if results == [] then 0
    else
      var last := |results| - 1;
      ExpectedBlocks(results[..last]) + if results[last].expectedBlock && results[last].passed then 1 else 0
  }

  /** Nothing counts nothing, and what one more result adds. */
  lemma Counts(results: seq<Result>, next: Result)
    ensures Failures([]) == 0 && ExpectedBlocks([]) == 0
    ensures Failures(results + [next]) == Failures(results) + if next.passed then 0 else 1
    ensures ExpectedBlocks(results + [next]) == ExpectedBlocks(results) + if next.expectedBlock && next.passed then 1 else 0
  {
    assert (results + [next])[..|results|] == results;
  }

  lemma {:induction false} IterationsAre(scenario: nat, count: nat, k: nat)
    requires k < count
    ensures |Iterations(scenario, count)| == count && Iterations(scenario, count)[k] == Item(scenario, k + 1)
  {
    IterationsLength(scenario, count - 1);
    if k < count - 1 {
      IterationsAre(scenario, count - 1, k);
    }
  }

  predicate Planned(scenarios: seq<Scenario>, item: Item) {
    item.scenario < |scenarios| && 1 <= item.iteration <= scenarios[item.scenario].repeat
  }

  /** The plan holds iterations 1 to the repeat of each scenario and nothing else. */
  lemma {:induction false} PlanHolds(scenarios: seq<Scenario>, item: Item)
    ensures item in Plan(scenarios) <==> Planned(scenarios, item)
  {
    if scenarios != [] {
      var last := |scenarios| - 1;
      PlanHolds(scenarios[..last], item);
      var count := scenarios[last].repeat;
      IterationsHold(last, count, item);
    }
  }

  lemma {:induction false} IterationsHold(scenario: nat, count: nat, item: Item)
    ensures item in Iterations(scenario, count) <==> item.scenario == scenario && 1 <= item.iteration <= count
  {
    if count > 0 {
      IterationsHold(scenario, count - 1, item);
    }
  }

  predicate Before(a: Item, b: Item) {
    a.scenario < b.scenario || (a.scenario == b.scenario && a.iteration < b.iteration)
  }

  /** In scenario order, and within a scenario in order of iteration; so no item comes twice. */
  lemma {:induction false} PlanIsInOrder(scenarios: seq<Scenario>, i: nat, j: nat)
    requires i < j < |Plan(scenarios)|
    ensures Before(Plan(scenarios)[i], Plan(scenarios)[j])
  {
    var last := |scenarios| - 1;
    var front := Plan(scenarios[..last]);
    var count := scenarios[last].repeat;
    IterationsLength(last, count);
    if j < |front| {
      PlanIsInOrder(scenarios[..last], i, j);
    } else {
      IterationsAre(last, count, j - |front|);
      if i < |front| {
        PlanHolds(scenarios[..last], front[i]);
      } else {
        IterationsAre(last, count, i - |front|);
      }
    }
  }

  /** Each planned item was tried once, and its result is the service's answer. */
  lemma {:induction false} RanAt(scenarios: seq<Scenario>, service: Service, items: seq<Item>, k: nat)
    requires k < |items|
    ensures |Ran(scenarios, service, items)| == |items|
    ensures var result := Ran(scenarios, service, items)[k];
      && result.item == items[k] && (result.passed <==> service(items[k]))
      && (items[k].scenario < |scenarios| ==> result.expectedBlock == scenarios[items[k].scenario].expectsBlock)
  {
    var last := |items| - 1;
    RanLength(scenarios, service, items[..last]);
    if k < last {
      RanAt(scenarios, service, items[..last], k);
    }
  }

  lemma RanOneMore(scenarios: seq<Scenario>, service: Service, items: seq<Item>, item: Item)
    ensures Ran(scenarios, service, items + [item]) == Ran(scenarios, service, items) + [ResultOf(scenarios, service, item)]
  {
    assert (items + [item])[..|items|] == items;
  }

  lemma {:induction false} IterationsPrefix(scenario: nat, k: nat, count: nat)
    requires k <= count
    ensures Iterations(scenario, k) <= Iterations(scenario, count)
  {
    if k < count {
      IterationsPrefix(scenario, k, count - 1);
    }
  }

  lemma PlanOneMore(scenarios: seq<Scenario>, i: nat)
    requires i < |scenarios|
    ensures Plan(scenarios[..i + 1]) == Plan(scenarios[..i]) + Iterations(i, scenarios[i].repeat)
  {
    assert scenarios[..i + 1][..i] == scenarios[..i];
  }

  lemma {:induction false} PlanPrefix(scenarios: seq<Scenario>, i: nat)
    requires i <= |scenarios|
    ensures Plan(scenarios[..i]) <= Plan(scenarios)
    decreases |scenarios| - i
  {
    if i == |scenarios| {
      assert scenarios[..i] == scenarios;
    } else {
      PlanOneMore(scenarios, i);
      PlanPrefix(scenarios, i + 1);
    }
  }

  // ---------------------------------------------------------------------------
  // The run
  // ---------------------------------------------------------------------------

  datatype Summary = Summary(results: seq<Result>, executed: nat, failed: nat, passed: int, expectedBlocks: nat,
                             estimatedMicros: int)

  /** A run ends with its summary, or is refused by a guard: the matrix guard before anything is created,
      or the guard of a scenario, when the results so far are not summed up. */
  datatype Outcome = Completed(summary: Summary) | Refused | Stopped(scenario: nat, results: seq<Result>)

  predicate RightCounts(s: Summary) {
    && s.executed == |s.results| && s.failed == Failures(s.results)
    && s.passed == s.executed - s.failed && s.expectedBlocks == ExpectedBlocks(s.results)
  }

  lemma RanOneIteration(scenarios: seq<Scenario>, service: Service, before: seq<Item>, i: nat, done: nat,
                        results: seq<Result>, result: Result)
    requires results == Ran(scenarios, service, before + Iterations(i, done))
    requires result == ResultOf(scenarios, service, Item(i, done + 1))
    ensures results + [result] == Ran(scenarios, service, before + Iterations(i, done + 1))
    ensures Failures(results + [result]) == Failures(results) + if result.passed then 0 else 1
    ensures ExpectedBlocks(results + [result]) ==
      ExpectedBlocks(results) + if result.expectedBlock && result.passed then 1 else 0
    ensures (results + [result])[..|results|] == results
  {
    var items := before + Iterations(i, done);
    NextItem(before, i, done);
    RanOneMore(scenarios, service, items, Item(i, done + 1));
    Counts(results, result);
    DropLast(results, result);
  }

  lemma NextItem(before: seq<Item>, i: nat, done: nat)
    ensures before + Iterations(i, done + 1) == before + Iterations(i, done) + [Item(i, done + 1)]
  {
    Associative(before, Iterations(i, done), [Item(i, done + 1)]);
  }

  lemma DropLast<T>(items: seq<T>, item: T)
    ensures (items + [item])[..|items|] == items
  {
  }

  /** The iterations of one scenario, up to a failure under fail-fast. */
  method RunScenario(config: Config, options: Options, service: Service, i: nat, ghost before: seq<Item>,
                     results: seq<Result>, failureCount: nat, expectedBlockEvents: nat)
    returns (results': seq<Result>, failureCount': nat, expectedBlockEvents': nat, ghost done: nat)
    requires i < |config.scenarios| && results == Ran(config.scenarios, service, before)
    requires failureCount == Failures(results) && expectedBlockEvents == ExpectedBlocks(results)
    requires options.failFast ==> failureCount == 0
    ensures done <= config.scenarios[i].repeat
    ensures results' == Ran(config.scenarios, service, before + Iterations(i, done))
    ensures failureCount' == Failures(results') && expectedBlockEvents' == ExpectedBlocks(results')
    ensures done < config.scenarios[i].repeat ==> options.failFast && failureCount' > 0
    ensures options.failFast && failureCount' > 0 ==>
      failureCount' == 1 && results' != [] && Failures(results'[..|results'| - 1]) == 0
  {
    var scenario := config.scenarios[i];
    results', failureCount', expectedBlockEvents', done := results, failureCount, expectedBlockEvents, 0;
    assert before + [] == before;
    for iteration := 1 to scenario.repeat + 1
      invariant done == iteration - 1
      invariant results' == Ran(config.scenarios, service, before + Iterations(i, done))
      invariant failureCount' == Failures(results') && expectedBlockEvents' == ExpectedBlocks(results')
      invariant options.failFast ==> failureCount' == 0
    {
      var item := Item(i, iteration);
      var result := ResultOf(config.scenarios, service, item);
      RanOneIteration(config.scenarios, service, before, i, done, results', result);
      results' := results' + [result];
      done := iteration;
      if result.expectedBlock && result.passed {
        expectedBlockEvents' := expectedBlockEvents' + 1;
      }
      if !result.passed {
        failureCount' := failureCount' + 1;
      }
      if options.failFast && !result.passed {
        break;
      }
    }
  }

  /** Whether the guard of each scenario lets it run. */
  type Guard = nat -> bool

  /** How far the loop over the scenarios has come. */
  ghost predicate Progress(config: Config, options: Options, guard: Guard, service: Service, i: nat,
                           results: seq<Result>)
  {
    && i <= |config.scenarios|
    && results == Ran(config.scenarios, service, Plan(config.scenarios[..i]))
    && (options.failFast ==> Failures(results) == 0)
    && forall j: nat | j < i :: guard(j)
  }

  /** The results are those of the first items of the plan: all of them, or with fail-fast those up to
      and including the first failure. */
  ghost predicate Runs(config: Config, options: Options, service: Service, results: seq<Result>, items: seq<Item>) {
    && items <= Plan(config.scenarios) && results == Ran(config.scenarios, service, items)
    && (options.failFast ==> items == [] || Failures(results[..|results| - 1]) == 0)
    && (items != Plan(config.scenarios) ==> options.failFast && Failures(results) == 1)
  }

  lemma {:induction false} RanLength(scenarios: seq<Scenario>, service: Service, items: seq<Item>)
    ensures |Ran(scenarios, service, items)| == |items|
  {
    if items != [] {
      RanLength(scenarios, service, items[..|items| - 1]);
    }
  }

  /** The runner stopped inside a scenario, or after it, on a failure. */
  lemma BrokeOff(config: Config, options: Options, service: Service, i: nat, done: nat, items: seq<Item>,
                 results: seq<Result>)
    requires i < |config.scenarios| && done <= config.scenarios[i].repeat
    requires items == Plan(config.scenarios[..i]) + Iterations(i, done) && results == Ran(config.scenarios, service, items)
    requires options.failFast && Failures(results) == 1 && results != [] && Failures(results[..|results| - 1]) == 0
    ensures items <= Plan(config.scenarios[..i + 1]) && Runs(config, options, service, results, items)
  {
    PlanOneMore(config.scenarios, i);
    IterationsPrefix(i, done, config.scenarios[i].repeat);
    PlanPrefix(config.scenarios, i + 1);
  }

  lemma RanThrough(config: Config, options: Options, guard: Guard, service: Service, results: seq<Result>)
    requires Progress(config, options, guard, service, |config.scenarios|, results)
    ensures Runs(config, options, service, results, Plan(config.scenarios))
    ensures Plan(config.scenarios) <= Plan(config.scenarios[..|config.scenarios|])
  {
    assert config.scenarios[..|config.scenarios|] == config.scenarios;
    RanLength(config.scenarios, service, Plan(config.scenarios));
  }

  lemma NextScenario(config: Config, options: Options, guard: Guard, service: Service, i: nat,
                     before: seq<Result>, results: seq<Result>)
    requires i < |config.scenarios| && Progress(config, options, guard, service, i, before) && guard(i)
    requires results == Ran(config.scenarios, service, Plan(config.scenarios[..i]) + Iterations(i, config.scenarios[i].repeat))
    requires options.failFast ==> Failures(results) == 0
    ensures Progress(config, options, guard, service, i + 1, results)
  {
    PlanOneMore(config.scenarios, i);
  }

  /** What the loop leaves: the scenario that its guard stopped, if any; the results of a part of the
      plan, within the scenarios reached, all of which their guards let run. */
  ghost predicate LoopDone(config: Config, options: Options, guard: Guard, service: Service, stopped: Option<nat>,
                           results: seq<Result>, items: seq<Item>, reached: nat)
  {
    && reached <= |config.scenarios| && (forall j: nat | j < reached :: guard(j))
    && (stopped.Some? ==>
          stopped.value == reached < |config.scenarios| && !guard(reached) &&
          Progress(config, options, guard, service, reached, results))
    && (stopped.None? ==>
          items <= Plan(config.scenarios[..reached]) && Runs(config, options, service, results, items))
  }

  lemma StoppedDone(config: Config, options: Options, guard: Guard, service: Service, i: nat, results: seq<Result>)
    requires i < |config.scenarios| && Progress(config, options, guard, service, i, results) && !guard(i)
    ensures LoopDone(config, options, guard, service, Some(i), results, [], i)
  {
  }

  lemma BrokeDone(config: Config, options: Options, guard: Guard, service: Service, i: nat, earlier: seq<Result>,
                  results: seq<Result>, items: seq<Item>)
    requires i < |config.scenarios| && Progress(config, options, guard, service, i, earlier) && guard(i)
    requires items <= Plan(config.scenarios[..i + 1]) && Runs(config, options, service, results, items)
    ensures LoopDone(config, options, guard, service, None, results, items, i + 1)
  {
  }

  lemma ThroughDone(config: Config, options: Options, guard: Guard, service: Service, results: seq<Result>)
    requires Progress(config, options, guard, service, |config.scenarios|, results)
    requires Runs(config, options, service, results, Plan(config.scenarios))
    requires Plan(config.scenarios) <= Plan(config.scenarios[..|config.scenarios|])
    ensures LoopDone(config, options, guard, service, None, results, Plan(config.scenarios), |config.scenarios|)
  {
  }

  method RunScenarios(config: Config, options: Options, guard: Guard, service: Service)
    returns (stopped: Option<nat>, results: seq<Result>, failureCount: nat, expectedBlockEvents: nat,
             ghost items: seq<Item>, ghost reached: nat)
    ensures LoopDone(config, options, guard, service, stopped, results, items, reached)
    ensures failureCount == Failures(results) && expectedBlockEvents == ExpectedBlocks(results)
  {
    stopped, results, failureCount, expectedBlockEvents, items, reached := None, [], 0, 0, [], 0;
    assert config.scenarios[..0] == [];
    for i := 0 to |config.scenarios|
      invariant reached == i
      invariant Progress(config, options, guard, service, i, results)
      invariant failureCount == Failures(results) && expectedBlockEvents == ExpectedBlocks(results)
    {
      if !guard(i) {
        stopped := Some(i);
        StoppedDone(config, options, guard, service, i, results);
        return;
      }
      reached := i + 1;
      ghost var before, earlier := Plan(config.scenarios[..i]), results;
      ghost var done: nat;
      results, failureCount, expectedBlockEvents, done :=
        RunScenario(config, options, service, i, before, results, failureCount, expectedBlockEvents);
      if options.failFast && failureCount > 0 {
        items := before + Iterations(i, done);
        BrokeOff(config, options, service, i, done, items, results);
        BrokeDone(config, options, guard, service, i, earlier, results, items);
        return;
      }
      NextScenario(config, options, guard, service, i, earlier, results);
    }
    items := Plan(config.scenarios);
    RanThrough(config, options, guard, service, results);
    ThroughDone(config, options, guard, service, results);
  }

  /** The guards of the scenarios of a run. */
  function Guards(config: Config, options: Options, prices: PriceList): Guard {
    (i: nat) => ScenarioAllowed(config, options, prices, i)
  }

  /** The guard of a scenario, by its own cap and the prices of its own lookup. */
  predicate ScenarioOver(config: Config, options: Options, prices: PriceList, i: nat) {
    i < |config.scenarios| &&
    OverBudget(ScenarioCost(config.scenarios[i], config, prices(i + 1)), options.maxScenarioCostUsd, options.allowOverBudget)
  }

  lemma GuardsExactly(config: Config, options: Options, prices: PriceList)
    ensures MatrixAllowed(config, options, prices) <==>
      !OverBudget(MatrixCost(config, prices(0)), options.maxEstimatedCostUsd, options.allowOverBudget)
    ensures forall i: nat :: Guards(config, options, prices)(i) <==> !ScenarioOver(config, options, prices, i)
  {
    StoppedOnlyOverBudget(MatrixCost(config, prices(0)), options.maxEstimatedCostUsd, options.allowOverBudget);
    forall i: nat ensures Guards(config, options, prices)(i) <==> !ScenarioOver(config, options, prices, i) {
      if i < |config.scenarios| {
        var cost := ScenarioCost(config.scenarios[i], config, prices(i + 1));
        StoppedOnlyOverBudget(cost, options.maxScenarioCostUsd, options.allowOverBudget);
      }
    }
  }

  /** Runs the matrix: refused exactly when its estimate is over the cap and not overridden; stopped at
      the first scenario whose own estimate is; and otherwise completed, having executed the plan in order, all
      of it or up to the first failure under fail-fast, with matching counts. */
  method RunMatrix(config: Config, options: Options, prices: PriceList, service: Service)
    returns (outcome: Outcome, ghost items: seq<Item>, ghost reached: nat)
    ensures outcome.Refused? <==>
      OverBudget(MatrixCost(config, prices(0)), options.maxEstimatedCostUsd, options.allowOverBudget)
    ensures outcome.Stopped? ==> outcome.scenario == reached && ScenarioOver(config, options, prices, reached)
    ensures forall i: nat | i < reached :: !ScenarioOver(config, options, prices, i)
    ensures outcome.Stopped? ==>
      LoopDone(config, options, Guards(config, options, prices), service, Some(outcome.scenario), outcome.results, items, reached)
    ensures outcome.Completed? ==>
      LoopDone(config, options, Guards(config, options, prices), service, None, outcome.summary.results, items, reached)
    ensures outcome.Completed? ==>
      RightCounts(outcome.summary) && outcome.summary.estimatedMicros == MatrixCost(config, prices(0))
  {
    items, reached := [], 0;
    GuardsExactly(config, options, prices);
    var estimated := MatrixCost(config, prices(0));
    if !Allowed(estimated, options.maxEstimatedCostUsd, options.allowOverBudget) {
      return Refused, items, reached;
    }
    var stopped, results, failureCount, expectedBlockEvents;
    stopped, results, failureCount, expectedBlockEvents, items, reached :=
      RunScenarios(config, options, Guards(config, options, prices), service);
    outcome :=
      if stopped.Some? then Stopped(stopped.value, results)
      else
        Completed(Summary(results, |results|, failureCount, |results| - failureCount, expectedBlockEvents, estimated));
  }

  // ---------------------------------------------------------------------------
  // What a completed run shows
  // ---------------------------------------------------------------------------

  lemma {:induction false} CountsAddUp(results: seq<Result>)
    ensures Failures(results) + Passes(results) == |results| && ExpectedBlocks(results) <= Passes(results)
  {
    if results != [] {
      CountsAddUp(results[..|results| - 1]);
    }
  }

  lemma {:induction false} IterationsLength(scenario: nat, count: nat)
    ensures |Iterations(scenario, count)| == count
  {
    if count > 0 {
      IterationsLength(scenario, count - 1);
    }
  }

  lemma {:induction false} PlanLength(scenarios: seq<Scenario>)
    ensures |Plan(scenarios)| == Repeats(scenarios)
  {
    if scenarios != [] {
      var last := |scenarios| - 1;
      PlanLength(scenarios[..last]);
      IterationsLength(last, scenarios[last].repeat);
    }
  }

  /** The counts are conserved: what was executed passed or failed, expected blocks are passes, and
      without fail-fast exactly the sum of the repeats was executed. */
  lemma CountsAreConserved(config: Config, options: Options, service: Service, s: Summary, items: seq<Item>)
    requires RightCounts(s) && Runs(config, options, service, s.results, items)
    ensures s.passed == Passes(s.results) && s.executed == s.passed + s.failed && s.expectedBlocks <= s.passed
    ensures s.executed <= Repeats(config.scenarios)
    ensures !options.failFast ==> s.executed == Repeats(config.scenarios)
  {
    CountsAddUp(s.results);
    RanLength(config.scenarios, service, items);
    PlanLength(config.scenarios);
  }

  lemma {:induction false} NoFailureMeansPassed(results: seq<Result>, k: nat)
    requires Failures(results) == 0 && k < |results|
    ensures results[k].passed
  {
    if k < |results| - 1 {
      NoFailureMeansPassed(results[..|results| - 1], k);
    }
  }

  /** Under fail-fast there is at most one failure, it is last, and it is the reason for stopping early. */
  lemma FailFastStopsAtFailure(config: Config, options: Options, service: Service, s: Summary, items: seq<Item>, k: nat)
    requires RightCounts(s) && Runs(config, options, service, s.results, items) && options.failFast
    requires k < |s.results| && !s.results[k].passed
    ensures k == |s.results| - 1 && s.failed == 1
  {
    if k < |s.results| - 1 {
      NoFailureMeansPassed(s.results[..|s.results| - 1], k);
    }
  }

  // ---------------------------------------------------------------------------
  // What is spent stays within the estimate
  // ---------------------------------------------------------------------------

  /** The estimates of a list of iterations. */
  function ItemsCost(config: Config, p: Pricing, items: seq<Item>): int {
    if items == [] then 0
    else
      var last := items[|items| - 1];
      ItemsCost(config, p, items[..|items| - 1]) +
      if last.scenario < |config.scenarios| then IterationCost(config.scenarios[last.scenario], config, p) else 0
  }

  lemma {:induction false} ItemsCostMonotone(config: Config, p: Pricing, items: seq<Item>, all: seq<Item>)
    requires items <= all && ValidPricing(p)
    ensures ItemsCost(config, p, items) <= ItemsCost(config, p, all)
    decreases |all|
  {
    if |items| < |all| {
      var last := all[|all| - 1];
      ItemsCostMonotone(config, p, items, all[..|all| - 1]);
      if last.scenario < |config.scenarios| {
        CostIsNotNegative(config.scenarios[last.scenario], config, p);
      }
    } else {
      assert items == all;
    }
  }

  lemma ItemsCostOneMore(config: Config, p: Pricing, items: seq<Item>, item: Item)
    requires item.scenario < |config.scenarios|
    ensures ItemsCost(config, p, items + [item]) ==
      ItemsCost(config, p, items) + IterationCost(config.scenarios[item.scenario], config, p)
  {
    assert (items + [item])[..|items|] == items;
  }

  lemma OneMoreTime(cost: int, count: nat)
    requires count > 0
    ensures cost * (count - 1) + cost == cost * count
  {
  }

  lemma {:induction false} IterationsCost(config: Config, p: Pricing, before: seq<Item>, i: nat, count: nat, cost: int)
    requires i < |config.scenarios| && cost == IterationCost(config.scenarios[i], config, p)
    ensures ItemsCost(config, p, before + Iterations(i, count)) == ItemsCost(config, p, before) + cost * count
  {
    if count == 0 {
      assert before + [] == before;
    } else {
      IterationsCost(config, p, before, i, count - 1, cost);
      var items := before + Iterations(i, count - 1);
      assert before + Iterations(i, count) == items + [Item(i, count)];
      ItemsCostOneMore(config, p, items, Item(i, count));
      OneMoreTime(cost, count);
    }
  }

  lemma {:induction false} PlanCost(config: Config, p: Pricing, i: nat)
    requires i <= |config.scenarios|
    ensures ItemsCost(config, p, Plan(config.scenarios[..i])) == ScenarioCosts(config.scenarios[..i], config, p)
  {
    if i > 0 {
      PlanCost(config, p, i - 1);
      PlanOneMore(config.scenarios, i - 1);
      assert config.scenarios[..i][..i - 1] == config.scenarios[..i - 1];
      IterationsCost(config, p, Plan(config.scenarios[..i - 1]), i - 1, config.scenarios[i - 1].repeat,
                     IterationCost(config.scenarios[i - 1], config, p));
    }
  }

  lemma {:induction false} ScenarioCostsMonotone(config: Config, p: Pricing, i: nat)
    requires i <= |config.scenarios| && ValidPricing(p)
    ensures ScenarioCosts(config.scenarios[..i], config, p) <= MatrixCost(config, p)
  {
    PlanPrefix(config.scenarios, i);
    PlanCost(config, p, i);
    PlanCost(config, p, |config.scenarios|);
    assert config.scenarios[..|config.scenarios|] == config.scenarios;
    ItemsCostMonotone(config, p, Plan(config.scenarios[..i]), Plan(config.scenarios));
  }

  /** While prices do not change, the estimates of the scenarios reached add up to at most the matrix
      estimate; so do those of the iterations executed, with equality when the whole plan was; and
      unless overridden the matrix estimate is within the cap. */
  lemma SpendingIsBounded(config: Config, options: Options, prices: PriceList, service: Service,
                          results: seq<Result>, items: seq<Item>, reached: nat)
    requires ValidPricing(prices(0)) && MatrixAllowed(config, options, prices)
    requires reached <= |config.scenarios| && Runs(config, options, service, results, items)
    requires forall j: nat | j <= |config.scenarios| :: prices(j) == prices(0)
    ensures ScenarioCosts(config.scenarios[..reached], config, prices(reached)) <= MatrixCost(config, prices(0))
    ensures ItemsCost(config, prices(0), items) <= MatrixCost(config, prices(0))
    ensures items == Plan(config.scenarios) ==> ItemsCost(config, prices(0), items) == MatrixCost(config, prices(0))
    ensures options.maxEstimatedCostUsd.Some? && !options.allowOverBudget ==>
      ItemsCost(config, prices(0), items) as real <= options.maxEstimatedCostUsd.value * 1_000_000.0
  {
    ScenarioCostsMonotone(config, prices(0), reached);
    ItemsCostMonotone(config, prices(0), items, Plan(config.scenarios));
    PlanCost(config, prices(0), |config.scenarios|);
    assert config.scenarios[..|config.scenarios|] == config.scenarios;
  }
}
