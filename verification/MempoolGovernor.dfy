/** The mempool pipeline: review, recommend, simulate, execute. */
module MempoolGovernor {
  import opened Common
  import opened RealSums

  datatype NextAction =
    | DoNothing | UpdateOracle | TriggerAlert | CreateMerkleProof | ScheduleWorker | RerouteLiquidity | RebalancePool
    | HedgeExposure | BridgeLiquidity | SponsorUserTx | DelayTx | RequireHumanApproval | BlockUnsafeAction

  datatype PendingTransaction = PendingTransaction(transactionHash: string, value: uint64, gasPrice: uint64)

  /** Liquidity depths are the entries of an ordered map, in key order. */
  datatype MempoolState = MempoolState(pending: seq<PendingTransaction>, liquidityDepth: seq<(string, real)>)

  datatype TransactionAnalysis = TransactionAnalysis(
    transactionHash: string, arbitrageOpportunity: real, mevRisk: real, priceImpact: real,
    confidence: int, riskScore: int)

  datatype ActionRecommendation = ActionRecommendation(
    action: NextAction, targetProtocol: string, confidence: int, riskScore: int, requiresHumanApproval: bool)

  datatype SimulationResult = SimulationResult(
    success: bool, expectedProfit: real, expectedGasCost: real, expectedSlippage: real, executionSeconds: real)

  datatype PolicyRule = PolicyRule(ruleId: string, priority: nat, requiresHumanApproval: bool, maxRiskThreshold: real)

  // ----- Review -----

  function DetectArbitrage(tx: PendingTransaction): real {
    if tx.value > 1000000 then 0.3 else 0.1
  }

  function DetectMevRisk(tx: PendingTransaction): real {
    if tx.gasPrice > 1000000000 then 0.5 else 0.1
  }

  function Depths(entries: seq<(string, real)>): (depths: seq<real>)
    ensures |depths| == |entries| && forall i :: 0 <= i < |depths| ==> depths[i] == entries[i].1
  {
    seq(|entries|, i requires 0 <= i < |entries| => entries[i].1)
  }

  function PriceImpact(tx: PendingTransaction, context: MempoolState): real {
    var total := Sum(Depths(context.liquidityDepth));
    if total > 0.0 then
      if tx.value as real / total < 1.0 then tx.value as real / total else 1.0
    else 0.0
  }

  lemma PriceImpactIsFraction(tx: PendingTransaction, context: MempoolState)
    ensures 0.0 <= PriceImpact(tx, context) <= 1.0
  {
    var total := Sum(Depths(context.liquidityDepth));
    if total > 0.0 {
      var q := tx.value as real / total;
      assert q * total == tx.value as real;
      assert q < 0.0 ==> q * total < 0.0;
    }
  }

  /** Spam probability is fixed at zero, so only the other two terms count. */
  function Review(tx: PendingTransaction, context: MempoolState): TransactionAnalysis {
    var mev, spam, impact := DetectMevRisk(tx), 0.0, PriceImpact(tx, context);
    TransactionAnalysis(
      tx.transactionHash, DetectArbitrage(tx), mev, impact,
      ((1.0 - mev) * (1.0 - spam) * 100.0).Floor,
      ((mev * 0.4 + spam * 0.3 + impact * 0.3) * 100.0).Floor)
  }

  /** Every reviewed transaction scores a risk between 4 and 50 and a confidence of 50 or 90. */
  lemma ReviewRange(tx: PendingTransaction, context: MempoolState)
    ensures var a := Review(tx, context);
      && 4 <= a.riskScore <= 50 && a.confidence == (if tx.gasPrice > 1000000000 then 50 else 90)
      && 0.1 <= a.arbitrageOpportunity <= 0.3
  {
    PriceImpactIsFraction(tx, context);
  }

  /** The impact is the transaction's share in the total depth, at most 1, and 0 without depth. */
  lemma PriceImpactIs(tx: PendingTransaction, context: MempoolState)
    ensures var total, impact := Sum(Depths(context.liquidityDepth)), PriceImpact(tx, context);
      if total <= 0.0 then impact == 0.0
      else if tx.value as real >= total then impact == 1.0
      else impact * total == tx.value as real
  {
    var total := Sum(Depths(context.liquidityDepth));
    if total > 0.0 {
      ShareOf(tx.value as real, total);
    }
  }

  lemma ShareOf(x: real, total: real)
    requires total > 0.0
    ensures x / total * total == x
    ensures x / total < 1.0 <==> x < total
  {
    var q := x / total;
    assert q * total == x;
    assert q < 1.0 ==> q * total < 1.0 * total;
    assert q >= 1.0 ==> q * total >= 1.0 * total;
  }

  /** The review in numbers; the risk is 40 percent of the risk of being front-run and 30 of the price impact. */
  lemma ReviewIs(tx: PendingTransaction, context: MempoolState)
    ensures var a := Review(tx, context);
      && a.transactionHash == tx.transactionHash && a.priceImpact == PriceImpact(tx, context)
      && a.arbitrageOpportunity == (if tx.value > 1000000 then 0.3 else 0.1)
      && a.mevRisk == (if tx.gasPrice > 1000000000 then 0.5 else 0.1)
      && a.confidence == (if tx.gasPrice > 1000000000 then 50 else 90)
      && a.riskScore == ((if tx.gasPrice > 1000000000 then 20.0 else 4.0) + 30.0 * a.priceImpact).Floor
  {}

  // ----- Recommend -----

  function Arbitrages(s: MempoolState): seq<real> {
    seq(|s.pending|, i requires 0 <= i < |s.pending| => Review(s.pending[i], s).arbitrageOpportunity)
  }

  function Risks(s: MempoolState): seq<real> {
    seq(|s.pending|, i requires 0 <= i < |s.pending| => Review(s.pending[i], s).riskScore as real / 100.0)
  }

  function TotalArbitrage(s: MempoolState): real {
    Sum(Arbitrages(s))
  }

  function AverageRisk(s: MempoolState): real
    requires s.pending != []
  {
    Sum(Risks(s)) / |s.pending| as real
  }

  lemma {:induction false} SumOfRisks(xs: seq<real>)
    requires forall i :: 0 <= i < |xs| ==> 0.04 <= xs[i] <= 0.5
    ensures 0.04 * |xs| as real <= Sum(xs) <= 0.5 * |xs| as real
  {
    if xs != [] {
      SumOfRisks(xs[..|xs| - 1]);
    }
  }

  /** So is the average: between 4 and 50 percent. */
  lemma AverageRiskRange(s: MempoolState)
    requires s.pending != []
    ensures 0.04 <= AverageRisk(s) <= 0.5
  {
    forall i | 0 <= i < |s.pending| ensures 0.04 <= Risks(s)[i] <= 0.5 {
      ReviewRange(s.pending[i], s);
    }
    SumOfRisks(Risks(s));
    QuotientBetween(Sum(Risks(s)), |s.pending| as real, 0.04, 0.5);
  }

  function Recommend(riskThreshold: real, s: MempoolState): ActionRecommendation {
    if s.pending == [] then ActionRecommendation(UpdateOracle, "", 100, 0, false)
    else
      var avg := AverageRisk(s);
      var confidence, risk := ((1.0 - avg) * 100.0).Floor, (avg * 100.0).Floor;
      if avg > riskThreshold then ActionRecommendation(BlockUnsafeAction, "", confidence, risk, true)
      else if TotalArbitrage(s) > 0.5 then ActionRecommendation(RerouteLiquidity, "uniswap", confidence, risk, false)
      else ActionRecommendation(DoNothing, "", confidence, risk, false)
  }

  lemma SumsAre(s: MempoolState)
    ensures TotalArbitrage(s)
            == Sum(seq(|s.pending|, i requires 0 <= i < |s.pending| =>
                 if s.pending[i].value > 1000000 then 0.3 else 0.1))
    ensures s.pending != [] ==>
      AverageRisk(s) * |s.pending| as real
      == Sum(seq(|s.pending|, i requires 0 <= i < |s.pending| => Review(s.pending[i], s).riskScore as real / 100.0))
  {
    var values := seq(|s.pending|, i requires 0 <= i < |s.pending| =>
      if s.pending[i].value > 1000000 then 0.3 else 0.1);
    var risks := seq(|s.pending|, i requires 0 <= i < |s.pending| => Review(s.pending[i], s).riskScore as real / 100.0);
    forall i | 0 <= i < |s.pending| ensures Arbitrages(s)[i] == values[i] {
      ReviewIs(s.pending[i], s);
    }
    assert Arbitrages(s) == values;
    assert Risks(s) == risks;
  }

  /** What is recommended: by the average risk against the threshold first, then by the total arbitrage. */
  lemma RecommendationIs(riskThreshold: real, s: MempoolState)
    ensures var r := Recommend(riskThreshold, s);
      if s.pending == [] then r == ActionRecommendation(UpdateOracle, "", 100, 0, false)
      else
        && r.action == (if AverageRisk(s) > riskThreshold then BlockUnsafeAction
                        else if TotalArbitrage(s) > 0.5 then RerouteLiquidity else DoNothing)
        && (r.targetProtocol == if r.action == RerouteLiquidity then "uniswap" else "")
        && (r.requiresHumanApproval <==> r.action == BlockUnsafeAction)
        && r.riskScore as real <= 100.0 * AverageRisk(s) < r.riskScore as real + 1.0
        && r.confidence as real <= 100.0 - 100.0 * AverageRisk(s) < r.confidence as real + 1.0
  {}

  /** The scores fit the unsigned bytes the program stores them in, so the casts are exact truncations. */
  lemma ScoresFitBytes(riskThreshold: real, s: MempoolState)
    ensures var r := Recommend(riskThreshold, s); 0 <= r.confidence <= 100 && 0 <= r.riskScore <= 50
  {
    if s.pending != [] {
      AverageRiskRange(s);
    }
  }

  const RISKIEST: MempoolState :=
    MempoolState([PendingTransaction("", 1, 2000000000)], [("pool", 1.0)])

  lemma RiskiestAverage()
    ensures AverageRisk(RISKIEST) == 0.5
  {
    var s := RISKIEST;
    var tx := s.pending[0];
    SumSnoc([], 1.0);
    assert Depths(s.liquidityDepth) == [] + [1.0];
    assert PriceImpact(tx, s) == 1.0;
    assert Review(tx, s).riskScore == 50;
    SumSnoc([], 0.5);
    assert Risks(s) == [] + [0.5];
  }

  ghost predicate EverBlocks(riskThreshold: real) {
    exists s: MempoolState :: Recommend(riskThreshold, s).action == BlockUnsafeAction
  }

  /** Blocking is ever recommended only for thresholds below one half; the default is 0.7. */
  lemma BlocksIffThresholdBelowHalf(riskThreshold: real)
    ensures EverBlocks(riskThreshold) <==> riskThreshold < 0.5
  {
    forall s: MempoolState | Recommend(riskThreshold, s).action == BlockUnsafeAction ensures riskThreshold < 0.5 {
      AverageRiskRange(s);
    }
    RiskiestAverage();
    assert riskThreshold < 0.5 ==> Recommend(riskThreshold, RISKIEST).action == BlockUnsafeAction;
  }

  // ----- Simulate and execute -----

  function Simulate(a: ActionRecommendation): SimulationResult {
    match a.action
    case RerouteLiquidity => SimulationResult(true, 0.001, 0.0001, 0.0005, 2.0)
    case HedgeExposure => SimulationResult(true, 0.0005, 0.00005, 0.0002, 1.5)
    case BlockUnsafeAction => SimulationResult(true, 0.0, 0.0, 0.0, 0.1)
    case DoNothing => SimulationResult(true, 0.0, 0.0, 0.0, 0.0)
    case _ => SimulationResult(false, 0.0, 0.0, 0.0, 0.0)
  }

  /** Only four actions can be simulated; two of them are expected to gain more than gas and slippage cost. */
  lemma SimulationIs(a: ActionRecommendation)
    ensures var s := Simulate(a);
      && (s.success <==> a.action in {RerouteLiquidity, HedgeExposure, BlockUnsafeAction, DoNothing})
      && (s.expectedProfit > s.expectedGasCost + s.expectedSlippage <==> a.action in {RerouteLiquidity, HedgeExposure})
      && (!s.success ==> s.expectedProfit == s.expectedGasCost == s.expectedSlippage == 0.0)
  {}

  predicate IsActionSafe(a: ActionRecommendation) {
    a.action == BlockUnsafeAction || a.action == DoNothing || a.confidence > 50
  }

  predicate RuleAllows(rule: PolicyRule, a: ActionRecommendation) {
    a.riskScore as real <= rule.maxRiskThreshold * 100.0
  }

  ghost predicate WithinRiskLimits(rules: seq<PolicyRule>, a: ActionRecommendation) {
    forall i :: 0 <= i < |rules| ==> RuleAllows(rules[i], a)
  }

  ghost predicate Executes(rules: seq<PolicyRule>, a: ActionRecommendation, simulation: SimulationResult) {
    IsActionSafe(a) && WithinRiskLimits(rules, a) && !a.requiresHumanApproval && simulation.success
  }

  /** Recommending, simulating and executing, end to end. */
  ghost predicate PipelineExecutes(riskThreshold: real, rules: seq<PolicyRule>, s: MempoolState) {
    var a := Recommend(riskThreshold, s);
    Executes(rules, a, Simulate(a))
  }

  /** Every rule admits the whole percents of the average risk. */
  ghost predicate RulesAdmit(rules: seq<PolicyRule>, average: real) {
    forall i :: 0 <= i < |rules| ==> (average * 100.0).Floor as real <= rules[i].maxRiskThreshold * 100.0
  }

  /** For every threshold, every rule list and every mempool: when the pipeline executes. */
  lemma PipelineExecutesIff(riskThreshold: real, rules: seq<PolicyRule>, s: MempoolState)
    ensures PipelineExecutes(riskThreshold, rules, s) <==>
      && s.pending != []
      && AverageRisk(s) <= riskThreshold
      && (TotalArbitrage(s) > 0.5 ==> AverageRisk(s) <= 0.49)
      && RulesAdmit(rules, AverageRisk(s))
  {
    if s.pending != [] {
      var avg, a := AverageRisk(s), Recommend(riskThreshold, s);
      AverageRiskRange(s);
      ConfidenceAboveHalfIff(avg);
      assert WithinRiskLimits(rules, a) <==> RulesAdmit(rules, avg) by {
        assert forall i :: 0 <= i < |rules| ==>
          (RuleAllows(rules[i], a) <==> (avg * 100.0).Floor as real <= rules[i].maxRiskThreshold * 100.0);
      }
    }
  }

  lemma ConfidenceAboveHalfIff(average: real)
    ensures ((1.0 - average) * 100.0).Floor > 50 <==> average <= 0.49
  {}

  const DEFAULT_THRESHOLD: real := 0.7
  const SAFETY_RULE: PolicyRule := PolicyRule("safety_check", 100, true, 0.5)

  /**
   * With the default threshold and rule the pipeline executes on every non-empty mempool, except when
   * arbitrage adds up to more than 0.5 while the average risk exceeds 0.49.
   */
  lemma DefaultPipelineExecutesIff(s: MempoolState)
    ensures PipelineExecutes(DEFAULT_THRESHOLD, [SAFETY_RULE], s) <==>
      s.pending != [] && !(TotalArbitrage(s) > 0.5 && AverageRisk(s) > 0.49)
  {
    PipelineExecutesIff(DEFAULT_THRESHOLD, [SAFETY_RULE], s);
    if s.pending != [] {
      AverageRiskRange(s);
    }
  }

  const HEATED: MempoolState :=
    MempoolState([PendingTransaction("", 2000000, 2000000000), PendingTransaction("", 2000000, 2000000000)],
                 [("pool", 1.0)])

  /** The exception is real: a mempool on which the default pipeline recommends an action and then refuses it. */
  lemma HeatedMempoolIsRefused()
    ensures Recommend(DEFAULT_THRESHOLD, HEATED).action == RerouteLiquidity
    ensures !PipelineExecutes(DEFAULT_THRESHOLD, [SAFETY_RULE], HEATED)
  {
    var s := HEATED;
    SumSnoc([], 1.0);
    assert Depths(s.liquidityDepth) == [] + [1.0];
    assert PriceImpact(s.pending[0], s) == 1.0;
    assert Review(s.pending[0], s).riskScore == 50;
    SumSnoc([], 0.5);
    SumSnoc([0.5], 0.5);
    assert Risks(s) == [0.5] + [0.5] && [0.5] == [] + [0.5];
    SumSnoc([], 0.3);
    SumSnoc([0.3], 0.3);
    assert Arbitrages(s) == [0.3] + [0.3] && [0.3] == [] + [0.3];
    DefaultPipelineExecutesIff(s);
  }

  // ----- Rule lists -----

  function WithoutRule(rules: seq<PolicyRule>, ruleId: string): seq<PolicyRule> {
    if rules == [] then []
    else
      var n := |rules| - 1;
      WithoutRule(rules[..n], ruleId) + if rules[n].ruleId == ruleId then [] else [rules[n]]
  }

  lemma {:induction false} WithoutRuleCount(rules: seq<PolicyRule>, ruleId: string, rule: PolicyRule)
    ensures multiset(WithoutRule(rules, ruleId))[rule] == if rule.ruleId == ruleId then 0 else multiset(rules)[rule]
  {
    if rules != [] {
      var n := |rules| - 1;
      assert rules == rules[..n] + [rules[n]];
      WithoutRuleCount(rules[..n], ruleId, rule);
    }
  }

  /** More rules never permit more: whatever executes under a longer list executes under the shorter. */
  lemma MoreRulesExecuteLess(
    rules: seq<PolicyRule>, rule: PolicyRule, a: ActionRecommendation, simulation: SimulationResult)
    ensures Executes(rules + [rule], a, simulation) <==> Executes(rules, a, simulation) && RuleAllows(rule, a)
  {
    var more := rules + [rule];
    if WithinRiskLimits(more, a) {
      assert forall i :: 0 <= i < |rules| ==> rules[i] == more[i];
      assert more[|rules|] == rule;
    }
  }

  /** The rules that are kept stay in order: removal works on each part of the list by itself. */
  lemma {:induction false} WithoutRuleConcat(a: seq<PolicyRule>, b: seq<PolicyRule>, ruleId: string)
    ensures WithoutRule(a + b, ruleId) == WithoutRule(a, ruleId) + WithoutRule(b, ruleId)
  {
    if b == [] {
      assert a + b == a;
    } else {
      var n := |b| - 1;
      assert (a + b)[..|a| + n] == a + b[..n];
      WithoutRuleConcat(a, b[..n], ruleId);
      var last := if b[n].ruleId == ruleId then [] else [b[n]];
      ConcatAssociative(WithoutRule(a, ruleId), WithoutRule(b[..n], ruleId), last);
    }
  }

  // ----- The program -----

  class LLMMempoolGovernor {
    var riskThreshold: real

    constructor ()
      ensures riskThreshold == DEFAULT_THRESHOLD
    {
      riskThreshold := DEFAULT_THRESHOLD;
    }

    method SetRiskThreshold(threshold: real)
      modifies this
      ensures riskThreshold == threshold
    {
      riskThreshold := threshold;
    }

    method EstimatePriceImpact(tx: PendingTransaction, context: MempoolState) returns (impact: real)
      ensures impact == PriceImpact(tx, context)
      ensures var total := Sum(Depths(context.liquidityDepth));
        if total <= 0.0 then impact == 0.0
        else if tx.value as real >= total then impact == 1.0
        else impact * total == tx.value as real
    {
      PriceImpactIs(tx, context);
      var totalValue := 0.0;
      ghost var depths := Depths(context.liquidityDepth);
      for i := 0 to |context.liquidityDepth|
        invariant totalValue == Sum(depths[..i])
      {
        assert depths[..i + 1] == depths[..i] + [depths[i]];
        SumSnoc(depths[..i], depths[i]);
        totalValue := totalValue + context.liquidityDepth[i].1;
      }
      assert depths[..|context.liquidityDepth|] == depths;
      if totalValue > 0.0 {
        var share := tx.value as real / totalValue;
        return if share < 1.0 then share else 1.0;
      }
      return 0.0;
    }

    method ReviewTransaction(tx: PendingTransaction, context: MempoolState) returns (analysis: TransactionAnalysis)
      ensures analysis == Review(tx, context)
      ensures analysis.arbitrageOpportunity == (if tx.value > 1000000 then 0.3 else 0.1)
      ensures analysis.mevRisk == (if tx.gasPrice > 1000000000 then 0.5 else 0.1)
      ensures analysis.confidence == (if tx.gasPrice > 1000000000 then 50 else 90)
      ensures analysis.riskScore
              == ((if tx.gasPrice > 1000000000 then 20.0 else 4.0) + 30.0 * analysis.priceImpact).Floor
    {
      ReviewIs(tx, context);
      var mev, spam := DetectMevRisk(tx), 0.0;
      var impact := EstimatePriceImpact(tx, context);
      var averageConfidence := (1.0 - mev) * (1.0 - spam);
      var confidence := (averageConfidence * 100.0).Floor;
      var risk := ((mev * 0.4 + spam * 0.3 + impact * 0.3) * 100.0).Floor;
      analysis := TransactionAnalysis(tx.transactionHash, DetectArbitrage(tx), mev, impact, confidence, risk);
    }

    method ComputeNextAction(state: MempoolState) returns (r: ActionRecommendation)
      ensures r == Recommend(riskThreshold, state)
      ensures state.pending == [] ==> r == ActionRecommendation(UpdateOracle, "", 100, 0, false)
      ensures state.pending != [] ==>
        && r.action == (if AverageRisk(state) > riskThreshold then BlockUnsafeAction
                        else if TotalArbitrage(state) > 0.5 then RerouteLiquidity else DoNothing)
        && (r.targetProtocol == if r.action == RerouteLiquidity then "uniswap" else "")
        && (r.requiresHumanApproval <==> r.action == BlockUnsafeAction)
        && r.riskScore as real <= 100.0 * AverageRisk(state) < r.riskScore as real + 1.0
        && r.confidence as real <= 100.0 - 100.0 * AverageRisk(state) < r.confidence as real + 1.0
    {
      RecommendationIs(riskThreshold, state);
      var totalArbitrage, totalRisk := 0.0, 0.0;
      ghost var arbitrages, risks := Arbitrages(state), Risks(state);
      for i := 0 to |state.pending|
        invariant totalArbitrage == Sum(arbitrages[..i]) && totalRisk == Sum(risks[..i])
      {
        var analysis := ReviewTransaction(state.pending[i], state);
        assert arbitrages[..i + 1] == arbitrages[..i] + [arbitrages[i]];
        assert risks[..i + 1] == risks[..i] + [risks[i]];
        SumSnoc(arbitrages[..i], arbitrages[i]);
        SumSnoc(risks[..i], risks[i]);
        totalArbitrage := totalArbitrage + analysis.arbitrageOpportunity;
        totalRisk := totalRisk + analysis.riskScore as real / 100.0;
      }
      assert arbitrages[..|state.pending|] == arbitrages && risks[..|state.pending|] == risks;
      if state.pending == [] {
        return ActionRecommendation(UpdateOracle, "", 100, 0, false);
      }
      var avgRisk := totalRisk / |state.pending| as real;
      r := ActionRecommendation(DoNothing, "", 0, 0, false);
      if avgRisk > riskThreshold {
        r := r.(action := BlockUnsafeAction, requiresHumanApproval := true);
      } else if totalArbitrage > 0.5 {
        r := r.(action := RerouteLiquidity, targetProtocol := "uniswap");
      }
      r := r.(confidence := ((1.0 - avgRisk) * 100.0).Floor, riskScore := (avgRisk * 100.0).Floor);
    }
  }

  class OvermanifoldPolicy {
    var rules: seq<PolicyRule>

    constructor ()
      ensures rules == [SAFETY_RULE]
    {
      rules := [SAFETY_RULE];
    }

    method AddPolicyRule(rule: PolicyRule)
      modifies this
      ensures rules == old(rules) + [rule]
    {
      rules := rules + [rule];
    }

    method RemovePolicyRule(ruleId: string)
      modifies this
      ensures rules == WithoutRule(old(rules), ruleId)
    {
      var kept, all := [], rules;
      for i := 0 to |all|
        invariant kept == WithoutRule(all[..i], ruleId)
      {
        assert all[..i + 1][..i] == all[..i];
        if all[i].ruleId != ruleId {
          kept := kept + [all[i]];
        }
      }
      assert all[..|all|] == all;
      rules := kept;
    }

    method IsWithinRiskLimits(a: ActionRecommendation) returns (ok: bool)
      ensures ok <==> WithinRiskLimits(rules, a)
    {
      for i := 0 to |rules|
        invariant forall j :: 0 <= j < i ==> RuleAllows(rules[j], a)
      {
        if a.riskScore as real > rules[i].maxRiskThreshold * 100.0 {
          assert !RuleAllows(rules[i], a);
          return false;
        }
      }
      return true;
    }

    method ExecuteAction(a: ActionRecommendation, simulation: SimulationResult) returns (ok: bool)
      ensures ok <==> Executes(rules, a, simulation)
      ensures ok <==>
        && (a.action == BlockUnsafeAction || a.action == DoNothing || a.confidence > 50)
        && (forall i :: 0 <= i < |rules| ==> a.riskScore as real <= rules[i].maxRiskThreshold * 100.0)
        && !a.requiresHumanApproval && simulation.success
    {
      assert WithinRiskLimits(rules, a) <==>
        forall i :: 0 <= i < |rules| ==> a.riskScore as real <= rules[i].maxRiskThreshold * 100.0 by {
        assert forall i :: 0 <= i < |rules| ==>
          (RuleAllows(rules[i], a) <==> a.riskScore as real <= rules[i].maxRiskThreshold * 100.0);
      }
      if !IsActionSafe(a) {
        return false;
      }
      var within := IsWithinRiskLimits(a);
      if !within {
        return false;
      }
      if a.requiresHumanApproval {
        return false;
      }
      if !simulation.success {
        return false;
      }
      return true;
    }
  }
}
