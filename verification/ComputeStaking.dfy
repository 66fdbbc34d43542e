/** Compute stakes, the gas credits granted for them, and the three global counters. */
module ComputeStaking {
  import opened Common
  import opened Decimal
  import opened MapSums

  const CREDIT_GRANT_PER_CORE: nat := 10000000000
  const GAS_CREDIT_ALLOWANCE_PER_CORE: nat := 10000000000
  const GAS_CREDITS_PER_CORE_PER_SEC: real := 1000.0
  const MIN_STAKE_DURATION_SEC: real := 3600.0
  const REWARD_MULTIPLIER: real := 1.5
  const REWARD_RATE: real := GAS_CREDITS_PER_CORE_PER_SEC * REWARD_MULTIPLIER

  datatype ComputeStake = ComputeStake(
    staker: string, cpuCores: uint64, ramGb: uint64, computeUnits: uint64,
    stakedAt: real, unstakedAt: real, active: bool, rewardRate: real,
    instantGrant: uint64, totalGrants: uint64, allowance: uint64, redeemable: bool)

  datatype State = State(
    stakes: map<string, ComputeStake>, totalCompute: uint64, totalCores: uint64, totalIssued: uint64)

  const EMPTY: State := State(map[], 0, 0, 0)

  /** The id carries the time to the microsecond; the same staker in the same microsecond gets the same id. */
  function StakeId(staker: string, now: real): string {
    "stake_" + staker + "_" + PrintReal(now)
  }

  lemma UnderscoreWithin(a: string, x: string, b: string, y: string)
    requires a + ("_" + x) == b + ("_" + y) && |a| < |b|
    ensures '_' in x
  {
    assert (a + ("_" + x))[|b|] == x[|b| - |a| - 1];
    assert (b + ("_" + y))[|b|] == '_';
  }

  /** A text that ends in an underscore and a part without one falls apart in one way only. */
  lemma LastUnderscore(a: string, x: string, b: string, y: string)
    requires a + ("_" + x) == b + ("_" + y) && '_' !in x && '_' !in y
    ensures a == b && x == y
  {
    if |a| < |b| {
      UnderscoreWithin(a, x, b, y);
    } else if |b| < |a| {
      UnderscoreWithin(b, y, a, x);
    }
    var s := a + ("_" + x);
    assert a == s[..|a|] && b == s[..|b|] && x == s[|a| + 1..] && y == s[|b| + 1..];
  }

  /** Ids coincide exactly for the same staker in the same microsecond. */
  lemma StakeIdInjective(a: string, s: real, b: string, t: real)
    requires s >= 0.0 && t >= 0.0
    ensures StakeId(a, s) == StakeId(b, t) <==> a == b && Micros(s) == Micros(t)
  {
    NonNegativeText(s);
    NonNegativeText(t);
    var p := "stake_";
    assert StakeId(a, s) == (p + a) + ("_" + PrintReal(s)) && StakeId(b, t) == (p + b) + ("_" + PrintReal(t));
    if StakeId(a, s) == StakeId(b, t) {
      LastUnderscore(p + a, PrintReal(s), p + b, PrintReal(t));
      assert a == (p + a)[|p|..] && b == (p + b)[|p|..];
      PrintRealInjective(s, t);
    }
  }

  // ----- What is summed over the stakes -----

  function ActiveCores(s: ComputeStake): int {
    if s.active then s.cpuCores else 0
  }

  function ActiveUnits(s: ComputeStake): int {
    if s.active then s.computeUnits else 0
  }

  function Allowance(s: ComputeStake): int {
    s.allowance
  }

  function InstantGrant(s: ComputeStake): int {
    s.instantGrant
  }

  // ----- The operations -----

  function NewStake(staker: string, cores: uint64, ram: uint64, units: uint64, now: real): ComputeStake {
    var grant := Wrap(cores * CREDIT_GRANT_PER_CORE);
    ComputeStake(staker, cores, ram, units, now, 0.0, true, REWARD_RATE, grant, grant,
          Wrap(cores * GAS_CREDIT_ALLOWANCE_PER_CORE), false)
  }

  function Staked(s: State, staker: string, cores: uint64, ram: uint64, units: uint64, now: real): State {
    var stake := NewStake(staker, cores, ram, units, now);
    State(s.stakes[StakeId(staker, now) := stake],
          Wrap(s.totalCompute + units), Wrap(s.totalCores + cores), Wrap(s.totalIssued + stake.instantGrant))
  }

  predicate CanUnstake(s: State, id: string, now: real) {
    id in s.stakes && s.stakes[id].active && now - s.stakes[id].stakedAt >= MIN_STAKE_DURATION_SEC
  }

  /** Credits for the time staked: units times rate times duration, rounded down. */
  function TimeRewards(units: uint64, rate: real, duration: real): int {
    (units as real * rate * duration).Floor
  }

  function EarnedBy(stake: ComputeStake, now: real): int {
    TimeRewards(stake.computeUnits, stake.rewardRate, now - stake.stakedAt)
  }

  function Ended(stake: ComputeStake, now: real): ComputeStake {
    stake.(active := false, unstakedAt := now,
           totalGrants := Wrap(stake.totalGrants + EarnedBy(stake, now)))
  }

  function Unstaked(s: State, id: string, now: real): State {
    if !CanUnstake(s, id, now) then s
    else
      var stake := s.stakes[id];
      State(s.stakes[id := Ended(stake, now)],
            Wrap(s.totalCompute - stake.computeUnits), Wrap(s.totalCores - stake.cpuCores), s.totalIssued)
  }

  /** A stake that alone covers a cost of its staker. */
  predicate Covers(stake: ComputeStake, user: string, cost: uint64) {
    stake.staker == user && stake.active && stake.allowance >= cost
  }

  predicate Eligible(s: State, user: string, cost: uint64, id: string) {
    id in s.stakes && Covers(s.stakes[id], user, cost)
  }

  function Debited(s: State, id: string, cost: uint64): State
    requires id in s.stakes && s.stakes[id].allowance >= cost
  {
    s.(stakes := s.stakes[id := s.stakes[id].(allowance := s.stakes[id].allowance - cost)])
  }

  // ----- The unordered search for a stake to debit -----

  /** An outcome of the search: some eligible stake, or none because there is none. */
  ghost predicate LegalPick(s: State, user: string, cost: uint64, pick: Option<string>) {
    match pick
    case Some(id) => Eligible(s, user, cost, id)
    case None => forall id :: !Eligible(s, user, cost, id)
  }

  /** The first eligible stake in a given iteration order. */
  function FirstEligible(s: State, order: seq<string>, user: string, cost: uint64): Option<string> {
    if order == [] then None
    else if Eligible(s, user, cost, order[0]) then Some(order[0])
    else FirstEligible(s, order[1..], user, cost)
  }

  /** Every order that visits all stakes leads to a legal outcome. */
  lemma {:induction false} AnyOrderIsLegal(s: State, order: seq<string>, user: string, cost: uint64)
    requires forall id :: Eligible(s, user, cost, id) ==> id in order
    ensures LegalPick(s, user, cost, FirstEligible(s, order, user, cost))
  {
    if order != [] && !Eligible(s, user, cost, order[0]) {
      forall id | Eligible(s, user, cost, id) ensures id in order[1..] {
        assert order == [order[0]] + order[1..];
      }
      AnyOrderIsLegal(s, order[1..], user, cost);
    }
  }

  // ----- Invariants -----

  /** What a stake's own record says about its life. */
  predicate StakeOk(stake: ComputeStake) {
    && stake.rewardRate == REWARD_RATE
    && stake.allowance <= stake.instantGrant == Wrap(stake.cpuCores * CREDIT_GRANT_PER_CORE)
    && if stake.active then
         stake.unstakedAt == 0.0 && stake.totalGrants == stake.instantGrant
       else
         && stake.unstakedAt - stake.stakedAt >= MIN_STAKE_DURATION_SEC
         && stake.totalGrants == Wrap(stake.instantGrant + EarnedBy(stake, stake.unstakedAt))
  }

  ghost predicate RecordsOk(s: State) {
    forall id :: id in s.stakes ==> StakeOk(s.stakes[id])
  }

  /** The counters are the sums over the stakes and the records lost to reused ids, in 64-bit arithmetic. */
  ghost predicate CountersOk(s: State, gone: seq<ComputeStake>) {
    && s.totalCores == Wrap(Total(s.stakes, gone, ActiveCores))
    && s.totalCompute == Wrap(Total(s.stakes, gone, ActiveUnits))
    && s.totalIssued == Wrap(Total(s.stakes, gone, InstantGrant))
  }

  ghost predicate Consistent(s: State, gone: seq<ComputeStake>) {
    CountersOk(s, gone) && RecordsOk(s)
  }

  /** A counter that adds a new stake's measure stays the total. */
  lemma CounterPut(
    stakes: map<string, ComputeStake>, gone: seq<ComputeStake>, f: ComputeStake -> int, id: string, stake: ComputeStake)
    ensures Wrap(Wrap(Total(stakes, gone, f)) + f(stake)) == Wrap(Total(stakes[id := stake], Gone(stakes, gone, id), f))
  {
    PutAdds(stakes, gone, f, id, stake);
    WrapAdd(Total(stakes, gone, f), f(stake));
  }

  /** A counter that adds the change of a stake's measure stays the total. */
  lemma CounterUpdate(
    stakes: map<string, ComputeStake>, gone: seq<ComputeStake>, f: ComputeStake -> int, id: string, stake: ComputeStake)
    requires id in stakes
    ensures Wrap(Wrap(Total(stakes, gone, f)) + (f(stake) - f(stakes[id]))) == Wrap(Total(stakes[id := stake], gone, f))
  {
    SumUpdate(stakes, f, id, stake);
    WrapAdd(Total(stakes, gone, f), f(stake) - f(stakes[id]));
  }

  lemma StakeKeepsRecords(s: State, staker: string, cores: uint64, ram: uint64, units: uint64, now: real)
    requires RecordsOk(s)
    ensures RecordsOk(Staked(s, staker, cores, ram, units, now))
  {
    assert StakeOk(NewStake(staker, cores, ram, units, now));
  }

  /** Staking keeps the counters, a record it overwrites joining the lost ones. */
  lemma StakeKeepsConsistent(
    s: State, gone: seq<ComputeStake>, staker: string, cores: uint64, ram: uint64, units: uint64, now: real)
    requires Consistent(s, gone)
    ensures Consistent(Staked(s, staker, cores, ram, units, now), Gone(s.stakes, gone, StakeId(staker, now)))
  {
    var id, stake := StakeId(staker, now), NewStake(staker, cores, ram, units, now);
    CounterPut(s.stakes, gone, ActiveCores, id, stake);
    CounterPut(s.stakes, gone, ActiveUnits, id, stake);
    CounterPut(s.stakes, gone, InstantGrant, id, stake);
    StakeKeepsRecords(s, staker, cores, ram, units, now);
  }

  /** A record that counts for nothing. */
  predicate Harmless(stake: ComputeStake) {
    stake.instantGrant == 0 && ActiveCores(stake) == 0 && ActiveUnits(stake) == 0
  }

  lemma CounterPutIff(
    stakes: map<string, ComputeStake>, f: ComputeStake -> int, id: string, stake: ComputeStake)
    requires id in stakes ==> 0 <= f(stakes[id]) < TWO_64
    ensures Wrap(Wrap(Total(stakes, [], f)) + f(stake)) == Wrap(Total(stakes[id := stake], [], f))
            <==> id in stakes ==> f(stakes[id]) == 0
  {
    CounterPut(stakes, [], f, id, stake);
    if id in stakes {
      assert SumOver([stakes[id]][..0], f) == 0;
      WrapCancels(Total(stakes[id := stake], [], f), f(stakes[id]));
    }
  }

  lemma WrapCancels(x: int, d: uint64)
    ensures Wrap(x + d) == Wrap(x) <==> d == 0
  {}

  lemma StakeKeepsCountersIff(s: State, staker: string, cores: uint64, ram: uint64, units: uint64, now: real)
    requires CountersOk(s, [])
    ensures CountersOk(Staked(s, staker, cores, ram, units, now), []) <==>
      (StakeId(staker, now) in s.stakes ==> Harmless(s.stakes[StakeId(staker, now)]))
  {
    var id, stake := StakeId(staker, now), NewStake(staker, cores, ram, units, now);
    CounterPutIff(s.stakes, ActiveCores, id, stake);
    CounterPutIff(s.stakes, ActiveUnits, id, stake);
    CounterPutIff(s.stakes, InstantGrant, id, stake);
  }

  /** The counters stay the sums over the stakes alone exactly when the record overwritten counted for nothing. */
  lemma StakeKeepsSumsIff(s: State, staker: string, cores: uint64, ram: uint64, units: uint64, now: real)
    requires Consistent(s, [])
    ensures Consistent(Staked(s, staker, cores, ram, units, now), []) <==>
      (StakeId(staker, now) in s.stakes ==> Harmless(s.stakes[StakeId(staker, now)]))
  {
    StakeKeepsCountersIff(s, staker, cores, ram, units, now);
    StakeKeepsRecords(s, staker, cores, ram, units, now);
  }

  lemma UnstakeKeepsCounters(s: State, gone: seq<ComputeStake>, id: string, ended: ComputeStake)
    requires CountersOk(s, gone) && id in s.stakes && s.stakes[id].active
    requires !ended.active && ended.instantGrant == s.stakes[id].instantGrant
    ensures var stake := s.stakes[id];
      CountersOk(State(s.stakes[id := ended], Wrap(s.totalCompute - stake.computeUnits),
                       Wrap(s.totalCores - stake.cpuCores), s.totalIssued), gone)
  {
    CounterUpdate(s.stakes, gone, ActiveCores, id, ended);
    CounterUpdate(s.stakes, gone, ActiveUnits, id, ended);
    SumUpdate(s.stakes, InstantGrant, id, ended);
  }

  lemma EndedIsOk(stake: ComputeStake, now: real)
    requires StakeOk(stake) && stake.active && now - stake.stakedAt >= MIN_STAKE_DURATION_SEC
    ensures StakeOk(Ended(stake, now))
  {
    var ended := Ended(stake, now);
    assert EarnedBy(ended, now) == EarnedBy(stake, now);
  }

  lemma UnstakeKeepsConsistent(s: State, gone: seq<ComputeStake>, id: string, now: real)
    requires Consistent(s, gone)
    ensures Consistent(Unstaked(s, id, now), gone)
  {
    if CanUnstake(s, id, now) {
      UnstakeKeepsCounters(s, gone, id, Ended(s.stakes[id], now));
      EndedIsOk(s.stakes[id], now);
    }
  }

  lemma DebitedIsOk(stake: ComputeStake, cost: uint64)
    requires StakeOk(stake) && stake.allowance >= cost
    ensures StakeOk(stake.(allowance := stake.allowance - cost))
  {
    var debited := stake.(allowance := stake.allowance - cost);
    assert EarnedBy(debited, stake.unstakedAt) == EarnedBy(stake, stake.unstakedAt);
  }

  lemma DebitKeepsCounters(s: State, gone: seq<ComputeStake>, id: string, cost: uint64)
    requires CountersOk(s, gone) && id in s.stakes && s.stakes[id].allowance >= cost
    ensures CountersOk(Debited(s, id, cost), gone)
  {
    var debited := Debited(s, id, cost).stakes[id];
    SumUpdate(s.stakes, ActiveCores, id, debited);
    SumUpdate(s.stakes, ActiveUnits, id, debited);
    SumUpdate(s.stakes, InstantGrant, id, debited);
  }

  lemma DebitKeepsConsistent(s: State, gone: seq<ComputeStake>, id: string, cost: uint64)
    requires Consistent(s, gone) && id in s.stakes && s.stakes[id].allowance >= cost
    ensures Consistent(Debited(s, id, cost), gone)
  {
    DebitKeepsCounters(s, gone, id, cost);
    DebitedIsOk(s.stakes[id], cost);
  }

  /** A stake's active cores are part of the total. */
  lemma PartOfTotal(s: State, gone: seq<ComputeStake>, id: string)
    requires id in s.stakes
    ensures ActiveCores(s.stakes[id]) <= Total(s.stakes, gone, ActiveCores)
    ensures ActiveUnits(s.stakes[id]) <= Total(s.stakes, gone, ActiveUnits)
  {
    SumMember(s.stakes, ActiveCores, id);
    SumMember(s.stakes, ActiveUnits, id);
    SumOverNonNegative(gone, ActiveCores);
    SumOverNonNegative(gone, ActiveUnits);
  }

  /** Taking d away from x passes a multiple of 2^64. */
  predicate Crosses(x: int, d: int) {
    (x - d) / TWO_64 != x / TWO_64
  }

  lemma BelowIffCrosses(x: nat, d: uint64)
    ensures Wrap(x) < d <==> Crosses(x, d)
  {}

  /** An unstake takes a counter below zero exactly when the true total passes a multiple of 2^64. */
  lemma UnstakeUnderflowsIff(s: State, gone: seq<ComputeStake>, id: string, now: real)
    requires Consistent(s, gone) && CanUnstake(s, id, now)
    ensures var stake := s.stakes[id];
      var cores, units := Total(s.stakes, gone, ActiveCores), Total(s.stakes, gone, ActiveUnits);
      && (s.totalCores < stake.cpuCores <==> Crosses(cores, stake.cpuCores))
      && (s.totalCompute < stake.computeUnits <==> Crosses(units, stake.computeUnits))
      && (cores < TWO_64 ==> s.totalCores >= stake.cpuCores)
      && (units < TWO_64 ==> s.totalCompute >= stake.computeUnits)
  {
    PartOfTotal(s, gone, id);
    BelowIffCrosses(Total(s.stakes, gone, ActiveCores), s.stakes[id].cpuCores);
    BelowIffCrosses(Total(s.stakes, gone, ActiveUnits), s.stakes[id].computeUnits);
  }

  // ----- Which stakes can be overwritten -----

  /** Every stake is stored under its own staker and time, and an ended one is at least an hour old. */
  ghost predicate KeyedByTime(s: State, clock: real) {
    forall id :: id in s.stakes ==>
      var stake := s.stakes[id];
      && id == StakeId(stake.staker, stake.stakedAt) && 0.0 <= stake.stakedAt <= clock
      && (!stake.active ==> stake.stakedAt + MIN_STAKE_DURATION_SEC <= clock)
  }

  lemma StakeKeepsKeys(
    s: State, clock: real, staker: string, cores: uint64, ram: uint64, units: uint64, now: real)
    requires KeyedByTime(s, clock) && 0.0 <= clock <= now
    ensures KeyedByTime(Staked(s, staker, cores, ram, units, now), now)
  {}

  lemma UnstakeKeepsKeys(s: State, clock: real, id: string, now: real)
    requires KeyedByTime(s, clock) && clock <= now
    ensures KeyedByTime(Unstaked(s, id, now), now)
  {}

  lemma DebitKeepsKeys(s: State, clock: real, id: string, cost: uint64, now: real)
    requires KeyedByTime(s, clock) && clock <= now && id in s.stakes && s.stakes[id].allowance >= cost
    ensures KeyedByTime(Debited(s, id, cost), now)
  {}

  /** An id in use is met again only by the same staker in the same microsecond, and then the stake is still active. */
  lemma OverwrittenIsActive(s: State, clock: real, staker: string, now: real)
    requires KeyedByTime(s, clock) && 0.0 <= clock <= now && StakeId(staker, now) in s.stakes
    ensures var stake := s.stakes[StakeId(staker, now)];
      stake.active && stake.staker == staker && Micros(stake.stakedAt) == Micros(now)
  {
    var stake := s.stakes[StakeId(staker, now)];
    StakeIdInjective(staker, now, stake.staker, stake.stakedAt);
    if !stake.active {
      MicrosGrow(stake.stakedAt, now);
    }
  }

  // ----- The program -----

  class ComputeStaking {
    var stakes: map<string, ComputeStake>
    var totalStakedCompute: uint64
    var totalCpuCores: uint64
    var totalCreditGrantsIssued: uint64

    function View(): State
      reads this
    {
      State(stakes, totalStakedCompute, totalCpuCores, totalCreditGrantsIssued)
    }

    constructor ()
      ensures View() == EMPTY && Consistent(View(), [])
    {
      stakes := map[];
      totalStakedCompute, totalCpuCores, totalCreditGrantsIssued := 0, 0, 0;
    }

    /** One clock reading serves the id and the record. */
    method StakeCompute(staker: string, cores: uint64, ram: uint64, units: uint64, now: real)
      returns (id: string, creditGrant: uint64)
      modifies this
      ensures id == StakeId(staker, now) && creditGrant == Wrap(cores * CREDIT_GRANT_PER_CORE)
      ensures View() == old(Staked(View(), staker, cores, ram, units, now))
      ensures id == "stake_" + staker + "_" + PrintReal(now) && creditGrant == Wrap(cores * 10000000000)
      ensures stakes == old(stakes)[id := ComputeStake(
        staker, cores, ram, units, now, 0.0, true, 1500.0, creditGrant, creditGrant, creditGrant, false)]
      ensures totalStakedCompute == Wrap(old(totalStakedCompute) + units)
      ensures totalCpuCores == Wrap(old(totalCpuCores) + cores)
      ensures totalCreditGrantsIssued == Wrap(old(totalCreditGrantsIssued) + creditGrant)
    {
      id := StakeId(staker, now);
      creditGrant := Wrap(cores * CREDIT_GRANT_PER_CORE);
      totalCreditGrantsIssued := Wrap(totalCreditGrantsIssued + creditGrant);
      var allowance := Wrap(cores * GAS_CREDIT_ALLOWANCE_PER_CORE);
      var stake := ComputeStake(
        staker, cores, ram, units, now, 0.0, true, REWARD_RATE, creditGrant, creditGrant, allowance, false);
      stakes := stakes[id := stake];
      totalStakedCompute := Wrap(totalStakedCompute + units);
      totalCpuCores := Wrap(totalCpuCores + cores);
    }

    method UnstakeCompute(id: string, now: real) returns (ok: bool, additionalCredits: int)
      modifies this
      ensures ok <==> old(CanUnstake(View(), id, now))
      ensures View() == old(Unstaked(View(), id, now))
      ensures additionalCredits == if ok then old(EarnedBy(stakes[id], now)) else 0
      ensures ok <==> id in old(stakes) && old(stakes)[id].active && now - old(stakes)[id].stakedAt >= 3600.0
      ensures ok ==>
        var stake := old(stakes)[id];
        && additionalCredits == (stake.computeUnits as real * stake.rewardRate * (now - stake.stakedAt)).Floor
        && stakes == old(stakes)[id := stake.(active := false, unstakedAt := now,
                                              totalGrants := Wrap(stake.totalGrants + additionalCredits))]
        && totalStakedCompute == Wrap(old(totalStakedCompute) - stake.computeUnits)
        && totalCpuCores == Wrap(old(totalCpuCores) - stake.cpuCores)
      ensures !ok ==> stakes == old(stakes)
      ensures totalCreditGrantsIssued == old(totalCreditGrantsIssued)
    {
      if id !in stakes {
        return false, 0;
      }
      if !stakes[id].active {
        return false, 0;
      }
      var stake := stakes[id];
      var duration := now - stake.stakedAt;
      if duration < MIN_STAKE_DURATION_SEC {
        return false, 0;
      }
      additionalCredits := TimeRewards(stake.computeUnits, stake.rewardRate, duration);
      stake := stake.(totalGrants := Wrap(stake.totalGrants + additionalCredits));
      stake := stake.(active := false);
      stake := stake.(unstakedAt := now);
      stakes := stakes[id := stake];
      totalStakedCompute := Wrap(totalStakedCompute - stake.computeUnits);
      totalCpuCores := Wrap(totalCpuCores - stake.cpuCores);
      ok := true;
    }

    /** Debits whichever eligible stake the map yields first. */
    method ConsumeGasAllowance(user: string, cost: uint64) returns (ok: bool, ghost pick: Option<string>)
      modifies this
      ensures LegalPick(old(View()), user, cost, pick) && ok == pick.Some?
      ensures View() == if ok then Debited(old(View()), pick.value, cost) else old(View())
      ensures ok ==>
        && pick.Some? && pick.value in old(stakes)
        && var stake := old(stakes)[pick.value];
        && stake.staker == user && stake.active && stake.allowance >= cost
        && stakes == old(stakes)[pick.value := stake.(allowance := stake.allowance - cost)]
      ensures !ok ==> stakes == old(stakes) && forall id :: id in stakes ==>
        var stake := stakes[id];
        !(stake.staker == user && stake.active && stake.allowance >= cost)
    {
      ghost var before := View();
      var rest := stakes.Keys;
      while rest != {}
        invariant View() == before && rest <= stakes.Keys
        invariant forall id :: Eligible(before, user, cost, id) ==> id in rest
        decreases rest
      {
        var id :| id in rest;
        var stake := stakes[id];
        if stake.staker == user && stake.active {
          if stake.allowance >= cost {
            stakes := stakes[id := stake.(allowance := stake.allowance - cost)];
            return true, Some(id);
          }
        }
        rest := rest - {id};
      }
      assert forall id :: id in stakes ==> !Eligible(before, user, cost, id);
      return false, None;
    }
  }
}
