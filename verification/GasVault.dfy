/** The gas vault over the stakes: who pays, and what is conserved over whole runs. */
module GasVault {
  import opened Common
  import opened Decimal
  import opened MapSums
  import CS = ComputeStaking

  const MAX_TX_COUNT: nat := 1000

  datatype Vault = Vault(reserves: uint64, totalPaid: uint64, paidByCompute: uint64, counts: map<string, nat>)

  function Count(v: Vault, user: string): nat {
    if user in v.counts then v.counts[user] else 0
  }

  datatype Ledger = Ledger(staking: CS.State, linked: bool, vault: Vault)

  datatype PayResult = PayResult(ledger: Ledger, ok: bool, byCompute: bool)

  /** Paying gas, given the outcome of the search among the user's stakes. */
  function Paid(l: Ledger, user: string, gas: uint64, pick: Option<string>): PayResult
    requires pick.Some? ==> CS.Eligible(l.staking, user, gas, pick.value)
  {
    var n, v := Count(l.vault, user), l.vault;
    var touched := v.(counts := v.counts[user := n]);
    if n > MAX_TX_COUNT then PayResult(l.(vault := touched), false, false)
    else if l.linked && pick.Some? then
      PayResult(
        Ledger(CS.Debited(l.staking, pick.value, gas), true,
               Vault(v.reserves, Wrap(v.totalPaid + gas), Wrap(v.paidByCompute + gas), v.counts[user := n + 1])),
        true, true)
    else if v.reserves < gas then PayResult(l.(vault := touched), false, false)
    else
      PayResult(
        l.(vault := Vault(v.reserves - gas, Wrap(v.totalPaid + gas), v.paidByCompute, v.counts[user := n + 1])),
        true, false)
  }

  /** Whether gas can be paid at all, whatever the order of the search. */
  ghost predicate CanPay(l: Ledger, user: string, gas: uint64) {
    && Count(l.vault, user) <= MAX_TX_COUNT
    && ((l.linked && exists id :: CS.Eligible(l.staking, user, gas, id)) || l.vault.reserves >= gas)
  }

  /** A payment succeeds exactly when one stake alone covers it or the reserves do. */
  lemma PaySucceedsIff(l: Ledger, user: string, gas: uint64, pick: Option<string>)
    requires CS.LegalPick(l.staking, user, gas, pick)
    ensures Paid(l, user, gas, pick).ok <==> CanPay(l, user, gas)
  {}

  function OwnAllowance(user: string): CS.ComputeStake -> int {
    (stake: CS.ComputeStake) => if stake.staker == user then stake.allowance else 0
  }

  /**
   * The user's own allowance comes before the reserves: below the rate limit a payment is made from a stake exactly
   * when one own stake covers it, and then the reserves are untouched; otherwise the stakes are untouched and the
   * reserves pay if they can.
   */
  lemma OwnStakeComesFirst(l: Ledger, user: string, gas: uint64, pick: Option<string>)
    requires CS.LegalPick(l.staking, user, gas, pick) && Count(l.vault, user) <= 1000
    ensures var p, v, stakes := Paid(l, user, gas, pick), l.vault, l.staking.stakes;
      var v', stakes' := p.ledger.vault, p.ledger.staking.stakes;
      if l.linked && exists id :: id in stakes && CS.Covers(stakes[id], user, gas) then
        && p.ok && p.byCompute
        && v'.reserves == v.reserves && v'.paidByCompute == Wrap(v.paidByCompute + gas)
        && pick.Some? && pick.value in stakes && CS.Covers(stakes[pick.value], user, gas)
        && stakes' == stakes[pick.value := stakes[pick.value].(allowance := stakes[pick.value].allowance - gas)]
        && Sum(stakes', OwnAllowance(user)) == Sum(stakes, OwnAllowance(user)) - gas
      else
        && !p.byCompute && (p.ok <==> v.reserves >= gas)
        && stakes' == stakes && v'.paidByCompute == v.paidByCompute
        && v'.reserves == v.reserves - (if p.ok then gas else 0)
  {
    var stakes := l.staking.stakes;
    if pick.Some? {
      SumUpdate(stakes, OwnAllowance(user), pick.value, CS.Debited(l.staking, pick.value, gas).stakes[pick.value]);
    }
    assert forall id :: CS.Eligible(l.staking, user, gas, id) <==> id in stakes && CS.Covers(stakes[id], user, gas);
  }

  /**
   * What a payment does, field by field: at most 1000 payments before; the own stake first, by exactly the gas; else
   * the reserves, if they suffice; a failed payment changes nothing but creates the user's count.
   */
  ghost predicate Settled(l: Ledger, user: string, gas: uint64, pick: Option<string>, ok: bool, l': Ledger) {
    var n := if user in l.vault.counts then l.vault.counts[user] else 0;
    var v, v', stakes := l.vault, l'.vault, l.staking.stakes;
    var own := n <= 1000 && l.linked && exists id :: id in stakes && CS.Covers(stakes[id], user, gas);
    && ok == (own || (n <= 1000 && v.reserves >= gas))
    && v'.counts == v.counts[user := if ok then n + 1 else n]
    && v'.totalPaid == (if ok then Wrap(v.totalPaid + gas) else v.totalPaid)
    && v'.paidByCompute == (if own then Wrap(v.paidByCompute + gas) else v.paidByCompute)
    && v'.reserves == v.reserves - (if ok && !own then gas else 0)
    && l'.linked == l.linked
    && if own then
         && pick.Some? && pick.value in stakes && CS.Covers(stakes[pick.value], user, gas)
         && l'.staking == l.staking.(stakes :=
              stakes[pick.value := stakes[pick.value].(allowance := stakes[pick.value].allowance - gas)])
       else
         l'.staking == l.staking
  }

  lemma PaidIsSettled(l: Ledger, user: string, gas: uint64, pick: Option<string>)
    requires pick.Some? ==> CS.Eligible(l.staking, user, gas, pick.value)
    requires l.linked && Count(l.vault, user) <= MAX_TX_COUNT ==> CS.LegalPick(l.staking, user, gas, pick)
    ensures var p := Paid(l, user, gas, pick); Settled(l, user, gas, pick, p.ok, p.ledger)
  {
    assert forall id :: CS.Eligible(l.staking, user, gas, id) <==>
      id in l.staking.stakes && CS.Covers(l.staking.stakes[id], user, gas);
  }

  /** The search order decides which stake is debited and nothing else. */
  lemma PayIsOrderIndependent(l: Ledger, user: string, gas: uint64, pick: Option<string>, pick': Option<string>)
    requires CS.LegalPick(l.staking, user, gas, pick) && CS.LegalPick(l.staking, user, gas, pick')
    ensures var r, r' := Paid(l, user, gas, pick), Paid(l, user, gas, pick');
      && r.ok == r'.ok && r.byCompute == r'.byCompute && r.ledger.vault == r'.ledger.vault
      && r.ledger.staking.(stakes := map[]) == r'.ledger.staking.(stakes := map[])
      && Sum(r.ledger.staking.stakes, CS.Allowance) == Sum(r'.ledger.staking.stakes, CS.Allowance)
  {
    if pick.Some? {
      DebitLowersAllowance(l.staking, pick.value, gas);
    }
    if pick'.Some? {
      DebitLowersAllowance(l.staking, pick'.value, gas);
    }
  }

  lemma DebitLowersAllowance(s: CS.State, id: string, cost: uint64)
    requires id in s.stakes && s.stakes[id].allowance >= cost
    ensures Sum(CS.Debited(s, id, cost).stakes, CS.Allowance) == Sum(s.stakes, CS.Allowance) - cost
  {
    SumUpdate(s.stakes, CS.Allowance, id, CS.Debited(s, id, cost).stakes[id]);
  }

  // ----- Runs -----

  datatype Event =
    | Stake(staker: string, cores: uint64, ram: uint64, units: uint64)
    | Unstake(id: string)
    | Deposit(amount: uint64)
    | Pay(user: string, gas: uint64, pick: Option<string>)
    | Link(linked: bool)

  /**
   * The ledger with unbounded totals of what happened, for comparison with its 64-bit counters, and with
   * the stake records lost because their id was used again.
   */
  datatype Run = Run(
    ledger: Ledger, clock: real, initial: nat, deposited: nat, issued: nat, paid: nat, paidByCompute: nat,
    payers: multiset<string>, gone: seq<CS.ComputeStake>)

  function Start(initial: uint64, linked: bool, now: real): Run {
    Run(Ledger(CS.EMPTY, linked, Vault(initial, 0, 0, map[])), now, initial, 0, 0, 0, 0, multiset{}, [])
  }

  /** Time does not go back, and the search outcome is one some order leads to. */
  ghost predicate Legal(r: Run, e: Event, now: real) {
    now >= r.clock && (e.Pay? ==> CS.LegalPick(r.ledger.staking, e.user, e.gas, e.pick))
  }

  ghost function Next(r: Run, e: Event, now: real): Run
    requires Legal(r, e, now)
  {
    match e
    case Stake(staker, cores, ram, units) => StakeStep(r, staker, cores, ram, units, now)
    case Unstake(id) => r.(clock := now, ledger := r.ledger.(staking := CS.Unstaked(r.ledger.staking, id, now)))
    case Deposit(amount) =>
      var v := r.ledger.vault;
      r.(clock := now, deposited := r.deposited + amount,
         ledger := r.ledger.(vault := v.(reserves := Wrap(v.reserves + amount))))
    case Pay(user, gas, pick) =>
      var p := Paid(r.ledger, user, gas, pick);
      r.(clock := now, ledger := p.ledger,
         paid := r.paid + (if p.ok then gas else 0),
         paidByCompute := r.paidByCompute + (if p.byCompute then gas else 0),
         payers := if p.ok then r.payers + multiset{user} else r.payers)
    case Link(linked) => r.(clock := now, ledger := r.ledger.(linked := linked))
  }

  ghost function StakeStep(r: Run, staker: string, cores: uint64, ram: uint64, units: uint64, now: real): Run {
    r.(clock := now,
       ledger := r.ledger.(staking := CS.Staked(r.ledger.staking, staker, cores, ram, units, now)),
       issued := r.issued + Wrap(cores * CS.CREDIT_GRANT_PER_CORE),
       gone := Gone(r.ledger.staking.stakes, r.gone, CS.StakeId(staker, now)))
  }

  ghost predicate LegalRun(r: Run, events: seq<(Event, real)>)
    decreases |events|
  {
    events == [] || (Legal(r, events[0].0, events[0].1) && LegalRun(Next(r, events[0].0, events[0].1), events[1..]))
  }

  ghost function After(r: Run, events: seq<(Event, real)>): Run
    requires LegalRun(r, events)
    decreases |events|
  {
    if events == [] then r else After(Next(r, events[0].0, events[0].1), events[1..])
  }

  // ----- Conservation -----

  /** Every credit ever granted is still an allowance, or was spent through the vault, or was lost with its record. */
  ghost predicate CreditsConserved(r: Run, gone: seq<CS.ComputeStake>) {
    && r.paidByCompute + Total(r.ledger.staking.stakes, gone, CS.Allowance) == r.issued
    && r.issued == Total(r.ledger.staking.stakes, gone, CS.InstantGrant)
    && r.ledger.staking.totalIssued == Wrap(r.issued)
    && r.ledger.vault.paidByCompute == Wrap(r.paidByCompute)
  }

  /** What the reserves paid and what they hold is what was put in. */
  ghost predicate ReservesConserved(r: Run) {
    && r.paidByCompute <= r.paid && r.ledger.vault.totalPaid == Wrap(r.paid)
    && r.ledger.vault.reserves == Wrap(r.initial + r.deposited - (r.paid - r.paidByCompute))
    && (r.initial + r.deposited < TWO_64 ==>
          r.paid - r.paidByCompute + r.ledger.vault.reserves == r.initial + r.deposited)
  }

  /** A user's count is the number of that user's successful payments, at most 1001. */
  ghost predicate CountsRight(r: Run) {
    forall user: string :: Count(r.ledger.vault, user) == r.payers[user] <= MAX_TX_COUNT + 1
  }

  ghost predicate Inv(r: Run) {
    CS.Consistent(r.ledger.staking, r.gone) && CreditsConserved(r, r.gone) && ReservesConserved(r) && CountsRight(r)
  }

  lemma StakeKeepsInv(r: Run, staker: string, cores: uint64, ram: uint64, units: uint64, now: real)
    requires Inv(r)
    ensures Inv(StakeStep(r, staker, cores, ram, units, now))
  {
    var s, id, stake := r.ledger.staking, CS.StakeId(staker, now), CS.NewStake(staker, cores, ram, units, now);
    CS.StakeKeepsConsistent(s, r.gone, staker, cores, ram, units, now);
    PutAdds(s.stakes, r.gone, CS.Allowance, id, stake);
    PutAdds(s.stakes, r.gone, CS.InstantGrant, id, stake);
    WrapAdd(r.issued, stake.instantGrant);
  }

  lemma UnstakeKeepsInv(r: Run, id: string, now: real)
    requires Inv(r) && now >= r.clock
    ensures Inv(Next(r, Unstake(id), now))
  {
    var s := r.ledger.staking;
    CS.UnstakeKeepsConsistent(s, r.gone, id, now);
    if CS.CanUnstake(s, id, now) {
      SumUpdate(s.stakes, CS.Allowance, id, CS.Ended(s.stakes[id], now));
      SumUpdate(s.stakes, CS.InstantGrant, id, CS.Ended(s.stakes[id], now));
    }
  }

  lemma DepositKeepsInv(r: Run, amount: uint64, now: real)
    requires Inv(r) && now >= r.clock
    ensures Inv(Next(r, Deposit(amount), now))
  {
    WrapAdd(r.initial + r.deposited - (r.paid - r.paidByCompute), amount);
  }

  lemma ComputePaymentKeepsCredits(r: Run, user: string, gas: uint64, id: string, now: real)
    requires CreditsConserved(r, r.gone) && now >= r.clock && CS.Eligible(r.ledger.staking, user, gas, id)
    requires Count(r.ledger.vault, user) <= MAX_TX_COUNT && r.ledger.linked
    ensures CreditsConserved(Next(r, Pay(user, gas, Some(id)), now), r.gone)
  {
    var s := r.ledger.staking;
    DebitLowersAllowance(s, id, gas);
    SumUpdate(s.stakes, CS.InstantGrant, id, CS.Debited(s, id, gas).stakes[id]);
    WrapAdd(r.paidByCompute, gas);
  }

  lemma OtherPaymentKeepsCredits(r: Run, user: string, gas: uint64, pick: Option<string>, now: real)
    requires CreditsConserved(r, r.gone)
    requires Legal(r, Pay(user, gas, pick), now) && !Paid(r.ledger, user, gas, pick).byCompute
    ensures CreditsConserved(Next(r, Pay(user, gas, pick), now), r.gone)
    ensures Next(r, Pay(user, gas, pick), now).ledger.staking == r.ledger.staking
  {}

  lemma ReserveSpends(put: nat, spent: int, reserves: uint64, gas: uint64)
    requires gas <= reserves == Wrap(put - spent)
    ensures reserves - gas == Wrap(put - (spent + gas))
  {
    WrapAdd(put - spent, 0 - gas);
    WrapSmall(reserves - gas);
  }

  lemma PaymentKeepsReserves(r: Run, user: string, gas: uint64, pick: Option<string>, now: real)
    requires ReservesConserved(r) && Legal(r, Pay(user, gas, pick), now)
    ensures ReservesConserved(Next(r, Pay(user, gas, pick), now))
  {
    WrapAdd(r.paid, gas);
    var p := Paid(r.ledger, user, gas, pick);
    if p.ok && !p.byCompute {
      ReserveSpends(r.initial + r.deposited, r.paid - r.paidByCompute, r.ledger.vault.reserves, gas);
    }
  }

  lemma PaymentKeepsCounts(r: Run, user: string, gas: uint64, pick: Option<string>, now: real)
    requires CountsRight(r) && Legal(r, Pay(user, gas, pick), now)
    ensures CountsRight(Next(r, Pay(user, gas, pick), now))
  {
    assert Count(r.ledger.vault, user) == r.payers[user];
  }

  lemma PaymentKeepsInv(r: Run, user: string, gas: uint64, pick: Option<string>, now: real)
    requires Inv(r) && Legal(r, Pay(user, gas, pick), now)
    ensures Inv(Next(r, Pay(user, gas, pick), now))
  {
    PaymentKeepsReserves(r, user, gas, pick, now);
    PaymentKeepsCounts(r, user, gas, pick, now);
    if Paid(r.ledger, user, gas, pick).byCompute {
      ComputePaymentKeepsCredits(r, user, gas, pick.value, now);
      CS.DebitKeepsConsistent(r.ledger.staking, r.gone, pick.value, gas);
    } else {
      OtherPaymentKeepsCredits(r, user, gas, pick, now);
    }
  }

  lemma StepKeepsInv(r: Run, e: Event, now: real)
    requires Inv(r) && Legal(r, e, now)
    ensures Inv(Next(r, e, now))
  {
    match e
    case Stake(staker, cores, ram, units) => StakeKeepsInv(r, staker, cores, ram, units, now);
    case Unstake(id) => UnstakeKeepsInv(r, id, now);
    case Deposit(amount) => DepositKeepsInv(r, amount, now);
    case Link(_) =>
    case Pay(user, gas, pick) => PaymentKeepsInv(r, user, gas, pick, now);
  }

  lemma {:induction false} RunKeepsInv(r: Run, events: seq<(Event, real)>)
    requires Inv(r) && LegalRun(r, events)
    ensures Inv(After(r, events))
    decreases |events|
  {
    if events != [] {
      StepKeepsInv(r, events[0].0, events[0].1);
      RunKeepsInv(Next(r, events[0].0, events[0].1), events[1..]);
    }
  }

  /**
   * Conservation over every run, with every stake's own record right. The unbounded totals balance exactly,
   * counting the records lost to reused ids; the counters are their 64-bit images, so while fewer than 2^64
   * credits are issued the counters themselves balance.
   */
  lemma ConservationOverEveryRun(initial: uint64, linked: bool, begin: real, events: seq<(Event, real)>)
    requires LegalRun(Start(initial, linked, begin), events)
    ensures var r := After(Start(initial, linked, begin), events);
      && CS.Consistent(r.ledger.staking, r.gone) && CreditsConserved(r, r.gone)
      && ReservesConserved(r) && CountsRight(r)
      && (r.issued < TWO_64 ==>
            r.ledger.vault.paidByCompute + Total(r.ledger.staking.stakes, r.gone, CS.Allowance)
            == r.ledger.staking.totalIssued)
  {
    RunKeepsInv(Start(initial, linked, begin), events);
    var r := After(Start(initial, linked, begin), events);
    if r.issued < TWO_64 {
      CountersBalance(r);
    }
  }

  lemma CountersBalance(r: Run)
    requires CreditsConserved(r, r.gone) && r.issued < TWO_64
    ensures r.ledger.vault.paidByCompute + Total(r.ledger.staking.stakes, r.gone, CS.Allowance)
            == r.ledger.staking.totalIssued
  {
    SumNonNegative(r.ledger.staking.stakes, CS.Allowance);
    SumOverNonNegative(r.gone, CS.Allowance);
    WrapSmall(r.issued);
    WrapSmall(r.paidByCompute);
  }

  // ----- What a reused id does to the balance -----

  /** The books balance over the stakes in the map alone. */
  ghost predicate Balanced(r: Run) {
    CS.Consistent(r.ledger.staking, []) && CreditsConserved(r, [])
  }

  /** Staking keeps the balance exactly when the record it overwrites, if any, counted for nothing. */
  lemma StakingKeepsBalanceIff(r: Run, staker: string, cores: uint64, ram: uint64, units: uint64, now: real)
    requires Balanced(r)
    ensures var id, stakes := CS.StakeId(staker, now), r.ledger.staking.stakes;
      Balanced(StakeStep(r, staker, cores, ram, units, now)) <==> (id in stakes ==> CS.Harmless(stakes[id]))
  {
    var s, id := r.ledger.staking, CS.StakeId(staker, now);
    CS.StakeKeepsSumsIff(s, staker, cores, ram, units, now);
    StakeKeepsCreditsIff(r, staker, cores, ram, units, now);
    assert id in s.stakes ==> CS.StakeOk(s.stakes[id]);
  }

  lemma StakeKeepsCreditsIff(r: Run, staker: string, cores: uint64, ram: uint64, units: uint64, now: real)
    requires CreditsConserved(r, [])
    ensures var id, stakes := CS.StakeId(staker, now), r.ledger.staking.stakes;
      CreditsConserved(StakeStep(r, staker, cores, ram, units, now), []) <==>
      (id in stakes ==> stakes[id].allowance == 0 && stakes[id].instantGrant == 0)
  {
    var s, id, stake := r.ledger.staking, CS.StakeId(staker, now), CS.NewStake(staker, cores, ram, units, now);
    PutAdds(s.stakes, [], CS.Allowance, id, stake);
    PutAdds(s.stakes, [], CS.InstantGrant, id, stake);
    WrapAdd(r.issued, stake.instantGrant);
    if id in s.stakes {
      LastOf(s.stakes[id], CS.Allowance);
      LastOf(s.stakes[id], CS.InstantGrant);
    }
  }

  lemma LastOf(stake: CS.ComputeStake, f: CS.ComputeStake -> int)
    ensures SumOver([stake], f) == f(stake)
  {
    assert [stake][..0] == [];
  }

  /** In any state a run reaches, the books balance exactly when what was lost counts for nothing. */
  lemma BalancedIffNothingLost(initial: uint64, linked: bool, begin: real, events: seq<(Event, real)>)
    requires LegalRun(Start(initial, linked, begin), events)
    ensures var r := After(Start(initial, linked, begin), events);
      Balanced(r) <==>
      && SumOver(r.gone, CS.Allowance) == 0 && SumOver(r.gone, CS.InstantGrant) == 0
      && Wrap(SumOver(r.gone, CS.ActiveCores)) == 0 && Wrap(SumOver(r.gone, CS.ActiveUnits)) == 0
  {
    RunKeepsInv(Start(initial, linked, begin), events);
    var r := After(Start(initial, linked, begin), events);
    CreditsBalanceIff(r);
    if SumOver(r.gone, CS.InstantGrant) == 0 {
      CountersBalanceIff(r.ledger.staking, r.gone);
    }
  }

  lemma CreditsBalanceIff(r: Run)
    requires CreditsConserved(r, r.gone)
    ensures CreditsConserved(r, []) <==> SumOver(r.gone, CS.Allowance) == 0 && SumOver(r.gone, CS.InstantGrant) == 0
  {}

  lemma CountersBalanceIff(s: CS.State, gone: seq<CS.ComputeStake>)
    requires CS.CountersOk(s, gone) && SumOver(gone, CS.InstantGrant) == 0
    ensures CS.CountersOk(s, []) <==>
      Wrap(SumOver(gone, CS.ActiveCores)) == 0 && Wrap(SumOver(gone, CS.ActiveUnits)) == 0
  {
    WrapLost(Sum(s.stakes, CS.ActiveCores), SumOver(gone, CS.ActiveCores));
    WrapLost(Sum(s.stakes, CS.ActiveUnits), SumOver(gone, CS.ActiveUnits));
  }

  lemma WrapLost(x: int, lost: int)
    ensures Wrap(x + lost) == Wrap(x) <==> Wrap(lost) == 0
  {
    WrapAdd(lost, x);
  }

  // ----- Which runs reuse an id -----

  /** No address stakes twice within the same microsecond. */
  predicate DistinctStakes(events: seq<(Event, real)>) {
    forall i, j :: 0 <= i < j < |events| && events[i].0.Stake? && events[j].0.Stake? ==>
      !SameStake(events[i], events[j])
  }

  predicate SameStake(e: (Event, real), e': (Event, real)) {
    e.0.Stake? && e'.0.Stake? && e.0.staker == e'.0.staker && Micros(e.1) == Micros(e'.1)
  }

  /** No stake event takes up a stake already there. */
  ghost predicate NewTo(s: CS.State, events: seq<(Event, real)>) {
    forall i :: 0 <= i < |events| && events[i].0.Stake? ==> CS.StakeId(events[i].0.staker, events[i].1) !in s.stakes
  }

  lemma {:induction false} ClockAdvances(r: Run, events: seq<(Event, real)>, i: nat)
    requires LegalRun(r, events) && i < |events|
    ensures r.clock <= events[i].1
    decreases |events|
  {
    if i > 0 {
      ClockAdvances(Next(r, events[0].0, events[0].1), events[1..], i - 1);
    }
  }

  /** The first event leaves the rest new exactly when they were and none repeats it. */
  lemma NewToNext(r: Run, events: seq<(Event, real)>)
    requires events != [] && LegalRun(r, events) && r.clock >= 0.0
    ensures var next := Next(r, events[0].0, events[0].1);
      NewTo(next.ledger.staking, events[1..]) <==>
      && NewTo(r.ledger.staking, events[1..])
      && forall j :: 1 <= j < |events| ==> !SameStake(events[0], events[j])
  {
    var e, now, rest := events[0].0, events[0].1, events[1..];
    var s, s' := r.ledger.staking, Next(r, e, now).ledger.staking;
    forall j | 1 <= j < |events| && events[j].0.Stake?
      ensures CS.StakeId(events[j].0.staker, events[j].1) in s'.stakes <==>
        CS.StakeId(events[j].0.staker, events[j].1) in s.stakes || SameStake(events[0], events[j])
    {
      ClockAdvances(r, events, j);
      if e.Stake? {
        CS.StakeIdInjective(e.staker, now, events[j].0.staker, events[j].1);
      }
    }
    assert forall j :: 1 <= j < |events| ==> events[j] == rest[j - 1];
  }

  lemma DistinctStakesSplit(events: seq<(Event, real)>)
    requires events != []
    ensures DistinctStakes(events) <==>
      DistinctStakes(events[1..]) && forall j :: 1 <= j < |events| ==> !SameStake(events[0], events[j])
  {
    assert forall j :: 1 <= j < |events| ==> events[j] == events[1..][j - 1];
  }

  lemma {:induction false} LostGrows(r: Run, events: seq<(Event, real)>)
    requires LegalRun(r, events)
    ensures |r.gone| <= |After(r, events).gone|
    decreases |events|
  {
    if events != [] {
      LostGrows(Next(r, events[0].0, events[0].1), events[1..]);
    }
  }

  lemma NothingLostStep(r: Run, events: seq<(Event, real)>)
    requires events != [] && LegalRun(r, events) && r.clock >= 0.0 && r.gone == []
    ensures var next := Next(r, events[0].0, events[0].1);
      NewTo(r.ledger.staking, events) && DistinctStakes(events) <==>
      next.gone == [] && NewTo(next.ledger.staking, events[1..]) && DistinctStakes(events[1..])
  {
    NewToNext(r, events);
    DistinctStakesSplit(events);
    NewToSplit(r.ledger.staking, events);
  }

  lemma {:induction false} NothingLostIff(r: Run, events: seq<(Event, real)>)
    requires LegalRun(r, events) && r.clock >= 0.0 && r.gone == []
    ensures After(r, events).gone == [] <==> NewTo(r.ledger.staking, events) && DistinctStakes(events)
    decreases |events|
  {
    if events != [] {
      var r' := Next(r, events[0].0, events[0].1);
      NothingLostStep(r, events);
      if r'.gone == [] {
        NothingLostIff(r', events[1..]);
      } else {
        LostGrows(r', events[1..]);
      }
    }
  }

  lemma NewToSplit(s: CS.State, events: seq<(Event, real)>)
    requires events != []
    ensures NewTo(s, events) <==>
      && (events[0].0.Stake? ==> CS.StakeId(events[0].0.staker, events[0].1) !in s.stakes)
      && NewTo(s, events[1..])
  {
    assert forall j :: 1 <= j < |events| ==> events[j] == events[1..][j - 1];
  }

  /** A run loses a record exactly when an address stakes twice within one microsecond; else its books balance. */
  lemma DistinctStakesIff(initial: uint64, linked: bool, begin: real, events: seq<(Event, real)>)
    requires LegalRun(Start(initial, linked, begin), events) && begin >= 0.0
    ensures After(Start(initial, linked, begin), events).gone == [] <==> DistinctStakes(events)
    ensures DistinctStakes(events) ==> Balanced(After(Start(initial, linked, begin), events))
  {
    NothingLostBalances(Start(initial, linked, begin), events);
  }

  lemma NothingLostBalances(r: Run, events: seq<(Event, real)>)
    requires LegalRun(r, events) && r.clock >= 0.0 && Inv(r) && r.gone == [] && r.ledger.staking.stakes == map[]
    ensures After(r, events).gone == [] <==> DistinctStakes(events)
    ensures After(r, events).gone == [] ==> Balanced(After(r, events))
  {
    NothingLostIff(r, events);
    RunKeepsInv(r, events);
  }

  /** One core staked twice at the same instant: the first grant is lost and the books no longer balance. */
  lemma DoubleStakeUnbalances()
    ensures var r := StakeStep(Start(0, true, 0.0), "a", 1, 0, 0, 0.0);
      Legal(r, Stake("a", 1, 0, 0), 0.0) && Balanced(r) && !Balanced(Next(r, Stake("a", 1, 0, 0), 0.0))
  {
    var r := Start(0, true, 0.0);
    StakingKeepsBalanceIff(r, "a", 1, 0, 0, 0.0);
    StakingKeepsBalanceIff(StakeStep(r, "a", 1, 0, 0, 0.0), "a", 1, 0, 0, 0.0);
  }

  // ----- Ended stakes -----

  lemma StepKeepsKeys(r: Run, e: Event, now: real)
    requires CS.KeyedByTime(r.ledger.staking, r.clock) && Legal(r, e, now) && r.clock >= 0.0
    ensures CS.KeyedByTime(Next(r, e, now).ledger.staking, now)
  {
    match e
    case Stake(staker, cores, ram, units) =>
      CS.StakeKeepsKeys(r.ledger.staking, r.clock, staker, cores, ram, units, now);
    case Unstake(id) => CS.UnstakeKeepsKeys(r.ledger.staking, r.clock, id, now);
    case Pay(user, gas, pick) =>
      if Paid(r.ledger, user, gas, pick).byCompute {
        CS.DebitKeepsKeys(r.ledger.staking, r.clock, pick.value, gas, now);
      }
    case Deposit(_) =>
    case Link(_) =>
  }

  /** Every stake a run reaches is stored under its staker and time, and ended ones are at least an hour old. */
  lemma {:induction false} EveryRunIsKeyed(r: Run, events: seq<(Event, real)>)
    requires CS.KeyedByTime(r.ledger.staking, r.clock) && LegalRun(r, events) && r.clock >= 0.0
    ensures CS.KeyedByTime(After(r, events).ledger.staking, After(r, events).clock)
    decreases |events|
  {
    if events != [] {
      StepKeepsKeys(r, events[0].0, events[0].1);
      EveryRunIsKeyed(Next(r, events[0].0, events[0].1), events[1..]);
    }
  }

  lemma StepKeepsEnded(r: Run, e: Event, now: real, id: string)
    requires CS.KeyedByTime(r.ledger.staking, r.clock) && Legal(r, e, now) && r.clock >= 0.0
    requires id in r.ledger.staking.stakes && !r.ledger.staking.stakes[id].active
    ensures var stakes := Next(r, e, now).ledger.staking.stakes;
      id in stakes && stakes[id] == r.ledger.staking.stakes[id]
  {
    if e.Stake? && CS.StakeId(e.staker, now) == id {
      CS.OverwrittenIsActive(r.ledger.staking, r.clock, e.staker, now);
    }
  }

  /** A stake that ended stays as it was: unstaked at most once, never debited, never overwritten. */
  lemma {:induction false} EndedForever(r: Run, events: seq<(Event, real)>, id: string)
    requires CS.KeyedByTime(r.ledger.staking, r.clock) && LegalRun(r, events) && r.clock >= 0.0
    requires id in r.ledger.staking.stakes && !r.ledger.staking.stakes[id].active
    ensures var last := After(r, events).ledger.staking.stakes;
      id in last && last[id] == r.ledger.staking.stakes[id]
    decreases |events|
  {
    if events != [] {
      StepKeepsKeys(r, events[0].0, events[0].1);
      StepKeepsEnded(r, events[0].0, events[0].1, id);
      EndedForever(Next(r, events[0].0, events[0].1), events[1..], id);
    }
  }

  // ----- The advertised cover -----

  /** current_gas_credit_rate: the product is one of doubles, so it does not wrap. */
  function CreditRate(l: Ledger): int {
    (l.staking.totalCores as real * CS.GAS_CREDITS_PER_CORE_PER_SEC).Floor
  }

  /** can_cover_gas: any staked core counts as cover, else the reserves must do. */
  predicate CanCover(l: Ledger, gas: uint64) {
    (l.linked && CreditRate(l) > 0) || l.vault.reserves >= gas
  }

  lemma AnyCoreGivesRate(l: Ledger)
    ensures CreditRate(l) > 0 <==> l.staking.totalCores > 0
  {}

  /**
   * What can be paid was advertised as covered, unless the reserves are short and the core counter itself
   * wrapped to zero; below 2^64 active cores it cannot.
   */
  lemma PaidIsCoveredIff(l: Ledger, gone: seq<CS.ComputeStake>, user: string, gas: uint64)
    requires CS.Consistent(l.staking, gone) && CanPay(l, user, gas)
    ensures var cores := Total(l.staking.stakes, gone, CS.ActiveCores);
      && (CanCover(l, gas) <==> l.vault.reserves >= gas || Wrap(cores) != 0)
      && (cores < TWO_64 ==> CanCover(l, gas))
  {
    AnyCoreGivesRate(l);
    if l.vault.reserves < gas {
      PayerHasCores(l.staking, gone, user, gas);
    }
  }

  lemma PayerHasCores(s: CS.State, gone: seq<CS.ComputeStake>, user: string, gas: uint64)
    requires CS.RecordsOk(s) && gas > 0 && exists id :: CS.Eligible(s, user, gas, id)
    ensures Total(s.stakes, gone, CS.ActiveCores) > 0
  {
    var id :| CS.Eligible(s, user, gas, id);
    AllowanceNeedsCores(s.stakes[id]);
    CS.PartOfTotal(s, gone, id);
  }

  lemma AllowanceNeedsCores(stake: CS.ComputeStake)
    requires CS.StakeOk(stake) && stake.allowance > 0
    ensures stake.cpuCores > 0
  {}

  /** Advertised cover is not paid exactly to users over the rate limit and where only others' stakes give cover. */
  lemma CoveredButUnpaidIff(l: Ledger, user: string, gas: uint64)
    ensures CanCover(l, gas) && !CanPay(l, user, gas) <==>
      || (CanCover(l, gas) && Count(l.vault, user) > MAX_TX_COUNT)
      || (l.linked && l.staking.totalCores > 0 && l.vault.reserves < gas
          && forall id :: !CS.Eligible(l.staking, user, gas, id))
  {
    AnyCoreGivesRate(l);
  }

  /** Two runs that show both: cover from another's stake that is not paid, and a payment that was not covered. */
  lemma CoverIsNotPayment()
    ensures var l := StakeStep(Start(0, true, 0.0), "a", 1, 0, 0, 0.0).ledger;
      CanCover(l, 1) && !CanPay(l, "b", 1)
    ensures var r := StakeStep(Start(0, true, 0.0), "a", 1, 0, 0, 0.0);
      var l := StakeStep(r, "b", TWO_64 - 1, 0, 0, 0.0).ledger;
      CanPay(l, "a", 1) && !CanCover(l, 1)
  {
    var r := StakeStep(Start(0, true, 0.0), "a", 1, 0, 0, 0.0);
    var r' := StakeStep(r, "b", TWO_64 - 1, 0, 0, 0.0);
    AnyCoreGivesRate(r.ledger);
    AnyCoreGivesRate(r'.ledger);
    CS.StakeIdInjective("a", 0.0, "b", 0.0);
    assert CS.Eligible(r'.ledger.staking, "a", 1, CS.StakeId("a", 0.0));
  }

  // ----- The program -----

  /** Creating the count and then raising it is storing the raised one. */
  lemma CountCreated(v: Vault, user: string)
    ensures var n, created := Count(v, user), if user in v.counts then v.counts else v.counts[user := 0];
      && created == v.counts[user := n] && created[user := n + 1] == v.counts[user := n + 1]
  {}

  class GasVault {
    var solReserves: uint64
    var totalGasPaid: uint64
    var gasPaidByCompute: uint64
    var userTxCounts: map<string, nat>
    var computeStaking: CS.ComputeStaking?

    function VaultView(): Vault
      reads this
    {
      Vault(solReserves, totalGasPaid, gasPaidByCompute, userTxCounts)
    }

    /** The vault together with the staking system it points to, if any. */
    function View(): Ledger
      reads this, computeStaking
    {
      Ledger(if computeStaking == null then CS.EMPTY else computeStaking.View(), computeStaking != null, VaultView())
    }

    constructor (initialSolLamports: uint64, staking: CS.ComputeStaking?)
      ensures VaultView() == Vault(initialSolLamports, 0, 0, map[]) && computeStaking == staking
    {
      solReserves, totalGasPaid, gasPaidByCompute, userTxCounts := initialSolLamports, 0, 0, map[];
      computeStaking := staking;
    }

    method DepositSol(amount: uint64)
      modifies this
      ensures computeStaking == old(computeStaking)
      ensures VaultView() == old(VaultView()).(reserves := Wrap(old(solReserves) + amount))
      ensures solReserves == Wrap(old(solReserves) + amount) && totalGasPaid == old(totalGasPaid)
      ensures gasPaidByCompute == old(gasPaidByCompute) && userTxCounts == old(userTxCounts)
    {
      solReserves := Wrap(solReserves + amount);
    }

    method CanCoverGas(gas: uint64) returns (ok: bool)
      ensures ok <==> CanCover(View(), gas)
      ensures ok <==> (computeStaking != null && computeStaking.totalCpuCores > 0) || solReserves >= gas
    {
      AnyCoreGivesRate(View());
      if computeStaking != null {
        var rate := (computeStaking.totalCpuCores as real * CS.GAS_CREDITS_PER_CORE_PER_SEC).Floor;
        if rate > 0 {
          return true;
        }
      }
      return solReserves >= gas;
    }

    /** pick is the search outcome; below the rate limit it is the one the stakes were searched with. */
    method PayGas(user: string, gas: uint64) returns (ok: bool, ghost pick: Option<string>)
      modifies this, computeStaking
      ensures computeStaking == old(computeStaking)
      ensures pick.Some? ==> CS.Eligible(old(View()).staking, user, gas, pick.value)
      ensures old(computeStaking != null && Count(VaultView(), user) <= MAX_TX_COUNT) ==>
        CS.LegalPick(old(View()).staking, user, gas, pick)
      ensures var p := Paid(old(View()), user, gas, pick); ok == p.ok && View() == p.ledger
      ensures Settled(old(View()), user, gas, pick, ok, View())
      ensures View().vault == Vault(solReserves, totalGasPaid, gasPaidByCompute, userTxCounts)
      ensures View().linked == (computeStaking != null)
      ensures computeStaking != null ==> View().staking.stakes == computeStaking.stakes
    {
      pick := None;
      ghost var before := View();
      if user !in userTxCounts {
        userTxCounts := userTxCounts[user := 0];
      }
      CountCreated(before.vault, user);
      if userTxCounts[user] > MAX_TX_COUNT {
        PaidIsSettled(before, user, gas, None);
        return false, None;
      }
      if computeStaking != null {
        var consumed, p := computeStaking.ConsumeGasAllowance(user, gas);
        pick := p;
        if consumed {
          PaidIsSettled(before, user, gas, pick);
          gasPaidByCompute := Wrap(gasPaidByCompute + gas);
          totalGasPaid := Wrap(totalGasPaid + gas);
          userTxCounts := userTxCounts[user := userTxCounts[user] + 1];
          assert View().staking == CS.Debited(before.staking, p.value, gas);
          assert VaultView() == Paid(before, user, gas, pick).ledger.vault;
          return true, pick;
        }
      }
      PaidIsSettled(before, user, gas, pick);
      if solReserves < gas {
        return false, pick;
      }
      solReserves := solReserves - gas;
      totalGasPaid := Wrap(totalGasPaid + gas);
      userTxCounts := userTxCounts[user := userTxCounts[user] + 1];
      assert View().staking == before.staking;
      assert VaultView() == Paid(before, user, gas, pick).ledger.vault;
      return true, pick;
    }
  }
}
