/** Gas receipts, their compensation, and the cap on what one wallet is compensated for within a day. */
module ReceiverPaidGas {
  import opened Common
  import opened Decimal
  import opened MapSums

  const DAY_SECONDS: real := 86400.0
  const ORACLE_STALE_SECONDS: real := 300.0
  const MAX_PER_TX: nat := 1000000000
  const MAX_PER_WALLET_PER_DAY: nat := 10000000000

  datatype GasReceipt = GasReceipt(
    receiptId: string, txId: string, receiver: string, sender: string,
    gasPaid: uint64, priorityFee: uint64, totalFee: uint64,
    slot: uint64, txSignature: string, used: bool, createdAt: real)

  datatype Oracle = Oracle(
    gasTwap: uint64, priorityFeeTwap: uint64, solUsd: real, membraUsd: real, lastUpdatedAt: real)

  datatype State = State(receipts: map<string, GasReceipt>, counter: nat, oracle: Oracle, enabled: bool)

  function ReceiptId(n: nat): string {
    "gas_" + Print(n)
  }

  lemma ReceiptIdInjective(a: nat, b: nat)
    requires ReceiptId(a) == ReceiptId(b)
    ensures a == b
  {
    assert ReceiptId(a)[4..] == Print(a) && ReceiptId(b)[4..] == Print(b);
    PrintInjective(a, b);
  }

  // ----- The day's total -----

  /** A receipt's share in the wallet's total since a moment. */
  function Share(wallet: string, since: real): GasReceipt -> int {
    (r: GasReceipt) => if r.receiver == wallet && r.used && r.createdAt >= since then r.totalFee else 0
  }

  /** The fees of the wallet's used receipts created in the day before now. */
  ghost function Daily(receipts: map<string, GasReceipt>, wallet: string, now: real): int {
    Sum(receipts, Share(wallet, now - DAY_SECONDS))
  }

  lemma DailyNonNegative(receipts: map<string, GasReceipt>, wallet: string, now: real)
    ensures Daily(receipts, wallet, now) >= 0
  {
    SumNonNegative(receipts, Share(wallet, now - DAY_SECONDS));
  }

  /** One more receipt adds its fee for its receiver, if it is used and at most a day old, and nothing otherwise. */
  lemma DailyCounts(receipts: map<string, GasReceipt>, id: string, r: GasReceipt, wallet: string, now: real)
    requires id !in receipts
    ensures Daily(map[], wallet, now) == 0
    ensures Daily(receipts[id := r], wallet, now) == Daily(receipts, wallet, now)
      + if r.receiver == wallet && r.used && now - r.createdAt <= 86400.0 then r.totalFee else 0
  {
    SumInsert(receipts, Share(wallet, now - DAY_SECONDS), id, r);
  }

  /** As the clock advances receipts only leave the window. */
  lemma DailyShrinks(receipts: map<string, GasReceipt>, wallet: string, now: real, later: real)
    requires now <= later
    ensures Daily(receipts, wallet, later) <= Daily(receipts, wallet, now)
  {
    SumMonotone(receipts, Share(wallet, later - DAY_SECONDS), Share(wallet, now - DAY_SECONDS));
  }

  // ----- The operations -----

  function Create(s: State, txId: string, receiver: string, sender: string, gasPaid: uint64, priorityFee: uint64,
                  slot: uint64, txSignature: string, now: real): State {
    var id := ReceiptId(s.counter);
    var receipt := GasReceipt(id, txId, receiver, sender, gasPaid, priorityFee, Wrap(gasPaid + priorityFee),
                              slot, txSignature, false, now);
    s.(receipts := s.receipts[id := receipt], counter := s.counter + 1)
  }

  function Stale(oracle: Oracle, now: real): bool {
    now - oracle.lastUpdatedAt > ORACLE_STALE_SECONDS
  }

  /** The cap check as the code makes it, in 64-bit arithmetic. */
  predicate WithinCap(daily: uint64, fee: uint64) {
    Wrap(daily + fee) <= MAX_PER_WALLET_PER_DAY
  }

  ghost predicate CanCompensate(s: State, id: string, now: real) {
    && id in s.receipts && s.enabled && !Stale(s.oracle, now)
    && !s.receipts[id].used
    && WithinCap(Wrap(Daily(s.receipts, s.receipts[id].receiver, now)), s.receipts[id].totalFee)
  }

  function MarkUsed(s: State, id: string): State {
    if id in s.receipts then s.(receipts := s.receipts[id := s.receipts[id].(used := true)]) else s
  }

  /** The code's chain of conversions through dollars and back: half the fee's value, in tokens. */
  function TokenValue(fee: nat, solUsd: real, membraUsd: real): real
    requires membraUsd > 0.0
  {
    var gasUsd := fee as real / 1000000000.0 * solUsd;
    var compensationUsd := gasUsd * 0.5;
    var compensationTokens := compensationUsd / membraUsd;
    compensationTokens * 1000000000.0
  }

  /** It is the closed form fee * solUsd / (2 * membraUsd). */
  lemma TokenValueIs(fee: nat, solUsd: real, membraUsd: real)
    requires membraUsd > 0.0
    ensures TokenValue(fee, solUsd, membraUsd) * (2.0 * membraUsd) == fee as real * solUsd
  {
    var usd := fee as real / 1000000000.0 * solUsd * 0.5;
    var q := usd / membraUsd;
    assert q * membraUsd == usd;
    var f := fee as real / 1000000000.0;
    assert f * solUsd * 1000000000.0 == fee as real * solUsd;
    assert q * 1000000000.0 * (2.0 * membraUsd) == 2000000000.0 * (q * membraUsd);
  }

  lemma TokenValueMonotone(fee: nat, fee': nat, solUsd: real, membraUsd: real)
    requires fee <= fee' && solUsd >= 0.0 && membraUsd > 0.0
    ensures 0.0 <= TokenValue(fee, solUsd, membraUsd) <= TokenValue(fee', solUsd, membraUsd)
  {
    TokenValueIs(fee, solUsd, membraUsd);
    TokenValueIs(fee', solUsd, membraUsd);
    var x, y, m := TokenValue(fee, solUsd, membraUsd), TokenValue(fee', solUsd, membraUsd), 2.0 * membraUsd;
    assert 0.0 <= fee as real * solUsd <= fee' as real * solUsd;
    QuotientOrder(x, y, m);
  }

  lemma QuotientOrder(x: real, y: real, m: real)
    requires m > 0.0 && 0.0 <= x * m <= y * m
    ensures 0.0 <= x <= y
  {
    assert x < 0.0 ==> x * m < 0.0;
    assert y < x ==> y * m < x * m;
  }

  /** The compensation: the token value rounded down, capped per transaction. */
  function Compensation(fee: nat, solUsd: real, membraUsd: real): (amount: nat)
    requires solUsd >= 0.0 && membraUsd > 0.0
    ensures amount <= MAX_PER_TX && amount as real <= TokenValue(fee, solUsd, membraUsd)
    ensures amount == MAX_PER_TX || TokenValue(fee, solUsd, membraUsd) < amount as real + 1.0
  {
    TokenValueMonotone(fee, fee, solUsd, membraUsd);
    var raw := TokenValue(fee, solUsd, membraUsd).Floor;
    Min(raw, MAX_PER_TX)
  }

  /** The amount is half the fee's value in tokens, rounded down, up to 10^9. */
  predicate Pays(amount: nat, fee: nat, solUsd: real, membraUsd: real) {
    && membraUsd > 0.0
    && var value := fee as real * solUsd / (2.0 * membraUsd);
    && (amount == 1000000000 <==> value >= 1000000000.0)
    && (value < 1000000000.0 ==> amount as real <= value < amount as real + 1.0)
  }

  lemma CompensationIs(fee: nat, solUsd: real, membraUsd: real)
    requires solUsd >= 0.0 && membraUsd > 0.0
    ensures var value, amount := fee as real * solUsd / (2.0 * membraUsd), Compensation(fee, solUsd, membraUsd);
      && (amount == 1000000000 <==> value >= 1000000000.0)
      && (value < 1000000000.0 ==> amount as real <= value < amount as real + 1.0)
  {
    TokenValueIs(fee, solUsd, membraUsd);
    QuotientOf(TokenValue(fee, solUsd, membraUsd), 2.0 * membraUsd, fee as real * solUsd);
  }

  lemma QuotientOf(q: real, m: real, x: real)
    requires m != 0.0 && q * m == x
    ensures x / m == q
  {}

  // ----- When the 64-bit check is the intended one -----

  /** For a total within the cap, passing the check means staying within the cap exactly when the sum does not wrap. */
  lemma CheckIsSoundIff(daily: uint64, fee: uint64)
    requires daily <= MAX_PER_WALLET_PER_DAY
    ensures (WithinCap(daily, fee) ==> daily + fee <= MAX_PER_WALLET_PER_DAY) <==> daily + fee < TWO_64
  {
    if daily + fee >= TWO_64 {
      assert Wrap(daily + fee) == daily + fee - TWO_64;
    }
  }

  predicate InWindow(receipt: GasReceipt, now: real) {
    receipt.createdAt >= now - DAY_SECONDS
  }

  /** Marking an unused receipt adds its fee to its receiver's total while it is in the window. */
  lemma MarkedDaily(s: State, id: string, wallet: string, now: real)
    requires id in s.receipts && !s.receipts[id].used
    ensures var receipt := s.receipts[id];
      Daily(MarkUsed(s, id).receipts, wallet, now) == Daily(s.receipts, wallet, now)
        + if receipt.receiver == wallet && InWindow(receipt, now) then receipt.totalFee else 0
  {
    SumUpdate(s.receipts, Share(wallet, now - DAY_SECONDS), id, s.receipts[id].(used := true));
  }

  /**
   * Marking what was approved keeps the wallet's total within the cap exactly when the checked sum did not
   * wrap or the receipt is older than a day.
   */
  lemma ApprovalKeepsCapIff(s: State, id: string, now: real)
    requires CanCompensate(s, id, now)
    requires Daily(s.receipts, s.receipts[id].receiver, now) <= MAX_PER_WALLET_PER_DAY
    ensures var receipt := s.receipts[id];
      Daily(MarkUsed(s, id).receipts, receipt.receiver, now) <= MAX_PER_WALLET_PER_DAY <==>
      Daily(s.receipts, receipt.receiver, now) + receipt.totalFee < TWO_64 || receipt.createdAt < now - DAY_SECONDS
  {
    var receipt := s.receipts[id];
    DailyNonNegative(s.receipts, receipt.receiver, now);
    CheckIsSoundIff(Daily(s.receipts, receipt.receiver, now), receipt.totalFee);
    MarkedDaily(s, id, receipt.receiver, now);
  }

  // ----- Runs -----

  datatype Event =
    | Receive(txId: string, receiver: string, sender: string, gasPaid: uint64, priorityFee: uint64, slot: uint64,
              txSignature: string)
    | UpdateOracle(oracle: Oracle)
    | SetEnabled(enabled: bool)
    | Calculate(id: string)
    | Mark(id: string)

  /** The state, the last clock reading, and the receipts approved since the last mark. */
  datatype Run = Run(state: State, clock: real, approved: set<string>)

  function Apply(s: State, e: Event, now: real): State {
    match e
    case Receive(txId, receiver, sender, gasPaid, priorityFee, slot, txSignature) =>
      Create(s, txId, receiver, sender, gasPaid, priorityFee, slot, txSignature, now)
    case UpdateOracle(oracle) => s.(oracle := oracle)
    case SetEnabled(enabled) => s.(enabled := enabled)
    case Calculate(_) => s
    case Mark(id) => MarkUsed(s, id)
  }

  ghost function Next(r: Run, e: Event, now: real): Run {
    var approved :=
      match e
      case Calculate(id) => if CanCompensate(r.state, id, now) then r.approved + {id} else r.approved
      case Mark(_) => {}
      case _ => r.approved;
    Run(Apply(r.state, e, now), now, approved)
  }

  /** Time does not go back, and only a receipt approved since the last mark is marked. */
  ghost predicate Legal(r: Run, e: Event, now: real) {
    now >= r.clock && (e.Mark? ==> e.id in r.approved)
  }

  ghost predicate LegalRun(r: Run, events: seq<(Event, real)>)
    decreases |events|
  {
    events == [] || (Legal(r, events[0].0, events[0].1) && LegalRun(Next(r, events[0].0, events[0].1), events[1..]))
  }

  ghost function After(r: Run, events: seq<(Event, real)>): Run
    decreases |events|
  {
    if events == [] then r else After(Next(r, events[0].0, events[0].1), events[1..])
  }

  const NO_ORACLE: Oracle := Oracle(5000, 1000, 150.0, 0.1, 0.0)

  function Start(now: real): Run {
    Run(State(map[], 0, NO_ORACLE.(lastUpdatedAt := now), false), now, {})
  }

  // ----- Ids and replay: every legal run -----

  ghost predicate IdsIssued(s: State) {
    forall id :: id in s.receipts ==> exists n: nat :: n < s.counter && id == ReceiptId(n)
  }

  lemma FreshId(s: State)
    requires IdsIssued(s)
    ensures ReceiptId(s.counter) !in s.receipts
  {
    if ReceiptId(s.counter) in s.receipts {
      var n: nat :| n < s.counter && ReceiptId(s.counter) == ReceiptId(n);
      ReceiptIdInjective(s.counter, n);
    }
  }

  lemma CreateKeepsIds(s: State, e: Event, now: real)
    requires IdsIssued(s) && e.Receive?
    ensures IdsIssued(Apply(s, e, now)) && ReceiptId(s.counter) !in s.receipts
  {
    FreshId(s);
    var s' := Apply(s, e, now);
    forall id | id in s'.receipts ensures exists n: nat :: n < s'.counter && id == ReceiptId(n) {
      if id in s.receipts {
        var n: nat :| n < s.counter && id == ReceiptId(n);
      } else {
        assert id == ReceiptId(s.counter);
      }
    }
  }

  /** Ids are the issued ones, and whatever is approved since the last mark is unused. */
  ghost predicate Orderly(r: Run) {
    IdsIssued(r.state) && forall id :: id in r.approved ==> id in r.state.receipts && !r.state.receipts[id].used
  }

  lemma StepKeepsOrderly(r: Run, e: Event, now: real)
    requires Orderly(r) && Legal(r, e, now)
    ensures Orderly(Next(r, e, now))
  {
    if e.Receive? {
      CreateKeepsIds(r.state, e, now);
    }
  }

  /** No replay: a used receipt stays used and is never approved again, whatever the fees. */
  lemma {:induction false} UsedForever(r: Run, events: seq<(Event, real)>, id: string)
    requires Orderly(r) && LegalRun(r, events) && id in r.state.receipts && r.state.receipts[id].used
    ensures var last := After(r, events);
      && id in last.state.receipts && last.state.receipts[id].used && id !in last.approved
      && forall now: real :: !CanCompensate(last.state, id, now)
    decreases |events|
  {
    if events != [] {
      var e, now := events[0].0, events[0].1;
      FreshId(r.state);
      StepKeepsOrderly(r, e, now);
      UsedForever(Next(r, e, now), events[1..], id);
    }
  }

  // ----- The cap over whole runs -----

  /** Whatever the moment from now on, no wallet's total exceeds the cap. */
  ghost predicate CapHolds(r: Run) {
    forall wallet: string, t: real :: t >= r.clock ==> Daily(r.state.receipts, wallet, t) <= MAX_PER_WALLET_PER_DAY
  }

  /** The cap holds now and after every event. */
  ghost predicate CapHoldsThroughout(r: Run, events: seq<(Event, real)>)
    decreases |events|
  {
    CapHolds(r) && (events != [] ==> CapHoldsThroughout(Next(r, events[0].0, events[0].1), events[1..]))
  }

  /** A receipt whose mark can do no harm: its own fee is within the cap, or it is older than a day. */
  predicate SmallOrOld(receipt: GasReceipt, now: real) {
    receipt.totalFee <= MAX_PER_WALLET_PER_DAY || !InWindow(receipt, now)
  }

  predicate MarksSmallOrOld(s: State, e: Event, now: real) {
    e.Mark? && e.id in s.receipts ==> SmallOrOld(s.receipts[e.id], now)
  }

  ghost predicate AllMarksSmallOrOld(r: Run, events: seq<(Event, real)>)
    decreases |events|
  {
    events != [] ==>
      && MarksSmallOrOld(r.state, events[0].0, events[0].1)
      && AllMarksSmallOrOld(Next(r, events[0].0, events[0].1), events[1..])
  }

  /** An approved receipt with a fee within the cap still fits, from now on. */
  ghost predicate Fits(r: Run, id: string)
    requires id in r.state.receipts
  {
    var receipt := r.state.receipts[id];
    receipt.totalFee <= MAX_PER_WALLET_PER_DAY ==>
      forall t: real :: t >= r.clock ==>
        Daily(r.state.receipts, receipt.receiver, t) + receipt.totalFee <= MAX_PER_WALLET_PER_DAY
  }

  ghost predicate Inv(r: Run) {
    Orderly(r) && CapHolds(r) && forall id :: id in r.approved ==> Fits(r, id)
  }

  /** A new receipt is unused, so no total changes. */
  lemma CreateKeepsDaily(s: State, e: Event, now: real, wallet: string, t: real)
    requires e.Receive? && IdsIssued(s)
    ensures Daily(Apply(s, e, now).receipts, wallet, t) == Daily(s.receipts, wallet, t)
  {
    FreshId(s);
    var id := ReceiptId(s.counter);
    SumInsert(s.receipts, Share(wallet, t - DAY_SECONDS), id, Apply(s, e, now).receipts[id]);
  }

  lemma ReceiveKeepsInv(r: Run, e: Event, now: real)
    requires Inv(r) && Legal(r, e, now) && e.Receive?
    ensures Inv(Next(r, e, now))
  {
    var r' := Next(r, e, now);
    StepKeepsOrderly(r, e, now);
    FreshId(r.state);
    forall wallet: string, t: real
      ensures Daily(r'.state.receipts, wallet, t) == Daily(r.state.receipts, wallet, t)
    {
      CreateKeepsDaily(r.state, e, now, wallet, t);
    }
    forall id | id in r'.approved ensures Fits(r', id) {
      assert Fits(r, id);
    }
  }

  /** What an approval is worth: a fee within the cap fits at every later moment. */
  lemma ApprovedFits(r: Run, id: string, now: real)
    requires CapHolds(r) && now >= r.clock && CanCompensate(r.state, id, now)
    ensures Fits(Run(r.state, now, {}), id)
  {
    var receipts, receipt := r.state.receipts, r.state.receipts[id];
    DailyNonNegative(receipts, receipt.receiver, now);
    var daily := Daily(receipts, receipt.receiver, now);
    CheckIsSoundIff(daily, receipt.totalFee);
    forall t: real | t >= now ensures Daily(receipts, receipt.receiver, t) <= daily {
      DailyShrinks(receipts, receipt.receiver, now, t);
    }
  }

  lemma CalculateKeepsInv(r: Run, e: Event, now: real)
    requires Inv(r) && Legal(r, e, now) && e.Calculate?
    ensures Inv(Next(r, e, now))
  {
    var r' := Next(r, e, now);
    forall id | id in r'.approved ensures Fits(r', id) {
      if id in r.approved {
        assert Fits(r, id);
      } else {
        ApprovedFits(r, id, now);
      }
    }
  }

  lemma OtherKeepsInv(r: Run, e: Event, now: real)
    requires Inv(r) && Legal(r, e, now) && (e.UpdateOracle? || e.SetEnabled?)
    ensures Inv(Next(r, e, now))
  {
    var r' := Next(r, e, now);
    forall id | id in r'.approved ensures Fits(r', id) {
      assert Fits(r, id);
    }
  }

  lemma SmallOrOldMarkKeepsCap(r: Run, e: Event, now: real)
    requires Inv(r) && Legal(r, e, now) && e.Mark? && MarksSmallOrOld(r.state, e, now)
    ensures CapHolds(Next(r, e, now))
  {
    assert Fits(r, e.id);
    forall wallet: string, t: real | t >= now
      ensures Daily(MarkUsed(r.state, e.id).receipts, wallet, t) <= MAX_PER_WALLET_PER_DAY
    {
      MarkedDaily(r.state, e.id, wallet, t);
    }
  }

  lemma OtherMarkBreaksCap(r: Run, e: Event, now: real)
    requires Orderly(r) && Legal(r, e, now) && e.Mark? && !MarksSmallOrOld(r.state, e, now)
    ensures !CapHolds(Next(r, e, now))
  {
    var wallet := r.state.receipts[e.id].receiver;
    DailyNonNegative(r.state.receipts, wallet, now);
    MarkedDaily(r.state, e.id, wallet, now);
    assert Daily(MarkUsed(r.state, e.id).receipts, wallet, now) > MAX_PER_WALLET_PER_DAY;
  }

  /** One event keeps the cap exactly when it is no mark of a large receipt still in the window. */
  lemma StepKeepsCapIff(r: Run, e: Event, now: real)
    requires Inv(r) && Legal(r, e, now)
    ensures CapHolds(Next(r, e, now)) <==> MarksSmallOrOld(r.state, e, now)
    ensures CapHolds(Next(r, e, now)) ==> Inv(Next(r, e, now))
  {
    match e
    case Receive(_, _, _, _, _, _, _) => ReceiveKeepsInv(r, e, now);
    case Calculate(_) => CalculateKeepsInv(r, e, now);
    case UpdateOracle(_) => OtherKeepsInv(r, e, now);
    case SetEnabled(_) => OtherKeepsInv(r, e, now);
    case Mark(_) =>
      StepKeepsOrderly(r, e, now);
      if MarksSmallOrOld(r.state, e, now) {
        SmallOrOldMarkKeepsCap(r, e, now);
      } else {
        OtherMarkBreaksCap(r, e, now);
      }
  }

  lemma {:induction false} RunKeepsCapIff(r: Run, events: seq<(Event, real)>)
    requires Inv(r) && LegalRun(r, events)
    ensures CapHoldsThroughout(r, events) <==> AllMarksSmallOrOld(r, events)
    decreases |events|
  {
    if events != [] {
      var r' := Next(r, events[0].0, events[0].1);
      StepKeepsCapIff(r, events[0].0, events[0].1);
      if CapHolds(r') {
        RunKeepsCapIff(r', events[1..]);
      } else {
        assert !CapHoldsThroughout(r', events[1..]);
      }
    }
  }

  /**
   * The sliding cap, exactly: over every legal run no wallet's total exceeds the cap, after any event and at
   * any moment from then on, if and only if each receipt marked has a fee within the cap or is older than a day.
   */
  lemma CapOverEveryRunIff(begin: real, events: seq<(Event, real)>)
    requires LegalRun(Start(begin), events)
    ensures CapHoldsThroughout(Start(begin), events) <==> AllMarksSmallOrOld(Start(begin), events)
  {
    RunKeepsCapIff(Start(begin), events);
  }

  // ----- Conditions on what is approved or created, instead of on what is marked -----

  /** An approval the intended check would have given too, or one of a receipt older than a day. */
  ghost predicate ApprovesSoundly(s: State, e: Event, now: real) {
    e.Calculate? && CanCompensate(s, e.id, now) ==>
      var receipt := s.receipts[e.id];
      Daily(s.receipts, receipt.receiver, now) + receipt.totalFee < TWO_64 || !InWindow(receipt, now)
  }

  ghost predicate AllApprovalsSound(r: Run, events: seq<(Event, real)>)
    decreases |events|
  {
    events != [] ==>
      && ApprovesSoundly(r.state, events[0].0, events[0].1)
      && AllApprovalsSound(Next(r, events[0].0, events[0].1), events[1..])
  }

  /** Approved receipts may be marked at any time from now on. */
  ghost predicate ApprovedSmallOrOld(r: Run) {
    forall id :: id in r.approved && id in r.state.receipts ==> SmallOrOld(r.state.receipts[id], r.clock)
  }

  /** A sound approval is one of a small or old receipt, and so it stays. */
  lemma StepKeepsSmallOrOld(r: Run, e: Event, now: real)
    requires Inv(r) && ApprovedSmallOrOld(r) && Legal(r, e, now) && ApprovesSoundly(r.state, e, now)
    ensures Inv(Next(r, e, now)) && ApprovedSmallOrOld(Next(r, e, now)) && MarksSmallOrOld(r.state, e, now)
  {
    StepKeepsCapIff(r, e, now);
    if e.Receive? {
      FreshId(r.state);
    }
    if e.Calculate? && CanCompensate(r.state, e.id, now) {
      var receipt := r.state.receipts[e.id];
      DailyNonNegative(r.state.receipts, receipt.receiver, now);
      CheckIsSoundIff(Daily(r.state.receipts, receipt.receiver, now), receipt.totalFee);
    }
  }

  lemma {:induction false} SoundApprovalsSmallMarks(r: Run, events: seq<(Event, real)>)
    requires Inv(r) && ApprovedSmallOrOld(r) && LegalRun(r, events) && AllApprovalsSound(r, events)
    ensures AllMarksSmallOrOld(r, events) && CapHolds(After(r, events))
    decreases |events|
  {
    if events != [] {
      StepKeepsSmallOrOld(r, events[0].0, events[0].1);
      SoundApprovalsSmallMarks(Next(r, events[0].0, events[0].1), events[1..]);
    }
  }

  /** While no approval of a receipt in the window rests on a wrapped sum, the cap holds for every wallet. */
  lemma CapOverEveryRun(begin: real, events: seq<(Event, real)>, wallet: string, t: real)
    requires LegalRun(Start(begin), events) && AllApprovalsSound(Start(begin), events)
    requires t >= After(Start(begin), events).clock
    ensures Daily(After(Start(begin), events).state.receipts, wallet, t) <= MAX_PER_WALLET_PER_DAY
  {
    SoundApprovalsSmallMarks(Start(begin), events);
  }

  /** No fee is large enough to wrap a total within the cap. */
  predicate FeeFits(e: Event) {
    e.Receive? ==> Wrap(e.gasPaid + e.priorityFee) < TWO_64 - MAX_PER_WALLET_PER_DAY
  }

  ghost predicate FeesFit(s: State) {
    forall id :: id in s.receipts ==> s.receipts[id].totalFee < TWO_64 - MAX_PER_WALLET_PER_DAY
  }

  lemma {:induction false} FittingFeesSoundApprovals(r: Run, events: seq<(Event, real)>)
    requires Inv(r) && ApprovedSmallOrOld(r) && LegalRun(r, events) && FeesFit(r.state)
    requires forall i :: 0 <= i < |events| ==> FeeFits(events[i].0)
    ensures AllApprovalsSound(r, events)
    decreases |events|
  {
    if events != [] {
      var e, now := events[0].0, events[0].1;
      assert FeeFits(e);
      StepKeepsSmallOrOld(r, e, now);
      FittingFeesSoundApprovals(Next(r, e, now), events[1..]);
    }
  }

  /** In particular the cap holds when no fee comes near 2^64. */
  lemma CapForFittingFees(begin: real, events: seq<(Event, real)>, wallet: string, t: real)
    requires LegalRun(Start(begin), events)
    requires forall i :: 0 <= i < |events| ==> FeeFits(events[i].0)
    requires t >= After(Start(begin), events).clock
    ensures Daily(After(Start(begin), events).state.receipts, wallet, t) <= MAX_PER_WALLET_PER_DAY
  {
    FittingFeesSoundApprovals(Start(begin), events);
    CapOverEveryRun(begin, events, wallet, t);
  }

  // ----- A run that breaks the cap -----

  /** Every approval whose sum wraps breaks the cap as soon as it is marked. */
  lemma WrappedApprovalBreaksCap(s: State, id: string, now: real)
    requires id in s.receipts && s.enabled && !Stale(s.oracle, now)
    requires !s.receipts[id].used && s.receipts[id].createdAt >= now - DAY_SECONDS
    requires Daily(s.receipts, s.receipts[id].receiver, now) <= MAX_PER_WALLET_PER_DAY
    requires Daily(s.receipts, s.receipts[id].receiver, now) + s.receipts[id].totalFee >= TWO_64
    ensures CanCompensate(s, id, now)
    ensures Daily(MarkUsed(s, id).receipts, s.receipts[id].receiver, now) > MAX_PER_WALLET_PER_DAY
  {
    var receipt := s.receipts[id];
    var daily := Daily(s.receipts, receipt.receiver, now);
    DailyNonNegative(s.receipts, receipt.receiver, now);
    CheckIsSoundIff(daily, receipt.totalFee);
    MarkedDaily(s, id, receipt.receiver, now);
  }

  const SMALL_FEE: Event := Receive("", "w", "", 1, 0, 0, "")
  const LARGE_FEE: Event := Receive("", "w", "", TWO_64 - 1, 0, 0, "")

  /** A wallet is compensated for a fee of 1, then for one of 2^64 - 1. */
  function WrapEvents(): seq<(Event, real)> {
    [(SetEnabled(true), 0.0)] + ([(SMALL_FEE, 0.0)] + ([(LARGE_FEE, 0.0)] + LastFour()))
  }

  function LastFour(): seq<(Event, real)> {
    [(Calculate(ReceiptId(0)), 0.0)] + ([(Mark(ReceiptId(0)), 0.0)] + LastTwo())
  }

  function LastTwo(): seq<(Event, real)> {
    [(Calculate(ReceiptId(1)), 0.0)] + ([(Mark(ReceiptId(1)), 0.0)] + [])
  }

  lemma RunUnfolds(r: Run, e: (Event, real), rest: seq<(Event, real)>)
    ensures LegalRun(r, [e] + rest) <==> Legal(r, e.0, e.1) && LegalRun(Next(r, e.0, e.1), rest)
    ensures After(r, [e] + rest) == After(Next(r, e.0, e.1), rest)
  {
    assert ([e] + rest)[1..] == rest;
  }

  /** The state in which both receipts exist and neither is used. */
  function TwoReceipts(): State {
    var enabled := Apply(Start(0.0).state, SetEnabled(true), 0.0);
    Apply(Apply(enabled, SMALL_FEE, 0.0), LARGE_FEE, 0.0)
  }

  predicate Open(s: State, id: string, fee: uint64) {
    id in s.receipts && var r := s.receipts[id]; !r.used && r.createdAt == 0.0 && r.receiver == "w" && r.totalFee == fee
  }

  lemma TwoReceiptsUnused()
    ensures ReceiptId(0) != ReceiptId(1)
    ensures Open(TwoReceipts(), ReceiptId(0), 1) && Open(TwoReceipts(), ReceiptId(1), TWO_64 - 1)
    ensures TwoReceipts().enabled && !Stale(TwoReceipts().oracle, 0.0)
    ensures Daily(TwoReceipts().receipts, "w", 0.0) == 0
  {
    if ReceiptId(0) == ReceiptId(1) {
      ReceiptIdInjective(0, 1);
    }
    var s := Apply(Start(0.0).state, SetEnabled(true), 0.0);
    var s' := Apply(s, SMALL_FEE, 0.0);
    CreateKeepsDaily(s, SMALL_FEE, 0.0, "w", 0.0);
    CreateKeepsDaily(s', LARGE_FEE, 0.0, "w", 0.0);
  }

  /** A legal run, with one fee too large, that ends above the cap. */
  lemma WrapRunBreaksCap()
    ensures LegalRun(Start(0.0), WrapEvents())
    ensures var last := After(Start(0.0), WrapEvents());
      Daily(last.state.receipts, "w", last.clock) > MAX_PER_WALLET_PER_DAY
  {
    var r1 := Next(Start(0.0), SetEnabled(true), 0.0);
    var r2 := Next(r1, SMALL_FEE, 0.0);
    var r3 := Next(r2, LARGE_FEE, 0.0);
    RunUnfolds(r2, (LARGE_FEE, 0.0), LastFour());
    RunUnfolds(r1, (SMALL_FEE, 0.0), [(LARGE_FEE, 0.0)] + LastFour());
    RunUnfolds(Start(0.0), (SetEnabled(true), 0.0), [(SMALL_FEE, 0.0)] + ([(LARGE_FEE, 0.0)] + LastFour()));
    assert r3.state == TwoReceipts();
    TwoReceiptsUnused();
    LastFourEvents(r3);
  }

  lemma LastFourEvents(r: Run)
    requires r.clock == 0.0 && r.state.enabled && !Stale(r.state.oracle, 0.0)
    requires ReceiptId(0) != ReceiptId(1) && Daily(r.state.receipts, "w", 0.0) == 0
    requires Open(r.state, ReceiptId(0), 1) && Open(r.state, ReceiptId(1), TWO_64 - 1)
    ensures LegalRun(r, LastFour())
    ensures var last := After(r, LastFour()); Daily(last.state.receipts, "w", last.clock) > MAX_PER_WALLET_PER_DAY
  {
    var id0 := ReceiptId(0);
    MarkedDaily(r.state, id0, "w", 0.0);
    var r4 := Next(r, Calculate(id0), 0.0);
    var r5 := Next(r4, Mark(id0), 0.0);
    RunUnfolds(r4, (Mark(id0), 0.0), LastTwo());
    RunUnfolds(r, (Calculate(id0), 0.0), [(Mark(id0), 0.0)] + LastTwo());
    LastTwoEvents(r5);
  }

  lemma LastTwoEvents(r: Run)
    requires r.clock == 0.0 && r.state.enabled && !Stale(r.state.oracle, 0.0)
    requires Daily(r.state.receipts, "w", 0.0) == 1 && Open(r.state, ReceiptId(1), TWO_64 - 1)
    ensures LegalRun(r, LastTwo())
    ensures var last := After(r, LastTwo()); Daily(last.state.receipts, "w", last.clock) > MAX_PER_WALLET_PER_DAY
  {
    var id := ReceiptId(1);
    WrappedApprovalBreaksCap(r.state, id, 0.0);
    var r' := Next(r, Calculate(id), 0.0);
    RunUnfolds(r', (Mark(id), 0.0), []);
    RunUnfolds(r, (Calculate(id), 0.0), [(Mark(id), 0.0)] + []);
  }

  // ----- The program -----

  class ReceiverPaidGas {
    var receipts: map<string, GasReceipt>
    var receiptCounter: nat
    var oracleState: Oracle
    var compensationEnabled: bool

    function View(): State
      reads this
    {
      State(receipts, receiptCounter, oracleState, compensationEnabled)
    }

    constructor (now: real)
      ensures View() == Start(now).state
    {
      receipts, receiptCounter, compensationEnabled := map[], 0, false;
      oracleState := Oracle(5000, 1000, 150.0, 0.1, now);
    }

    /** Clock readings are inputs, here and below. */
    method CreateReceipt(txId: string, receiver: string, sender: string, gasPaid: uint64, priorityFee: uint64,
                         slot: uint64, txSignature: string, now: real) returns (id: string)
      requires IdsIssued(View())
      modifies this
      ensures View() == old(Create(View(), txId, receiver, sender, gasPaid, priorityFee, slot, txSignature, now))
      ensures id !in old(receipts) && id in receipts && IdsIssued(View())
      ensures id == "gas_" + Print(old(receiptCounter)) && receiptCounter == old(receiptCounter) + 1
      ensures receipts == old(receipts)[id := GasReceipt(
        id, txId, receiver, sender, gasPaid, priorityFee, Wrap(gasPaid + priorityFee), slot, txSignature, false, now)]
      ensures oracleState == old(oracleState) && compensationEnabled == old(compensationEnabled)
    {
      CreateKeepsIds(View(), Receive(txId, receiver, sender, gasPaid, priorityFee, slot, txSignature), now);
      id := ReceiptId(receiptCounter);
      receiptCounter := receiptCounter + 1;
      var totalFee := Wrap(gasPaid + priorityFee);
      var receipt := GasReceipt(
        id, txId, receiver, sender, gasPaid, priorityFee, totalFee, slot, txSignature, false, now);
      receipts := receipts[id := receipt];
    }

    method UpdateOracle(gasTwap: uint64, priorityFeeTwap: uint64, solUsd: real, membraUsd: real, now: real)
      modifies this
      ensures View() == old(View()).(oracle := Oracle(gasTwap, priorityFeeTwap, solUsd, membraUsd, now))
    {
      oracleState := Oracle(gasTwap, priorityFeeTwap, solUsd, membraUsd, now);
    }

    method SetCompensationEnabled(enabled: bool)
      modifies this
      ensures View() == old(View()).(enabled := enabled)
    {
      compensationEnabled := enabled;
    }

    /** Adds up in whatever order the map yields its receipts. */
    method GetWalletDailyCompensation(wallet: string, now: real) returns (total: uint64)
      ensures total == Wrap(Daily(receipts, wallet, now))
    {
      var dayStart := now - DAY_SECONDS;
      ghost var share := Share(wallet, dayStart);
      total := 0;
      var rest := receipts.Keys;
      assert receipts - rest == map[];
      while rest != {}
        invariant rest <= receipts.Keys
        invariant total == Wrap(Sum(receipts - rest, share))
        decreases rest
      {
        var id :| id in rest;
        var receipt := receipts[id];
        SumInsert(receipts - rest, share, id, receipt);
        assert (receipts - rest)[id := receipt] == receipts - (rest - {id});
        WrapAdd(Sum(receipts - rest, share), receipt.totalFee);
        if receipt.receiver == wallet && receipt.used && receipt.createdAt >= dayStart {
          total := Wrap(total + receipt.totalFee);
        }
        rest := rest - {id};
      }
      assert receipts - rest == receipts;
    }

    /** The conversions at the end of calculate_compensation, and the cap. */
    static method CappedTokens(fee: uint64, solUsd: real, membraUsd: real) returns (amount: uint64)
      requires solUsd >= 0.0 && membraUsd > 0.0
      ensures amount == Compensation(fee, solUsd, membraUsd)
      ensures Pays(amount, fee, solUsd, membraUsd)
    {
      TokenValueMonotone(fee, fee, solUsd, membraUsd);
      var tokens := TokenValue(fee, solUsd, membraUsd);
      var raw: nat := tokens.Floor;
      amount := Min(raw, MAX_PER_TX);
      CompensationIs(fee, solUsd, membraUsd);
    }

    /** Where an amount is computed, the conversion to an integer needs a non-negative rate and a positive price. */
    method CalculateCompensation(id: string, now: real) returns (amount: uint64, canCompensate: bool)
      requires CanCompensate(View(), id, now) ==> oracleState.solUsd >= 0.0 && oracleState.membraUsd > 0.0
      ensures canCompensate <==> CanCompensate(View(), id, now)
      ensures canCompensate <==>
        && id in receipts && compensationEnabled && now - oracleState.lastUpdatedAt <= 300.0 && !receipts[id].used
        && Wrap(Wrap(Daily(receipts, receipts[id].receiver, now)) + receipts[id].totalFee) <= 10000000000
      ensures amount == if canCompensate
        then Compensation(receipts[id].totalFee, oracleState.solUsd, oracleState.membraUsd) else 0
      ensures !canCompensate ==> amount == 0
      ensures canCompensate ==> Pays(amount, receipts[id].totalFee, oracleState.solUsd, oracleState.membraUsd)
    {
      if id !in receipts {
        return 0, false;
      }
      var receipt := receipts[id];
      if !compensationEnabled {
        return 0, false;
      }
      if now - oracleState.lastUpdatedAt > ORACLE_STALE_SECONDS {
        return 0, false;
      }
      if receipt.used {
        return 0, false;
      }
      var walletDaily := GetWalletDailyCompensation(receipt.receiver, now);
      if Wrap(walletDaily + receipt.totalFee) > MAX_PER_WALLET_PER_DAY {
        return 0, false;
      }
      amount := CappedTokens(receipt.totalFee, oracleState.solUsd, oracleState.membraUsd);
      canCompensate := true;
    }

    method MarkCompensated(id: string) returns (ok: bool)
      modifies this
      ensures ok <==> id in old(receipts)
      ensures View() == old(MarkUsed(View(), id))
      ensures ok ==> receipts == old(receipts)[id := old(receipts)[id].(used := true)]
      ensures !ok ==> receipts == old(receipts)
      ensures receiptCounter == old(receiptCounter) && oracleState == old(oracleState)
      ensures compensationEnabled == old(compensationEnabled)
    {
      if id !in receipts {
        return false;
      }
      receipts := receipts[id := receipts[id].(used := true)];
      return true;
    }
  }
}
