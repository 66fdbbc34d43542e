/** Payment intents: their ids and nonces, and the life of each from creation to claim or expiry. */
module IntentNetwork {
  import opened Common
  import opened Decimal

  const CLAIM_WINDOW_SECONDS: real := 604800.0

  datatype IntentStatus = Pending | Claimed | Expired | Cancelled

  datatype PaymentIntent = PaymentIntent(
    intentId: string, sender: string, receiver: string, token: string, amount: uint64,
    createdAt: real, expiresAt: real, nonce: nat, signature: string,
    status: IntentStatus, claimedAt: real, settlementTx: string)

  datatype State = State(intents: map<string, PaymentIntent>, nonces: map<string, nat>, counter: nat)

  const EMPTY: State := State(map[], map[], 1)

  function IntentId(n: nat): string {
    "int_" + Print(n)
  }

  lemma IntentIdInjective(a: nat, b: nat)
    requires IntentId(a) == IntentId(b)
    ensures a == b
  {
    assert IntentId(a)[4..] == Print(a) && IntentId(b)[4..] == Print(b);
    PrintInjective(a, b);
  }

  /** The nonce a sender's next intent gets. */
  function NextNonce(s: State, sender: string): nat {
    if sender in s.nonces then s.nonces[sender] else 0
  }

  // ----- The operations -----

  function NewIntent(
    s: State, sender: string, receiver: string, token: string, amount: uint64, signature: string, now: real)
    : PaymentIntent
  {
    PaymentIntent(IntentId(s.counter), sender, receiver, token, amount, now, now + CLAIM_WINDOW_SECONDS,
                  NextNonce(s, sender), signature, Pending, 0.0, "")
  }

  function Create(
    s: State, sender: string, receiver: string, token: string, amount: uint64, signature: string, now: real)
    : State
  {
    State(s.intents[IntentId(s.counter) := NewIntent(s, sender, receiver, token, amount, signature, now)],
          s.nonces[sender := NextNonce(s, sender) + 1], s.counter + 1)
  }

  predicate CanClaim(s: State, id: string, now: real) {
    id in s.intents && s.intents[id].status == Pending && now < s.intents[id].expiresAt
  }

  function Claim(s: State, id: string, now: real): State {
    if CanClaim(s, id, now) then
      s.(intents := s.intents[id := s.intents[id].(status := Claimed, claimedAt := now)])
    else s
  }

  predicate CanConfirm(s: State, id: string) {
    id in s.intents && s.intents[id].status == Claimed
  }

  function Confirm(s: State, id: string, tx: string): State {
    if CanConfirm(s, id) then s.(intents := s.intents[id := s.intents[id].(settlementTx := tx)]) else s
  }

  function ExpiredAt(i: PaymentIntent, now: real): PaymentIntent {
    if i.status == Pending && now >= i.expiresAt then i.(status := Expired) else i
  }

  function Expire(s: State, now: real): State {
    s.(intents := map id | id in s.intents :: ExpiredAt(s.intents[id], now))
  }

  /** After a sweep no pending intent is past its expiry. */
  lemma SweepLeavesNoOverdue(s: State, now: real)
    ensures forall id :: id in Expire(s, now).intents && Expire(s, now).intents[id].status == Pending ==>
      now < Expire(s, now).intents[id].expiresAt
  {}

  // ----- Invariants -----

  /** The ids are exactly the ones issued so far, each under its own key. */
  ghost predicate IdsIssued(s: State) {
    && s.counter >= 1 && |s.intents| == s.counter - 1
    && (forall id :: id in s.intents ==> s.intents[id].intentId == id && IsIssued(s.counter, id))
    && forall n: nat :: 1 <= n < s.counter ==> IntentId(n) in s.intents
  }

  ghost predicate IsIssued(counter: nat, id: string) {
    exists n: nat :: 1 <= n < counter && id == IntentId(n)
  }

  ghost predicate Carries(s: State, id: string, sender: string, nonce: nat) {
    id in s.intents && s.intents[id].sender == sender && s.intents[id].nonce == nonce
  }

  ghost predicate NonceUsed(s: State, sender: string, nonce: nat) {
    exists id :: Carries(s, id, sender, nonce)
  }

  /** Each sender's intents carry the nonces below the next one, each exactly once. */
  ghost predicate NoncesExact(s: State) {
    && (forall sender: string, nonce: nat :: NonceUsed(s, sender, nonce) <==> nonce < NextNonce(s, sender))
    && forall id, id', sender, nonce :: Carries(s, id, sender, nonce) && Carries(s, id', sender, nonce) ==> id == id'
  }

  /** What an intent's own record says about its life. */
  predicate IntentOk(i: PaymentIntent, clock: real) {
    && i.expiresAt == i.createdAt + CLAIM_WINDOW_SECONDS && i.createdAt <= clock
    && (i.settlementTx != "" ==> i.status == Claimed)
    && match i.status
       case Pending => i.claimedAt == 0.0
       case Claimed => i.createdAt <= i.claimedAt < i.expiresAt && i.claimedAt <= clock
       case Expired => i.claimedAt == 0.0 && i.expiresAt <= clock
       case Cancelled => false
  }

  ghost predicate RecordsOk(s: State, clock: real) {
    forall id :: id in s.intents ==> IntentOk(s.intents[id], clock)
  }

  ghost predicate Inv(s: State, clock: real) {
    IdsIssued(s) && NoncesExact(s) && RecordsOk(s, clock)
  }

  lemma FreshId(s: State)
    requires IdsIssued(s)
    ensures IntentId(s.counter) !in s.intents
  {
    if IntentId(s.counter) in s.intents {
      assert IsIssued(s.counter, IntentId(s.counter));
      var n: nat :| 1 <= n < s.counter && IntentId(s.counter) == IntentId(n);
      IntentIdInjective(s.counter, n);
    }
  }

  // ----- Each operation keeps the invariant -----

  lemma CreateKeepsIds(
    s: State, sender: string, receiver: string, token: string, amount: uint64, signature: string, now: real)
    requires IdsIssued(s)
    ensures IdsIssued(Create(s, sender, receiver, token, amount, signature, now))
  {
    var s' := Create(s, sender, receiver, token, amount, signature, now);
    FreshId(s);
    forall id | id in s'.intents ensures s'.intents[id].intentId == id && IsIssued(s'.counter, id) {
      if id in s.intents {
        assert IsIssued(s.counter, id);
      } else {
        assert id == IntentId(s.counter);
      }
    }
  }

  lemma CreateKeepsNonces(
    s: State, sender: string, receiver: string, token: string, amount: uint64, signature: string, now: real)
    requires IdsIssued(s) && NoncesExact(s)
    ensures NoncesExact(Create(s, sender, receiver, token, amount, signature, now))
  {
    var s', new_ := Create(s, sender, receiver, token, amount, signature, now), IntentId(s.counter);
    FreshId(s);
    forall id: string, who: string, nonce: nat
      ensures Carries(s', id, who, nonce) <==>
        if id == new_ then who == sender && nonce == NextNonce(s, sender) else Carries(s, id, who, nonce)
    {}
    forall who: string, nonce: nat ensures NonceUsed(s', who, nonce) <==> nonce < NextNonce(s', who) {
      CreatedNonce(s, s', new_, sender, who, nonce);
    }
    forall id, id', who, nonce | Carries(s', id, who, nonce) && Carries(s', id', who, nonce) ensures id == id' {
      if id == new_ || id' == new_ {
        assert !NonceUsed(s, sender, NextNonce(s, sender));
      }
    }
  }

  lemma CreatedNonce(s: State, s': State, added: string, sender: string, who: string, nonce: nat)
    requires NonceUsed(s, who, nonce) <==> nonce < NextNonce(s, who)
    requires NextNonce(s', who) == NextNonce(s, who) + if who == sender then 1 else 0
    requires forall id :: Carries(s', id, who, nonce) <==>
      if id == added then who == sender && nonce == NextNonce(s, sender) else Carries(s, id, who, nonce)
    requires added !in s.intents
    ensures NonceUsed(s', who, nonce) <==> nonce < NextNonce(s', who)
  {
    if NonceUsed(s, who, nonce) {
      var id :| Carries(s, id, who, nonce);
      assert Carries(s', id, who, nonce);
    }
    if who == sender && nonce == NextNonce(s, sender) {
      assert Carries(s', added, who, nonce);
    }
    if NonceUsed(s', who, nonce) {
      var id :| Carries(s', id, who, nonce);
      assert id != added ==> Carries(s, id, who, nonce);
    }
  }

  /** Changing statuses touches neither ids nor nonces. */
  lemma UpdateKeepsIdsAndNonces(s: State, s': State)
    requires IdsIssued(s) && NoncesExact(s)
    requires s'.counter == s.counter && s'.nonces == s.nonces && s'.intents.Keys == s.intents.Keys
    requires forall id :: id in s.intents ==>
      var i, i' := s.intents[id], s'.intents[id];
      i'.intentId == i.intentId && i'.sender == i.sender && i'.nonce == i.nonce
    ensures IdsIssued(s') && NoncesExact(s')
  {
    assert |s'.intents| == |s'.intents.Keys| && |s.intents| == |s.intents.Keys|;
    forall id: string, sender: string, nonce: nat
      ensures Carries(s', id, sender, nonce) <==> Carries(s, id, sender, nonce)
    {}
    forall sender: string, nonce: nat ensures NonceUsed(s', sender, nonce) <==> NonceUsed(s, sender, nonce) {
      if NonceUsed(s, sender, nonce) {
        var id :| Carries(s, id, sender, nonce);
        assert Carries(s', id, sender, nonce);
      }
      if NonceUsed(s', sender, nonce) {
        var id :| Carries(s', id, sender, nonce);
        assert Carries(s, id, sender, nonce);
      }
    }
  }

  // ----- Runs -----

  datatype Event =
    | CreateEvent(sender: string, receiver: string, token: string, amount: uint64, signature: string)
    | ClaimEvent(id: string)
    | ConfirmEvent(id: string, tx: string)
    | ExpireEvent

  function Next(s: State, e: Event, now: real): State {
    match e
    case CreateEvent(sender, receiver, token, amount, signature) =>
      Create(s, sender, receiver, token, amount, signature, now)
    case ClaimEvent(id) => Claim(s, id, now)
    case ConfirmEvent(id, tx) => Confirm(s, id, tx)
    case ExpireEvent => Expire(s, now)
  }

  lemma StepKeepsRecords(s: State, clock: real, e: Event, now: real)
    requires RecordsOk(s, clock) && now >= clock
    ensures RecordsOk(Next(s, e, now), now)
  {
    forall id | id in Next(s, e, now).intents ensures IntentOk(Next(s, e, now).intents[id], now) {
      assert id in s.intents ==> IntentOk(s.intents[id], clock);
    }
  }

  lemma StepKeepsIdsAndNonces(s: State, e: Event, now: real)
    requires IdsIssued(s) && NoncesExact(s)
    ensures IdsIssued(Next(s, e, now)) && NoncesExact(Next(s, e, now))
  {
    match e
    case CreateEvent(sender, receiver, token, amount, signature) =>
      CreateKeepsIds(s, sender, receiver, token, amount, signature, now);
      CreateKeepsNonces(s, sender, receiver, token, amount, signature, now);
    case ClaimEvent(id) =>
      UpdateKeepsIdsAndNonces(s, Claim(s, id, now));
    case ConfirmEvent(id, tx) =>
      UpdateKeepsIdsAndNonces(s, Confirm(s, id, tx));
    case ExpireEvent =>
      UpdateKeepsIdsAndNonces(s, Expire(s, now));
  }

  /** Clock readings do not go back. */
  predicate Ordered(clock: real, events: seq<(Event, real)>)
    decreases |events|
  {
    events == [] || (events[0].1 >= clock && Ordered(events[0].1, events[1..]))
  }

  function After(s: State, events: seq<(Event, real)>): State
    decreases |events|
  {
    if events == [] then s else After(Next(s, events[0].0, events[0].1), events[1..])
  }

  function LastClock(clock: real, events: seq<(Event, real)>): real {
    if events == [] then clock else events[|events| - 1].1
  }

  lemma {:induction false} RunKeepsIdsAndNonces(s: State, events: seq<(Event, real)>)
    requires IdsIssued(s) && NoncesExact(s)
    ensures IdsIssued(After(s, events)) && NoncesExact(After(s, events))
    decreases |events|
  {
    if events != [] {
      StepKeepsIdsAndNonces(s, events[0].0, events[0].1);
      RunKeepsIdsAndNonces(Next(s, events[0].0, events[0].1), events[1..]);
    }
  }

  lemma {:induction false} RunKeepsRecords(s: State, clock: real, events: seq<(Event, real)>)
    requires RecordsOk(s, clock) && Ordered(clock, events)
    ensures RecordsOk(After(s, events), LastClock(clock, events))
    decreases |events|
  {
    if events != [] {
      var now, rest := events[0].1, events[1..];
      StepKeepsRecords(s, clock, events[0].0, now);
      RunKeepsRecords(Next(s, events[0].0, now), now, rest);
      assert LastClock(clock, events) == LastClock(now, rest);
    }
  }

  lemma EmptyIsOk(clock: real)
    ensures Inv(EMPTY, clock)
  {
    forall sender: string, nonce: nat ensures !NonceUsed(EMPTY, sender, nonce) {}
  }

  /** Over every run: distinct ids, exact nonces, and a settlement transaction only on claimed intents. */
  lemma EveryRunIsOrderly(begin: real, events: seq<(Event, real)>)
    requires Ordered(begin, events)
    ensures Inv(After(EMPTY, events), LastClock(begin, events))
  {
    EmptyIsOk(begin);
    RunKeepsIdsAndNonces(EMPTY, events);
    RunKeepsRecords(EMPTY, begin, events);
  }

  /** Equal but for the settlement transaction. */
  predicate SameButSettlement(a: PaymentIntent, b: PaymentIntent) {
    a.(settlementTx := "") == b.(settlementTx := "")
  }

  predicate Final(i: PaymentIntent, later: PaymentIntent) {
    SameButSettlement(later, i) && (i.status == Expired ==> later == i)
  }

  lemma StepKeepsFinal(s: State, e: Event, now: real, id: string)
    requires IdsIssued(s) && id in s.intents && s.intents[id].status != Pending
    ensures id in Next(s, e, now).intents && Final(s.intents[id], Next(s, e, now).intents[id])
  {
    FreshId(s);
  }

  /** Claimed and expired are final: a claim is never undone or repeated, an expired record never changes. */
  lemma {:induction false} FinalForever(s: State, events: seq<(Event, real)>, id: string)
    requires IdsIssued(s) && NoncesExact(s) && id in s.intents && s.intents[id].status != Pending
    ensures id in After(s, events).intents && Final(s.intents[id], After(s, events).intents[id])
    decreases |events|
  {
    if events != [] {
      StepKeepsFinal(s, events[0].0, events[0].1, id);
      StepKeepsIdsAndNonces(s, events[0].0, events[0].1);
      FinalForever(Next(s, events[0].0, events[0].1), events[1..], id);
    }
  }

  // ----- The program -----

  class IntentNetwork {
    var intents: map<string, PaymentIntent>
    var userNonces: map<string, nat>
    var intentCounter: nat

    function View(): State
      reads this
    {
      State(intents, userNonces, intentCounter)
    }

    constructor ()
      ensures View() == EMPTY
    {
      intents, userNonces, intentCounter := map[], map[], 1;
    }

    method GenerateIntentId() returns (id: string)
      modifies this`intentCounter
      ensures id == IntentId(old(intentCounter)) && intentCounter == old(intentCounter) + 1
    {
      id := IntentId(intentCounter);
      intentCounter := intentCounter + 1;
    }

    method CreateIntent(sender: string, receiver: string, token: string, amount: uint64, signature: string, now: real)
      returns (intent: PaymentIntent)
      modifies this
      ensures View() == old(Create(View(), sender, receiver, token, amount, signature, now))
      ensures intent == old(NewIntent(View(), sender, receiver, token, amount, signature, now))
      ensures old(IdsIssued(View())) ==> intent.intentId !in old(intents)
      ensures intent == PaymentIntent(
        "int_" + Print(old(intentCounter)), sender, receiver, token, amount, now, now + 604800.0,
        if sender in old(userNonces) then old(userNonces)[sender] else 0, signature, Pending, 0.0, "")
      ensures intents == old(intents)[intent.intentId := intent]
      ensures userNonces == old(userNonces)[sender := intent.nonce + 1] && intentCounter == old(intentCounter) + 1
    {
      ghost var before := View();
      if sender !in userNonces {
        userNonces := userNonces[sender := 0];
      }
      var nonce := userNonces[sender];
      userNonces := userNonces[sender := nonce + 1];
      var id := GenerateIntentId();
      intent := PaymentIntent(id, sender, receiver, token, amount, now, now + CLAIM_WINDOW_SECONDS,
                              nonce, signature, Pending, 0.0, "");
      intents := intents[id := intent];
      if IdsIssued(before) {
        FreshId(before);
      }
    }

    /** None is the null pointer. */
    method ClaimIntent(id: string, now: real) returns (intent: Option<PaymentIntent>)
      modifies this
      ensures View() == old(Claim(View(), id, now))
      ensures intent == if old(CanClaim(View(), id, now)) then Some(intents[id]) else None
      ensures intent.Some? <==>
        id in old(intents) && old(intents)[id].status == Pending && now < old(intents)[id].expiresAt
      ensures intent.Some? ==>
        && intent.value == old(intents)[id].(status := Claimed, claimedAt := now)
        && intents == old(intents)[id := intent.value]
      ensures intent.None? ==> intents == old(intents)
      ensures userNonces == old(userNonces) && intentCounter == old(intentCounter)
    {
      if id !in intents {
        return None;
      }
      var i := intents[id];
      if i.status != Pending || now >= i.expiresAt {
        return None;
      }
      i := i.(status := Claimed);
      i := i.(claimedAt := now);
      intents := intents[id := i];
      return Some(i);
    }

    method ConfirmSettlement(id: string, txSignature: string) returns (ok: bool)
      modifies this
      ensures ok <==> old(CanConfirm(View(), id))
      ensures View() == old(Confirm(View(), id, txSignature))
      ensures ok <==> id in old(intents) && old(intents)[id].status == Claimed
      ensures intents ==
        if ok then old(intents)[id := old(intents)[id].(settlementTx := txSignature)] else old(intents)
      ensures userNonces == old(userNonces) && intentCounter == old(intentCounter)
    {
      if id !in intents {
        return false;
      }
      if intents[id].status != Claimed {
        return false;
      }
      intents := intents[id := intents[id].(settlementTx := txSignature)];
      return true;
    }

    /** Sweeps the intents in whatever order the map yields them. */
    method ExpireIntents(now: real)
      modifies this
      ensures View() == old(Expire(View(), now))
      ensures intents.Keys == old(intents).Keys
      ensures forall id :: id in intents ==>
        var i := old(intents)[id];
        intents[id] == if i.status == Pending && i.expiresAt <= now then i.(status := Expired) else i
      ensures userNonces == old(userNonces) && intentCounter == old(intentCounter)
    {
      var rest := intents.Keys;
      ghost var before := intents;
      while rest != {}
        invariant rest <= before.Keys == intents.Keys
        invariant userNonces == old(userNonces) && intentCounter == old(intentCounter)
        invariant forall id :: id in before ==>
          intents[id] == if id in rest then before[id] else ExpiredAt(before[id], now)
        decreases rest
      {
        var id :| id in rest;
        if intents[id].status == Pending && now >= intents[id].expiresAt {
          intents := intents[id := intents[id].(status := Expired)];
        }
        rest := rest - {id};
      }
    }

    method PendingCount() returns (count: nat)
      ensures count == |set id | id in intents && intents[id].status == Pending|
    {
      count := 0;
      var rest := intents.Keys;
      ghost var counted: set<string> := {};
      while rest != {}
        invariant rest <= intents.Keys
        invariant counted == set id | id in intents && id !in rest && intents[id].status == Pending
        invariant count == |counted|
        decreases rest
      {
        var id :| id in rest;
        if intents[id].status == Pending {
          count := count + 1;
          counted := counted + {id};
        }
        rest := rest - {id};
      }
      assert counted == set id | id in intents && intents[id].status == Pending;
    }
  }
}
