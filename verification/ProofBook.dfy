/** The hash-chained proof log and what a matching last hash shows about two logs. */
module ProofBook {
  import opened Common
  import opened Decimal
  import opened Hashing

  datatype ProofType =
    | Volatility | Development | ZkCompute | Governance | FeeCredit
    | RouteValidation | OracleUpdate | Treasury | IdentityLink

  function Zeros(n: nat): (s: string)
    ensures |s| == n && forall i :: 0 <= i < n ==> s[i] == '0'
  {
    if n == 0 then "" else "0" + Zeros(n - 1)
  }

  const GENESIS: Hex := Zeros(HEX_SIZE)

  datatype ProofEntry = ProofEntry(
    kind: ProofType, data: string, timestamp: real, prevHash: string, entryHash: string)

  function TypeCode(t: ProofType): (c: nat)
    ensures c < 10
  {
    match t
    case Volatility => 0
    case Development => 1
    case ZkCompute => 2
    case Governance => 3
    case FeeCredit => 4
    case RouteValidation => 5
    case OracleUpdate => 6
    case Treasury => 7
    case IdentityLink => 8
  }

  /** Data and timestamp run together without a separator. */
  function Body(e: ProofEntry): string {
    e.data + PrintReal(e.timestamp)
  }

  function Payload(e: ProofEntry): string {
    Print(TypeCode(e.kind)) + Body(e) + e.prevHash
  }

  /** The text hashed: the type's number as one character, data, timestamp and previous hash. */
  lemma PayloadText(e: ProofEntry)
    ensures Payload(e) == (match e.kind case Volatility => "0" case Development => "1" case ZkCompute => "2"
                               case Governance => "3" case FeeCredit => "4" case RouteValidation => "5"
                               case OracleUpdate => "6" case Treasury => "7" case IdentityLink => "8")
                          + e.data + PrintReal(e.timestamp) + e.prevHash
  {
    var code := Print(TypeCode(e.kind));
    assert code + (e.data + PrintReal(e.timestamp)) + e.prevHash == code + e.data + PrintReal(e.timestamp) + e.prevHash;
  }

  function ComputeHash(h: HexHash, e: ProofEntry): string {
    h(Payload(e))
  }

  function Seal(h: HexHash, e: ProofEntry, prev: string): ProofEntry {
    var linked := ProofEntry(e.kind, e.data, e.timestamp, prev, e.entryHash);
    ProofEntry(e.kind, e.data, e.timestamp, prev, ComputeHash(h, linked))
  }

  // ----- Chains -----

  function LastHash(entries: seq<ProofEntry>): string {
    if entries == [] then GENESIS else entries[|entries| - 1].entryHash
  }

  /** Entry i carries the hash of its own payload and names the entry before it. */
  predicate Linked(h: HexHash, entries: seq<ProofEntry>, i: nat)
    requires i < |entries|
  {
    entries[i].prevHash == LastHash(entries[..i]) && entries[i].entryHash == ComputeHash(h, entries[i])
  }

  ghost predicate ChainOk(h: HexHash, entries: seq<ProofEntry>) {
    forall i: nat :: i < |entries| ==> Linked(h, entries, i)
  }

  ghost predicate PayloadsIn(entries: seq<ProofEntry>, inputs: set<string>) {
    forall i :: 0 <= i < |entries| ==> Payload(entries[i]) in inputs
  }

  /** Entry i as stored: the previous entry's hash, or sixty-four zeros, and the hash of the text made from it. */
  predicate Stored(h: HexHash, entries: seq<ProofEntry>, i: nat)
    requires i < |entries|
  {
    var e := entries[i];
    && e.prevHash == (if i == 0 then Zeros(64) else entries[i - 1].entryHash)
    && e.entryHash == h(
         (match e.kind case Volatility => "0" case Development => "1" case ZkCompute => "2"
                               case Governance => "3" case FeeCredit => "4" case RouteValidation => "5"
                               case OracleUpdate => "6" case Treasury => "7" case IdentityLink => "8")
         + e.data + PrintReal(e.timestamp) + e.prevHash)
  }

  lemma LinkedIsStored(h: HexHash, entries: seq<ProofEntry>, i: nat)
    requires i < |entries|
    ensures Linked(h, entries, i) <==> Stored(h, entries, i)
  {
    PayloadText(entries[i]);
    assert i > 0 ==> entries[..i][i - 1] == entries[i - 1];
  }

  /** What a verified log is, in terms of the texts hashed. */
  lemma ChainIsStored(h: HexHash, entries: seq<ProofEntry>)
    ensures ChainOk(h, entries) <==> forall i: nat :: i < |entries| ==> Stored(h, entries, i)
  {
    forall i: nat | i < |entries| ensures Linked(h, entries, i) <==> Stored(h, entries, i) {
      LinkedIsStored(h, entries, i);
    }
  }

  lemma ChainPrefix(h: HexHash, entries: seq<ProofEntry>, n: nat, inputs: set<string>)
    requires ChainOk(h, entries) && PayloadsIn(entries, inputs) && n <= |entries|
    ensures ChainOk(h, entries[..n]) && PayloadsIn(entries[..n], inputs)
  {
    assert forall i :: 0 <= i < n ==> entries[..n][i] == entries[i];
    forall i: nat | i < n ensures Linked(h, entries[..n], i) {
      assert Linked(h, entries, i);
      assert entries[..n][..i] == entries[..i];
    }
  }

  lemma ChainExtends(h: HexHash, entries: seq<ProofEntry>, e: ProofEntry)
    requires ChainOk(h, entries)
    ensures ChainOk(h, entries + [Seal(h, e, LastHash(entries))])
  {
    var all := entries + [Seal(h, e, LastHash(entries))];
    forall i: nat | i < |all| ensures Linked(h, all, i) {
      if i < |entries| {
        assert Linked(h, entries, i);
        assert all[..i] == entries[..i];
      } else {
        assert all[..i] == entries;
      }
    }
  }

  /** The log after any run of appends, one draft each. */
  function AppendAll(h: HexHash, drafts: seq<ProofEntry>): seq<ProofEntry> {
    if drafts == [] then []
    else
      var before := AppendAll(h, drafts[..|drafts| - 1]);
      before + [Seal(h, drafts[|drafts| - 1], LastHash(before))]
  }

  /** The same entries up to their hashes. */
  predicate SameContent(a: seq<ProofEntry>, b: seq<ProofEntry>) {
    |a| == |b| && forall i :: 0 <= i < |a| ==>
      a[i].kind == b[i].kind && a[i].data == b[i].data && a[i].timestamp == b[i].timestamp
  }

  lemma SameContentGrows(a: seq<ProofEntry>, b: seq<ProofEntry>, h: HexHash, prev: string)
    requires b != [] && SameContent(a, b[..|b| - 1])
    ensures SameContent(a + [Seal(h, b[|b| - 1], prev)], b)
  {
    assert forall i :: 0 <= i < |a| ==> b[..|b| - 1][i] == b[i];
  }

  /** Every run of appends verifies and keeps what was appended, in order. */
  lemma {:induction false} EveryRunVerifies(h: HexHash, drafts: seq<ProofEntry>)
    ensures ChainOk(h, AppendAll(h, drafts)) && SameContent(AppendAll(h, drafts), drafts)
  {
    if drafts != [] {
      var n := |drafts| - 1;
      var before := AppendAll(h, drafts[..n]);
      EveryRunVerifies(h, drafts[..n]);
      ChainExtends(h, before, drafts[n]);
      SameContentGrows(before, drafts, h, LastHash(before));
    }
  }

  lemma LinksAreHex(h: HexHash, entries: seq<ProofEntry>, n: nat)
    requires ChainOk(h, entries) && n <= |entries|
    ensures |LastHash(entries[..n])| == HEX_SIZE
  {
    if n > 0 {
      assert Linked(h, entries, n - 1);
    }
  }

  // ----- Tamper evidence -----

  /** What equal hashes pin down: everything but the border between data and timestamp. */
  predicate Agree(a: ProofEntry, b: ProofEntry) {
    a.kind == b.kind && a.prevHash == b.prevHash && a.entryHash == b.entryHash && Body(a) == Body(b)
  }

  ghost predicate AllAgree(a: seq<ProofEntry>, b: seq<ProofEntry>) {
    |a| == |b| && forall i :: 0 <= i < |a| ==> Agree(a[i], b[i])
  }

  lemma AllAgreeGrows(a: seq<ProofEntry>, b: seq<ProofEntry>)
    requires |a| == |b| > 0 && AllAgree(a[..|a| - 1], b[..|b| - 1]) && Agree(a[|a| - 1], b[|b| - 1])
    ensures AllAgree(a, b)
  {
    forall i | 0 <= i < |a| - 1 ensures Agree(a[i], b[i]) {
      assert Agree(a[..|a| - 1][i], b[..|b| - 1][i]);
    }
  }

  lemma TypeCodeInjective(s: ProofType, t: ProofType)
    requires TypeCode(s) == TypeCode(t)
    ensures s == t
  {}

  lemma PayloadParts(a: ProofEntry, b: ProofEntry)
    requires Payload(a) == Payload(b) && |a.prevHash| == |b.prevHash|
    ensures a.kind == b.kind && Body(a) == Body(b) && a.prevHash == b.prevHash
  {
    var p, q := Payload(a), Payload(b);
    assert p[0] == Digit(TypeCode(a.kind)) && q[0] == Digit(TypeCode(b.kind));
    TypeCodeInjective(a.kind, b.kind);
    var n := |p| - |a.prevHash|;
    assert p[1..n] == Body(a) && q[1..n] == Body(b);
    assert p[n..] == a.prevHash && q[n..] == b.prevHash;
  }

  /** The last entries of two chains with the same last hash agree, and so do the hashes before them. */
  lemma LastEntriesAgree(h: HexHash, a: seq<ProofEntry>, b: seq<ProofEntry>, inputs: set<string>)
    requires a != [] && b != [] && ChainOk(h, a) && ChainOk(h, b) && LastHash(a) == LastHash(b)
    requires CollisionFree(h, inputs) && PayloadsIn(a, inputs) && PayloadsIn(b, inputs)
    ensures Agree(a[|a| - 1], b[|b| - 1])
    ensures LastHash(a[..|a| - 1]) == LastHash(b[..|b| - 1])
  {
    var n, m := |a| - 1, |b| - 1;
    LinksAreHex(h, a, n);
    LinksAreHex(h, b, m);
    assert Linked(h, a, n) && Linked(h, b, m);
    assert Payload(a[n]) in inputs && Payload(b[m]) in inputs;
    PayloadParts(a[n], b[m]);
  }

  /** A verified log whose payloads are all among the inputs. */
  ghost predicate Verified(h: HexHash, entries: seq<ProofEntry>, inputs: set<string>) {
    ChainOk(h, entries) && PayloadsIn(entries, inputs)
  }

  lemma Peel(h: HexHash, entries: seq<ProofEntry>, inputs: set<string>)
    requires entries != [] && Verified(h, entries, inputs)
    ensures Verified(h, entries[..|entries| - 1], inputs)
  {
    ChainPrefix(h, entries, |entries| - 1, inputs);
  }

  lemma PeelBoth(h: HexHash, a: seq<ProofEntry>, b: seq<ProofEntry>, inputs: set<string>)
    requires a != [] && b != [] && Verified(h, a, inputs) && Verified(h, b, inputs)
    requires CollisionFree(h, inputs) && LastHash(a) == LastHash(b)
    ensures Agree(a[|a| - 1], b[|b| - 1]) && LastHash(a[..|a| - 1]) == LastHash(b[..|b| - 1])
    ensures Verified(h, a[..|a| - 1], inputs) && Verified(h, b[..|b| - 1], inputs)
  {
    LastEntriesAgree(h, a, b, inputs);
    Peel(h, a, inputs);
    Peel(h, b, inputs);
  }

  /**
   * Tamper evidence: two logs of the same length that both pass verification and end in the same hash
   * agree at every position on type, links and the text data + timestamp.
   */
  lemma {:induction false} TamperEvident(h: HexHash, a: seq<ProofEntry>, b: seq<ProofEntry>, inputs: set<string>)
    requires |a| == |b| && ChainOk(h, a) && ChainOk(h, b) && LastHash(a) == LastHash(b)
    requires CollisionFree(h, inputs) && PayloadsIn(a, inputs) && PayloadsIn(b, inputs)
    ensures AllAgree(a, b)
    decreases |a|
  {
    if a != [] {
      PeelBoth(h, a, b, inputs);
      TamperEvident(h, a[..|a| - 1], b[..|b| - 1], inputs);
      AllAgreeGrows(a, b);
    }
  }

  lemma NotGenesis(h: HexHash, entries: seq<ProofEntry>, inputs: set<string>)
    requires ChainOk(h, entries) && PayloadsIn(entries, inputs) && forall x :: x in inputs ==> h(x) != GENESIS
    ensures entries != [] ==> LastHash(entries) != GENESIS
  {
    if entries != [] {
      assert Linked(h, entries, |entries| - 1);
    }
  }

  /** The length need not be compared either, unless some payload hashes to sixty-four zeros. */
  lemma {:induction false} SameLastHashSameLength(
    h: HexHash, a: seq<ProofEntry>, b: seq<ProofEntry>, inputs: set<string>)
    requires ChainOk(h, a) && ChainOk(h, b) && LastHash(a) == LastHash(b)
    requires CollisionFree(h, inputs) && PayloadsIn(a, inputs) && PayloadsIn(b, inputs)
    requires forall x :: x in inputs ==> h(x) != GENESIS
    ensures |a| == |b|
    decreases |a|
  {
    NotGenesis(h, a, inputs);
    NotGenesis(h, b, inputs);
    if a != [] && b != [] {
      PeelBoth(h, a, b, inputs);
      SameLastHashSameLength(h, a[..|a| - 1], b[..|b| - 1], inputs);
    }
  }

  // ----- The border between data and timestamp -----

  /** The digits from position k to the end of the data could begin a number. */
  predicate NumberTail(data: string, k: nat) {
    k < |data| && data[k] != '0' && AllDigits(data[k..])
  }

  /** No end of the data could begin a number. */
  predicate Delimited(data: string) {
    forall k: nat :: k < |data| ==> !NumberTail(data, k)
  }

  /** The entry that results when the data from k on is read as the beginning of the timestamp. */
  function Moved(e: ProofEntry, k: nat): ProofEntry
    requires e.timestamp >= 0.0 && NumberTail(e.data, k)
  {
    NonNegativeText(e.timestamp);
    var m := Micros(e.timestamp);
    PrintParses(m / MICRO);
    e.(data := e.data[..k], timestamp := Prefixed(e.data[k..] + Print(m / MICRO), m) as real / MICRO as real)
  }

  lemma BorderMoves(data: string, k: nat, whole: string, decimals: string)
    requires k <= |data|
    ensures data[..k] + ((data[k..] + whole) + decimals) == data + (whole + decimals)
  {}

  lemma MovedBody(e: ProofEntry, k: nat)
    requires e.timestamp >= 0.0 && NumberTail(e.data, k)
    ensures Moved(e, k).timestamp >= 0.0 && Body(Moved(e, k)) == Body(e)
  {
    NonNegativeText(e.timestamp);
    var m := Micros(e.timestamp);
    var whole := Print(m / MICRO);
    PrintParses(m / MICRO);
    PrefixedReal(e.data[k..] + whole, m);
    BorderMoves(e.data, k, whole, Decimals(m));
  }

  /** If the other entry's data is shorter, the difference is the beginning of its timestamp. */
  lemma LongerHasTail(a: ProofEntry, b: ProofEntry)
    requires a.timestamp >= 0.0 && b.timestamp >= 0.0 && |b.data| < |a.data| && Body(b) == Body(a)
    ensures NumberTail(a.data, |b.data|)
  {
    NonNegativeText(a.timestamp);
    NonNegativeText(b.timestamp);
    var m, n := Micros(a.timestamp) / MICRO, Micros(b.timestamp) / MICRO;
    PrintParses(m);
    PrintParses(n);
    WholePart(a, m);
    WholePart(b, n);
    var s, k := Body(a)[..|Body(a)| - 7], |b.data|;
    assert s[k..] == Print(n) && s[..|a.data|] == a.data;
    assert forall i :: 0 <= i < |a.data| - k ==> a.data[k..][i] == Print(n)[i];
    if n > 0 {
      PrintLeads(n);
    }
  }

  /** The body without the point and the six decimals. */
  lemma WholePart(e: ProofEntry, n: nat)
    requires e.timestamp >= 0.0 && n == Micros(e.timestamp) / MICRO
    ensures |Body(e)| >= 7 && Body(e)[..|Body(e)| - 7] == e.data + Print(n)
  {
    NonNegativeText(e.timestamp);
  }

  /** An entry with less data and the same body exists exactly when the data ends in digits fit to begin a number. */
  lemma BorderCanMoveIff(a: ProofEntry)
    requires a.timestamp >= 0.0
    ensures (exists b: ProofEntry :: b.timestamp >= 0.0 && |b.data| < |a.data| && Body(b) == Body(a))
            <==> !Delimited(a.data)
  {
    forall b: ProofEntry | b.timestamp >= 0.0 && |b.data| < |a.data| && Body(b) == Body(a)
      ensures !Delimited(a.data)
    {
      LongerHasTail(a, b);
    }
    if !Delimited(a.data) {
      var k: nat :| k < |a.data| && NumberTail(a.data, k);
      MovedBody(a, k);
    }
  }

  /** The entry that results when all but the last digit of the seconds are read as data. */
  function Extended(e: ProofEntry): ProofEntry
    requires Micros(e.timestamp) >= 10 * MICRO
  {
    var m := Micros(e.timestamp);
    e.(data := e.data + Print(m / MICRO / 10), timestamp := WithoutFront(m) as real / MICRO as real)
  }

  lemma ExtendedBody(e: ProofEntry)
    requires e.timestamp >= 0.0 && Micros(e.timestamp) >= 10 * MICRO
    ensures Extended(e).timestamp >= 0.0 && |Extended(e).data| > |e.data| && Body(Extended(e)) == Body(e)
  {
    NonNegativeText(e.timestamp);
    var m := Micros(e.timestamp);
    var front, last := Print(m / MICRO / 10), [Digit(m / MICRO % 10)];
    PrintParses(m / MICRO / 10);
    LastSecondsDigit(m);
    assert PrintReal(e.timestamp) == front + last + Decimals(m);
    BorderMovesBack(e.data, front, last, Decimals(m));
  }

  lemma BorderMovesBack(data: string, front: string, last: string, decimals: string)
    ensures data + front + (last + decimals) == data + (front + last + decimals)
  {}

  /** More data with the same body takes a timestamp of at least two digits before the point. */
  lemma ShorterHasDigits(a: ProofEntry, b: ProofEntry)
    requires a.timestamp >= 0.0 && b.timestamp >= 0.0 && |b.data| > |a.data| && Body(b) == Body(a)
    ensures Micros(a.timestamp) >= 10 * MICRO
  {
    NonNegativeText(a.timestamp);
    NonNegativeText(b.timestamp);
    PrintParses(Micros(b.timestamp) / MICRO);
    WholePart(a, Micros(a.timestamp) / MICRO);
    WholePart(b, Micros(b.timestamp) / MICRO);
  }

  lemma SameSplit(a: ProofEntry, b: ProofEntry)
    requires Body(a) == Body(b) && |a.data| == |b.data|
    ensures a.data == b.data && PrintReal(a.timestamp) == PrintReal(b.timestamp)
  {
    var n := |a.data|;
    assert a.data == Body(a)[..n] && PrintReal(a.timestamp) == Body(a)[n..];
    assert b.data == Body(b)[..n] && PrintReal(b.timestamp) == Body(b)[n..];
  }

  ghost predicate HasTwin(a: ProofEntry) {
    exists b: ProofEntry :: b.timestamp >= 0.0 && b.data != a.data && Body(b) == Body(a)
  }

  /**
   * An entry with other data and the same body exists exactly when the data ends in digits fit to begin a
   * number, or the timestamp, to the microsecond, is ten seconds or more, as every reading of a real clock is.
   */
  lemma TwinIff(a: ProofEntry)
    requires a.timestamp >= 0.0
    ensures HasTwin(a) <==> !Delimited(a.data) || Micros(a.timestamp) >= 10 * MICRO
  {
    BorderCanMoveIff(a);
    forall b: ProofEntry | b.timestamp >= 0.0 && b.data != a.data && Body(b) == Body(a)
      ensures |b.data| < |a.data| || Micros(a.timestamp) >= 10 * MICRO
    {
      if |b.data| > |a.data| {
        ShorterHasDigits(a, b);
      } else if |b.data| == |a.data| {
        SameSplit(a, b);
      }
    }
    if Micros(a.timestamp) >= 10 * MICRO {
      ExtendedBody(a);
    }
  }

  /** Delimited entries that agree have the same data and the same timestamp, to the microsecond. */
  lemma DelimitedEntriesAgree(a: ProofEntry, b: ProofEntry)
    requires Agree(a, b) && a.timestamp >= 0.0 && b.timestamp >= 0.0 && Delimited(a.data) && Delimited(b.data)
    ensures a.data == b.data && Micros(a.timestamp) == Micros(b.timestamp)
  {
    if |b.data| < |a.data| {
      LongerHasTail(a, b);
    } else if |a.data| < |b.data| {
      LongerHasTail(b, a);
    } else {
      SameSplit(a, b);
      PrintRealInjective(a.timestamp, b.timestamp);
    }
  }

  ghost predicate AllDelimited(entries: seq<ProofEntry>) {
    forall i :: 0 <= i < |entries| ==> Delimited(entries[i].data) && entries[i].timestamp >= 0.0
  }

  /** So the last hash of two verified logs of one length binds the data too, if both hold delimited data only. */
  lemma TamperEvidentData(h: HexHash, a: seq<ProofEntry>, b: seq<ProofEntry>, inputs: set<string>)
    requires |a| == |b| && ChainOk(h, a) && ChainOk(h, b) && LastHash(a) == LastHash(b)
    requires CollisionFree(h, inputs) && PayloadsIn(a, inputs) && PayloadsIn(b, inputs)
    requires AllDelimited(a) && AllDelimited(b)
    ensures forall i :: 0 <= i < |a| ==>
      a[i].kind == b[i].kind && a[i].data == b[i].data && Micros(a[i].timestamp) == Micros(b[i].timestamp)
  {
    TamperEvident(h, a, b, inputs);
    forall i | 0 <= i < |a| ensures a[i].data == b[i].data && Micros(a[i].timestamp) == Micros(b[i].timestamp) {
      assert Agree(a[i], b[i]);
      DelimitedEntriesAgree(a[i], b[i]);
    }
  }

  /** An instance of the other direction: data that ends as JSON text does, and its twin with more data. */
  lemma DelimitedDataHasTwin(h: HexHash, kind: ProofType, prev: string)
    ensures var a, b := ProofEntry(kind, "{}", 12.0, prev, ""), ProofEntry(kind, "{}1", 2.0, prev, "");
      Delimited(a.data) && Extended(a) == b && Seal(h, a, prev).entryHash == Seal(h, b, prev).entryHash
  {
    var a := ProofEntry(kind, "{}", 12.0, prev, "");
    assert Micros(12.0) == 12000000 && Print(1) == "1";
    assert forall k :: 0 <= k < 2 ==> "{}"[k..][|"{}"| - 1 - k] == '}';
    ExtendedBody(a);
  }

  /** An instance: two different entries with one hash, a digit having crossed the border. */
  lemma BorderCanMove(h: HexHash, kind: ProofType, prev: string)
    ensures var a, b := ProofEntry(kind, "1", 2.0, prev, ""), ProofEntry(kind, "", 12.0, prev, "");
      Moved(a, 0) == b && Seal(h, a, prev).entryHash == Seal(h, b, prev).entryHash
  {
    var a := ProofEntry(kind, "1", 2.0, prev, "");
    assert Micros(2.0) == 2000000 && Print(2) == "2" && "1"[0..] + "2" == "12";
    assert Parse("12"[..1]) == 1;
    MovedBody(a, 0);
  }

  // ----- The log -----

  /** The entries of one type, newest first. */
  function Newest(entries: seq<ProofEntry>, kind: ProofType): seq<ProofEntry> {
    if entries == [] then []
    else
      var n := |entries| - 1;
      (if entries[n].kind == kind then [entries[n]] else []) + Newest(entries[..n], kind)
  }

  /** Newest keeps every entry of the type and nothing else. */
  lemma {:induction false} NewestCount(entries: seq<ProofEntry>, kind: ProofType, e: ProofEntry)
    ensures multiset(Newest(entries, kind))[e] == if e.kind == kind then multiset(entries)[e] else 0
  {
    if entries != [] {
      var n := |entries| - 1;
      assert entries == entries[..n] + [entries[n]];
      NewestCount(entries[..n], kind, e);
    }
  }

  lemma NewestOfOne(e: ProofEntry, kind: ProofType)
    ensures Newest([e], kind) == if e.kind == kind then [e] else []
  {
    assert [e][..0] == [] && Newest([], kind) == [];
  }

  lemma NewestSnoc(a: seq<ProofEntry>, e: ProofEntry, kind: ProofType)
    ensures Newest(a + [e], kind) == Newest([e], kind) + Newest(a, kind)
  {
    assert (a + [e])[..|a|] == a;
    NewestOfOne(e, kind);
  }

  /** What is selected from the end of a log comes first. */
  lemma {:induction false} NewestConcat(a: seq<ProofEntry>, b: seq<ProofEntry>, kind: ProofType)
    ensures Newest(a + b, kind) == Newest(b, kind) + Newest(a, kind)
  {
    if b == [] {
      assert a + b == a && Newest([], kind) == [];
    } else {
      var n := |b| - 1;
      var e := b[n];
      assert a + b == a + b[..n] + [e] && b == b[..n] + [e];
      NewestConcat(a, b[..n], kind);
      NewestSnoc(a + b[..n], e, kind);
      NewestSnoc(b[..n], e, kind);
      ConcatAssociative(Newest([e], kind), Newest(b[..n], kind), Newest(a, kind));
    }
  }

  class ProofBook {
    const hexHash: HexHash
    var entries: seq<ProofEntry>
    var lastHash: string

    ghost predicate Valid()
      reads this
    {
      ChainOk(hexHash, entries) && lastHash == LastHash(entries)
    }

    constructor (h: HexHash)
      ensures Valid() && entries == [] && hexHash == h
    {
      hexHash, entries, lastHash := h, [], GENESIS;
    }

    /** The clock reading is an input. */
    method Append(kind: ProofType, data: string, now: real) returns (entry: ProofEntry)
      requires Valid()
      modifies this
      ensures Valid() && entries == old(entries) + [entry]
      ensures entry.kind == kind && entry.data == data && entry.timestamp == now && entry.prevHash == old(lastHash)
      ensures lastHash == entry.entryHash == hexHash(
        (match kind case Volatility => "0" case Development => "1" case ZkCompute => "2"
                               case Governance => "3" case FeeCredit => "4" case RouteValidation => "5"
                               case OracleUpdate => "6" case Treasury => "7" case IdentityLink => "8")
        + data + PrintReal(now) + old(lastHash))
    {
      PayloadText(ProofEntry(kind, data, now, lastHash, ""));
      var draft := ProofEntry(kind, data, now, "", "");
      entry := Seal(hexHash, draft, lastHash);
      ChainExtends(hexHash, entries, draft);
      entries := entries + [entry];
      lastHash := entries[|entries| - 1].entryHash;
    }

    /** True on every log that was only appended to; on any stored entries it decides the chain property. */
    method VerifyChain() returns (ok: bool)
      ensures ok <==> ChainOk(hexHash, entries)
      ensures ok <==> forall i: nat :: i < |entries| ==> Stored(hexHash, entries, i)
      ensures Valid() ==> ok
    {
      ChainIsStored(hexHash, entries);
      var expected: string := GENESIS;
      for i := 0 to |entries|
        invariant expected == LastHash(entries[..i])
        invariant ChainOk(hexHash, entries[..i])
      {
        var entry := entries[i];
        if entry.prevHash != expected {
          assert !Linked(hexHash, entries, i);
          return false;
        }
        var computed := ComputeHash(hexHash, entry);
        if entry.entryHash != computed {
          assert !Linked(hexHash, entries, i);
          return false;
        }
        expected := computed;
        assert entry == Seal(hexHash, entry, LastHash(entries[..i]));
        ChainExtends(hexHash, entries[..i], entry);
        assert entries[..i + 1] == entries[..i] + [entry];
      }
      assert entries[..|entries|] == entries;
      ok := true;
    }

    /** At most limit entries of one type, newest first. */
    method GetEntries(kind: ProofType, limit: nat) returns (result: seq<ProofEntry>)
      ensures var all := Newest(entries, kind);
        result == if |all| <= limit then all else all[..limit]
    {
      result := [];
      var i := |entries|;
      assert entries[..i] == entries;
      while i > 0 && |result| < limit
        invariant 0 <= i <= |entries| && |result| <= limit
        invariant result + Newest(entries[..i], kind) == Newest(entries, kind)
      {
        i := i - 1;
        NewestStep(entries, i, kind, result);
        if entries[i].kind == kind {
          result := result + [entries[i]];
        }
      }
      FirstOf(result, Newest(entries[..i], kind));
    }
  }

  lemma NewestStep(entries: seq<ProofEntry>, i: nat, kind: ProofType, taken: seq<ProofEntry>)
    requires i < |entries|
    ensures taken + Newest(entries[..i + 1], kind)
            == (if entries[i].kind == kind then taken + [entries[i]] else taken) + Newest(entries[..i], kind)
  {
    assert entries[..i + 1][..i] == entries[..i];
    ConcatAssociative(taken, if entries[i].kind == kind then [entries[i]] else [], Newest(entries[..i], kind));
  }

  lemma FirstOf<T>(a: seq<T>, b: seq<T>)
    ensures (a + b)[..|a|] == a && (b == [] ==> a + b == a)
  {}
}
