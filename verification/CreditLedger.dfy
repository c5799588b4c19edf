/**
  One user's credit account: balance, token counter, transaction log and usage records, with the transactions of
  CreditService as functions of the committed state.

  User and account rows are locked by every writing transaction, so a transaction is one step; only the existence
  checks of a spend run before the lock, and what they read (`Reads`) may be out of date.
  */
module CreditLedger {
  import opened Wrappers
  import opened CreditArithmetic

  const DAY := 86400

  datatype Key = CheckinKey(day: int) | SpendKey(message: nat)

  datatype Source = Checkin | Spend | Expire

  datatype Tx = Tx(amount: int, source: Source, expiresAt: Option<Time>, key: Option<Key>)

  datatype Usage = Usage(message: Option<nat>, creditCost: int, tokenDeduction: int)

  datatype Ledger = Ledger(balance: int, usedTokens: int, txs: seq<Tx>, usages: seq<Usage>)

  // `refreshes`: whether an UPDATE of the balance also refreshes the account object the session has loaded.
  datatype Settings = Settings(checkinAmount: nat, validDays: int, ratio: real, maxTokens: int, refreshes: bool)

  // ----- the queries

  function KeysOf(txs: seq<Tx>): set<Key> {
    set i | 0 <= i < |txs| && txs[i].key.Some? :: txs[i].key.value
  }

  predicate HasUsage(usages: seq<Usage>, message: nat) {
    exists i :: 0 <= i < |usages| && usages[i].message == Some(message)
  }

  predicate Expired(tx: Tx, now: Time) {
    tx.source.Checkin? && NotAfter(tx.expiresAt, now)
  }

  predicate Protected(tx: Tx, now: Time) {
    tx.amount > 0 && (!tx.source.Checkin? || tx.expiresAt.None? || tx.expiresAt.value > now)
  }

  // SELECT SUM(amount) with the WHERE clause of each repository query.
  function Sum(txs: seq<Tx>): int {
    if txs == [] then 0 else Sum(txs[..|txs| - 1]) + txs[|txs| - 1].amount
  }

  function ExpiredGrantsSum(txs: seq<Tx>, now: Time): int {
    if txs == [] then 0
    else ExpiredGrantsSum(txs[..|txs| - 1], now) + if Expired(txs[|txs| - 1], now) then txs[|txs| - 1].amount else 0
  }

  function SourceSum(txs: seq<Tx>, source: Source): int {
    if txs == [] then 0
    else SourceSum(txs[..|txs| - 1], source) + if txs[|txs| - 1].source == source then txs[|txs| - 1].amount else 0
  }

  function ProtectedPositiveSum(txs: seq<Tx>, now: Time): int {
    if txs == [] then 0
    else ProtectedPositiveSum(txs[..|txs| - 1], now) + if Protected(txs[|txs| - 1], now) then txs[|txs| - 1].amount else 0
  }

  function Abs(x: int): nat {
    if x < 0 then -x else x
  }

  // ----- the transactions

  // What a check-in adds to the balance beyond its row: the amount is added to the loaded object once more by hand,
  // and the session writes that object back when it commits.
  function WrittenTwice(c: Settings): nat {
    if c.refreshes then c.checkinAmount else 0
  }

  // None stands for ALREADY_CHECKED_IN.
  function CheckinTx(c: Settings, l: Ledger, now: Time): Option<Ledger> {
    var key := CheckinKey(now / DAY);
    if key in KeysOf(l.txs) then None
    else Some(l.(balance := l.balance + c.checkinAmount + WrittenTwice(c),
                 txs := l.txs + [Tx(c.checkinAmount, Checkin, Some(now + c.validDays * DAY), Some(key))]))
  }

  datatype Reads = Reads(txSeen: bool, usageSeen: Option<Usage>)

  datatype SpendOutcome =
    | AlreadySpent | Recovered | RecoveredByAnother | Charged(charge: Charge)
    | QuotaExceeded | InsufficientCredits | DuplicateRolledBack

  function SpendTx(c: Settings, l: Ledger, message: Option<nat>, usage: real, seen: Reads): (SpendOutcome, Ledger) {
    if message.Some? && seen.usageSeen.Some? then
      if seen.txSeen then (AlreadySpent, l)
      else if SpendKey(message.value) in KeysOf(l.txs) then (RecoveredByAnother, l)
      else (Recovered, l.(txs := l.txs + [SpendRow(message, seen.usageSeen.value.creditCost)]))
    else ChargeTx(c, l, message, usage)
  }

  function SpendRow(message: Option<nat>, cost: int): Tx {
    Tx(-cost, Spend, None, if message.Some? then Some(SpendKey(message.value)) else None)
  }

  // The locked part; the unique indexes on the usage message and on the idempotency key act when it commits.
  function ChargeTx(c: Settings, l: Ledger, message: Option<nat>, usage: real): (SpendOutcome, Ledger) {
    var charge := Split(l.balance, usage, c.ratio);
    if charge.credits > 0 && l.balance < charge.credits then (InsufficientCredits, l)
    else if charge.tokens > 0 && l.usedTokens + charge.tokens > c.maxTokens then (QuotaExceeded, l)
    else if message.Some? && (HasUsage(l.usages, message.value) || SpendKey(message.value) in KeysOf(l.txs)) then
      (DuplicateRolledBack, l)
    else
      (Charged(charge),
       Ledger(if charge.credits > 0 then l.balance - charge.credits else l.balance,
              if charge.tokens > 0 then l.usedTokens + charge.tokens else l.usedTokens,
              l.txs + [SpendRow(message, charge.credits)],
              l.usages + [Usage(message, charge.credits, charge.tokens)]))
  }

  function ToExpire(l: Ledger, now: Time): int {
    var pending := ExpiredGrantsSum(l.txs, now) - Abs(SourceSum(l.txs, Spend)) - Abs(SourceSum(l.txs, Expire));
    var surplus := l.balance - ProtectedPositiveSum(l.txs, now);
    if pending <= 0 then 0 else Smaller(if surplus > 0 then surplus else 0, pending)
  }

  function ExpireTx(l: Ledger, now: Time): Ledger {
    var amount := ToExpire(l, now);
    if amount <= 0 then l
    else l.(balance := if l.balance >= amount then l.balance - amount else l.balance,
            txs := l.txs + [Tx(-amount, Expire, None, None)])
  }

  // ----- what every transaction keeps

  predicate RowOk(tx: Tx) {
    match tx.source
    case Checkin => tx.amount >= 0 && tx.expiresAt.Some? && tx.key.Some? && tx.key.value.CheckinKey?
    case Spend => tx.amount <= 0 && tx.expiresAt.None? && (tx.key.Some? ==> tx.key.value.SpendKey?)
    case Expire => tx.amount <= 0 && tx.expiresAt.None? && tx.key.None?
  }

  // The two partial unique indexes.
  predicate UniqueKeys(txs: seq<Tx>) {
    forall i, j :: 0 <= i < j < |txs| && txs[i].key.Some? ==> txs[i].key != txs[j].key
  }

  predicate UniqueMessages(usages: seq<Usage>) {
    forall i, j :: 0 <= i < j < |usages| && usages[i].message.Some? ==> usages[i].message != usages[j].message
  }

  // The cost of the usage records whose spend row is not in the log.
  function MissingCost(usages: seq<Usage>, keys: set<Key>): int {
    if usages == [] then 0
    else
      var last := usages[|usages| - 1];
      MissingCost(usages[..|usages| - 1], keys)
      + if last.message.Some? && SpendKey(last.message.value) !in keys then last.creditCost else 0
  }

  function CostOf(usages: seq<Usage>, message: nat): int {
    if usages == [] then 0
    else
      CostOf(usages[..|usages| - 1], message)
      + if usages[|usages| - 1].message == Some(message) then usages[|usages| - 1].creditCost else 0
  }

  // A spend row carries the cost its message's usage record has.
  ghost predicate RowMatches(tx: Tx, usages: seq<Usage>) {
    tx.source.Spend? && tx.key.Some? && tx.key.value.SpendKey? ==>
      tx.amount == -CostOf(usages, tx.key.value.message) && HasUsage(usages, tx.key.value.message)
  }

  ghost predicate RowsOk(l: Ledger) {
    && (forall i :: 0 <= i < |l.txs| ==> RowOk(l.txs[i]) && RowMatches(l.txs[i], l.usages))
    && UniqueKeys(l.txs) && UniqueMessages(l.usages)
    && (forall i :: 0 <= i < |l.usages| ==> l.usages[i].creditCost >= 0 && l.usages[i].tokenDeduction >= 0)
  }

  // What the balance has over the sum of the amounts less the missing cost.
  function Surplus(l: Ledger): int {
    l.balance - (Sum(l.txs) - MissingCost(l.usages, KeysOf(l.txs)))
  }

  ghost predicate Sound(l: Ledger) {
    RowsOk(l) && l.balance >= 0
  }

  ghost predicate LedgerOk(l: Ledger) {
    Sound(l) && Surplus(l) == 0
  }

  const EMPTY := Ledger(0, 0, [], [])

  lemma KeysGrow(txs: seq<Tx>, tx: Tx)
    ensures KeysOf(txs + [tx]) == KeysOf(txs) + if tx.key.Some? then {tx.key.value} else {}
  {
    var all := txs + [tx];
    forall k | k in KeysOf(txs) ensures k in KeysOf(all) {
      var i :| 0 <= i < |txs| && txs[i].key == Some(k);
      assert all[i].key == Some(k);
    }
    assert all[|txs|] == tx;
  }

  lemma {:induction false} CostIsZeroWithoutUsage(usages: seq<Usage>, message: nat)
    ensures !HasUsage(usages, message) ==> CostOf(usages, message) == 0
  {
    if usages != [] {
      CostIsZeroWithoutUsage(usages[..|usages| - 1], message);
      if !HasUsage(usages, message) {
        assert forall i :: 0 <= i < |usages| ==> usages[i].message != Some(message);
        assert !HasUsage(usages[..|usages| - 1], message);
      }
    }
  }

  // Learning of a spend row takes exactly that message's cost off the missing total.
  lemma {:induction false} MissingCostDropsBy(usages: seq<Usage>, keys: set<Key>, message: nat)
    requires SpendKey(message) !in keys
    ensures MissingCost(usages, keys + {SpendKey(message)}) == MissingCost(usages, keys) - CostOf(usages, message)
  {
    if usages != [] {
      MissingCostDropsBy(usages[..|usages| - 1], keys, message);
    }
  }

  lemma {:induction false} OtherKeysDoNotMatter(usages: seq<Usage>, keys: set<Key>, day: int)
    ensures MissingCost(usages, keys + {CheckinKey(day)}) == MissingCost(usages, keys)
  {
    if usages != [] {
      OtherKeysDoNotMatter(usages[..|usages| - 1], keys, day);
    }
  }

  lemma SumGrows(txs: seq<Tx>, tx: Tx)
    ensures Sum(txs + [tx]) == Sum(txs) + tx.amount
  {
    assert (txs + [tx])[..|txs|] == txs;
  }

  lemma UniqueKeysGrow(txs: seq<Tx>, tx: Tx)
    requires UniqueKeys(txs) && (tx.key.Some? ==> tx.key.value !in KeysOf(txs))
    ensures UniqueKeys(txs + [tx])
  {
    assert forall i :: 0 <= i < |txs| && txs[i].key.Some? ==> txs[i].key.value in KeysOf(txs);
  }

  lemma CheckinKeeps(c: Settings, l: Ledger, now: Time)
    requires Sound(l) && CheckinTx(c, l, now).Some?
    ensures Sound(CheckinTx(c, l, now).value)
    ensures Surplus(CheckinTx(c, l, now).value) == Surplus(l) + WrittenTwice(c)
    ensures LedgerOk(l) ==> (LedgerOk(CheckinTx(c, l, now).value) <==> !c.refreshes || c.checkinAmount == 0)
  {
    var tx := Tx(c.checkinAmount, Checkin, Some(now + c.validDays * DAY), Some(CheckinKey(now / DAY)));
    KeysGrow(l.txs, tx);
    SumGrows(l.txs, tx);
    UniqueKeysGrow(l.txs, tx);
    OtherKeysDoNotMatter(l.usages, KeysOf(l.txs), now / DAY);
  }

  lemma UsageGrows(usages: seq<Usage>, u: Usage, keys: set<Key>, message: nat)
    ensures CostOf(usages + [u], message) == CostOf(usages, message) + if u.message == Some(message) then u.creditCost else 0
    ensures MissingCost(usages + [u], keys)
            == MissingCost(usages, keys) + if u.message.Some? && SpendKey(u.message.value) !in keys then u.creditCost else 0
    ensures HasUsage(usages, message) ==> HasUsage(usages + [u], message)
    ensures u.message.Some? ==> HasUsage(usages + [u], u.message.value)
  {
    assert (usages + [u])[..|usages|] == usages;
    assert (usages + [u])[|usages|] == u;
    if HasUsage(usages, message) {
      var i :| 0 <= i < |usages| && usages[i].message == Some(message);
      assert (usages + [u])[i].message == Some(message);
    }
  }

  lemma ChargeKeeps(c: Settings, l: Ledger, message: Option<nat>, usage: real)
    requires Sound(l) && usage >= 0.0 && c.ratio > 0.0
    ensures Sound(ChargeTx(c, l, message, usage).1)
    ensures Surplus(ChargeTx(c, l, message, usage).1) == Surplus(l)
    ensures !ChargeTx(c, l, message, usage).0.InsufficientCredits?
  {
    var (outcome, l') := ChargeTx(c, l, message, usage);
    if outcome.Charged? {
      var charge := outcome.charge;
      assert 0 <= charge.credits <= l.balance && charge.tokens >= 0;
      var tx, u := SpendRow(message, charge.credits), Usage(message, charge.credits, charge.tokens);
      BookingKeepsRows(l, tx, u);
      BookingKeepsBalance(l, tx, u);
    }
  }

  // A spend row and its usage record entered together.
  lemma BookingKeepsRows(l: Ledger, tx: Tx, u: Usage)
    requires RowsOk(l) && u.creditCost >= 0 && u.tokenDeduction >= 0 && tx == SpendRow(u.message, u.creditCost)
    requires u.message.Some? ==> !HasUsage(l.usages, u.message.value) && SpendKey(u.message.value) !in KeysOf(l.txs)
    ensures RowsOk(Ledger(0, 0, l.txs + [tx], l.usages + [u]))
  {
    UniqueKeysGrow(l.txs, tx);
    var message := if u.message.Some? then u.message.value else 0;
    UsageGrows(l.usages, u, {}, message);
    CostIsZeroWithoutUsage(l.usages, message);
    forall i | 0 <= i < |l.txs| ensures RowMatches(l.txs[i], l.usages + [u]) {
      if l.txs[i].source.Spend? && l.txs[i].key.Some? {
        UsageGrows(l.usages, u, {}, l.txs[i].key.value.message);
      }
    }
  }

  lemma BookingKeepsBalance(l: Ledger, tx: Tx, u: Usage)
    requires tx == SpendRow(u.message, u.creditCost)
    requires u.message.Some? ==> !HasUsage(l.usages, u.message.value) && SpendKey(u.message.value) !in KeysOf(l.txs)
    ensures Sum(l.txs + [tx]) - MissingCost(l.usages + [u], KeysOf(l.txs + [tx]))
            == Sum(l.txs) - MissingCost(l.usages, KeysOf(l.txs)) - u.creditCost
  {
    KeysGrow(l.txs, tx);
    SumGrows(l.txs, tx);
    if u.message.Some? {
      UsageGrows(l.usages, u, KeysOf(l.txs), u.message.value);
      CostIsZeroWithoutUsage(l.usages, u.message.value);
      MissingCostDropsBy(l.usages + [u], KeysOf(l.txs), u.message.value);
    } else {
      UsageGrows(l.usages, u, KeysOf(l.txs), 0);
      assert KeysOf(l.txs + [tx]) == KeysOf(l.txs);
    }
  }

  // What an earlier read of a usage record still guarantees: usage records are never changed or removed.
  ghost predicate Truthful(l: Ledger, message: Option<nat>, seen: Reads) {
    seen.usageSeen.Some? ==> message.Some? && seen.usageSeen.value in l.usages && seen.usageSeen.value.message == message
  }

  lemma {:induction false} RecordedCost(usages: seq<Usage>, u: Usage)
    requires UniqueMessages(usages) && u in usages && u.message.Some?
    ensures CostOf(usages, u.message.value) == u.creditCost && HasUsage(usages, u.message.value)
  {
    var init, last := usages[..|usages| - 1], usages[|usages| - 1];
    if last.message == u.message {
      assert forall k :: 0 <= k < |init| ==> init[k] == usages[k];
      CostIsZeroWithoutUsage(init, u.message.value);
    } else {
      assert u in init;
      RecordedCost(init, u);
      var k :| 0 <= k < |init| && init[k].message == Some(u.message.value);
      assert usages[k].message == Some(u.message.value);
    }
  }

  lemma SpendKeeps(c: Settings, l: Ledger, message: Option<nat>, usage: real, seen: Reads)
    requires Sound(l) && Truthful(l, message, seen) && usage >= 0.0 && c.ratio > 0.0
    ensures Sound(SpendTx(c, l, message, usage, seen).1)
    ensures Surplus(SpendTx(c, l, message, usage, seen).1) == Surplus(l)
    ensures !SpendTx(c, l, message, usage, seen).0.InsufficientCredits?
  {
    if message.Some? && seen.usageSeen.Some? {
      if !seen.txSeen && SpendKey(message.value) !in KeysOf(l.txs) {
        RecoveryKeeps(l, message.value, seen.usageSeen.value);
      }
    } else {
      ChargeKeeps(c, l, message, usage);
    }
  }

  lemma RecoveryKeeps(l: Ledger, message: nat, u: Usage)
    requires Sound(l) && u in l.usages && u.message == Some(message) && SpendKey(message) !in KeysOf(l.txs)
    ensures Sound(l.(txs := l.txs + [SpendRow(Some(message), u.creditCost)]))
    ensures Surplus(l.(txs := l.txs + [SpendRow(Some(message), u.creditCost)])) == Surplus(l)
  {
    var tx := SpendRow(Some(message), u.creditCost);
    RecordedCost(l.usages, u);
    KeysGrow(l.txs, tx);
    SumGrows(l.txs, tx);
    UniqueKeysGrow(l.txs, tx);
    MissingCostDropsBy(l.usages, KeysOf(l.txs), message);
  }

  // The recovery branch never touches the balance; it restores balance == Sum when its row was the only one missing.
  lemma RecoveryRestoresEquality(c: Settings, l: Ledger, message: nat, usage: real, seen: Reads)
    requires LedgerOk(l) && Truthful(l, Some(message), seen)
    requires SpendTx(c, l, Some(message), usage, seen).0.Recovered?
    ensures
      var l' := SpendTx(c, l, Some(message), usage, seen).1;
      && l'.balance == l.balance && l'.usages == l.usages
      && MissingCost(l'.usages, KeysOf(l'.txs)) == MissingCost(l.usages, KeysOf(l.txs)) - CostOf(l.usages, message)
      && (MissingCost(l.usages, KeysOf(l.txs)) == CostOf(l.usages, message) <==> l'.balance == Sum(l'.txs))
  {
    var tx := SpendRow(Some(message), seen.usageSeen.value.creditCost);
    RecordedCost(l.usages, seen.usageSeen.value);
    KeysGrow(l.txs, tx);
    SumGrows(l.txs, tx);
    MissingCostDropsBy(l.usages, KeysOf(l.txs), message);
  }

  // ----- expiry

  // On such a log the four sums partition the total.
  lemma {:induction false} SumsPartition(txs: seq<Tx>, now: Time)
    requires forall i :: 0 <= i < |txs| ==> RowOk(txs[i])
    ensures Sum(txs) == ExpiredGrantsSum(txs, now) + ProtectedPositiveSum(txs, now)
                        + SourceSum(txs, Spend) + SourceSum(txs, Expire)
    ensures SourceSum(txs, Spend) <= 0 && SourceSum(txs, Expire) <= 0 && ProtectedPositiveSum(txs, now) >= 0
  {
    if txs != [] {
      SumsPartition(txs[..|txs| - 1], now);
      assert RowOk(txs[|txs| - 1]);
    }
  }

  lemma {:induction false} MissingCostIsNotNegative(usages: seq<Usage>, keys: set<Key>)
    requires forall i :: 0 <= i < |usages| ==> usages[i].creditCost >= 0
    ensures MissingCost(usages, keys) >= 0
  {
    if usages != [] {
      MissingCostIsNotNegative(usages[..|usages| - 1], keys);
    }
  }

  // One expiry leaves exactly the smaller of the balance and the grants still valid, on every ledger in order; a
  // surplus beyond the missing cost stays as well. Its two guards, pending grants and surplus over the protected sum,
  // differ by the surplus and the missing cost only.
  lemma ExpiryLeavesTheValidGrants(l: Ledger, now: Time)
    requires Sound(l)
    ensures
      var valid, missing := ProtectedPositiveSum(l.txs, now), MissingCost(l.usages, KeysOf(l.txs));
      && ExpireTx(l, now).balance == Smaller(l.balance, valid + Larger(0, Surplus(l) - missing))
      && (LedgerOk(l) ==> ExpireTx(l, now).balance == Smaller(l.balance, valid))
      && ToExpire(l, now) == l.balance - ExpireTx(l, now).balance
      && ExpiredGrantsSum(l.txs, now) - Abs(SourceSum(l.txs, Spend)) - Abs(SourceSum(l.txs, Expire))
         == l.balance - valid - Surplus(l) + missing
  {
    SumsPartition(l.txs, now);
    MissingCostIsNotNegative(l.usages, KeysOf(l.txs));
    hide RowsOk, Sum, ExpiredGrantsSum, ProtectedPositiveSum, SourceSum, MissingCost, KeysOf;
  }

  lemma ExpireKeeps(l: Ledger, now: Time)
    requires Sound(l)
    ensures Sound(ExpireTx(l, now)) && Surplus(ExpireTx(l, now)) == Surplus(l)
    ensures MissingCost(l.usages, KeysOf(ExpireTx(l, now).txs)) == MissingCost(l.usages, KeysOf(l.txs))
    ensures forall t :: ProtectedPositiveSum(ExpireTx(l, now).txs, t) == ProtectedPositiveSum(l.txs, t)
    ensures SourceSum(ExpireTx(l, now).txs, Expire) == SourceSum(l.txs, Expire) - ToExpire(l, now)
  {
    ExpiryLeavesTheValidGrants(l, now);
    SumsPartition(l.txs, now);
    hide ToExpire, ExpiredGrantsSum;
    if ToExpire(l, now) > 0 {
      ExpireRowKeeps(l, ToExpire(l, now));
    }
  }

  lemma ExpireRowKeeps(l: Ledger, amount: int)
    requires RowsOk(l) && amount > 0
    ensures
      var txs := l.txs + [Tx(-amount, Expire, None, None)];
      && RowsOk(l.(txs := txs)) && KeysOf(txs) == KeysOf(l.txs) && Sum(txs) == Sum(l.txs) - amount
      && SourceSum(txs, Expire) == SourceSum(l.txs, Expire) - amount
      && forall t :: ProtectedPositiveSum(txs, t) == ProtectedPositiveSum(l.txs, t)
  {
    var tx := Tx(-amount, Expire, None, None);
    assert (l.txs + [tx])[..|l.txs|] == l.txs;
    KeysGrow(l.txs, tx);
    SumGrows(l.txs, tx);
    UniqueKeysGrow(l.txs, tx);
    hide KeysOf, Sum, UniqueKeys, UniqueMessages;
  }

  lemma {:induction false} GrantsOnlyExpire(txs: seq<Tx>, earlier: Time, later: Time)
    requires earlier <= later
    ensures ProtectedPositiveSum(txs, later) <= ProtectedPositiveSum(txs, earlier)
  {
    if txs != [] {
      GrantsOnlyExpire(txs[..|txs| - 1], earlier, later);
    }
  }

  // Expiring at t1 and then at t2 >= t1 is expiring at t2 alone, in the balance and in the total marked as expired;
  // in particular repeating an expiry changes nothing.
  lemma ExpiriesCompose(l: Ledger, t1: Time, t2: Time)
    requires Sound(l) && t1 <= t2
    ensures ExpireTx(ExpireTx(l, t1), t2).balance == ExpireTx(l, t2).balance
    ensures SourceSum(ExpireTx(ExpireTx(l, t1), t2).txs, Expire) == SourceSum(ExpireTx(l, t2).txs, Expire)
    ensures t1 == t2 ==> ExpireTx(ExpireTx(l, t1), t2) == ExpireTx(l, t1)
  {
    hide Sound, Sum, KeysOf, MissingCost, ProtectedPositiveSum, ExpiredGrantsSum, SourceSum;
    ExpireKeeps(l, t1);
    ExpireKeeps(l, t2);
    ExpireKeeps(ExpireTx(l, t1), t2);
    ExpiryLeavesTheValidGrants(l, t1);
    ExpiryLeavesTheValidGrants(l, t2);
    ExpiryLeavesTheValidGrants(ExpireTx(l, t1), t2);
    GrantsOnlyExpire(l.txs, t1, t2);
  }

  // ----- runs

  // LoseSpendRow is a deletion from outside: the only way a usage record can come to lack its spend row.
  datatype Step =
    | CheckinStep(now: Time)
    | SpendStep(message: Option<nat>, usage: real, seen: Reads)
    | ExpireStep(now: Time)
    | LoseSpendRow(index: nat)

  function Without(txs: seq<Tx>, i: nat): seq<Tx>
    requires i < |txs|
  {
    txs[..i] + txs[i + 1..]
  }

  function Apply(c: Settings, l: Ledger, step: Step): Ledger {
    match step
    case CheckinStep(now) => var r := CheckinTx(c, l, now); if r.Some? then r.value else l
    case SpendStep(m, usage, seen) => SpendTx(c, l, m, usage, seen).1
    case ExpireStep(now) => ExpireTx(l, now)
    case LoseSpendRow(i) =>
      if i < |l.txs| && l.txs[i].source.Spend? && l.txs[i].key.Some? then l.(txs := Without(l.txs, i)) else l
  }

  ghost predicate Allowed(l: Ledger, step: Step) {
    step.SpendStep? ==> step.usage >= 0.0 && Truthful(l, step.message, step.seen)
  }

  lemma {:induction false} SumWithout(txs: seq<Tx>, i: nat)
    requires i < |txs|
    ensures Sum(Without(txs, i)) == Sum(txs) - txs[i].amount
  {
    var n := |txs| - 1;
    if i == n {
      assert Without(txs, i) == txs[..n];
    } else {
      assert Without(txs, i)[..n - 1] == Without(txs[..n], i);
      SumWithout(txs[..n], i);
    }
  }

  lemma KeysWithout(txs: seq<Tx>, i: nat)
    requires i < |txs| && UniqueKeys(txs) && txs[i].key.Some?
    ensures UniqueKeys(Without(txs, i)) && txs[i].key.value !in KeysOf(Without(txs, i))
    ensures KeysOf(txs) == KeysOf(Without(txs, i)) + {txs[i].key.value}
  {
    var rest := Without(txs, i);
    assert forall k :: 0 <= k < |rest| ==> rest[k] == txs[if k < i then k else k + 1];
    forall key | key in KeysOf(txs) && key != txs[i].key.value ensures key in KeysOf(rest) {
      var k :| 0 <= k < |txs| && txs[k].key == Some(key);
      assert rest[if k < i then k else k - 1].key == Some(key);
    }
  }

  lemma LossKeeps(l: Ledger, i: nat)
    requires Sound(l) && i < |l.txs| && l.txs[i].source.Spend? && l.txs[i].key.Some?
    ensures Sound(l.(txs := Without(l.txs, i))) && Surplus(l.(txs := Without(l.txs, i))) == Surplus(l)
  {
    var rest := Without(l.txs, i);
    KeysWithout(l.txs, i);
    assert RowsOk(l.(txs := rest)) by {
      assert forall k :: 0 <= k < |rest| ==> rest[k] == l.txs[if k < i then k else k + 1];
    }
    SumWithout(l.txs, i);
    assert RowOk(l.txs[i]) && RowMatches(l.txs[i], l.usages);
    MissingCostDropsBy(l.usages, KeysOf(rest), l.txs[i].key.value.message);
  }

  // What a step adds to the surplus: nothing but the second writing of a check-in.
  function Gain(c: Settings, l: Ledger, step: Step): nat {
    if step.CheckinStep? && CheckinTx(c, l, step.now).Some? then WrittenTwice(c) else 0
  }

  lemma StepKeeps(c: Settings, l: Ledger, step: Step)
    requires Sound(l) && Allowed(l, step) && c.ratio > 0.0
    ensures Sound(Apply(c, l, step)) && Surplus(Apply(c, l, step)) == Surplus(l) + Gain(c, l, step)
  {
    hide CheckinTx, SpendTx, ExpireTx, Sound, Surplus;
    match step
    case CheckinStep(now) => if CheckinTx(c, l, now).Some? { CheckinKeeps(c, l, now); }
    case SpendStep(m, usage, seen) => SpendKeeps(c, l, m, usage, seen);
    case ExpireStep(now) => ExpireKeeps(l, now);
    case LoseSpendRow(i) => if i < |l.txs| && l.txs[i].source.Spend? && l.txs[i].key.Some? { LossKeeps(l, i); }
  }

  ghost predicate IsRun(c: Settings, ledgers: seq<Ledger>, steps: seq<Step>) {
    && |ledgers| == |steps| + 1 && c.ratio > 0.0
    && forall i :: 0 <= i < |steps| ==> Allowed(ledgers[i], steps[i]) && ledgers[i + 1] == Apply(c, ledgers[i], steps[i])
  }

  ghost function Gained(c: Settings, ledgers: seq<Ledger>, steps: seq<Step>, n: nat): nat
    requires IsRun(c, ledgers, steps) && n <= |steps|
  {
    if n == 0 then 0 else Gained(c, ledgers, steps, n - 1) + Gain(c, ledgers[n - 1], steps[n - 1])
  }

  // In every interleaving: balance >= 0, unique keys and messages, rows in shape, and a surplus that only check-ins
  // written twice have added to.
  lemma {:induction false} RunKeepsSound(c: Settings, ledgers: seq<Ledger>, steps: seq<Step>, n: nat)
    requires IsRun(c, ledgers, steps) && Sound(ledgers[0]) && n < |ledgers|
    ensures Sound(ledgers[n]) && Surplus(ledgers[n]) == Surplus(ledgers[0]) + Gained(c, ledgers, steps, n)
  {
    hide Sound, Surplus, Gain, Apply;
    if n > 0 {
      RunKeepsSound(c, ledgers, steps, n - 1);
      StepKeeps(c, ledgers[n - 1], steps[n - 1]);
    }
  }

  // So balance == sum of the amounts - missing cost holds throughout exactly when no check-in is written twice: the
  // update leaves the loaded object alone, the amount is 0, or no check-in of the run succeeds.
  lemma {:induction false} RunKeepsLedgerOk(c: Settings, ledgers: seq<Ledger>, steps: seq<Step>, n: nat)
    requires IsRun(c, ledgers, steps) && LedgerOk(ledgers[0]) && n < |ledgers|
    ensures
      LedgerOk(ledgers[n])
      <==> !c.refreshes || c.checkinAmount == 0
           || forall i :: 0 <= i < n && steps[i].CheckinStep? ==> CheckinTx(c, ledgers[i], steps[i].now).None?
  {
    hide Surplus, Apply;
    RunKeepsSound(c, ledgers, steps, n);
    NothingGained(c, ledgers, steps, n);
  }

  lemma {:induction false} NothingGained(c: Settings, ledgers: seq<Ledger>, steps: seq<Step>, n: nat)
    requires IsRun(c, ledgers, steps) && n <= |steps|
    ensures Gained(c, ledgers, steps, n) == 0 <==>
            WrittenTwice(c) == 0
            || forall i :: 0 <= i < n && steps[i].CheckinStep? ==> CheckinTx(c, ledgers[i], steps[i].now).None?
  {
    hide CheckinTx, IsRun;
    if n > 0 {
      NothingGained(c, ledgers, steps, n - 1);
    }
  }

  ghost predicate Charges(c: Settings, l: Ledger, step: Step, message: nat) {
    step.SpendStep? && step.message == Some(message) && SpendTx(c, l, step.message, step.usage, step.seen).0.Charged?
  }

  lemma {:induction false} UsageRecordsStay(c: Settings, ledgers: seq<Ledger>, steps: seq<Step>, i: nat, j: nat)
    requires IsRun(c, ledgers, steps) && i <= j < |ledgers|
    ensures ledgers[i].usages <= ledgers[j].usages
  {
    if i < j {
      UsageRecordsStay(c, ledgers, steps, i, j - 1);
    }
  }

  // However its spends interleave, and whatever rows get lost, one message is charged at most once; and an
  // earlier read of a usage record stays truthful.
  lemma AMessageIsChargedOnce(c: Settings, ledgers: seq<Ledger>, steps: seq<Step>, i: nat, j: nat, message: nat)
    requires IsRun(c, ledgers, steps) && i < j < |steps|
    ensures Charges(c, ledgers[i], steps[i], message) ==> !Charges(c, ledgers[j], steps[j], message)
    ensures forall seen :: Truthful(ledgers[i], Some(message), seen) ==> Truthful(ledgers[j], Some(message), seen)
  {
    UsageRecordsStay(c, ledgers, steps, i, j);
    UsageRecordsStay(c, ledgers, steps, i + 1, j);
    if Charges(c, ledgers[i], steps[i], message) {
      var k := |ledgers[i].usages|;
      assert ledgers[j].usages[k].message == Some(message);
    }
  }

  // ----- the token half

  function TokensSpent(usages: seq<Usage>): int {
    if usages == [] then 0 else TokensSpent(usages[..|usages| - 1]) + usages[|usages| - 1].tokenDeduction
  }

  lemma ChargeCountsItsTokens(c: Settings, l: Ledger, message: Option<nat>, usage: real)
    ensures
      var l' := ChargeTx(c, l, message, usage).1;
      && l'.usedTokens - TokensSpent(l'.usages) == l.usedTokens - TokensSpent(l.usages)
      && l'.usedTokens <= Larger(c.maxTokens, l.usedTokens)
  {
    var (outcome, l') := ChargeTx(c, l, message, usage);
    if outcome.Charged? {
      assert l'.usages[..|l.usages|] == l.usages;
      assert outcome.charge.tokens >= 0;
    }
  }

  lemma StepCountsItsTokens(c: Settings, l: Ledger, step: Step)
    ensures
      var l' := Apply(c, l, step);
      && l'.usedTokens - TokensSpent(l'.usages) == l.usedTokens - TokensSpent(l.usages)
      && l'.usedTokens <= Larger(c.maxTokens, l.usedTokens)
  {
    hide ChargeTx;
    if step.SpendStep? {
      ChargeCountsItsTokens(c, l, step.message, step.usage);
    }
  }

  // The token counter is what the usage records account for, and never passes the limit.
  lemma {:induction false} TokensAreAccountedFor(c: Settings, ledgers: seq<Ledger>, steps: seq<Step>, n: nat)
    requires IsRun(c, ledgers, steps) && n < |ledgers|
    ensures ledgers[n].usedTokens - TokensSpent(ledgers[n].usages) == ledgers[0].usedTokens - TokensSpent(ledgers[0].usages)
    ensures ledgers[n].usedTokens <= Larger(c.maxTokens, ledgers[0].usedTokens)
  {
    hide Apply, TokensSpent;
    if n > 0 {
      TokensAreAccountedFor(c, ledgers, steps, n - 1);
      StepCountsItsTokens(c, ledgers[n - 1], steps[n - 1]);
    }
  }

  // Under the condition WhenTheEstimateIsSafe gives, the spend of an unchanged account is charged, unless the same
  // message has been charged before.
  lemma SafeEstimatesAreCharged(c: Settings, l: Ledger, message: Option<nat>, usage: real, estimate: int)
    requires Sound(l) && c.ratio > 0.0 && usage >= 0.0 && Cost(usage) <= estimate
    requires AffordsEveryUsageUpTo(l.balance, l.usedTokens, c.maxTokens, estimate, c.ratio)
    ensures
      var (outcome, l') := ChargeTx(c, l, message, usage);
      && !outcome.QuotaExceeded? && !outcome.InsufficientCredits?
      && l'.balance >= 0 && l'.usedTokens <= Larger(c.maxTokens, l.usedTokens)
      && ((message.Some? ==> !HasUsage(l.usages, message.value)) ==> outcome.Charged?)
  {
    hide AffordsEveryUsageUpTo;
    WhenTheEstimateIsSafe(l.balance, l.usedTokens, c.maxTokens, estimate, c.ratio);
    ChargeKeeps(c, l, message, usage);
    SpendRowsHaveUsage(l);
    assert SpendFits(l.balance, l.usedTokens, c.maxTokens, usage, c.ratio);
    hide RowsOk, KeysOf, HasUsage;
  }

  // For an integral ratio: once the pre-check has accepted an estimate, no spend of the unchanged account that costs
  // at most the estimate is refused, whatever its existence checks read; balance and token counter stay in bounds.
  lemma AcceptedEstimatesAreCharged(
    c: Settings, l: Ledger, message: Option<nat>, usage: real, seen: Reads, estimate: int, ratio: nat)
    requires Sound(l) && Truthful(l, message, seen) && usage >= 0.0 && Cost(usage) <= estimate
    requires ratio > 0 && c.ratio == ratio as real
    requires PrecheckAccepts(l.balance, l.usedTokens, c.maxTokens, estimate, c.ratio)
    ensures
      var (outcome, l') := SpendTx(c, l, message, usage, seen);
      && !outcome.QuotaExceeded? && !outcome.InsufficientCredits?
      && l'.balance >= 0 && l'.usedTokens <= Larger(c.maxTokens, l.usedTokens)
      && ((message.Some? ==> !HasUsage(l.usages, message.value)) ==> outcome.Charged?)
  {
    IntegralRatioMakesThePrecheckSafe(l.balance, l.usedTokens, c.maxTokens, estimate, ratio);
    SafeEstimatesAreCharged(c, l, message, usage, estimate);
    hide ChargeTx, AffordsEveryUsageUpTo, PrecheckAccepts;
    if message.Some? && seen.usageSeen.Some? {
      var i :| 0 <= i < |l.usages| && l.usages[i] == seen.usageSeen.value;
      assert HasUsage(l.usages, message.value);
    }
  }

  lemma SpendRowsHaveUsage(l: Ledger)
    requires RowsOk(l)
    ensures forall m: nat :: SpendKey(m) in KeysOf(l.txs) ==> HasUsage(l.usages, m)
  {
    forall i | 0 <= i < |l.txs| && l.txs[i].key.Some? && l.txs[i].key.value.SpendKey?
      ensures HasUsage(l.usages, l.txs[i].key.value.message)
    {
      assert RowOk(l.txs[i]) && RowMatches(l.txs[i], l.usages);
    }
  }
}
