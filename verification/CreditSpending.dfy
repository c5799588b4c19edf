/** What a spend pays and what a check-in grants, read off the ledger before and after. */
module CreditSpending {
  import opened Wrappers
  import opened CreditArithmetic
  import opened CreditLedger

  // ----- spending

  predicate RoundsUpTo(x: real, n: int) {
    x <= n as real < x + 1.0
  }

  predicate RoundsDownTo(x: real, n: int) {
    n as real <= x < n as real + 1.0
  }

  // The existence checks have found the message's usage record.
  predicate SettledBefore(message: Option<nat>, seen: Reads) {
    message.Some? && seen.usageSeen.Some?
  }

  predicate CreditsCover(l: Ledger, usage: real) {
    l.balance as real >= usage / 1000.0
  }

  // A usage is charged when its message has no record yet and the tokens that the credits leave open fit the limit.
  // `value` is its value in tokens, rounded up, and `covered` the value of the credits, rounded down.
  lemma WhenASpendIsCharged(c: Settings, l: Ledger, message: Option<nat>, usage: real, seen: Reads, value: int, covered: int)
    requires Sound(l) && Truthful(l, message, seen) && usage >= 0.0 && c.ratio > 0.0
    requires RoundsUpTo(usage * c.ratio / 1000.0, value) && RoundsDownTo(l.balance as real * c.ratio, covered)
    ensures
      var (outcome, l') := SpendTx(c, l, message, usage, seen);
      var fits := CreditsCover(l, usage) || l.usedTokens + value - covered <= c.maxTokens;
      var recorded := message.Some? && HasUsage(l.usages, message.value);
      && (outcome.AlreadySpent? <==> SettledBefore(message, seen) && seen.txSeen)
      && (outcome.Recovered? <==> SettledBefore(message, seen) && !seen.txSeen && SpendKey(message.value) !in KeysOf(l.txs))
      && (outcome.RecoveredByAnother? <==>
            SettledBefore(message, seen) && !seen.txSeen && SpendKey(message.value) in KeysOf(l.txs))
      && (outcome.QuotaExceeded? <==> !SettledBefore(message, seen) && !fits)
      && (outcome.DuplicateRolledBack? <==> !SettledBefore(message, seen) && fits && recorded)
      && (outcome.Charged? <==> !SettledBefore(message, seen) && fits && !recorded)
      && !outcome.InsufficientCredits?
      && (outcome.Charged? || outcome.Recovered? || l' == l)
  {
    SplitIs(c, l, usage, value, covered);
    SpendRowsHaveUsage(l);
    hide KeysOf, HasUsage, RowsOk, Split;
  }

  lemma SplitIs(c: Settings, l: Ledger, usage: real, value: int, covered: int)
    requires l.balance >= 0 && usage >= 0.0 && c.ratio > 0.0
    requires RoundsUpTo(usage * c.ratio / 1000.0, value) && RoundsDownTo(l.balance as real * c.ratio, covered)
    ensures
      var charge := Split(l.balance, usage, c.ratio);
      && 0 <= charge.credits <= l.balance
      && (CreditsCover(l, usage) ==> charge.tokens == 0 && RoundsUpTo(usage / 1000.0, charge.credits))
      && (!CreditsCover(l, usage) ==> charge.credits == l.balance && charge.tokens == value - covered >= 1)
  {
    CoverIsCost(l, usage, c.ratio);
    var x, y := usage * c.ratio / 1000.0, l.balance as real * c.ratio;
    CeilIsTheRoundedUpValue(x);
    RoundingIsUnique(x, value, TokenValue(usage, c.ratio));
    DownIsFloor(y, covered);
    if CreditsCover(l, usage) {
      CreditsCoverTheUsage(l.balance, usage, c.ratio);
    } else {
      MixedChargeIsExact(l.balance, usage, c.ratio);
    }
    hide Split, RoundsUpTo, TokenValue, RoundsDownTo, CreditsCover;
  }

  lemma CoverIsCost(l: Ledger, usage: real, ratio: real)
    requires l.balance >= 0 && usage >= 0.0
    ensures CreditsCover(l, usage) <==> l.balance >= Cost(usage)
    ensures CreditsCover(l, usage) ==>
              0 <= Split(l.balance, usage, ratio).credits <= l.balance
              && RoundsUpTo(usage / 1000.0, Split(l.balance, usage, ratio).credits)
  {
    CeilIsTheRoundedUpValue(usage / 1000.0);
    hide TokenValue;
  }

  lemma RoundingIsUnique(x: real, n: int, m: int)
    requires RoundsUpTo(x, n) && RoundsUpTo(x, m)
    ensures n == m
  {
  }

  lemma DownIsFloor(x: real, n: int)
    requires RoundsDownTo(x, n)
    ensures x.Floor == n
  {
  }

  // A charge pays the usage: in credits, rounded up by less than one, when the credits cover it; otherwise with all
  // credits, and with at least one token for what they leave open. Row and usage record carry what was paid.
  lemma ASpendPaysItsUsage(c: Settings, l: Ledger, message: Option<nat>, usage: real, seen: Reads, value: int, covered: int)
    requires Sound(l) && Truthful(l, message, seen) && usage >= 0.0 && c.ratio > 0.0
    requires RoundsUpTo(usage * c.ratio / 1000.0, value) && RoundsDownTo(l.balance as real * c.ratio, covered)
    requires SpendTx(c, l, message, usage, seen).0.Charged?
    ensures
      var l' := SpendTx(c, l, message, usage, seen).1;
      var credits, tokens := l.balance - l'.balance, l'.usedTokens - l.usedTokens;
      && (if CreditsCover(l, usage) then RoundsUpTo(usage / 1000.0, credits) && tokens == 0
          else credits == l.balance && tokens == value - covered >= 1)
      && l'.usages == l.usages + [Usage(message, credits, tokens)]
      && l'.txs == l.txs + [Tx(-credits, Spend, None, if message.Some? then Some(SpendKey(message.value)) else None)]
  {
    SplitIs(c, l, usage, value, covered);
    hide Split, KeysOf, HasUsage, Sound;
  }

  // The recovery adds the row that was lost and nothing else.
  lemma ARecoveryBooksTheRecordedCost(c: Settings, l: Ledger, message: nat, usage: real, seen: Reads)
    requires SpendTx(c, l, Some(message), usage, seen).0.Recovered?
    ensures seen.usageSeen.Some?
    ensures SpendTx(c, l, Some(message), usage, seen).1
            == l.(txs := l.txs + [Tx(-seen.usageSeen.value.creditCost, Spend, None, Some(SpendKey(message)))])
  {
  }

  // ----- the daily check-in

  function DayOf(now: Time): int {
    now / 86400
  }

  // A check-in is refused exactly when the log has one of the same day. It grants its amount until the valid days have
  // passed, refuses any other of the same day, and stands in the way of no other day.
  lemma WhatACheckinGrants(c: Settings, l: Ledger, now: Time, later: Time)
    ensures CheckinTx(c, l, now).None? <==> CheckinKey(DayOf(now)) in KeysOf(l.txs)
    ensures
      CheckinTx(c, l, now).Some? ==>
        var l' := CheckinTx(c, l, now).value;
        && l'.usages == l.usages && l'.usedTokens == l.usedTokens
        && l'.balance == l.balance + c.checkinAmount + (if c.refreshes then c.checkinAmount else 0)
        && Sum(l'.txs) == Sum(l.txs) + c.checkinAmount
        && (CheckinTx(c, l', later).None? <==> DayOf(later) == DayOf(now) || CheckinTx(c, l, later).None?)
        && ProtectedPositiveSum(l'.txs, later)
           == ProtectedPositiveSum(l.txs, later) + (if later < now + c.validDays * 86400 then c.checkinAmount else 0)
        && ExpiredGrantsSum(l'.txs, later)
           == ExpiredGrantsSum(l.txs, later) + (if later < now + c.validDays * 86400 then 0 else c.checkinAmount)
  {
    if CheckinTx(c, l, now).Some? {
      var l' := CheckinTx(c, l, now).value;
      var tx := l'.txs[|l.txs|];
      assert l'.txs == l.txs + [tx] && l'.txs[..|l.txs|] == l.txs;
      KeysGrow(l.txs, tx);
    }
  }

  lemma {:induction false} CheckinsStay(c: Settings, ledgers: seq<Ledger>, steps: seq<Step>, day: int, i: nat, j: nat)
    requires IsRun(c, ledgers, steps) && Sound(ledgers[0]) && i <= j < |ledgers| && CheckinKey(day) in KeysOf(ledgers[i].txs)
    ensures CheckinKey(day) in KeysOf(ledgers[j].txs)
  {
    if i < j {
      CheckinsStay(c, ledgers, steps, day, i, j - 1);
      RunKeepsSound(c, ledgers, steps, j - 1);
      StepKeepsCheckins(c, ledgers[j - 1], steps[j - 1], day);
    }
  }

  lemma StepKeepsCheckins(c: Settings, l: Ledger, step: Step, day: int)
    requires Sound(l) && CheckinKey(day) in KeysOf(l.txs)
    ensures CheckinKey(day) in KeysOf(Apply(c, l, step).txs)
  {
    var i :| 0 <= i < |l.txs| && l.txs[i].key == Some(CheckinKey(day));
    assert RowOk(l.txs[i]);
    hide Sound, RowsOk, Split, ToExpire, HasUsage;
    var l' := Apply(c, l, step);
    if step.LoseSpendRow? {
      if step.index < |l.txs| && l.txs[step.index].source.Spend? && l.txs[step.index].key.Some? {
        assert l'.txs[if i < step.index then i else i - 1].key == Some(CheckinKey(day));
      }
    } else {
      assert l.txs <= l'.txs;
      assert l'.txs[i].key == Some(CheckinKey(day));
    }
  }

  // Whatever happens in between, two check-ins that succeed are of different days.
  lemma OneCheckinADay(c: Settings, ledgers: seq<Ledger>, steps: seq<Step>, i: nat, j: nat)
    requires IsRun(c, ledgers, steps) && Sound(ledgers[0]) && i < j < |steps|
    requires steps[i].CheckinStep? && CheckinTx(c, ledgers[i], steps[i].now).Some?
    requires steps[j].CheckinStep? && CheckinTx(c, ledgers[j], steps[j].now).Some?
    ensures DayOf(steps[i].now) != DayOf(steps[j].now)
  {
    hide Sound, KeysOf, Sum, ProtectedPositiveSum, ExpiredGrantsSum;
    WhatACheckinGrants(c, ledgers[i], steps[i].now, steps[i].now);
    WhatACheckinGrants(c, ledgers[i + 1], steps[i].now, steps[i].now);
    WhatACheckinGrants(c, ledgers[j], steps[j].now, steps[j].now);
    if DayOf(steps[i].now) == DayOf(steps[j].now) {
      CheckinsStay(c, ledgers, steps, DayOf(steps[i].now), i + 1, j);
    }
  }
}
