/**
  CreditService and the statements it uses, step by step on one user's rows. Each method ends in the ledger that the
  function of the same name in CreditLedger gives, whatever happens in between: a failed statement raises, and a
  raised error rolls the transaction (or the savepoint) back.
  */
module CreditService {
  import opened Wrappers
  import opened CreditArithmetic
  import opened CreditLedger

  class CreditAccount {
    var balance: int
    var usedTokens: int
    var txs: seq<Tx>
    var usages: seq<Usage>
    const settings: Settings

    constructor (settings: Settings)
      ensures this.settings == settings && Committed() == Ledger(0, 0, [], [])
      ensures LedgerOk(Committed())
    {
      this.settings := settings;
      balance, usedTokens, txs, usages := 0, 0, [], [];
    }

    function Committed(): Ledger
      reads this
    {
      Ledger(balance, usedTokens, txs, usages)
    }

    // ----- the statements

    method TryDecrementBalance(cost: int) returns (ok: bool)
      modifies `balance
      ensures ok == (old(balance) >= cost)
      ensures balance == if ok then old(balance) - cost else old(balance)
    {
      ok := balance >= cost;
      if ok {
        balance := balance - cost;
      }
    }

    method TryIncrementBalance(amount: int)
      modifies `balance
      ensures balance == old(balance) + amount
    {
      balance := balance + amount;
    }

    method TryIncrementUsedTokensWithLimit(amount: int) returns (ok: bool)
      modifies `usedTokens
      ensures ok == (old(usedTokens) + amount <= settings.maxTokens)
      ensures usedTokens == if ok then old(usedTokens) + amount else old(usedTokens)
    {
      ok := usedTokens + amount <= settings.maxTokens;
      if ok {
        usedTokens := usedTokens + amount;
      }
    }

    // `ok` is false when the insert violates the unique index on the idempotency key.
    method AddTransaction(tx: Tx) returns (ok: bool)
      modifies `txs
      ensures ok == !(tx.key.Some? && tx.key.value in KeysOf(old(txs)))
      ensures txs == if ok then old(txs) + [tx] else old(txs)
    {
      ok := tx.key.None? || tx.key.value !in KeysOf(txs);
      if ok {
        txs := txs + [tx];
      }
    }

    // `ok` is false when the insert violates the unique index on the chat message.
    method CreateUsageRecord(usage: Usage) returns (ok: bool)
      modifies `usages
      ensures ok == !(usage.message.Some? && HasUsage(old(usages), usage.message.value))
      ensures usages == if ok then old(usages) + [usage] else old(usages)
    {
      ok := usage.message.None? || !HasUsage(usages, usage.message.value);
      if ok {
        usages := usages + [usage];
      }
    }

    method RollBackTo(savepoint: Ledger)
      modifies this
      ensures Committed() == savepoint
    {
      balance, usedTokens, txs, usages := savepoint.balance, savepoint.usedTokens, savepoint.txs, savepoint.usages;
    }

    // ----- the service

    method EnsureSufficientBalance(estimate: int) returns (ok: bool)
      ensures ok == PrecheckAccepts(balance, usedTokens, settings.maxTokens, estimate, settings.ratio)
    {
      var creditsInTokens := balance as real * settings.ratio;
      var remainingTokens := if settings.maxTokens - usedTokens > 0 then settings.maxTokens - usedTokens else 0;
      var requiredTokens := estimate as real * settings.ratio;
      ok := remainingTokens as real + creditsInTokens >= requiredTokens;
    }

    // `loaded` is the account object of the session: read under the lock, refreshed by the UPDATE or not, raised by
    // hand, and written back at commit when its balance has changed since it was last loaded or refreshed.
    method DailyCheckin(now: Time) returns (ok: bool, loaded: int)
      modifies this
      ensures ok == CheckinTx(settings, old(Committed()), now).Some?
      ensures Committed() == if ok then CheckinTx(settings, old(Committed()), now).value else old(Committed())
      ensures ok ==> loaded == balance
    {
      loaded := balance;
      var key := CheckinKey(now / DAY);
      if key in KeysOf(txs) {
        return false, loaded;
      }
      ok := AddTransaction(Tx(settings.checkinAmount, Checkin, Some(now + settings.validDays * DAY), Some(key)));
      if ok {
        TryIncrementBalance(settings.checkinAmount);
        if settings.refreshes {
          loaded := balance;
        }
        var asLoaded := loaded;
        loaded := loaded + settings.checkinAmount;
        if loaded != asLoaded {
          balance := loaded;
        }
      }
    }

    method SpendForModelUsage(message: Option<nat>, usage: real, seen: Reads) returns (outcome: SpendOutcome)
      modifies this
      ensures outcome == SpendTx(settings, old(Committed()), message, usage, seen).0
      ensures Committed() == SpendTx(settings, old(Committed()), message, usage, seen).1
    {
      if message.Some? && seen.usageSeen.Some? {
        if seen.txSeen {
          return AlreadySpent;
        }
        var inserted := AddTransaction(Tx(-seen.usageSeen.value.creditCost, Spend, None, Some(SpendKey(message.value))));
        return if inserted then Recovered else RecoveredByAnother;
      }
      outcome := ChargeLocked(message, usage);
    }

    method ChargeLocked(message: Option<nat>, usage: real) returns (outcome: SpendOutcome)
      modifies this
      ensures outcome == ChargeTx(settings, old(Committed()), message, usage).0
      ensures Committed() == ChargeTx(settings, old(Committed()), message, usage).1
    {
      hide Split;
      var begin := Committed();
      var credits, tokens := SplitCharge(usage);
      if credits > 0 {
        var paid := TryDecrementBalance(credits);
        if !paid {
          return InsufficientCredits;
        }
      }
      if tokens > 0 {
        var counted := TryIncrementUsedTokensWithLimit(tokens);
        if !counted {
          RollBackTo(begin);
          return QuotaExceeded;
        }
      }
      var recorded := CreateUsageRecord(Usage(message, credits, tokens));
      if !recorded {
        RollBackTo(begin);
        return DuplicateRolledBack;
      }
      var booked := AddTransaction(SpendRow(message, credits));
      if !booked {
        RollBackTo(begin);
        return DuplicateRolledBack;
      }
      outcome := Charged(Charge(credits, tokens));
    }

    // Credits first, then tokens for what they do not cover.
    method SplitCharge(usage: real) returns (credits: int, tokens: int)
      ensures Charge(credits, tokens) == Split(balance, usage, settings.ratio)
    {
      var cost, tokenValue := Cost(usage), TokenValue(usage, settings.ratio);
      if balance >= cost {
        return cost, 0;
      }
      credits := balance;
      tokens := tokenValue - Truncate(credits as real * settings.ratio);
      if tokens < 0 {
        tokens := 0;
      }
    }

    // The result of the guarded decrement is ignored, as in the source; on a ledger in order it always succeeds.
    method ExpireCreditsForAccount(now: Time) returns (expired: bool)
      modifies this
      ensures Committed() == ExpireTx(old(Committed()), now)
      ensures expired == (ToExpire(old(Committed()), now) > 0)
    {
      var expiredGrants := ExpiredGrantsSum(txs, now);
      var alreadyExpired := Abs(SourceSum(txs, Expire));
      var spent := Abs(SourceSum(txs, Spend));
      var protectedPositive := ProtectedPositiveSum(txs, now);
      var pending := expiredGrants - spent - alreadyExpired;
      if pending <= 0 {
        return false;
      }
      var expirable := if balance - protectedPositive > 0 then balance - protectedPositive else 0;
      var amount := if expirable < pending then expirable else pending;
      if amount > 0 {
        var _ := TryDecrementBalance(amount);
        var _ := AddTransaction(Tx(-amount, Expire, None, None));
        return true;
      }
      return false;
    }
  }
}
