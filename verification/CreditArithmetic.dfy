/**
  The rate arithmetic of CreditService over exact rationals: how a model usage is split into credits and tokens,
  and what the pre-check before a generation promises about the later spend.

  `usage` is tokens_input * input_rate + tokens_output * output_rate.
  */
module CreditArithmetic {
  // math.ceil
  function Ceil(x: real): int {
    -((-x).Floor)
  }

  // int(x): truncation towards zero
  function Truncate(x: real): int {
    if x >= 0.0 then x.Floor else Ceil(x)
  }

  function Cost(usage: real): int {
    Ceil(usage / 1000.0)
  }

  function TokenValue(usage: real, ratio: real): int {
    Ceil(usage * ratio / 1000.0)
  }

  datatype Charge = Charge(credits: int, tokens: int)

  function Split(balance: int, usage: real, ratio: real): Charge {
    if balance >= Cost(usage) then Charge(Cost(usage), 0)
    else
      var tokens := TokenValue(usage, ratio) - Truncate(balance as real * ratio);
      Charge(balance, if tokens < 0 then 0 else tokens)
  }

  lemma CeilIsTheRoundedUpValue(x: real)
    ensures x <= Ceil(x) as real < x + 1.0
  {
  }

  lemma CeilIsMonotone(x: real, y: real)
    requires x <= y
    ensures Ceil(x) <= Ceil(y)
  {
    CeilIsTheRoundedUpValue(x);
    CeilIsTheRoundedUpValue(y);
  }

  lemma Scale(x: real, y: real, r: real)
    requires r > 0.0
    ensures x < y ==> x * r < y * r
    ensures x <= y ==> x * r <= y * r
  {
  }

  // Comparing a usage with a number of credits is comparing their token values.
  lemma TokenValues(usage: real, credits: real, ratio: real)
    requires ratio > 0.0
    ensures credits < usage / 1000.0 ==> credits * ratio < usage * ratio / 1000.0
    ensures usage / 1000.0 <= credits ==> usage * ratio / 1000.0 <= credits * ratio
  {
    var x := usage / 1000.0;
    assert usage == 1000.0 * x;
    assert usage * ratio == 1000.0 * (x * ratio);
    Scale(credits, x, ratio);
    Scale(x, credits, ratio);
  }

  // With enough credits the whole usage is paid in credits, rounded up by less than one credit.
  lemma CreditsCoverTheUsage(balance: int, usage: real, ratio: real)
    requires balance >= Cost(usage)
    ensures Split(balance, usage, ratio).tokens == 0
    ensures usage / 1000.0 <= Split(balance, usage, ratio).credits as real < usage / 1000.0 + 1.0
  {
  }

  // Otherwise the account is emptied, credits and tokens together make up the rounded-up token value exactly, at
  // least one token is due, and so the clamp of a negative token part is never used.
  lemma MixedChargeIsExact(balance: int, usage: real, ratio: real)
    requires 0 <= balance < Cost(usage) && ratio > 0.0
    ensures
      var charge := Split(balance, usage, ratio);
      && charge.credits == balance
      && (balance as real * ratio).Floor + charge.tokens == TokenValue(usage, ratio)
      && charge.tokens >= 1
  {
    CeilIsTheRoundedUpValue(usage / 1000.0);
    TokenValues(usage, balance as real, ratio);
    CeilIsTheRoundedUpValue(usage * ratio / 1000.0);
  }

  // The test of ensure_sufficient_balance.
  predicate PrecheckAccepts(balance: int, usedTokens: int, maxTokens: int, estimate: int, ratio: real) {
    var remaining := if maxTokens - usedTokens > 0 then maxTokens - usedTokens else 0;
    remaining as real + balance as real * ratio >= estimate as real * ratio
  }

  // The token increment of the spend finds room below the limit.
  predicate SpendFits(balance: int, usedTokens: int, maxTokens: int, usage: real, ratio: real) {
    var charge := Split(balance, usage, ratio);
    charge.tokens > 0 ==> usedTokens + charge.tokens <= maxTokens
  }

  predicate AffordsEveryUsageUpTo(balance: int, usedTokens: int, maxTokens: int, estimate: int, ratio: real) {
    balance >= estimate || usedTokens + Ceil(estimate as real * ratio) - (balance as real * ratio).Floor <= maxTokens
  }

  // When every usage that costs at most the estimate can be spent: exactly when the credits alone cover the
  // estimate, or the free tokens cover its rounded-up value less the rounded-down value of the credits.
  lemma WhenTheEstimateIsSafe(balance: int, usedTokens: int, maxTokens: int, estimate: int, ratio: real)
    requires balance >= 0 && ratio > 0.0
    ensures (forall usage: real :: 0.0 <= usage && Cost(usage) <= estimate ==>
                                     SpendFits(balance, usedTokens, maxTokens, usage, ratio))
            <==> AffordsEveryUsageUpTo(balance, usedTokens, maxTokens, estimate, ratio)
  {
    if AffordsEveryUsageUpTo(balance, usedTokens, maxTokens, estimate, ratio) {
      forall usage: real | 0.0 <= usage && Cost(usage) <= estimate
        ensures SpendFits(balance, usedTokens, maxTokens, usage, ratio)
      {
        if balance < Cost(usage) {
          UsageFits(balance, usedTokens, maxTokens, estimate, usage, ratio);
        }
      }
    } else {
      var worst := 1000.0 * estimate as real;
      assert worst / 1000.0 == estimate as real && Cost(worst) == estimate;
      assert worst * ratio / 1000.0 == estimate as real * ratio;
      MixedChargeIsExact(balance, worst, ratio);
      assert !SpendFits(balance, usedTokens, maxTokens, worst, ratio);
    }
  }

  lemma UsageFits(balance: int, usedTokens: int, maxTokens: int, estimate: int, usage: real, ratio: real)
    requires 0 <= balance < Cost(usage) <= estimate && ratio > 0.0
    requires AffordsEveryUsageUpTo(balance, usedTokens, maxTokens, estimate, ratio)
    ensures SpendFits(balance, usedTokens, maxTokens, usage, ratio)
  {
    MixedChargeIsExact(balance, usage, ratio);
    CeilIsTheRoundedUpValue(usage / 1000.0);
    assert usage / 1000.0 <= Cost(usage) as real <= estimate as real;
    TokenValues(usage, estimate as real, ratio);
    CeilIsMonotone(usage * ratio / 1000.0, estimate as real * ratio);
  }

  // For an integral ratio the pre-check is exactly that condition: what it accepts can always be spent, and what it
  // refuses could have failed.
  lemma IntegralRatioMakesThePrecheckSafe(balance: int, usedTokens: int, maxTokens: int, estimate: int, ratio: nat)
    requires balance >= 0 && ratio > 0
    ensures PrecheckAccepts(balance, usedTokens, maxTokens, estimate, ratio as real)
            <==> AffordsEveryUsageUpTo(balance, usedTokens, maxTokens, estimate, ratio as real)
  {
    assert estimate as real * ratio as real == (estimate * ratio) as real;
    assert balance as real * ratio as real == (balance * ratio) as real;
    var whole, covered := estimate * ratio, balance * ratio;
    assert Ceil(whole as real) == whole && (covered as real).Floor == covered;
    assert whole - covered == (estimate - balance) * ratio;
    assert balance < estimate <==> whole - covered > 0;
  }

  // For another ratio it does not: half a token per credit, one credit and one free token, estimate three.
  lemma FractionalRatioCanFailAfterThePrecheck()
    ensures PrecheckAccepts(1, 0, 1, 3, 0.5) && Cost(3000.0) == 3 && !SpendFits(1, 0, 1, 3000.0, 0.5)
  {
    assert 3000.0 * 0.5 / 1000.0 == 1.5 && (1 as real) * 0.5 == 0.5;
    assert (-1.5).Floor == -2;
  }
}
