/** The lifetime budget and the rounded-up spend of a paid pod, over exact reals. */
module SpendMoney {
  import opened Common

  const MIN_CAP_USD := 0.25
  const LIFETIME_SHARE_OF_CAP := 0.80

  datatype MoneyError = BadRate | BadCap | NegativeLifetime

  function BudgetSeconds(costPerHr: real, capUsd: real): Result<int, MoneyError> {
    if costPerHr <= 0.0 then Err(BadRate)
    else if capUsd < MIN_CAP_USD then Err(BadCap)
    else Ok((capUsd * LIFETIME_SHARE_OF_CAP / costPerHr * 3600.0).Floor)
  }

  function Cents(costPerHr: real, seconds: real): int {
    Ceil(costPerHr * seconds / 3600.0 * 100.0)
  }

  function SpendUsd(costPerHr: real, seconds: real): Result<real, MoneyError> {
    if seconds < 0.0 then Err(NegativeLifetime)
    else Ok(Cents(costPerHr, seconds) as real / 100.0)
  }

  /** What the lifetime costs before rounding. */
  ghost function Cost(costPerHr: real, seconds: real): real {
    costPerHr * seconds / 3600.0
  }

  /** Reported spend is a whole number of cents, never below the cost and less than a cent above it. */
  lemma SpendBrackets(costPerHr: real, seconds: real)
    requires seconds >= 0.0
    ensures SpendUsd(costPerHr, seconds).Ok?
    ensures var spent := SpendUsd(costPerHr, seconds).value;
            && spent * 100.0 == (spent * 100.0).Floor as real
            && Cost(costPerHr, seconds) <= spent < Cost(costPerHr, seconds) + 0.01
  {
    assert SpendUsd(costPerHr, seconds).value * 100.0 == Cents(costPerHr, seconds) as real;
  }

  /** The spend fits a cap exactly when the cost fits the whole cents of the cap. */
  lemma SpendWithinCap(costPerHr: real, seconds: real, capUsd: real)
    requires seconds >= 0.0
    ensures SpendUsd(costPerHr, seconds).value <= capUsd <==>
            Cost(costPerHr, seconds) <= (capUsd * 100.0).Floor as real / 100.0
  {
    var cents, whole := Cents(costPerHr, seconds), (capUsd * 100.0).Floor;
    assert Cost(costPerHr, seconds) * 100.0 <= cents as real < Cost(costPerHr, seconds) * 100.0 + 1.0;
    assert cents <= whole <==> cents as real <= capUsd * 100.0;
    assert cents <= whole <==> Cost(costPerHr, seconds) * 100.0 <= whole as real;
  }

  lemma CostMonotone(costPerHr: real, a: real, b: real)
    requires costPerHr >= 0.0 && a <= b
    ensures Cost(costPerHr, a) <= Cost(costPerHr, b)
  {
    assert costPerHr * (b - a) >= 0.0;
  }

  lemma CeilOfSum(x: real, y: real)
    requires y >= 0.0
    ensures Ceil(x) <= Ceil(x + y) <= Ceil(x) + Ceil(y)
  {
  }

  /** A longer life never reports less, and splitting a life in two never lowers the total. */
  lemma SpendMonotoneAndSubadditive(costPerHr: real, a: real, b: real)
    requires costPerHr >= 0.0 && a >= 0.0 && b >= 0.0
    ensures SpendUsd(costPerHr, a).value <= SpendUsd(costPerHr, a + b).value
    ensures SpendUsd(costPerHr, a + b).value <= SpendUsd(costPerHr, a).value + SpendUsd(costPerHr, b).value
  {
    var x, y := Cost(costPerHr, a) * 100.0, Cost(costPerHr, b) * 100.0;
    assert costPerHr * b >= 0.0;
    assert Cost(costPerHr, a + b) * 100.0 == x + y;
    CeilOfSum(x, y);
    assert Cents(costPerHr, a) == Ceil(x) && Cents(costPerHr, b) == Ceil(y) && Cents(costPerHr, a + b) == Ceil(x + y);
  }

  lemma CostOfBudget(costPerHr: real, capUsd: real, slackUsd: real, seconds: real)
    requires costPerHr > 0.0
    requires seconds <= (capUsd * LIFETIME_SHARE_OF_CAP + slackUsd) / costPerHr * 3600.0
    ensures Cost(costPerHr, seconds) <= capUsd * LIFETIME_SHARE_OF_CAP + slackUsd
  {
    var usd := capUsd * LIFETIME_SHARE_OF_CAP + slackUsd;
    CostMonotone(costPerHr, seconds, usd / costPerHr * 3600.0);
    CostOfLimit(costPerHr, usd);
  }

  /** The headroom left beside the lifetime share, less one cent of rounding. */
  ghost function OverrunUsd(capUsd: real): real {
    (1.0 - LIFETIME_SHARE_OF_CAP) * capUsd - 0.01
  }

  /** A pod stopped within its budget, or late by up to the headroom's worth of time, stays under the cap. */
  lemma BudgetHoldsCap(costPerHr: real, capUsd: real, seconds: real)
    requires BudgetSeconds(costPerHr, capUsd).Ok? && seconds >= 0.0
    requires seconds <= BudgetSeconds(costPerHr, capUsd).value as real + OverrunUsd(capUsd) / costPerHr * 3600.0
    ensures OverrunUsd(capUsd) > 0.0
    ensures SpendUsd(costPerHr, seconds).value <= capUsd
  {
    var slack := OverrunUsd(capUsd);
    assert (capUsd * LIFETIME_SHARE_OF_CAP + slack) / costPerHr * 3600.0
        == capUsd * LIFETIME_SHARE_OF_CAP / costPerHr * 3600.0 + slack / costPerHr * 3600.0 by {
      assert (capUsd * LIFETIME_SHARE_OF_CAP + slack) / costPerHr
             == capUsd * LIFETIME_SHARE_OF_CAP / costPerHr + slack / costPerHr;
    }
    CostOfBudget(costPerHr, capUsd, slack, seconds);
    SpendBrackets(costPerHr, seconds);
  }

  /** The budget is the longest whole number of seconds whose cost stays within the lifetime share. */
  lemma BudgetIsMaximal(costPerHr: real, capUsd: real, seconds: int)
    requires BudgetSeconds(costPerHr, capUsd).Ok?
    ensures seconds <= BudgetSeconds(costPerHr, capUsd).value <==>
            Cost(costPerHr, seconds as real) <= capUsd * LIFETIME_SHARE_OF_CAP
  {
    var usd := capUsd * LIFETIME_SHARE_OF_CAP;
    var limit := usd / costPerHr * 3600.0;
    FloorBound(limit, seconds);
    CostOfLimit(costPerHr, usd);
    CostCompare(costPerHr, seconds as real, limit);
  }

  lemma FloorBound(x: real, n: int)
    ensures n <= x.Floor <==> n as real <= x
  {
  }

  lemma CostOfLimit(costPerHr: real, usd: real)
    requires costPerHr > 0.0
    ensures Cost(costPerHr, usd / costPerHr * 3600.0) == usd
  {
    var hours := usd / costPerHr;
    assert costPerHr * hours == usd;
    assert costPerHr * (hours * 3600.0) == costPerHr * hours * 3600.0;
  }

  lemma CostCompare(costPerHr: real, a: real, b: real)
    requires costPerHr > 0.0
    ensures Cost(costPerHr, a) <= Cost(costPerHr, b) <==> a <= b
  {
    if a <= b {
      CostMonotone(costPerHr, a, b);
    } else {
      assert costPerHr * (a - b) > 0.0;
    }
  }

  /** A pod at a dollar an hour with a dollar's cap may live 48 minutes; a cap below a quarter is refused. */
  lemma BudgetExample()
    ensures BudgetSeconds(1.0, 1.0) == Ok(2880)
    ensures BudgetSeconds(1.0, 0.24) == Err(BadCap) && BudgetSeconds(1.0, 0.25).Ok?
    ensures BudgetSeconds(0.0, 1.0) == Err(BadRate)
  {
  }
}
