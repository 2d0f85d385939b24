/**
 * The cost calculator of components/CostCalculator.tsx: the one-off costs,
 * the monthly budget and the CAD-to-KRW exchange rate, the field updates
 * the inputs make, the totals and their conversion to won, and the
 * fallbacks applied to what the inputs parse to.
 *
 * Parsing is outside the model: an input arrives as `Some(x)` when
 * `parseFloat` gives a number x and as `None` when it gives NaN.
 */
module CostCalculator {
  import opened Types

  /** The rate the page starts with, and the one a blank or zero rate input falls back to. */
  const DefaultExchangeRate: real := 1000.0

  // ---------------------------------------------------------------------
  // Single-field updates
  // ---------------------------------------------------------------------

  /** The costs with the field that `key` names set to `value`. */
  function SetInitial(costs: InitialCosts, key: InitialField, value: real): (r: InitialCosts)
    ensures InitialValue(r, key) == value
    ensures forall k :: k != key ==> InitialValue(r, k) == InitialValue(costs, k)
  {
    match key
    case Flight => costs.(flight := value)
    case FirstMonthRent => costs.(firstMonthRent := value)
    case Deposit => costs.(deposit := value)
    case VisaFee => costs.(visaFee := value)
    case Insurance => costs.(insurance := value)
    case OtherInitial => costs.(other := value)
  }

  /** The budget with the field that `key` names set to `value`. */
  function SetMonthly(budget: MonthlyBudget, key: BudgetField, value: real): (r: MonthlyBudget)
    ensures BudgetValue(r, key) == value
    ensures forall k :: k != key ==> BudgetValue(r, k) == BudgetValue(budget, k)
  {
    match key
    case Rent => budget.(rent := value)
    case Food => budget.(food := value)
    case Transport => budget.(transport := value)
    case Communication => budget.(communication := value)
    case Other => budget.(other := value)
  }

  // ---------------------------------------------------------------------
  // Totals
  // ---------------------------------------------------------------------

  /** The six initial-cost fields added up. */
  function TotalInitial(costs: InitialCosts): (total: real)
    ensures total == costs.flight + costs.firstMonthRent + costs.deposit
                     + costs.visaFee + costs.insurance + costs.other
  {
    SumOfInitial(costs);
    Sum(InitialValues(costs))
  }

  /** The monthly total, written out field by field; communication is included. */
  function TotalMonthly(budget: MonthlyBudget): (total: real)
    ensures total == Sum(BudgetValues(budget))
  {
    SumOfBudget(budget);
    budget.rent + budget.food + budget.transport + budget.communication + budget.other
  }

  /** An amount in dollars converted to won at `rate`. */
  function ToKRW(amount: real, rate: real): (won: real)
    ensures rate != 0.0 ==> (won == 0.0 <==> amount == 0.0)
    ensures rate > 0.0 ==> (won > 0.0 <==> amount > 0.0)
  {
    amount * rate
  }

  /** Setting one field moves the total by the difference between the new and the old value. */
  lemma TotalInitialAfterSet(costs: InitialCosts, key: InitialField, value: real)
    ensures TotalInitial(SetInitial(costs, key, value)) == TotalInitial(costs) - InitialValue(costs, key) + value
  {
  }

  /** Setting one field moves the monthly total by the difference between the new and the old value. */
  lemma TotalMonthlyAfterSet(budget: MonthlyBudget, key: BudgetField, value: real)
    ensures TotalMonthly(SetMonthly(budget, key, value)) == TotalMonthly(budget) - BudgetValue(budget, key) + value
  {
  }

  /** The worked example: 500 + 1200 + 1200 + 150 + 200 + 100 is 3350 dollars, 3,350,000 won at 1000. */
  lemma TotalExample()
    ensures TotalInitial(InitialCosts(500.0, 1200.0, 1200.0, 150.0, 200.0, 100.0)) == 3350.0
    ensures ToKRW(3350.0, DefaultExchangeRate) == 3350000.0
  {
  }

  // ---------------------------------------------------------------------
  // Input fallbacks
  // ---------------------------------------------------------------------

  /** `parseFloat(text) || 0` for a cost field: NaN becomes 0; any number, negative included, is kept. */
  function CostFromInput(parsed: Option<real>): (value: real)
    ensures parsed.None? ==> value == 0.0
    ensures parsed.Some? ==> value == parsed.value
  {
    match parsed
    case None => 0.0
    case Some(x) => if x == 0.0 then 0.0 else x
  }

  /**
   * `parseFloat(text) || 1000` for the rate: NaN and 0 become 1000; any
   * other number, negative included, is kept. So the rate is never 0.
   */
  function RateFromInput(parsed: Option<real>): (rate: real)
    ensures rate != 0.0
    ensures parsed.Some? && parsed.value != 0.0 ==> rate == parsed.value
    ensures parsed.None? || parsed.value == 0.0 ==> rate == DefaultExchangeRate
  {
    match parsed
    case None => DefaultExchangeRate
    case Some(x) => if x == 0.0 then DefaultExchangeRate else x
  }

  // ---------------------------------------------------------------------
  // The component state
  // ---------------------------------------------------------------------

  /** The calculator's state, with the page's exchange rate. */
  class Calculator {
    var initialCosts: InitialCosts
    var monthlyBudget: MonthlyBudget
    var exchangeRate: real

    /** The rate is never 0: it starts at 1000 and every way of changing it avoids 0. */
    predicate Valid()
      reads this
    {
      exchangeRate != 0.0
    }

    constructor ()
      ensures Valid()
      ensures initialCosts == InitialCosts(0.0, 0.0, 0.0, 0.0, 0.0, 0.0)
      ensures monthlyBudget == MonthlyBudget(0.0, 0.0, 0.0, 0.0, 0.0)
      ensures exchangeRate == DefaultExchangeRate
      ensures TotalInitialCAD() == 0.0 && TotalMonthlyCAD() == 0.0
    {
      initialCosts := InitialCosts(0.0, 0.0, 0.0, 0.0, 0.0, 0.0);
      monthlyBudget := MonthlyBudget(0.0, 0.0, 0.0, 0.0, 0.0);
      exchangeRate := DefaultExchangeRate;
    }

    /** `totalInitialCAD`: the sum of `Object.values(initialCosts)`. */
    function TotalInitialCAD(): (total: real)
      reads this
      ensures total == Sum(InitialValues(initialCosts))
      ensures total == initialCosts.flight + initialCosts.firstMonthRent + initialCosts.deposit
                       + initialCosts.visaFee + initialCosts.insurance + initialCosts.other
    {
      TotalInitial(initialCosts)
    }

    /** `totalInitialKRW`: the initial total at the current rate; with a valid rate it is 0 only when the total is. */
    function TotalInitialKRW(): (won: real)
      reads this
      ensures Valid() ==> (won == 0.0 <==> TotalInitialCAD() == 0.0)
      ensures exchangeRate > 0.0 ==> (won > 0.0 <==> TotalInitialCAD() > 0.0)
    {
      ToKRW(TotalInitialCAD(), exchangeRate)
    }

    /** `totalMonthlyCAD`: the five budget fields added up, communication included. */
    function TotalMonthlyCAD(): (total: real)
      reads this
      ensures total == Sum(BudgetValues(monthlyBudget))
    {
      TotalMonthly(monthlyBudget)
    }

    /** `totalMonthlyKRW`: the monthly total at the current rate; with a valid rate it is 0 only when the total is. */
    function TotalMonthlyKRW(): (won: real)
      reads this
      ensures Valid() ==> (won == 0.0 <==> TotalMonthlyCAD() == 0.0)
      ensures exchangeRate > 0.0 ==> (won > 0.0 <==> TotalMonthlyCAD() > 0.0)
    {
      ToKRW(TotalMonthlyCAD(), exchangeRate)
    }

    /** `updateInitialCost(key, value)`: sets one initial-cost field. */
    method UpdateInitialCost(key: InitialField, value: real)
      modifies this
      ensures initialCosts == SetInitial(old(initialCosts), key, value)
      ensures monthlyBudget == old(monthlyBudget) && exchangeRate == old(exchangeRate)
      ensures TotalInitialCAD() == old(TotalInitialCAD()) - InitialValue(old(initialCosts), key) + value
    {
      TotalInitialAfterSet(initialCosts, key, value);
      initialCosts := SetInitial(initialCosts, key, value);
    }

    /** `updateMonthlyBudget(key, value)`: sets one budget field. */
    method UpdateMonthlyBudget(key: BudgetField, value: real)
      modifies this
      ensures monthlyBudget == SetMonthly(old(monthlyBudget), key, value)
      ensures initialCosts == old(initialCosts) && exchangeRate == old(exchangeRate)
      ensures TotalMonthlyCAD() == old(TotalMonthlyCAD()) - BudgetValue(old(monthlyBudget), key) + value
    {
      TotalMonthlyAfterSet(monthlyBudget, key, value);
      monthlyBudget := SetMonthly(monthlyBudget, key, value);
    }

    /** A cost field's change handler: the parsed input, with NaN read as 0. */
    method InputInitialCost(key: InitialField, parsed: Option<real>)
      modifies this
      ensures initialCosts == SetInitial(old(initialCosts), key, CostFromInput(parsed))
      ensures monthlyBudget == old(monthlyBudget) && exchangeRate == old(exchangeRate)
    {
      UpdateInitialCost(key, CostFromInput(parsed));
    }

    /** A monthly field's change handler: the parsed input, with NaN read as 0. */
    method InputMonthlyBudget(key: BudgetField, parsed: Option<real>)
      modifies this
      ensures monthlyBudget == SetMonthly(old(monthlyBudget), key, CostFromInput(parsed))
      ensures initialCosts == old(initialCosts) && exchangeRate == old(exchangeRate)
    {
      UpdateMonthlyBudget(key, CostFromInput(parsed));
    }

    /** The rate input's change handler. */
    method InputExchangeRate(parsed: Option<real>)
      modifies this
      ensures Valid()
      ensures exchangeRate == RateFromInput(parsed)
      ensures initialCosts == old(initialCosts) && monthlyBudget == old(monthlyBudget)
    {
      exchangeRate := RateFromInput(parsed);
    }

    /** The stored rate read at start-up is applied only when it is a positive number. */
    method ApplyStoredRate(stored: Option<real>)
      modifies this
      ensures old(Valid()) ==> Valid()
      ensures stored.Some? && stored.value > 0.0 ==> exchangeRate == stored.value
      ensures stored.None? || stored.value <= 0.0 ==> exchangeRate == old(exchangeRate)
      ensures initialCosts == old(initialCosts) && monthlyBudget == old(monthlyBudget)
    {
      if stored.Some? && stored.value > 0.0 {
        exchangeRate := stored.value;
      }
    }
  }
}
