/**
 * The record shapes shared by the planner: the study profile, checklist
 * items, the two cost records, benchmark figures and comparison rows.
 *
 * Calendar dates are day numbers (days since some fixed epoch); money is an
 * exact `real` in Canadian dollars.
 */
module Types {

  datatype Option<+T> = None | Some(value: T)

  datatype SchoolType = Language | College | University

  /** The traveller's plan. `departureDate` is `None` when the date field is empty. */
  datatype StudyProfile = StudyProfile(
    country: string,
    city: string,
    schoolType: SchoolType,
    departureDate: Option<int>,
    durationMonths: int)

  /** One checklist row; `recommendedDate` is a relative-day label such as "D-30". */
  datatype ChecklistItem = ChecklistItem(
    id: string,
    title: string,
    recommendedDate: string,
    completed: bool,
    category: string)

  /** One-off costs, in declaration order. */
  datatype InitialCosts = InitialCosts(
    flight: real,
    firstMonthRent: real,
    deposit: real,
    visaFee: real,
    insurance: real,
    other: real)

  /** Recurring monthly costs, in declaration order. */
  datatype MonthlyBudget = MonthlyBudget(
    rent: real,
    food: real,
    transport: real,
    communication: real,
    other: real)

  /** Reference monthly figures; there is no communication field. */
  datatype BenchmarkData = BenchmarkData(
    rent: real,
    food: real,
    transport: real,
    other: real)

  /** The keys of `InitialCosts`. */
  datatype InitialField = Flight | FirstMonthRent | Deposit | VisaFee | Insurance | OtherInitial

  /** The keys of `MonthlyBudget`; the first four are also the keys of `BenchmarkData`. */
  datatype BudgetField = Rent | Food | Transport | Communication | Other

  /** One row of a budget comparison. */
  datatype ComparisonResult = ComparisonResult(
    category: BudgetField,
    myVal: real,
    benchVal: real,
    diff: real,
    diffPct: real)

  /** The initial-cost field that `key` names. */
  function InitialValue(costs: InitialCosts, key: InitialField): real
  {
    match key
    case Flight => costs.flight
    case FirstMonthRent => costs.firstMonthRent
    case Deposit => costs.deposit
    case VisaFee => costs.visaFee
    case Insurance => costs.insurance
    case OtherInitial => costs.other
  }

  /** The budget field that `key` names. */
  function BudgetValue(budget: MonthlyBudget, key: BudgetField): real
  {
    match key
    case Rent => budget.rent
    case Food => budget.food
    case Transport => budget.transport
    case Communication => budget.communication
    case Other => budget.other
  }

  /** `bench[key]` for the four keys a benchmark has. */
  function BenchmarkValue(bench: BenchmarkData, key: BudgetField): real
    requires key != Communication
  {
    match key
    case Rent => bench.rent
    case Food => bench.food
    case Transport => bench.transport
    case Other => bench.other
  }

  /** `Object.values(costs)`: the fields in declaration order. */
  function InitialValues(costs: InitialCosts): seq<real>
  {
    [costs.flight, costs.firstMonthRent, costs.deposit, costs.visaFee, costs.insurance, costs.other]
  }

  /** `Object.values(budget)`: the fields in declaration order. */
  function BudgetValues(budget: MonthlyBudget): seq<real>
  {
    [budget.rent, budget.food, budget.transport, budget.communication, budget.other]
  }

  /** The values added up from the left, starting from 0. */
  function Sum(values: seq<real>): (total: real)
    ensures (forall i :: 0 <= i < |values| ==> values[i] >= 0.0) ==> total >= 0.0
  {
    if values == [] then 0.0 else Sum(values[..|values| - 1]) + values[|values| - 1]
  }

  /** Summing a list with one more element at the end adds that element. */
  lemma SumSnoc(values: seq<real>, x: real)
    ensures Sum(values + [x]) == Sum(values) + x
  {
    assert (values + [x])[..|values|] == values;
  }

  /** The sum of the monthly budget is the sum of its five fields. */
  lemma SumOfBudget(budget: MonthlyBudget)
    ensures Sum(BudgetValues(budget)) ==
      budget.rent + budget.food + budget.transport + budget.communication + budget.other
  {
    var v := BudgetValues(budget);
    SumSnoc(v[..4], v[4]);
    SumSnoc(v[..3], v[3]);
    SumSnoc(v[..2], v[2]);
    SumSnoc(v[..1], v[1]);
    SumSnoc(v[..0], v[0]);
    assert v == v[..4] + [v[4]] && v[..4] == v[..3] + [v[3]] && v[..3] == v[..2] + [v[2]];
    assert v[..2] == v[..1] + [v[1]] && v[..1] == v[..0] + [v[0]] && v[..0] == [];
  }

  /** The sum of the initial costs is the sum of their six fields. */
  lemma SumOfInitial(costs: InitialCosts)
    ensures Sum(InitialValues(costs)) ==
      costs.flight + costs.firstMonthRent + costs.deposit + costs.visaFee + costs.insurance + costs.other
  {
    var v := InitialValues(costs);
    SumSnoc(v[..5], v[5]);
    SumSnoc(v[..4], v[4]);
    SumSnoc(v[..3], v[3]);
    SumSnoc(v[..2], v[2]);
    SumSnoc(v[..1], v[1]);
    SumSnoc(v[..0], v[0]);
    assert v == v[..5] + [v[5]] && v[..5] == v[..4] + [v[4]] && v[..4] == v[..3] + [v[3]];
    assert v[..3] == v[..2] + [v[2]] && v[..2] == v[..1] + [v[1]] && v[..1] == v[..0] + [v[0]] && v[..0] == [];
  }
}
