/**
 * The comparison panel of components/BenchmarkComparison.tsx: whether a
 * comparison is shown at all, and if so the rows `compareBudget` produces
 * for the budget with communication folded into "other".
 */
module BenchmarkComparison {
  import opened Types
  import opened Utils
  import Benchmarks

  /** The panel's state: the rows, if any, and the flag saying whether there are rows. */
  datatype PanelState = PanelState(comparison: Option<seq<ComparisonResult>>, hasData: bool)

  /**
   * The budget as it is compared: the benchmark has no communication field,
   * so communication is counted under "other".
   */
  function FoldCommunication(budget: MonthlyBudget): (adjusted: MonthlyBudget)
    ensures adjusted.rent == budget.rent && adjusted.food == budget.food
    ensures adjusted.transport == budget.transport && adjusted.communication == budget.communication
    ensures adjusted.other == budget.other + budget.communication
  {
    budget.(other := budget.other + budget.communication)
  }

  /** The four compared fields of the adjusted budget add up to the whole monthly budget. */
  lemma FoldCommunicationKeepsTotal(budget: MonthlyBudget)
    ensures var a := FoldCommunication(budget);
      a.rent + a.food + a.transport + a.other == Sum(BudgetValues(budget))
  {
    SumOfBudget(budget);
  }

  /**
   * The effect run when the profile or the budget changes. There is no
   * comparison without a profile or with an empty city, when the monthly
   * total is 0, or when the city has no benchmark; otherwise the rows
   * compare the adjusted budget with the city's benchmark.
   */
  function Refresh(profile: Option<StudyProfile>, budget: MonthlyBudget): (st: PanelState)
    ensures st.hasData <==> st.comparison.Some?
    ensures profile.None? || profile.value.city == [] ==> st.comparison.None?
    ensures Sum(BudgetValues(budget)) == 0.0 ==> st.comparison.None?
    ensures profile.Some? && Benchmarks.GetBenchmark(profile.value.city, profile.value.durationMonths).None? ==>
      st.comparison.None?
    ensures st.comparison.Some? ==>
      && profile.Some? && profile.value.city != [] && Sum(BudgetValues(budget)) != 0.0
      && var bench := Benchmarks.GetBenchmark(profile.value.city, profile.value.durationMonths);
      && bench.Some?
      && st.comparison.value == CompareBudget(FoldCommunication(budget), bench.value)
    ensures (profile.Some? && profile.value.city != [] && Sum(BudgetValues(budget)) != 0.0
             && Benchmarks.GetBenchmark(profile.value.city, profile.value.durationMonths).Some?) ==>
      st.comparison.Some?
  {
    if profile.None? || profile.value.city == [] then PanelState(None, false)
    else if Sum(BudgetValues(budget)) == 0.0 then PanelState(None, false)
    else
      match Benchmarks.GetBenchmark(profile.value.city, profile.value.durationMonths)
      case None => PanelState(None, false)
      case Some(bench) => PanelState(Some(CompareBudget(FoldCommunication(budget), bench)), true)
  }

  /** A city in the table and a non-zero budget always give a comparison. */
  lemma KnownCityCompares(profile: StudyProfile, budget: MonthlyBudget)
    requires Benchmarks.ToLower(profile.city) in Benchmarks.Table
    requires Sum(BudgetValues(budget)) != 0.0
    ensures Refresh(Some(profile), budget).comparison.Some?
  {
    Benchmarks.TableKeys();
    assert |Benchmarks.ToLower(profile.city)| > 0;
  }

  /**
   * The rows compared for a budget: rent, food and transport as budgeted,
   * and "other" as other plus communication against the benchmark's other.
   */
  lemma ComparisonRows(budget: MonthlyBudget, bench: BenchmarkData)
    ensures var rows := CompareBudget(FoldCommunication(budget), bench);
      && |rows| == 4
      && rows[0].category == Rent && rows[0].myVal == budget.rent && rows[0].diff == budget.rent - bench.rent
      && rows[1].category == Food && rows[1].myVal == budget.food && rows[1].diff == budget.food - bench.food
      && rows[2].category == Transport && rows[2].myVal == budget.transport
      && rows[2].diff == budget.transport - bench.transport
      && rows[3].category == Other && rows[3].myVal == budget.other + budget.communication
      && rows[3].benchVal == bench.other
      && rows[3].diff == budget.other + budget.communication - bench.other
  {
    var rows := CompareBudget(FoldCommunication(budget), bench);
    assert ComparedCategories[0] == Rent && ComparedCategories[1] == Food;
    assert ComparedCategories[2] == Transport && ComparedCategories[3] == Other;
  }

  /** A row is shown with a '+' sign when its difference is not negative. */
  function ShownPositive(row: ComparisonResult): (shown: bool)
    ensures row.diff == row.myVal - row.benchVal ==> (shown <==> row.myVal >= row.benchVal)
  {
    row.diff >= 0.0
  }

  /**
   * Against a positive reference figure (every figure in the table is one),
   * the sign shown before the amount also fits the percentage beside it.
   */
  lemma ShownPositiveMatchesPct(my: MonthlyBudget, bench: BenchmarkData, row: ComparisonResult)
    requires row in CompareBudget(my, bench) && row.benchVal > 0.0
    ensures ShownPositive(row) <==> row.diffPct >= 0.0
  {
    var rows := CompareBudget(my, bench);
    var i :| 0 <= i < |rows| && rows[i] == row;
    assert row.diffPct * row.benchVal == row.diff * 100.0;
    DiffPctHasSignOfDiff(row);
    assert ShownPositive(row) == (row.diff >= 0.0);
  }
}
