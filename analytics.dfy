/**
 * The analytics page (src/pages/Analytics.tsx): the budget totals, the
 * per-project chart, the per-category expense breakdown and the monthly
 * spending trend.
 */
module Analytics {
  import opened Types
  import opened SeqUtil

  /**
   * A mission as the page loads it: the month key of its creation date
   * (the formatted "MMM yyyy" text, taken as given), its estimated amount
   * and its joined mission_expenses rows.
   */
  datatype AnalyticsMission = AnalyticsMission(month: string, estimatedAmount: int, expenses: seq<ExpenseTotals>)

  function SpentBudget(p: Project): int { p.spentBudget }
  function TotalBudget(p: Project): int { p.totalBudget }

  /** The stats card values. */
  datatype AnalyticsStats = AnalyticsStats(totalSpent: int, totalBudget: int, missionsCount: nat, averagePerMission: real)

  /** totalSpent / missionsCount, or 0 when there are no missions. */
  function AveragePerMission(totalSpent: int, missionsCount: nat): (r: real)
    ensures missionsCount == 0 ==> r == 0.0
    ensures missionsCount > 0 ==> r * missionsCount as real == totalSpent as real
  {
    if missionsCount > 0 then totalSpent as real / missionsCount as real else 0.0
  }

  function ComputeStats(projects: seq<Project>, missions: seq<AnalyticsMission>): AnalyticsStats
  {
    var totalSpent := Sum(projects, SpentBudget);
    AnalyticsStats(totalSpent, Sum(projects, TotalBudget), |missions|, AveragePerMission(totalSpent, |missions|))
  }

  /** Adding a project adds its spent and total budgets to the two totals. */
  lemma StatsAddProject(projects: seq<Project>, p: Project, missions: seq<AnalyticsMission>)
    ensures ComputeStats(projects + [p], missions).totalSpent == ComputeStats(projects, missions).totalSpent + p.spentBudget
    ensures ComputeStats(projects + [p], missions).totalBudget == ComputeStats(projects, missions).totalBudget + p.totalBudget
  {
    SumAppend(projects, p, SpentBudget);
    SumAppend(projects, p, TotalBudget);
  }

  /** When every project stays within budget, so does the total. */
  lemma {:induction false} TotalsWithinBudget(projects: seq<Project>)
    requires forall p :: p in projects ==> p.spentBudget <= p.totalBudget
    ensures Sum(projects, SpentBudget) <= Sum(projects, TotalBudget)
  {
    if projects != [] {
      TotalsWithinBudget(projects[..|projects| - 1]);
    }
  }

  /** One bar group of the budget chart. */
  datatype ChartEntry = ChartEntry(name: string, budget: int, depense: int, restant: int)

  /** projectsChartData: one entry per project, in order. */
  function ProjectsChartData(projects: seq<Project>): (r: seq<ChartEntry>)
    ensures |r| == |projects|
    ensures forall i :: 0 <= i < |r| ==>
              r[i].name == projects[i].code && r[i].budget == projects[i].totalBudget &&
              r[i].depense == projects[i].spentBudget && r[i].budget == r[i].depense + r[i].restant
  {
    if projects == [] then []
    else
      var p := projects[|projects| - 1];
      ProjectsChartData(projects[..|projects| - 1]) + [ChartEntry(p.code, p.totalBudget, p.spentBudget, p.totalBudget - p.spentBudget)]
  }

  function Restant(e: ChartEntry): int { e.restant }

  /** The remaining amounts of the chart add up to the budget total minus the spent total. */
  lemma {:induction false} ChartRemainingTotal(projects: seq<Project>)
    ensures Sum(ProjectsChartData(projects), Restant) == Sum(projects, TotalBudget) - Sum(projects, SpentBudget)
  {
    if projects != [] {
      var init := projects[..|projects| - 1];
      ChartRemainingTotal(init);
      var e := ProjectsChartData(projects)[|projects| - 1];
      assert ProjectsChartData(projects) == ProjectsChartData(init) + [e];
      SumAppend(ProjectsChartData(init), e, Restant);
    }
  }

  /** The five expense categories, in the order the breakdown chart lists them. */
  datatype Category = PerDiem | Accommodation | Transport | Fuel | Other

  const Categories: seq<Category> := [PerDiem, Accommodation, Transport, Fuel, Other]

  function CategoryName(c: Category): string
  {
    match c
    case PerDiem => "Per Diem"
    case Accommodation => "Hébergement"
    case Transport => "Transport"
    case Fuel => "Carburant"
    case Other => "Autres"
  }

  function CategoryTotal(e: ExpenseTotals, c: Category): Option<int>
  {
    match c
    case PerDiem => e.perDiemTotal
    case Accommodation => e.accommodationTotal
    case Transport => e.transportTotal
    case Fuel => e.fuelTotal
    case Other => e.otherExpenses
  }

  /** The accumulator of expensesBreakdown. */
  datatype Breakdown = Breakdown(perDiem: int, accommodation: int, transport: int, fuel: int, other: int)

  function BreakdownValue(b: Breakdown, c: Category): int
  {
    match c
    case PerDiem => b.perDiem
    case Accommodation => b.accommodation
    case Transport => b.transport
    case Fuel => b.fuel
    case Other => b.other
  }

  /** One reduce step: a mission with expense rows adds its first row, nulls as 0; any other mission adds nothing. */
  function AddMission(acc: Breakdown, m: AnalyticsMission): Breakdown
  {
    if |m.expenses| > 0 then
      var exp := m.expenses[0];
      Breakdown(acc.perDiem + OrZero(exp.perDiemTotal),
                acc.accommodation + OrZero(exp.accommodationTotal),
                acc.transport + OrZero(exp.transportTotal),
                acc.fuel + OrZero(exp.fuelTotal),
                acc.other + OrZero(exp.otherExpenses))
    else acc
  }

  /** expensesBreakdown: the reduce from all-zero totals. */
  function ExpensesBreakdown(missions: seq<AnalyticsMission>): Breakdown
  {
    if missions == [] then Breakdown(0, 0, 0, 0, 0)
    else AddMission(ExpensesBreakdown(missions[..|missions| - 1]), missions[|missions| - 1])
  }

  /** What one mission adds to a category: its first expense row's total, 0 when null or when it has no rows. */
  function Contribution(c: Category): AnalyticsMission -> int
  {
    (m: AnalyticsMission) => if |m.expenses| > 0 then OrZero(CategoryTotal(m.expenses[0], c)) else 0
  }

  /** Each category of the breakdown is the sum over the missions of their contributions. */
  lemma {:induction false} BreakdownIsSum(missions: seq<AnalyticsMission>, c: Category)
    ensures BreakdownValue(ExpensesBreakdown(missions), c) == Sum(missions, Contribution(c))
  {
    if missions != [] {
      BreakdownIsSum(missions[..|missions| - 1], c);
    }
  }

  lemma {:induction false} SumPointwise<T(!new)>(s: seq<T>, t: seq<T>, f: T -> int)
    requires |s| == |t|
    requires forall i :: 0 <= i < |s| ==> f(s[i]) == f(t[i])
    ensures Sum(s, f) == Sum(t, f)
  {
    if s != [] {
      SumPointwise(s[..|s| - 1], t[..|t| - 1], f);
    }
  }

  /** Expense rows after a mission's first one never change the breakdown. */
  lemma OnlyFirstRowCounts(missions: seq<AnalyticsMission>, i: nat, extra: seq<ExpenseTotals>)
    requires i < |missions| && |missions[i].expenses| > 0
    ensures ExpensesBreakdown(missions[i := missions[i].(expenses := missions[i].expenses + extra)]) ==
            ExpensesBreakdown(missions)
  {
    var t := missions[i := missions[i].(expenses := missions[i].expenses + extra)];
    forall c ensures BreakdownValue(ExpensesBreakdown(t), c) == BreakdownValue(ExpensesBreakdown(missions), c) {
      BreakdownIsSum(t, c);
      BreakdownIsSum(missions, c);
      SumPointwise(t, missions, Contribution(c));
    }
    assert BreakdownValue(ExpensesBreakdown(t), PerDiem) == BreakdownValue(ExpensesBreakdown(missions), PerDiem);
    assert BreakdownValue(ExpensesBreakdown(t), Accommodation) == BreakdownValue(ExpensesBreakdown(missions), Accommodation);
    assert BreakdownValue(ExpensesBreakdown(t), Transport) == BreakdownValue(ExpensesBreakdown(missions), Transport);
    assert BreakdownValue(ExpensesBreakdown(t), Fuel) == BreakdownValue(ExpensesBreakdown(missions), Fuel);
  }

  /** A mission without expense rows contributes nothing. */
  lemma NoRowsContributeNothing(missions: seq<AnalyticsMission>, m: AnalyticsMission)
    requires m.expenses == []
    ensures ExpensesBreakdown(missions + [m]) == ExpensesBreakdown(missions)
  {
    assert (missions + [m])[..|missions|] == missions;
  }

  /** One slice of the breakdown pie chart. */
  datatype Slice = Slice(name: string, value: int)

  function CategorySlice(b: Breakdown, c: Category): Slice
  {
    Slice(CategoryName(c), BreakdownValue(b, c))
  }

  /** The five slices in the chart's fixed order, before filtering. */
  function AllSlices(b: Breakdown): (r: seq<Slice>)
    ensures |r| == |Categories|
    ensures forall i :: 0 <= i < |r| ==> r[i] == CategorySlice(b, Categories[i])
  {
    [CategorySlice(b, PerDiem), CategorySlice(b, Accommodation), CategorySlice(b, Transport),
     CategorySlice(b, Fuel), CategorySlice(b, Other)]
  }

  function PositiveSlice(s: Slice): bool { s.value > 0 }

  /** expensesBreakdownData: the slices with a positive value, in the fixed category order. */
  function ExpensesBreakdownData(b: Breakdown): (r: seq<Slice>)
    ensures forall s :: s in r <==> s in AllSlices(b) && s.value > 0
    ensures Subseq(r, AllSlices(b))
  {
    Filter(AllSlices(b), PositiveSlice)
  }

  /** A category shows in the pie chart exactly when its total over the missions is positive. */
  lemma SliceShownIffPositive(missions: seq<AnalyticsMission>, c: Category)
    ensures Slice(CategoryName(c), Sum(missions, Contribution(c))) in ExpensesBreakdownData(ExpensesBreakdown(missions))
            <==> Sum(missions, Contribution(c)) > 0
  {
    var b := ExpensesBreakdown(missions);
    BreakdownIsSum(missions, c);
    match c
    case PerDiem => assert AllSlices(b)[0] == CategorySlice(b, c);
    case Accommodation => assert AllSlices(b)[1] == CategorySlice(b, c);
    case Transport => assert AllSlices(b)[2] == CategorySlice(b, c);
    case Fuel => assert AllSlices(b)[3] == CategorySlice(b, c);
    case Other => assert AllSlices(b)[4] == CategorySlice(b, c);
  }

  /** One point of the monthly trend. */
  datatype MonthEntry = MonthEntry(month: string, depenses: int)

  function MonthOf(m: AnalyticsMission): string { m.month }
  function AmountOf(m: AnalyticsMission): int { m.estimatedAmount }
  function Depenses(e: MonthEntry): int { e.depenses }

  /** acc.find(item => item.month === month), as an index: the first entry of that month. */
  function FindMonth(acc: seq<MonthEntry>, month: string): (r: Option<nat>)
    ensures r.Some? ==> r.value < |acc| && acc[r.value].month == month &&
                        forall j :: 0 <= j < r.value ==> acc[j].month != month
    ensures r.None? ==> forall j :: 0 <= j < |acc| ==> acc[j].month != month
  {
    if acc == [] then None
    else if acc[0].month == month then Some(0)
    else
      match FindMonth(acc[1..], month)
      case None => None
      case Some(i) => Some(i + 1)
  }

  /** The trend lists, for each month key in order of first appearance, the total for that month. */
  ghost predicate MonthlyTotals(acc: seq<MonthEntry>, missions: seq<AnalyticsMission>)
  {
    var ks := Keys(missions, MonthOf);
    |acc| == |ks| &&
    forall j :: 0 <= j < |acc| ==> acc[j] == MonthEntry(ks[j], KeySum(missions, MonthOf, ks[j], AmountOf))
  }

  /** Adding a mission of a month already listed adds its amount to that month's entry. */
  lemma MonthlyAddToExisting(acc: seq<MonthEntry>, prefix: seq<AnalyticsMission>, m: AnalyticsMission, j: nat)
    requires MonthlyTotals(acc, prefix)
    requires j < |acc| && acc[j].month == m.month
    ensures MonthlyTotals(acc[j := acc[j].(depenses := acc[j].depenses + m.estimatedAmount)], prefix + [m])
  {
    KeysAppend(prefix, m, MonthOf);
    assert Keys(prefix, MonthOf)[j] == m.month;
    forall k | k in Keys(prefix, MonthOf) {
      KeySumAppend(prefix, m, MonthOf, k, AmountOf);
    }
  }

  /** Adding a mission of a new month appends an entry holding its amount. */
  lemma MonthlyAppendNew(acc: seq<MonthEntry>, prefix: seq<AnalyticsMission>, m: AnalyticsMission)
    requires MonthlyTotals(acc, prefix)
    requires forall j :: 0 <= j < |acc| ==> acc[j].month != m.month
    ensures MonthlyTotals(acc + [MonthEntry(m.month, m.estimatedAmount)], prefix + [m])
  {
    var ks := Keys(prefix, MonthOf);
    KeysAppend(prefix, m, MonthOf);
    assert m.month !in ks by {
      forall j | 0 <= j < |ks| ensures ks[j] != m.month {
        assert acc[j].month == ks[j];
      }
    }
    KeySumAbsent(prefix, MonthOf, m.month, AmountOf);
    forall k | k in Keys(prefix + [m], MonthOf) {
      KeySumAppend(prefix, m, MonthOf, k, AmountOf);
    }
  }

  /** The listed months are exactly the months of the missions, each once. */
  lemma MonthlyTotalsCover(acc: seq<MonthEntry>, missions: seq<AnalyticsMission>)
    requires MonthlyTotals(acc, missions)
    ensures forall j :: 0 <= j < |acc| ==> exists m :: m in missions && m.month == acc[j].month
    ensures forall m :: m in missions ==> exists j :: 0 <= j < |acc| && acc[j].month == m.month
    ensures forall j, k :: 0 <= j < k < |acc| ==> acc[j].month != acc[k].month
  {
    var ks := Keys(missions, MonthOf);
    forall j | 0 <= j < |acc| ensures exists m :: m in missions && m.month == acc[j].month {
      assert ks[j] in ks;
    }
    forall m | m in missions ensures exists j :: 0 <= j < |acc| && acc[j].month == m.month {
      assert MonthOf(m) in ks;
      var j :| 0 <= j < |ks| && ks[j] == MonthOf(m);
      assert acc[j].month == m.month;
    }
  }

  /**
   * monthlyData: walk the missions, adding each amount to the entry of its
   * month when there is one, and appending a new entry otherwise.
   */
  method MonthlyData(missions: seq<AnalyticsMission>) returns (acc: seq<MonthEntry>)
    ensures MonthlyTotals(acc, missions)
    ensures Sum(acc, Depenses) == Sum(missions, AmountOf)
  {
    acc := [];
    var i := 0;
    while i < |missions|
      invariant 0 <= i <= |missions|
      invariant MonthlyTotals(acc, missions[..i])
    {
      var m := missions[i];
      assert missions[..i + 1] == missions[..i] + [m];
      var existing := FindMonth(acc, m.month);
      if existing.Some? {
        var j := existing.value;
        MonthlyAddToExisting(acc, missions[..i], m, j);
        acc := acc[j := acc[j].(depenses := acc[j].depenses + m.estimatedAmount)];
      } else {
        MonthlyAppendNew(acc, missions[..i], m);
        acc := acc + [MonthEntry(m.month, m.estimatedAmount)];
      }
      i := i + 1;
    }
    assert missions[..i] == missions;
    MonthlyTotalsSum(acc, missions);
  }

  lemma {:induction false} EntriesSum(acc: seq<MonthEntry>, ks: seq<string>, missions: seq<AnalyticsMission>)
    requires |acc| == |ks|
    requires forall j :: 0 <= j < |acc| ==> acc[j].depenses == KeySum(missions, MonthOf, ks[j], AmountOf)
    ensures Sum(acc, Depenses) == SumOverKeys(ks, missions, MonthOf, AmountOf)
  {
    if acc != [] {
      EntriesSum(acc[..|acc| - 1], ks[..|ks| - 1], missions);
    }
  }

  /** The monthly entries cover every mission exactly once: they add up to the grand total. */
  lemma MonthlyTotalsSum(acc: seq<MonthEntry>, missions: seq<AnalyticsMission>)
    requires MonthlyTotals(acc, missions)
    ensures Sum(acc, Depenses) == Sum(missions, AmountOf)
  {
    EntriesSum(acc, Keys(missions, MonthOf), missions);
    KeySumsPartition(missions, MonthOf, AmountOf);
  }
}
