/** One recomputation of the dashboard: the engine over the department table,
    the baseline from the headcount column, the financial projection, the
    headline figures and the heatmap grid. */
module Simulator {
  import opened Engine
  import opened Financials
  import opened Heatmap

  /** The heatmap, or the error int() raises on the NaN side length that the
      square root of a negative total headcount produces. */
  datatype GridOutcome = GridError | Grid(size: nat, cells: seq<Cell>)

  datatype Dashboard = Dashboard(
    results: seq<DeptResult>,  // one entry per department, in table order
    totalEmployees: int,       // sum of the headcount column, also the baseline desks
    totalRequired: int,        // sum of the Bedarf column
    baselineCost: real,        // yearly rent of the baseline desks
    kpis: Kpis,
    grid: GridOutcome
  )

  method Simulate(rows: seq<Department>, p: Parameters) returns (d: Dashboard)
    ensures EvaluatedRows(rows, p, d.results)
    ensures d.totalRequired == SumRequired(d.results)
    ensures d.totalEmployees == SumHeadcount(rows)
    ensures d.baselineCost == AnnualCost(d.totalEmployees)
    ensures d.kpis == ComputeKpis(d.totalRequired, d.totalEmployees)
    ensures d.grid.GridError? <==> d.totalEmployees < 0
    ensures d.grid.Grid? ==> IsGrid(d.totalEmployees, d.totalRequired, d.totalEmployees, d.grid.size, d.grid.cells)
    ensures NonNegativeHeadcounts(rows) ==> d.grid.Grid?
  {
    var totalEmployees := SumHeadcount(rows);
    var results, totalRequired := Calculate(rows, p);
    var baselineCost := AnnualCost(totalEmployees);
    var kpis := ComputeKpis(totalRequired, totalEmployees);
    var grid;
    if totalEmployees < 0 {
      grid := GridError;
    } else {
      var size, cells := BuildGrid(totalEmployees, totalRequired, totalEmployees);
      grid := Grid(size, cells);
    }
    d := Dashboard(results, totalEmployees, totalRequired, baselineCost, kpis, grid);
    if NonNegativeHeadcounts(rows) {
      HeadcountNonNegative(rows);
    }
  }

  /** With a sharing ratio of at most one the new layout never costs more than
      the baseline and never reports a CO2 increase. */
  lemma NoCostIncrease(rows: seq<Department>, p: Parameters, results: seq<DeptResult>)
    requires NonNegativeHeadcounts(rows) && ValidParameters(p) && p.sharingRatio <= 1.0
    requires EvaluatedRows(rows, p, results)
    ensures var k := ComputeKpis(SumRequired(results), SumHeadcount(rows));
            k.deskDelta <= 0 && k.areaDelta <= 0 && 0.0 <= k.savings && 0 <= k.co2Tons
  {
    TotalWithinBaseline(rows, p, results);
    KpisConsistent(SumRequired(results), SumHeadcount(rows));
  }
}
