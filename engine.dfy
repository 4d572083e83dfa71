/** The per-department desk engine: for every row of the department table it
    derives the real-valued desk need, records the truncated need (Bedarf) and
    the truncated headcount minus need (Einsparung), and accumulates the
    truncated needs into the total number of required desks. */
module Engine {
  import opened Numeric

  /** A row of the department table: Abteilung, MA and Remote_Faktor. */
  datatype Department = Department(name: string, headcount: int, remote: real)

  /** The two sidebar sliders: desk-sharing quota and AI efficiency impact in percent. */
  datatype Parameters = Parameters(sharingRatio: real, aiImpact: int)

  /** One entry of the results list: Abteilung, Bedarf and Einsparung. */
  datatype DeptResult = DeptResult(name: string, required: int, saved: int)

  /** The ranges the sidebar sliders allow. */
  predicate ValidParameters(p: Parameters)
  {
    0.5 <= p.sharingRatio <= 1.2 && 0 <= p.aiImpact <= 30
  }

  /** The extra sharing discount: only a remote factor strictly above one half earns it. */
  function RemoteMultiplier(remote: real): real
  {
    if remote > 0.5 then 0.9 else 1.0
  }

  /** The flat AI discount on the desk need. */
  function AiMultiplier(aiImpact: int): real
  {
    1.0 - aiImpact as real / 100.0
  }

  /** The real-valued desk need of a department, before any truncation. */
  function DeptNeed(d: Department, p: Parameters): real
  {
    d.headcount as real * p.sharingRatio * RemoteMultiplier(d.remote) * AiMultiplier(p.aiImpact)
  }

  /** The results entry for one department: both numbers are truncated from the
      untruncated need. */
  function Evaluate(d: Department, p: Parameters): DeptResult
  {
    var need := DeptNeed(d, p);
    DeptResult(d.name, Trunc(need), Trunc(d.headcount as real - need))
  }

  /** The sum of the Bedarf column. */
  function SumRequired(rs: seq<DeptResult>): int
  {
    if rs == [] then 0 else SumRequired(rs[..|rs| - 1]) + rs[|rs| - 1].required
  }

  /** The sum of the MA column: the total headcount and the baseline desk count. */
  function SumHeadcount(rows: seq<Department>): int
  {
    if rows == [] then 0 else SumHeadcount(rows[..|rows| - 1]) + rows[|rows| - 1].headcount
  }

  /** No department of the table has a negative headcount. */
  predicate NonNegativeHeadcounts(rows: seq<Department>)
  {
    forall k :: 0 <= k < |rows| ==> rows[k].headcount >= 0
  }

  /** results[k] is the entry for rows[k], for every row of a table. */
  ghost predicate EvaluatedRows(rows: seq<Department>, p: Parameters, results: seq<DeptResult>)
  {
    |results| == |rows| && forall k :: 0 <= k < |rows| ==> results[k] == Evaluate(rows[k], p)
  }

  /** The calculation loop: one results entry per row, in row order, and the
      running total of the truncated needs. */
  method Calculate(rows: seq<Department>, p: Parameters) returns (results: seq<DeptResult>, total: int)
    ensures EvaluatedRows(rows, p, results)
    ensures total == SumRequired(results)
  {
    results := [];
    total := 0;
    for k := 0 to |rows|
      invariant |results| == k
      invariant forall j :: 0 <= j < k ==> results[j] == Evaluate(rows[j], p)
      invariant total == SumRequired(results)
    {
      var row := rows[k];
      var need := row.headcount as real * p.sharingRatio;
      if row.remote > 0.5 {
        need := need * 0.9;
      }
      need := need * (1.0 - p.aiImpact as real / 100.0);
      assert need == DeptNeed(row, p);
      var entry := DeptResult(row.name, Trunc(need), Trunc(row.headcount as real - need));
      assert (results + [entry])[..k] == results;
      results := results + [entry];
      total := total + Trunc(need);
    }
  }

  /** With slider values in range the need lies between zero and headcount times sharing ratio. */
  lemma NeedBounds(d: Department, p: Parameters)
    requires d.headcount >= 0 && ValidParameters(p)
    ensures 0.0 <= DeptNeed(d, p) <= d.headcount as real * p.sharingRatio
  {
    var base := d.headcount as real * p.sharingRatio;
    NonNegativeProduct(d.headcount as real, p.sharingRatio);
    NonNegativeProduct(base, p.aiImpact as real);
    NonNegativeProduct(base, 30.0 - p.aiImpact as real);
  }

  /** The product of two non-negative reals is non-negative. */
  lemma NonNegativeProduct(x: real, y: real)
    requires 0.0 <= x && 0.0 <= y
    ensures 0.0 <= x * y
  {
  }

  /** Bedarf is never negative and never exceeds headcount times sharing ratio. */
  lemma RequiredBounds(d: Department, p: Parameters)
    requires d.headcount >= 0 && ValidParameters(p)
    ensures 0 <= Evaluate(d, p).required
    ensures Evaluate(d, p).required as real <= d.headcount as real * p.sharingRatio
  {
    NeedBounds(d, p);
  }

  /** Without sharing, AI discount or remote bonus every employee keeps a desk. */
  lemma IdentityCase(d: Department, p: Parameters)
    requires p.sharingRatio == 1.0 && p.aiImpact == 0 && d.remote <= 0.5
    ensures Evaluate(d, p) == DeptResult(d.name, d.headcount, 0)
  {
    assert DeptNeed(d, p) == d.headcount as real;
    TruncOfInteger(d.headcount);
    TruncOfInteger(0);
  }

  /** Einsparung is truncated from the untruncated need, so it is one below
      headcount minus Bedarf exactly when the need has a fractional part and
      stays below the headcount. */
  lemma SavedAgainstRequired(d: Department, p: Parameters)
    requires d.headcount >= 0 && ValidParameters(p)
    ensures var r := Evaluate(d, p);
            var need := DeptNeed(d, p);
            r.saved == if need == r.required as real || need > d.headcount as real
                       then d.headcount - r.required
                       else d.headcount - r.required - 1
  {
    NeedBounds(d, p);
  }

  /** Einsparung is negative exactly when the need exceeds the headcount by at
      least one desk, and it is then headcount minus Bedarf, truncated toward zero. */
  lemma SavedNegativeAboveHeadcount(d: Department, p: Parameters)
    requires d.headcount >= 0 && ValidParameters(p)
    ensures Evaluate(d, p).saved < 0 <==> DeptNeed(d, p) >= d.headcount as real + 1.0
    ensures DeptNeed(d, p) >= d.headcount as real + 1.0 ==>
              Evaluate(d, p).saved == d.headcount - Evaluate(d, p).required
  {
    SavedAgainstRequired(d, p);
  }

  /** The total of the Bedarf column is non-negative and at most the total
      headcount times the sharing ratio. */
  lemma {:induction false} TotalBounds(rows: seq<Department>, p: Parameters, results: seq<DeptResult>)
    requires NonNegativeHeadcounts(rows)
    requires ValidParameters(p)
    requires EvaluatedRows(rows, p, results)
    ensures 0 <= SumRequired(results)
    ensures SumRequired(results) as real <= SumHeadcount(rows) as real * p.sharingRatio
  {
    EntriesBounded(rows, p, results);
    SumBounds(rows, results, p.sharingRatio);
  }

  /** Every Bedarf entry lies in [0, headcount * ratio] of its own row. */
  ghost predicate BoundedEntries(rows: seq<Department>, results: seq<DeptResult>, ratio: real)
  {
    |results| == |rows| &&
    forall k :: 0 <= k < |rows| ==>
      0 <= results[k].required && results[k].required as real <= rows[k].headcount as real * ratio
  }

  /** Every entry of an evaluated table with valid rows and sliders meets its row's bound. */
  lemma EntriesBounded(rows: seq<Department>, p: Parameters, results: seq<DeptResult>)
    requires NonNegativeHeadcounts(rows)
    requires ValidParameters(p)
    requires EvaluatedRows(rows, p, results)
    ensures BoundedEntries(rows, results, p.sharingRatio)
  {
    forall k | 0 <= k < |rows|
      ensures 0 <= results[k].required
      ensures results[k].required as real <= rows[k].headcount as real * p.sharingRatio
    {
      var d := rows[k];
      RequiredBounds(d, p);
    }
  }

  /** Entry-wise bounds on the Bedarf column carry over to its sum. */
  lemma {:induction false} SumBounds(rows: seq<Department>, results: seq<DeptResult>, ratio: real)
    requires BoundedEntries(rows, results, ratio)
    ensures 0 <= SumRequired(results)
    ensures SumRequired(results) as real <= SumHeadcount(rows) as real * ratio
  {
    if rows != [] {
      var n := |rows| - 1;
      assert BoundedEntries(rows[..n], results[..n], ratio);
      SumBounds(rows[..n], results[..n], ratio);
      var h := SumHeadcount(rows[..n]) as real;
      var m := rows[n].headcount as real;
      assert SumHeadcount(rows) as real == h + m;
      assert (h + m) * ratio == h * ratio + m * ratio;
    }
  }

  /** With a sharing ratio of at most one the required desks never exceed the
      baseline desks. */
  lemma {:induction false} TotalWithinBaseline(rows: seq<Department>, p: Parameters, results: seq<DeptResult>)
    requires NonNegativeHeadcounts(rows)
    requires ValidParameters(p) && p.sharingRatio <= 1.0
    requires EvaluatedRows(rows, p, results)
    ensures 0 <= SumRequired(results) <= SumHeadcount(rows)
  {
    TotalBounds(rows, p, results);
    HeadcountNonNegative(rows);
    WithinUnscaled(SumRequired(results), SumHeadcount(rows), p.sharingRatio);
  }

  /** With a sharing ratio of at most one no department reports a negative
      Einsparung. */
  lemma SavedNonNegative(d: Department, p: Parameters)
    requires d.headcount >= 0 && ValidParameters(p) && p.sharingRatio <= 1.0
    ensures Evaluate(d, p).saved >= 0
  {
    NeedBounds(d, p);
    NonNegativeProduct(d.headcount as real, 1.0 - p.sharingRatio);
  }

  /** A whole number below heads * ratio, with ratio at most one, is at most heads. */
  lemma WithinUnscaled(total: int, heads: int, ratio: real)
    requires 0 <= heads && ratio <= 1.0
    requires total as real <= heads as real * ratio
    ensures total <= heads
  {
    NonNegativeProduct(heads as real, 1.0 - ratio);
  }

  /** A table without negative headcounts has a non-negative headcount sum. */
  lemma {:induction false} HeadcountNonNegative(rows: seq<Department>)
    requires NonNegativeHeadcounts(rows)
    ensures SumHeadcount(rows) >= 0
  {
    if rows != [] {
      HeadcountNonNegative(rows[..|rows| - 1]);
    }
  }

  /** The table the dashboard starts with, at its default slider values: Sales
      and IT earn the remote bonus, HR at exactly 0.5 does not. */
  lemma DefaultTable()
    ensures RemoteMultiplier(0.5) == 1.0 && RemoteMultiplier(0.5000001) == 0.9
    ensures Evaluate(Department("Sales", 40, 0.8), Parameters(0.8, 10)) == DeptResult("Sales", 25, 14)
    ensures Evaluate(Department("IT / Dev", 60, 0.9), Parameters(0.8, 10)) == DeptResult("IT / Dev", 38, 21)
    ensures Evaluate(Department("HR / Admin", 20, 0.5), Parameters(0.8, 10)) == DeptResult("HR / Admin", 14, 5)
  {
    assert DeptNeed(Department("Sales", 40, 0.8), Parameters(0.8, 10)) == 25.92;
    assert DeptNeed(Department("IT / Dev", 60, 0.9), Parameters(0.8, 10)) == 38.88;
    assert DeptNeed(Department("HR / Admin", 20, 0.5), Parameters(0.8, 10)) == 14.4;
  }

  /** A sharing ratio above one makes Einsparung negative: a need of 11.5 for ten
      people truncates to -1, not to -2. */
  lemma NegativeSavingExample()
    ensures Evaluate(Department("Ops", 10, 0.0), Parameters(1.15, 0)) == DeptResult("Ops", 11, -1)
  {
    assert DeptNeed(Department("Ops", 10, 0.0), Parameters(1.15, 0)) == 11.5;
  }

  /** The total is the sum of the truncations, not the truncation of the sum:
      two Sales rows need 51.84 desks together but are granted 50. */
  lemma SumOfTruncations()
    ensures var d := Department("Sales", 40, 0.8);
            var p := Parameters(0.8, 10);
            SumRequired([Evaluate(d, p), Evaluate(d, p)]) == 50 &&
            Trunc(DeptNeed(d, p) + DeptNeed(d, p)) == 51
  {
    var d := Department("Sales", 40, 0.8);
    var p := Parameters(0.8, 10);
    assert DeptNeed(d, p) == 25.92;
    assert Evaluate(d, p).required == 25;
    var rs := [Evaluate(d, p), Evaluate(d, p)];
    assert rs[..1] == [Evaluate(d, p)];
    assert rs[..1][..0] == [];
    assert SumRequired(rs[..1]) == 25;
  }
}
