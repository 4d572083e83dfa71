/** The occupancy heatmap: a square of ceil(sqrt(headcount)) cells a side,
    filled row by row; cell i is active while i is below the required desks,
    saved while it is below the baseline desks and reserve after that, and only
    cells with i < 1.1 * headcount are kept. */
module Heatmap {
  import opened Numeric

  /** The three cell states with their colour value val. */
  datatype Status = Active | Saved | Reserve {
    function Val(): int
    {
      match this
      case Active => 2
      case Saved => 1
      case Reserve => 0
    }
  }

  /** One point of grid_data: its column x, its row y and its state. */
  datatype Cell = Cell(x: int, y: int, status: Status)

  /** The state of cell i. */
  function Classify(i: int, required: int, baseline: int): (s: Status)
    ensures s == Active <==> i < required
    ensures s == Saved <==> required <= i < baseline
    ensures s == Reserve <==> required <= i && baseline <= i
  {
    if i < required then Active else if i < baseline then Saved else Reserve
  }

  /** Cell i lies in the size-by-size square and below the 1.1 * headcount cutoff. */
  predicate Kept(i: int, employees: int, size: int)
  {
    0 <= i < size * size && 10 * i < 11 * employees
  }

  /** The cell at index i of a grid with the given side. */
  function CellAt(i: int, size: int, required: int, baseline: int): Cell
    requires 0 < size
  {
    Cell(i % size, i / size, Classify(i, required, baseline))
  }

  /** An index inside the square maps to a column and a row inside it. */
  lemma CellInSquare(i: int, size: nat)
    requires 0 <= i < size * size
    ensures 0 < size
    ensures 0 <= i % size < size && 0 <= i / size < size
  {
  }

  /** The grid of a headcount: its side is ceil(sqrt(employees)), it holds
      exactly the kept indices in increasing order, and cell j sits at column
      j % size and row j / size with the state of index j. */
  ghost predicate IsGrid(employees: int, required: int, baseline: int, size: nat, cells: seq<Cell>)
  {
    employees <= size * size &&
    (size == 0 || (size - 1) * (size - 1) < employees) &&
    (forall j :: 0 <= j < |cells| ==> Kept(j, employees, size)) &&
    (forall j :: Kept(j, employees, size) ==> j < |cells|) &&
    (forall j :: 0 <= j < |cells| ==> 0 < size && cells[j] == CellAt(j, size, required, baseline))
  }

  /** A grid is determined by its headcount and the two desk counts: any two
      grids that meet IsGrid have the same side and the same cells. */
  lemma GridDetermined(employees: int, required: int, baseline: int,
                       size1: nat, cells1: seq<Cell>, size2: nat, cells2: seq<Cell>)
    requires IsGrid(employees, required, baseline, size1, cells1)
    requires IsGrid(employees, required, baseline, size2, cells2)
    ensures size1 == size2 && cells1 == cells2
  {
    if employees >= 0 {
      CeilSqrtUnique(employees, size1);
      CeilSqrtUnique(employees, size2);
    }
    assert |cells1| == |cells2| by {
      assert !Kept(|cells1|, employees, size1) && !Kept(|cells2|, employees, size2);
    }
  }

  /** States only step down along the grid: active, then saved, then reserve. */
  lemma StatusOrder(i: int, j: int, required: int, baseline: int)
    requires i <= j
    ensures Classify(i, required, baseline).Val() >= Classify(j, required, baseline).Val()
  {
  }

  /** The heatmap loop: visits every index of the square in order and keeps the
      cells below the cutoff. */
  method BuildGrid(employees: nat, required: int, baseline: int) returns (size: nat, cells: seq<Cell>)
    ensures IsGrid(employees, required, baseline, size, cells)
    ensures employees <= |cells|
    ensures forall j :: 0 <= j < |cells| ==> 0 <= cells[j].x < size && 0 <= cells[j].y < size
    ensures forall i, j :: 0 <= i <= j < |cells| ==> cells[i].status.Val() >= cells[j].status.Val()
  {
    size := CeilSqrt(employees);
    cells := [];
    var i := 0;
    while i < size * size
      invariant 0 <= i <= size * size
      invariant |cells| <= i
      invariant forall j :: 0 <= j < |cells| ==> Kept(j, employees, size)
      invariant forall j :: 0 <= j < |cells| ==> 0 < size && cells[j] == CellAt(j, size, required, baseline)
      invariant |cells| < i ==> 11 * employees <= 10 * |cells|
    {
      CellInSquare(i, size);
      var x, y := i % size, i / size;
      var status;
      if i < required {
        status := Active;
      } else if i < baseline {
        status := Saved;
      } else {
        status := Reserve;
      }
      if 10 * i < 11 * employees {
        cells := cells + [Cell(x, y, status)];
      }
      i := i + 1;
    }
    forall j | 0 <= j < employees
      ensures Kept(j, employees, size)
    {
    }
    if employees > 0 {
      assert Kept(employees - 1, employees, size);
    }
    forall j | 0 <= j < |cells|
      ensures 0 <= cells[j].x < size && 0 <= cells[j].y < size
    {
      CellInSquare(j, size);
    }
    forall i, j | 0 <= i <= j < |cells|
      ensures cells[i].status.Val() >= cells[j].status.Val()
    {
      StatusOrder(i, j, required, baseline);
    }
  }

  /** Sixty staff, fifty required desks: an 8 by 8 square whose 64 cells all lie
      below the cutoff of 66; cell 55 is saved and index 65 is outside the square. */
  lemma SixtyStaffGrid()
    ensures CeilSqrt(60) == 8
    ensures forall j :: Kept(j, 60, 8) <==> 0 <= j < 64
    ensures Classify(55, 50, 60) == Saved
    ensures !Kept(65, 60, 8)
  {
    CeilSqrtUnique(60, 8);
  }

  /** Fifty staff: an 8 by 8 square cut off at 55 exact, so indices 0 to 54 are kept. */
  lemma FiftyStaffGrid()
    ensures CeilSqrt(50) == 8
    ensures forall j :: Kept(j, 50, 8) <==> 0 <= j < 55
  {
    CeilSqrtUnique(50, 8);
  }

  /** Five staff: a 3 by 3 square of which only the first six cells lie below 5.5. */
  lemma FiveStaffGrid()
    ensures CeilSqrt(5) == 3
    ensures forall j :: Kept(j, 5, 3) <==> 0 <= j < 6
  {
    CeilSqrtUnique(5, 3);
  }
}
