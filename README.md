# simplayce office-space simulator: the space-requirement calculation

This project models the calculation inside the simplayce dashboard (`main.py`).
The inputs are a table of departments and two sliders:

- each department row has a name (`Abteilung`), a headcount (`MA`) and a remote factor (`Remote_Faktor`);
- the sliders are the desk-sharing quota and the AI efficiency impact in percent.

From these the script computes:

- per department, the desks needed (`Bedarf`) and the desks saved (`Einsparung`);
- the total of required desks and the baseline, which is the total headcount;
- the yearly rent of both layouts, the saving, and the CO2 estimate;
- the four headline metrics and the number of desks to turn into collaboration zones;
- the occupancy heatmap grid.

The Dafny modules follow the parts of the script:

- `Numeric` (numeric.dfy): Python's `int()` on a number, and the integer ceiling of a square root.
- `Engine` (engine.dfy): the per-department loop. The data types are `Department`, `Parameters` and `DeptResult`. `DeptNeed` and `Evaluate` state the formula for one row, and `SumRequired` and `SumHeadcount` are the column sums. `Calculate` is the loop itself. It reassigns the need step by step, as the script does, and is proved against those functions.
- `Financials` (financials.dfy): rent cost, savings, CO2, floor area, collaboration zones, and the `Kpis` record that `ComputeKpis` fills.
- `Heatmap` (heatmap.dfy): the grid loop `BuildGrid`. It is proved against `Classify`, `Kept`, `CellAt` and the grid predicate `IsGrid`.
- `Simulator` (simulator.dfy): one pass of the script, from the table to the dashboard figures.

Python floats are modelled as exact `real` numbers. Python `int()` truncates toward zero, so it is modelled that way (`Trunc`) and not as floor. This matters because `MA - need` and the savings can be negative. The heatmap cutoff `i < total_employees * 1.1` is a float comparison. It is modelled as the exact comparison `10 * i < 11 * employees`, which can differ from the float one only when 1.1 times the headcount is a whole number: the grids differ for 50, 90, 170, 200 and 230 staff (see `Heatmap.Kept` under "## Left out").

Three properties of the calculation are easy to get wrong:

- One might expect Einsparung never to be negative. With a sharing ratio above 1 it can be: the need exceeds the headcount, and `int(MA - need)` is negative, truncated toward zero (`Engine.NegativeSavingExample`, `Engine.SavedNegativeAboveHeadcount`). With a ratio of at most 1 it is never negative (`Engine.SavedNonNegative`).
- With 60 staff the grid holds no index 65, but not because of the 1.1 cutoff. That cutoff is 66, so 65 would pass it. Index 65 is missing because the square is 8 by 8 and has only 64 cells (`Heatmap.SixtyStaffGrid`). The cutoff does drop cells for other headcounts, for example 5 staff in a 3 by 3 square (`Heatmap.FiveStaffGrid`).
- Einsparung is computed from the untruncated need, not as headcount minus Bedarf. `Engine.SavedAgainstRequired` states exactly when the two differ by one.

## Model

| member | source | states |
|---|---|---|
| Numeric.Trunc | main.py:90-91 | `int()` of a number drops the fraction toward zero: for r >= 0 the result is at most r and within 1 of it; for r < 0 it is at least r and within 1 of it |
| Numeric.TruncOfInteger | main.py:90 | `int()` of a whole number is that number |
| Numeric.TruncMonotone | main.py:113 | truncation preserves the order of its arguments |
| Numeric.CeilSqrtFrom | main.py:128 | searching upward from a side whose square is still too small reaches a side g with g*g >= n and (g-1)*(g-1) < n |
| Numeric.CeilSqrt | main.py:128 | the grid side g = ceil(sqrt(n)) satisfies g*g >= n and (g-1)*(g-1) < n, with g = 0 for n = 0 |
| Numeric.CeilSqrtIsLeast | main.py:128 | no side smaller than CeilSqrt(n) has a square that holds n cells |
| Numeric.CeilSqrtUnique | main.py:128 | the two bounds alone determine the side |
| Engine.ValidParameters | main.py:63-64 | the slider ranges: sharing ratio between 0.5 and 1.2, AI impact between 0 and 30 percent |
| Engine.RemoteMultiplier | main.py:82-83 | the extra factor 0.9 applies only to a remote factor strictly above 0.5, otherwise the factor is 1 |
| Engine.AiMultiplier | main.py:86 | the AI factor is 1 - impact / 100 |
| Engine.DeptNeed | main.py:79-86 | the untruncated need of a row: MA * ratio * remote factor * AI factor |
| Engine.Evaluate | main.py:88-91 | the results entry of a row: its name, int(need) as Bedarf and int(MA - need) as Einsparung, both truncated from the untruncated need |
| Engine.SumRequired | main.py:93 | the total of the Bedarf column, the sum the loop accumulates |
| Engine.SumHeadcount | main.py:59 | the total of the MA column, which is also the baseline desk count |
| Engine.Calculate | main.py:70-93 | the loop yields one results entry per row, in row order. Each entry is (name, trunc(need), trunc(MA - need)), with need = MA * ratio * (0.9 if remote > 0.5 else 1) * (1 - ai/100). The total is the integer sum of the Bedarf entries |
| Engine.NeedBounds | main.py:79-86 | with headcount >= 0 and the sliders in range, the need lies between 0 and MA * sharing ratio |
| Engine.RequiredBounds | main.py:79-90 | with the same ranges, 0 <= Bedarf <= MA * sharing ratio |
| Engine.IdentityCase | main.py:79-91 | with ratio 1.0, AI 0 and remote factor <= 0.5, Bedarf equals MA and Einsparung is 0 |
| Engine.SavedAgainstRequired | main.py:88-91 | Einsparung is MA - Bedarf when the need is whole or above the headcount, and MA - Bedarf - 1 otherwise |
| Engine.SavedNegativeAboveHeadcount | main.py:88-91 | Einsparung is negative exactly when the need exceeds MA by at least 1, and it then equals MA - Bedarf, truncated toward zero |
| Engine.TotalBounds | main.py:70-93 | with valid rows and sliders, the required-desk total is non-negative and at most total headcount * sharing ratio |
| Engine.EntriesBounded | main.py:88-90 | every Bedarf entry of a valid table lies within its own row's bound |
| Engine.SumBounds | main.py:93 | bounds that hold for each entry carry over to the accumulated total |
| Engine.TotalWithinBaseline | main.py:70-93 | with a sharing ratio <= 1, required desks never exceed the total headcount |
| Engine.SavedNonNegative | main.py:79-91 | with headcount >= 0 and a sharing ratio <= 1, Einsparung is never negative |
| Engine.HeadcountNonNegative | main.py:59 | the headcount sum of a table with non-negative MA is non-negative |
| Engine.DefaultTable | main.py:79-91 | the default rows give Sales (25, 14), IT (38, 21) and HR (14, 5). HR's remote factor of exactly 0.5 gets no bonus, while 0.5000001 would |
| Engine.NegativeSavingExample | main.py:91 | 10 staff at ratio 1.15 need 11.5 desks: Bedarf 11, Einsparung -1 (not -2) |
| Engine.SumOfTruncations | main.py:93 | two rows needing 25.92 desks each give a total of 50, not trunc(51.84) = 51 |
| Financials.AnnualCost | main.py:98-101 | desks * 12 m² * 28.50 * 12 months is exactly 4104 per desk |
| Financials.AnnualSavings | main.py:100-102 | baseline cost minus new cost is 4104 * (baseline - required), and it is positive iff fewer desks are required |
| Financials.Co2Reduction | main.py:113 | CO2 tons = trunc(savings/1000*0.4): non-negative and at most savings/2500 for savings >= 0; non-positive for savings <= 0; negative, not clamped, once savings <= -2500 |
| Financials.Co2Monotone | main.py:113 | larger savings never give a smaller CO2 figure |
| Financials.Co2SignOfDeskChange | main.py:98-113 | the CO2 figure is positive, zero or negative exactly when the required desks are below, equal to or above the baseline |
| Financials.CollaborationZones | main.py:206 | int(required * 0.1) is required / 10 for required >= 0, truncated toward zero otherwise |
| Financials.TenthFloor | main.py:206 | the truncated tenth of a natural number is its integer tenth |
| Financials.ComputeKpis | main.py:98-113 | the headline figures of two desk counts: required desks, desk delta, area and area delta at 12 m² per desk, new cost, savings, CO2 and int(required * 0.1) collaboration zones (main.py:206) |
| Financials.KpisConsistent | main.py:110-113 | area = 12 * desks; area delta = area - 12 * baseline; new cost = 4104 * desks; savings = baseline cost - new cost = -4104 * desk delta; CO2 sign is opposite to the desk delta; collaboration zones are desks / 10 for desks >= 0, truncated toward zero below 0 |
| Financials.DefaultFigures | main.py:98-113 | 77 of 120 desks give delta -43, 924 m², 316008 euro rent, 176472 euro saved, 70 t CO2 and 7 zones |
| Heatmap.Status.Val | main.py:135-143 | the colour value of a cell: Active is 2, Saved is 1, Reserve is 0 |
| Heatmap.Classify | main.py:135-143 | Active iff i < required; Saved iff required <= i < baseline; Reserve iff i is at or above both |
| Heatmap.Kept | main.py:145 | an index is kept when it lies in the g*g square and below 1.1 times the headcount, compared exactly |
| Heatmap.CellAt | main.py:132-143 | the cell of index i has x = i % g, y = i // g and the classified status |
| Heatmap.IsGrid | main.py:128-146 | the side meets the ceil-sqrt bounds, the cells are exactly the kept indices in increasing order, and each cell is CellAt of its index |
| Heatmap.GridDetermined | main.py:128-146 | two grids of the same headcount and desk counts that both meet IsGrid have the same side and the same cells |
| Heatmap.CellInSquare | main.py:132 | an index inside the g*g square has 0 <= x = i % g < g and 0 <= y = i // g < g |
| Heatmap.StatusOrder | main.py:135-143 | the status value (2, 1, 0) never increases with the index |
| Heatmap.BuildGrid | main.py:128-146 | the side satisfies the ceil-sqrt bounds, and the cells are exactly the indices i < g*g with 10i < 11*total, in increasing order. Each cell has x = i % g, y = i // g and the classified status. Every index below the total is kept, all cells lie inside the square, and status values never increase along the list |
| Heatmap.SixtyStaffGrid | main.py:128-146 | 60 staff give an 8 by 8 grid whose 64 cells are all kept; index 55 is Saved for 50 required desks; index 65 is not in the grid |
| Heatmap.FiftyStaffGrid | main.py:128-145 | 50 staff give an 8 by 8 grid; with the exact cutoff of 55, indices 0 to 54 are kept |
| Heatmap.FiveStaffGrid | main.py:128-146 | 5 staff give a 3 by 3 grid of which only indices 0 to 5 are kept |
| Simulator.Simulate | main.py:59-146 | one pass gives the engine results and total, a baseline equal to the headcount sum, the baseline cost, and the KPIs of the two totals. The grid is classified with the headcount total as the baseline. It is an error iff the headcount total is negative, and always present for a table of non-negative headcounts |
| Simulator.NoCostIncrease | main.py:98-113 | for valid rows with a sharing ratio <= 1: desk and area deltas are <= 0, savings >= 0 and CO2 >= 0 |

## Left out

- Page configuration, CSS, the sidebar widgets and the data editor are left out, because they are presentation only. So are the metric rendering, tabs, legend and expander text (main.py:7-67, 105-118, 169-179, 201-207). Only the numeric expression at main.py:206 is modelled.
- Plotly figure construction and styling (main.py:150-167, 184-198) and the pandas DataFrame wrapping (main.py:41-45, 95, 148) are left out. They are library calls with no logic of the calculation.
- The default table and slider values are inputs. They appear only as concrete examples (`Engine.DefaultTable`, `Financials.DefaultFigures`).
- IEEE-754 rounding is not modelled. The constants 28.50, 0.9, 1.1, 0.4 and 0.1, and the products with them, are exact reals here. Float results can differ from the model where a value lies on a truncation boundary or on the heatmap cutoff.
- Heatmap.Kept: compares 10 * i < 11 * employees exactly, while main.py:145 compares i with the double total_employees * 1.1. When 1.1 times the headcount is a whole number the double can lie just above it (50 * 1.1 is 55.00000000000001). The source then keeps one more cell than the model: 56 cells for 50 staff against 55 in the model (`Heatmap.FiftyStaffGrid`). The same happens for 90, 170, 200 and 230 staff, and for no other headcount. For the other whole values of 1.1 times the headcount, either the double is exact (10, 20, ..., 80 staff) or the extra index lies outside the square. `Heatmap.BuildGrid` and `Simulator.Simulate` inherit this.
- `np.sqrt` and `np.ceil` are replaced by the exact integer ceiling square root. For very large headcounts the float square root could round differently.
- For a negative headcount total, `np.sqrt` yields NaN and `int()` raises. The model reports this as `GridError` and does not model the exception's effect on the rest of the page.
- Malformed editor rows (missing or NaN cells from the dynamic row editor) are not modelled. Each row is a well-formed `Department` value.
- The string formatting of the figures (`:,.0f`, f-strings) is not modelled.
