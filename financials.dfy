/** The financial projection and the headline figures of the dashboard: rent
    cost of a desk count, the savings against the baseline, the CO2 estimate,
    floor area and the number of desks to convert into collaboration zones. */
module Financials {
  import opened Numeric

  const SqmPerDesk: int := 12
  /** Monthly rent in euro per square metre. */
  const Rent: real := 28.5
  const MonthsPerYear: int := 12

  /** Yearly rent for a number of desks; every desk costs 4104 euro a year. */
  function AnnualCost(desks: int): (cost: real)
    ensures cost == 4104.0 * desks as real
  {
    desks as real * SqmPerDesk as real * Rent * MonthsPerYear as real
  }

  /** Yearly saving of the new desk count against the baseline. */
  function AnnualSavings(baseline: int, required: int): (s: real)
    ensures s == 4104.0 * (baseline - required) as real
    ensures s > 0.0 <==> required < baseline
  {
    AnnualCost(baseline) - AnnualCost(required)
  }

  /** CO2 reduction in tons: 0.4 tons per thousand euro saved, truncated toward
      zero; a cost increase gives a negative figure that is not clamped. */
  function Co2Reduction(savings: real): (tons: int)
    ensures 0.0 <= savings ==> 0 <= tons && tons as real <= savings / 2500.0
    ensures savings <= 0.0 ==> tons <= 0 && savings / 2500.0 <= tons as real
    ensures savings <= -2500.0 ==> tons < 0
  {
    Trunc(savings / 1000.0 * 0.4)
  }

  /** More savings never mean a smaller CO2 figure. */
  lemma Co2Monotone(a: real, b: real)
    requires a <= b
    ensures Co2Reduction(a) <= Co2Reduction(b)
  {
    TruncMonotone(a / 1000.0 * 0.4, b / 1000.0 * 0.4);
  }

  /** The CO2 figure of a desk change has the opposite sign of the desk delta:
      one desk less already saves a ton, one desk more costs at least a ton. */
  lemma Co2SignOfDeskChange(baseline: int, required: int)
    ensures var tons := Co2Reduction(AnnualSavings(baseline, required));
            (tons > 0 <==> required < baseline) &&
            (tons == 0 <==> required == baseline) &&
            (tons < 0 <==> required > baseline)
  {
    var d := (baseline - required) as real;
    assert AnnualSavings(baseline, required) / 1000.0 * 0.4 == 1.6416 * d;
    if required < baseline {
      assert d >= 1.0;
    } else if required > baseline {
      assert d <= -1.0;
    }
  }

  /** Desks converted into collaboration zones: a tenth of the required desks,
      truncated toward zero. */
  function CollaborationZones(required: int): (zones: int)
    ensures 0 <= required ==> zones == required / 10
    ensures required < 0 ==> zones == -((-required) / 10)
  {
    var zones := Trunc(required as real * 0.1);
    if 0 <= required then
      TenthFloor(required, zones);
      zones
    else
      TenthFloor(-required, -zones);
      zones
  }

  /** A value within one above t of a tenth of n makes t the integer tenth of n. */
  lemma TenthFloor(n: nat, t: int)
    requires t as real <= n as real * 0.1 < t as real + 1.0
    ensures t == n / 10
  {
    assert 10 * t <= n < 10 * t + 10 by {
      assert (10 * t) as real == 10.0 * t as real;
    }
  }

  /** The four headline metrics and the collaboration-zone count. */
  datatype Kpis = Kpis(
    desks: int,             // required desks
    deskDelta: int,         // change against the baseline
    area: int,              // new floor area in square metres
    areaDelta: int,         // change of floor area
    newCost: real,          // yearly rent of the new layout
    savings: real,          // yearly saving against the baseline
    co2Tons: int,           // CO2 reduction in tons
    collaborationZones: int // desks to turn into collaboration zones
  )

  /** The headline figures of a required desk count against the baseline. */
  function ComputeKpis(required: int, baseline: int): Kpis
  {
    var savings := AnnualSavings(baseline, required);
    Kpis(required, required - baseline, required * SqmPerDesk,
         (required - baseline) * SqmPerDesk, AnnualCost(required), savings,
         Co2Reduction(savings), CollaborationZones(required))
  }

  /** How the headline figures relate to each other and to the two desk counts. */
  lemma KpisConsistent(required: int, baseline: int)
    ensures var k := ComputeKpis(required, baseline);
            k.area == 12 * k.desks &&
            k.areaDelta == k.area - 12 * baseline &&
            k.newCost == 4104.0 * k.desks as real &&
            k.savings == AnnualCost(baseline) - k.newCost &&
            k.savings == -4104.0 * k.deskDelta as real &&
            (k.co2Tons > 0 <==> k.deskDelta < 0) &&
            (k.co2Tons < 0 <==> k.deskDelta > 0) &&
            (0 <= k.desks ==> k.collaborationZones == k.desks / 10) &&
            (k.desks < 0 ==> k.collaborationZones == -((-k.desks) / 10))
  {
    Co2SignOfDeskChange(baseline, required);
  }

  /** The default table at default sliders: 77 of 120 desks are needed. */
  lemma DefaultFigures()
    ensures var k := ComputeKpis(77, 120);
            k.deskDelta == -43 && k.area == 924 && k.newCost == 316008.0 &&
            k.savings == 176472.0 && k.co2Tons == 70 && k.collaborationZones == 7
  {
    var k := ComputeKpis(77, 120);
    assert k.savings / 1000.0 * 0.4 == 70.5888;
  }
}
