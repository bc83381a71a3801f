/**
 * The distance-banded delivery tariff of app.py (compute_tariff).
 *
 * The page keeps the breakpoints and prices in module globals that it
 * reassigns from the sidebar inputs; here they are one explicit value,
 * a TariffTable, passed to every call.
 */
module Tariff {

  /** Four inclusive upper breakpoints (km), their flat prices (EUR) and
      the overage rate per km. Nothing forces the breakpoints to ascend. */
  datatype TariffTable = TariffTable(
    zone1Km: real, zone2Km: real, zone3Km: real, zone4Km: real,
    price1: real, price2: real, price3: real, price4: real,
    extraPerKm: real)

  /** The table the page starts from: zones 3/5/10/20 km at 25/35/50/70 EUR, 1 EUR per extra km. */
  const DEFAULT_TABLE := TariffTable(3.0, 5.0, 10.0, 20.0, 25.0, 35.0, 50.0, 70.0, 1.0)

  /** The breakpoint of zone i (1..4; any larger i reads as zone 4). */
  function Breakpoint(t: TariffTable, i: int): real {
    if i <= 1 then t.zone1Km
    else if i == 2 then t.zone2Km
    else if i == 3 then t.zone3Km
    else t.zone4Km
  }

  /** The flat price of zone i (1..4; any larger i reads as zone 4). */
  function ZonePrice(t: TariffTable, i: int): real {
    if i <= 1 then t.price1
    else if i == 2 then t.price2
    else if i == 3 then t.price3
    else t.price4
  }

  /** Breakpoints configured in ascending order, as the sidebar suggests. */
  predicate Ascending(t: TariffTable) {
    t.zone1Km <= t.zone2Km <= t.zone3Km <= t.zone4Km
  }

  /** The price charged beyond zone 4: zone 4's price plus the rate times
      the distance past the ZONE 2 breakpoint. */
  function Overage(t: TariffTable, d: real): real {
    t.price4 + (d - t.zone2Km) * t.extraPerKm
  }

  /** compute_tariff: the bands are tried in ascending order, the first
      whose breakpoint is not exceeded wins, otherwise the overage applies. */
  function ComputeTariff(t: TariffTable, d: real): (price: real)
    ensures d <= t.zone4Km ==> price in {t.price1, t.price2, t.price3, t.price4}
  {
    if d <= t.zone1Km then t.price1
    else if d <= t.zone2Km then t.price2
    else if d <= t.zone3Km then t.price3
    else if d <= t.zone4Km then t.price4
    else Overage(t, d)
  }

  /** Reference definition of the band: a search from zone `from` upwards
      for the first breakpoint not exceeded by d; 5 stands for "beyond zone 4". */
  function FirstZoneFrom(t: TariffTable, d: real, from: nat): (z: nat)
    requires 1 <= from <= 5
    ensures from <= z <= 5
    ensures z <= 4 ==> d <= Breakpoint(t, z)
    ensures forall j :: from <= j < z ==> d > Breakpoint(t, j)
    decreases 5 - from
  {
    if from == 5 then 5
    else if d <= Breakpoint(t, from) then from
    else FirstZoneFrom(t, d, from + 1)
  }

  /** The band of d: the first zone whose breakpoint d does not exceed. */
  function ZoneOf(t: TariffTable, d: real): (z: nat)
    ensures 1 <= z <= 5
    ensures z <= 4 ==> d <= Breakpoint(t, z)
    ensures forall j :: 1 <= j < z ==> d > Breakpoint(t, j)
  {
    FirstZoneFrom(t, d, 1)
  }

  /** The characterisation in ZoneOf's contract determines the zone. */
  lemma ZoneOfUnique(t: TariffTable, d: real, z: nat)
    requires 1 <= z <= 5
    requires z <= 4 ==> d <= Breakpoint(t, z)
    requires forall j :: 1 <= j < z ==> d > Breakpoint(t, j)
    ensures ZoneOf(t, d) == z
  {
  }

  /** First match wins: the price is the flat price of d's band, or the
      overage when d exceeds every breakpoint. */
  lemma TariffIsPriceOfZone(t: TariffTable, d: real)
    ensures var z := ZoneOf(t, d);
      ComputeTariff(t, d) == if z <= 4 then ZonePrice(t, z) else Overage(t, d)
  {
    var z := ZoneOf(t, d);
    if d <= t.zone1Km {
      ZoneOfUnique(t, d, 1);
    } else if d <= t.zone2Km {
      ZoneOfUnique(t, d, 2);
    } else if d <= t.zone3Km {
      ZoneOfUnique(t, d, 3);
    } else if d <= t.zone4Km {
      ZoneOfUnique(t, d, 4);
    } else {
      ZoneOfUnique(t, d, 5);
    }
  }

  /** The overage is charged exactly when d exceeds all four breakpoints. */
  lemma OverageExactlyBeyondAllZones(t: TariffTable, d: real)
    ensures ZoneOf(t, d) == 5 <==>
      (d > t.zone1Km && d > t.zone2Km && d > t.zone3Km && d > t.zone4Km)
    ensures ZoneOf(t, d) == 5 ==> ComputeTariff(t, d) == t.price4 + (d - t.zone2Km) * t.extraPerKm
  {
    TariffIsPriceOfZone(t, d);
    if d > t.zone1Km && d > t.zone2Km && d > t.zone3Km && d > t.zone4Km {
      ZoneOfUnique(t, d, 5);
    }
  }

  /** With ascending breakpoints the bands are the half-open intervals
      (z_(i-1), z_i], the upper bound inclusive, and beyond z4 the overage. */
  lemma AscendingBands(t: TariffTable, d: real)
    requires Ascending(t)
    ensures d <= t.zone1Km ==> ComputeTariff(t, d) == t.price1
    ensures t.zone1Km < d <= t.zone2Km ==> ComputeTariff(t, d) == t.price2
    ensures t.zone2Km < d <= t.zone3Km ==> ComputeTariff(t, d) == t.price3
    ensures t.zone3Km < d <= t.zone4Km ==> ComputeTariff(t, d) == t.price4
    ensures t.zone4Km < d ==> ComputeTariff(t, d) == Overage(t, d)
  {
  }

  /** A zone whose breakpoint is not above an earlier zone's is never
      selected: out-of-order breakpoints silently shadow later bands. */
  lemma ShadowedZoneNeverSelected(t: TariffTable, d: real, i: nat, j: nat)
    requires 1 <= i < j <= 4
    requires Breakpoint(t, j) <= Breakpoint(t, i)
    ensures ZoneOf(t, d) != j
  {
  }

  /** With ascending breakpoints, non-decreasing prices and a non-negative
      rate, a longer distance never costs less. */
  lemma TariffMonotone(t: TariffTable, d1: real, d2: real)
    requires Ascending(t)
    requires t.price1 <= t.price2 <= t.price3 <= t.price4
    requires t.extraPerKm >= 0.0
    requires d1 <= d2
    ensures ComputeTariff(t, d1) <= ComputeTariff(t, d2)
  {
    if d2 > t.zone4Km {
      OverageMonotone(t, t.zone2Km, d2);
      if d1 > t.zone4Km {
        OverageMonotone(t, d1, d2);
      }
    }
  }

  /** At a non-negative rate the overage only grows with the distance,
      and from the zone 2 breakpoint on it is at least zone 4's price. */
  lemma OverageMonotone(t: TariffTable, d1: real, d2: real)
    requires t.extraPerKm >= 0.0 && d1 <= d2
    ensures Overage(t, d1) <= Overage(t, d2)
    ensures Overage(t, t.zone2Km) == t.price4
  {
    var x, y, k := d1 - t.zone2Km, d2 - t.zone2Km, t.extraPerKm;
    assert y * k - x * k == (y - x) * k;
    assert (y - x) * k >= 0.0;
  }

  /** The worked example: with the default table 25 km costs 70 + (25 - 5) * 1 = 90,
      the zone boundaries keep their own band's price, and just past zone 4 the
      price jumps by the (z4 - z2) km already counted as extra. */
  lemma DefaultTableExamples()
    ensures ComputeTariff(DEFAULT_TABLE, 25.0) == 90.0
    ensures ComputeTariff(DEFAULT_TABLE, 3.0) == 25.0
    ensures ComputeTariff(DEFAULT_TABLE, 5.0) == 35.0
    ensures ComputeTariff(DEFAULT_TABLE, 10.0) == 50.0
    ensures ComputeTariff(DEFAULT_TABLE, 20.0) == 70.0
    ensures ComputeTariff(DEFAULT_TABLE, 20.5) == 85.5
  {
  }
}
