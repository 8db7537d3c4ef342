/** The wards page: the fixed list of wards with their bed counters, the
    page-wide totals, the occupancy percentages and their colour bands, the
    status and condition badges, and the ward lookup used by the recent
    admissions table. */
module Wards {
  import opened Ui

  datatype WardStatus = Operational | Limited | Maintenance

  datatype Ward = Ward(
    id: string,
    name: string,
    totalBeds: nat,
    occupiedBeds: nat,
    reservedBeds: nat,
    underMaintenance: nat,
    nurseInCharge: string,
    status: WardStatus)

  const Initial: seq<Ward> := [
    Ward("W-101", "General Ward", 30, 24, 3, 0, "Nurse Johnson", Operational),
    Ward("W-102", "Pediatric Ward", 20, 12, 2, 1, "Nurse Williams", Operational),
    Ward("W-103", "Maternity Ward", 15, 10, 2, 0, "Nurse Davis", Operational),
    Ward("W-104", "ICU", 10, 9, 1, 0, "Nurse Martinez", Limited),
    Ward("W-105", "Surgical Ward", 25, 18, 3, 2, "Nurse Taylor", Operational),
    Ward("W-106", "Cardiology Ward", 20, 13, 3, 0, "Nurse Anderson", Operational)
  ]

  // ---------------------------------------------------------------------
  // Page-wide totals

  /** `reduce((acc, ward) => acc + f(ward), 0)`: a left fold from 0. */
  function Sum(ws: seq<Ward>, f: Ward -> int): int
  {
    if ws == [] then 0 else Sum(ws[..|ws| - 1], f) + f(ws[|ws| - 1])
  }

  function TotalOf(w: Ward): int { w.totalBeds }
  function OccupiedOf(w: Ward): int { w.occupiedBeds }
  function ReservedOrMaintenanceOf(w: Ward): int { w.reservedBeds + w.underMaintenance }

  /** Beds of one ward that are neither occupied, reserved nor under maintenance. */
  function FreeOf(w: Ward): int
  {
    w.totalBeds - w.occupiedBeds - w.reservedBeds - w.underMaintenance
  }

  function TotalBeds(ws: seq<Ward>): int { Sum(ws, TotalOf) }
  function OccupiedBeds(ws: seq<Ward>): int { Sum(ws, OccupiedOf) }

  /** The "Available Beds" card: the total less the occupied beds less the
      reserved and maintenance beds of all wards. */
  function AvailableBeds(ws: seq<Ward>): int
  {
    TotalBeds(ws) - OccupiedBeds(ws) - Sum(ws, ReservedOrMaintenanceOf)
  }

  /** The fold adds over concatenation, so the totals of a list are the totals
      of its parts added up. */
  lemma {:induction false} SumAppend(a: seq<Ward>, b: seq<Ward>, f: Ward -> int)
    ensures Sum(a + b, f) == Sum(a, f) + Sum(b, f)
    decreases |b|
  {
    if b != [] {
      var b' := b[..|b| - 1];
      assert (a + b)[..|a + b| - 1] == a + b';
      assert (a + b)[|a + b| - 1] == b[|b| - 1];
      SumAppend(a, b', f);
    } else {
      assert a + b == a;
    }
  }

  /** The page-wide availability equals the sum of each ward's free beds. */
  lemma {:induction false} AvailableIsSumOfFree(ws: seq<Ward>)
    ensures AvailableBeds(ws) == Sum(ws, FreeOf)
    decreases |ws|
  {
    if ws != [] {
      AvailableIsSumOfFree(ws[..|ws| - 1]);
    }
  }

  /** The capacity rule every ward is meant to keep. */
  predicate WithinCapacity(w: Ward)
  {
    w.occupiedBeds + w.reservedBeds + w.underMaintenance <= w.totalBeds
  }

  lemma {:induction false} FreeNonNegative(ws: seq<Ward>)
    requires forall i :: 0 <= i < |ws| ==> WithinCapacity(ws[i])
    ensures Sum(ws, FreeOf) >= 0
    decreases |ws|
  {
    if ws != [] {
      FreeNonNegative(ws[..|ws| - 1]);
    }
  }

  lemma {:induction false} CountersNonNegative(ws: seq<Ward>)
    ensures TotalBeds(ws) >= 0 && OccupiedBeds(ws) >= 0 && Sum(ws, ReservedOrMaintenanceOf) >= 0
    decreases |ws|
  {
    if ws != [] {
      CountersNonNegative(ws[..|ws| - 1]);
    }
  }

  /** When every ward keeps its capacity rule, the availability card lies
      between 0 and the total, and so does the occupied count. */
  lemma AvailableWithinTotal(ws: seq<Ward>)
    requires forall i :: 0 <= i < |ws| ==> WithinCapacity(ws[i])
    ensures 0 <= AvailableBeds(ws) <= TotalBeds(ws)
    ensures 0 <= OccupiedBeds(ws) <= TotalBeds(ws)
  {
    AvailableIsSumOfFree(ws);
    FreeNonNegative(ws);
    CountersNonNegative(ws);
  }

  lemma SumOfSix(ws: seq<Ward>, f: Ward -> int)
    requires |ws| == 6
    ensures Sum(ws, f) == f(ws[0]) + f(ws[1]) + f(ws[2]) + f(ws[3]) + f(ws[4]) + f(ws[5])
  {
    assert ws[..5][..4] == ws[..4] && ws[..5][4] == ws[4];
    assert ws[..4][..3] == ws[..3] && ws[..4][3] == ws[3];
    assert ws[..3][..2] == ws[..2] && ws[..3][2] == ws[2];
    assert ws[..2][..1] == ws[..1] && ws[..2][1] == ws[1];
    assert ws[..1][..0] == [] && ws[..1][0] == ws[0];
    assert Sum(ws[..1], f) == f(ws[0]);
    assert Sum(ws[..2], f) == Sum(ws[..1], f) + f(ws[1]);
    assert Sum(ws[..3], f) == Sum(ws[..2], f) + f(ws[2]);
    assert Sum(ws[..4], f) == Sum(ws[..3], f) + f(ws[3]);
    assert Sum(ws[..5], f) == Sum(ws[..4], f) + f(ws[4]);
    assert Sum(ws, f) == Sum(ws[..5], f) + f(ws[5]);
  }

  /** The figures of the fixed ward list. */
  lemma InitialFigures()
    ensures forall i :: 0 <= i < |Initial| ==> WithinCapacity(Initial[i])
    ensures TotalBeds(Initial) == 120
    ensures OccupiedBeds(Initial) == 86
    ensures AvailableBeds(Initial) == 17
    ensures Initial[3].id == "W-104" && FreeOf(Initial[3]) == 0
  {
    SumOfSix(Initial, TotalOf);
    SumOfSix(Initial, OccupiedOf);
    SumOfSix(Initial, ReservedOrMaintenanceOf);
  }

  // ---------------------------------------------------------------------
  // Occupancy percentage and its colour band

  /** What `Math.round(occupied / total * 100)` yields: a whole percentage,
      or NaN (0 / 0) or Infinity (n / 0 with n > 0) when there are no beds. */
  datatype Rate = Percent(value: int) | NotANumber | Infinite

  /** The percentage rounded half up; an exact-arithmetic reading of the
      floating-point expression. */
  function OccupancyRate(occupied: nat, total: nat): (r: Rate)
    ensures total == 0 ==> !r.Percent?
    ensures total > 0 ==>
              r.Percent? && 2 * total * r.value <= 200 * occupied + total < 2 * total * (r.value + 1)
  {
    if total == 0 then
      (if occupied == 0 then NotANumber else Infinite)
    else
      Percent((200 * occupied + total) / (2 * total))
  }

  /** A ward that is not over-full shows a percentage between 0 and 100. */
  lemma RateWithinHundred(occupied: nat, total: nat)
    requires 0 < total && occupied <= total
    ensures 0 <= OccupancyRate(occupied, total).value <= 100
  {
    RoundedWithinHundred(occupied, total, OccupancyRate(occupied, total).value);
  }

  /** Any p that rounds occupied / total * 100 lies in 0..100. */
  lemma RoundedWithinHundred(occupied: nat, total: nat, p: int)
    requires 0 < total && occupied <= total
    requires 2 * total * p <= 200 * occupied + total < 2 * total * (p + 1)
    ensures 0 <= p <= 100
  {
    assert total * (2 * p - 201) <= 0;
    assert total * (2 * p + 1) > 0;
    PositiveFactorSign(total, 2 * p - 201);
    PositiveFactorSign(total, 2 * p + 1);
  }

  /** A product with a positive factor has the sign of the other factor. */
  lemma PositiveFactorSign(c: int, a: int)
    requires c > 0
    ensures c * a > 0 <==> a > 0
  {
    if a > 0 {
      assert c * a >= c;
    } else {
      assert c * a <= 0;
    }
  }

  /** The colour bands of the occupancy indicator (red, yellow or green). */
  datatype Band = Green | Yellow | Red

  /** `> 90` is red, otherwise `> 75` is yellow, otherwise green. JavaScript
      comparisons with NaN are false, and Infinity exceeds every bound. */
  function BandOf(r: Rate): Band
  {
    match r
    case Percent(p) => if p > 90 then Red else if p > 75 then Yellow else Green
    case NotANumber => Green
    case Infinite => Red
  }

  function Severity(b: Band): nat
  {
    match b
    case Green => 0
    case Yellow => 1
    case Red => 2
  }

  /** The bands partition the percentages at 75 and 90, both bounds exclusive. */
  lemma BandThresholds(p: int)
    ensures BandOf(Percent(p)) == Red <==> p > 90
    ensures BandOf(Percent(p)) == Yellow <==> 75 < p <= 90
    ensures BandOf(Percent(p)) == Green <==> p <= 75
  {
  }

  /** A higher percentage never shows a milder band. */
  lemma BandMonotone(p: int, q: int)
    requires p <= q
    ensures Severity(BandOf(Percent(p))) <= Severity(BandOf(Percent(q)))
  {
  }

  /** The page-wide rate: the summed occupied beds over the summed beds. */
  function PageRate(ws: seq<Ward>): Rate
  {
    CountersNonNegative(ws);
    OccupancyRate(OccupiedBeds(ws), TotalBeds(ws))
  }

  /** The rate a ward's card shows. */
  function WardRate(w: Ward): Rate
  {
    OccupancyRate(w.occupiedBeds, w.totalBeds)
  }

  /** The page-wide figure of the fixed wards: 86 of 120 beds, 72%, green. */
  lemma InitialPageBand()
    ensures PageRate(Initial) == Percent(72) && BandOf(PageRate(Initial)) == Green
  {
    SumOfSix(Initial, TotalOf);
    SumOfSix(Initial, OccupiedOf);
    PageRateOf(Initial, 86, 120);
    assert OccupancyRate(86, 120) == Percent(72);
  }

  lemma PageRateOf(ws: seq<Ward>, occupied: nat, total: nat)
    requires OccupiedBeds(ws) == occupied && TotalBeds(ws) == total
    ensures PageRate(ws) == OccupancyRate(occupied, total)
  {
  }

  /** The percentages and bands of the fixed wards: the ICU at 9 of 10 beds
      sits exactly on 90 and is therefore yellow, not red. */
  lemma InitialBands()
    ensures WardRate(Initial[0]) == Percent(80) && BandOf(WardRate(Initial[0])) == Yellow
    ensures WardRate(Initial[1]) == Percent(60) && BandOf(WardRate(Initial[1])) == Green
    ensures WardRate(Initial[2]) == Percent(67) && BandOf(WardRate(Initial[2])) == Green
    ensures WardRate(Initial[3]) == Percent(90) && BandOf(WardRate(Initial[3])) == Yellow
    ensures WardRate(Initial[4]) == Percent(72) && BandOf(WardRate(Initial[4])) == Green
    ensures WardRate(Initial[5]) == Percent(65) && BandOf(WardRate(Initial[5])) == Green
  {
  }

  // ---------------------------------------------------------------------
  // Badges

  function StatusBadge(s: WardStatus): BadgeVariant
  {
    if s == Operational then Default else if s == Limited then Secondary else Outline
  }

  /** Each ward status has its own badge. */
  lemma StatusBadgeInjective(s: WardStatus, t: WardStatus)
    ensures StatusBadge(s) == StatusBadge(t) <==> s == t
    ensures StatusBadge(s) != Destructive
  {
  }

  // ---------------------------------------------------------------------
  // Recent admissions and the ward lookup

  datatype Condition = Stable | Critical | Serious | Fair

  /** A row of the recent admissions table. */
  datatype Admission = Admission(
    id: string,
    name: string,
    wardId: string,
    bedNumber: string,
    admissionDate: string,
    condition: Condition,
    doctor: string)

  const RecentAdmissions: seq<Admission> := [
    Admission("PT-1042", "John Smith", "W-101", "101-05", "2025-04-07", Stable, "Dr. Sarah Johnson"),
    Admission("PT-1046", "Mary Williams", "W-103", "103-02", "2025-04-08", Fair, "Dr. James Martinez"),
    Admission("PT-1051", "Robert Davis", "W-104", "104-06", "2025-04-09", Critical, "Dr. Michael Lee"),
    Admission("PT-1053", "Patricia Miller", "W-106", "106-11", "2025-04-09", Stable, "Dr. Jennifer Garcia")
  ]

  /** `wards.find(w => w.id === id)`: the first ward with that id, if any. */
  function Find(ws: seq<Ward>, id: string): (r: Option<Ward>)
    ensures r.None? <==> forall i :: 0 <= i < |ws| ==> ws[i].id != id
    ensures r.Some? ==>
              r.value.id == id && exists i :: 0 <= i < |ws| && ws[i] == r.value && forall j :: 0 <= j < i ==> ws[j].id != id
  {
    if ws == [] then None
    else if ws[0].id == id then Some(ws[0])
    else
      var r := Find(ws[1..], id);
      assert r.Some? ==> exists i :: 0 <= i < |ws| && ws[i] == r.value && forall j :: 0 <= j < i ==> ws[j].id != id by {
        if r.Some? {
          var i :| 0 <= i < |ws[1..]| && ws[1..][i] == r.value && forall j :: 0 <= j < i ==> ws[1..][j].id != id;
          assert ws[i + 1] == r.value;
          assert forall j :: 0 <= j < i + 1 ==> ws[j].id != id by {
            forall j | 0 <= j < i + 1 ensures ws[j].id != id {
              if j > 0 { assert ws[j] == ws[1..][j - 1]; }
            }
          }
        }
      }
      r
  }

  /** `wards.find(...)?.name`: the name shown next to an admission's ward id. */
  function WardName(ws: seq<Ward>, id: string): Option<string>
  {
    match Find(ws, id)
    case Some(w) => Some(w.name)
    case None => None
  }

  lemma InitialIdsDistinct()
    ensures forall i, j :: 0 <= i < j < |Initial| ==> Initial[i].id != Initial[j].id
  {
  }

  /** With distinct ids the lookup finds the ward at that id's position. */
  lemma FindDistinct(ws: seq<Ward>, i: nat)
    requires i < |ws|
    requires forall a, b :: 0 <= a < b < |ws| ==> ws[a].id != ws[b].id
    ensures Find(ws, ws[i].id) == Some(ws[i])
  {
    var r := Find(ws, ws[i].id);
    var k :| 0 <= k < |ws| && ws[k] == r.value && forall j :: 0 <= j < k ==> ws[j].id != ws[i].id;
    assert !(i < k);
  }

  /** Every recent admission names a ward of the list. */
  lemma RecentAdmissionsResolve()
    ensures WardName(Initial, RecentAdmissions[0].wardId) == Some("General Ward")
    ensures WardName(Initial, RecentAdmissions[1].wardId) == Some("Maternity Ward")
    ensures WardName(Initial, RecentAdmissions[2].wardId) == Some("ICU")
    ensures WardName(Initial, RecentAdmissions[3].wardId) == Some("Cardiology Ward")
  {
    InitialIdsDistinct();
    ResolvesTo(0, 0);
    ResolvesTo(1, 2);
    ResolvesTo(2, 3);
    ResolvesTo(3, 5);
  }

  /** Admission a names the ward at position w of the fixed list. */
  lemma ResolvesTo(a: nat, w: nat)
    requires a < |RecentAdmissions| && w < |Initial|
    requires RecentAdmissions[a].wardId == Initial[w].id
    requires forall i, j :: 0 <= i < j < |Initial| ==> Initial[i].id != Initial[j].id
    ensures WardName(Initial, RecentAdmissions[a].wardId) == Some(Initial[w].name)
  {
    FindDistinct(Initial, w);
  }

  function ConditionBadge(c: Condition): BadgeVariant
  {
    if c == Stable then Outline
    else if c == Fair then Secondary
    else if c == Serious then Default
    else Destructive
  }

  /** Each condition has its own badge, and only Critical is destructive. */
  lemma ConditionBadgeInjective(c: Condition, d: Condition)
    ensures ConditionBadge(c) == ConditionBadge(d) <==> c == d
    ensures ConditionBadge(c) == Destructive <==> c == Critical
  {
  }
}
