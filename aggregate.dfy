/**
  Aggregation of outage events into a step-function time series
  (`aggregate_outages`).

  `aggregate_outages` reaches its result through table reshaping: a pivot
  with one column per (unique_id, businesstype, unit), the pivot stacked once
  indexed by `end` and once by `start`, duplicate instants merged by max, zeros turned
  into NaN, the axis sorted, each column forward-filled only between its first
  and last known value, columns collapsed per (unit, businesstype) by max, and
  a final reduction chosen by `by`. Each of those steps is a function below;
  the lemmas connect them to what they mean: an event counts its delta on the
  closed interval between its two instants.
*/
module Aggregate {
  import opened Tables
  import opened Timeline
  import P = Preprocess

  type OutageEvent = P.OutageEvent

  /** The values of `by` that `aggregate_outages` accepts, in the order its
      `ValueError` message names them. */
  const AggregationOptions: seq<string> := ["total", "businesstype", "production_unit"]

  /** What the pivot needs of its input (as preprocessing produces it): one
      event per `unique_id`, so each pivot column holds exactly one event. */
  predicate DistinctIds(events: seq<OutageEvent>) {
    forall i, j :: 0 <= i < j < |events| ==> events[i].uniqueId != events[j].uniqueId
  }

  // ---------------------------------------------------------------------------
  // Pivot, concatenation and merge of duplicate instants

  /** A pivot column: (unique_id, businesstype, production_resource_psr_name). */
  datatype ColumnKey = ColumnKey(uniqueId: nat, businessType: string, unitName: string)

  function KeyOf(e: OutageEvent): ColumnKey {
    ColumnKey(e.uniqueId, e.businessType, e.unitName)
  }

  /** A non-empty cell of the concatenated table. */
  datatype Cell = Cell(instant: int, column: ColumnKey, value: int)

  /** The pivot stacked twice: first indexed by `end`, then by `start`. */
  function Stacked(events: seq<OutageEvent>): seq<Cell> {
    seq(|events|, i requires 0 <= i < |events| => Cell(events[i].end, KeyOf(events[i]), events[i].delta))
    + seq(|events|, i requires 0 <= i < |events| => Cell(events[i].start, KeyOf(events[i]), events[i].delta))
  }

  /** The concatenated index, before duplicates are merged. */
  function Instants(events: seq<OutageEvent>): (r: seq<int>)
    ensures forall t :: t in r <==> exists i :: 0 <= i < |events| && (t == events[i].start || t == events[i].end)
  {
    var cells := Stacked(events);
    var r := seq(|cells|, c requires 0 <= c < |cells| => cells[c].instant);
    InstantsMembers(events, r);
    r
  }

  lemma InstantsMembers(events: seq<OutageEvent>, r: seq<int>)
    requires var cells := Stacked(events);
      r == seq(|cells|, c requires 0 <= c < |cells| => cells[c].instant)
    ensures forall t :: t in r <==> exists i :: 0 <= i < |events| && (t == events[i].start || t == events[i].end)
  {
    var n := |events|;
    assert |r| == 2 * n;
    forall t ensures t in r <==> exists i :: 0 <= i < n && (t == events[i].start || t == events[i].end) {
      if t in r {
        var c :| 0 <= c < |r| && r[c] == t;
        if c < n {
          assert t == events[c].end;
        } else {
          assert t == events[c - n].start;
        }
      }
      if exists i :: 0 <= i < n && (t == events[i].start || t == events[i].end) {
        var i :| 0 <= i < n && (t == events[i].start || t == events[i].end);
        if t == events[i].end {
          assert r[i] == t;
        } else {
          assert r[n + i] == t;
        }
      }
    }
  }

  /** The axis after `groupby(index)` and `sort_index()`. */
  function TimeIndex(events: seq<OutageEvent>): (idx: seq<int>)
    ensures StrictlyIncreasing(idx)
    ensures forall t :: t in idx <==> exists i :: 0 <= i < |events| && (t == events[i].start || t == events[i].end)
  {
    SortedDistinct(Instants(events))
  }

  /** `groupby(index).max()` of one column at one instant (NaN when the column
      has no cell there). */
  function MergedAt(cells: seq<Cell>, t: int, col: ColumnKey): Option<int> {
    MaxAll(seq(|cells|, c requires 0 <= c < |cells| =>
      if cells[c].instant == t && cells[c].column == col then Some(cells[c].value) else None))
  }

  /** `replace({0: np.nan})` */
  function ZeroAsAbsent(v: Option<int>): Option<int> {
    if v == Some(0) then None else v
  }

  /** One column of the merged, zero-cleared, sorted table. */
  function Observed(events: seq<OutageEvent>, col: ColumnKey): (r: seq<Option<int>>)
    ensures |r| == |TimeIndex(events)|
  {
    var idx := TimeIndex(events);
    var cells := Stacked(events);
    seq(|idx|, k requires 0 <= k < |idx| => ZeroAsAbsent(MergedAt(cells, idx[k], col)))
  }

  // ---------------------------------------------------------------------------
  // Forward fill limited to the inside of each column

  /** The last known value at or before position k. */
  function LastValid(col: seq<Option<int>>, k: nat): (r: Option<int>)
    requires k < |col|
    ensures r.None? <==> forall i :: 0 <= i <= k ==> col[i].None?
    ensures r.Some? ==> exists i :: 0 <= i <= k && col[i] == r && forall j :: i < j <= k ==> col[j].None?
  {
    if col[k].Some? then col[k]
    else if k == 0 then None
    else LastValid(col, k - 1)
  }

  /** Some value is known at or after position k. */
  predicate KnownFrom(col: seq<Option<int>>, k: nat) {
    exists j :: k <= j < |col| && col[j].Some?
  }

  /** `ffill(limit_area="inside")`: a position holds a value exactly when some
      value is known at or before it and some value is known at or after it,
      and that value is the last one known at or before it. Known values stay. */
  function FillInside(col: seq<Option<int>>): (r: seq<Option<int>>)
    ensures |r| == |col|
    ensures forall k :: 0 <= k < |col| && col[k].Some? ==> r[k] == col[k]
    ensures forall k :: 0 <= k < |col| ==>
      (r[k].Some? <==> (exists i :: 0 <= i <= k && col[i].Some?) && KnownFrom(col, k))
    ensures forall k :: 0 <= k < |col| && r[k].Some? ==>
      exists i :: 0 <= i <= k && col[i] == r[k] && forall j :: i < j <= k ==> col[j].None?
  {
    seq(|col|, k requires 0 <= k < |col| => FillAt(col, k))
  }

  /** The filled value at position k. */
  function FillAt(col: seq<Option<int>>, k: nat): Option<int>
    requires k < |col|
  {
    if KnownFrom(col, k) then LastValid(col, k) else None
  }

  /** One event's column after the fill. */
  function Filled(events: seq<OutageEvent>, col: ColumnKey): (r: seq<Option<int>>)
    ensures |r| == |TimeIndex(events)|
  {
    FillInside(Observed(events, col))
  }

  // ---------------------------------------------------------------------------
  // Collapse per (unit, businesstype) and the final reductions

  datatype Group = Group(unitName: string, businessType: string)

  function GroupOf(e: OutageEvent): Group {
    Group(e.unitName, e.businessType)
  }

  /** The (unit, businesstype) groups present, each once. */
  function Groups(events: seq<OutageEvent>): seq<Group> {
    FirstOccurrences(seq(|events|, i requires 0 <= i < |events| => GroupOf(events[i])))
  }

  /** `droplevel("unique_id").T.groupby([unit, businesstype]).max()` at position k. */
  function GroupValue(events: seq<OutageEvent>, g: Group, k: nat): Option<int>
    requires k < |TimeIndex(events)|
  {
    MaxAll(seq(|events|, i requires 0 <= i < |events| =>
      if GroupOf(events[i]) == g then Filled(events, KeyOf(events[i]))[k] else None))
  }

  /** by="production_unit": max over the unit's business types. */
  function UnitAt(events: seq<OutageEvent>, u: string, k: nat): Option<int>
    requires k < |TimeIndex(events)|
  {
    var gs := Groups(events);
    MaxAll(seq(|gs|, j requires 0 <= j < |gs| =>
      if gs[j].unitName == u then GroupValue(events, gs[j], k) else None))
  }

  /** Each group's value at position k, NaN read as 0 (as pandas' sum does). */
  function GroupValues(events: seq<OutageEvent>, k: nat): seq<int>
    requires k < |TimeIndex(events)|
  {
    var gs := Groups(events);
    seq(|gs|, j requires 0 <= j < |gs| => GroupValue(events, gs[j], k).GetOr(0))
  }

  /** The business type of each group, aligned with `GroupValues`. */
  function GroupLabels(events: seq<OutageEvent>): seq<string> {
    var gs := Groups(events);
    seq(|gs|, j requires 0 <= j < |gs| => gs[j].businessType)
  }

  /** by="businesstype": sum over the units of that business type. */
  function BusinessTypeAt(events: seq<OutageEvent>, b: string, k: nat): int
    requires k < |TimeIndex(events)|
  {
    SumWhere(GroupLabels(events), GroupValues(events, k), b)
  }

  /** by="total": sum over every group. */
  function TotalAt(events: seq<OutageEvent>, k: nat): int
    requires k < |TimeIndex(events)|
  {
    Sum(GroupValues(events, k))
  }

  function UnitNames(events: seq<OutageEvent>): set<string> {
    set i | 0 <= i < |events| :: events[i].unitName
  }

  function BusinessTypes(events: seq<OutageEvent>): set<string> {
    set i | 0 <= i < |events| :: events[i].businessType
  }

  /** The three shapes of result: a series, a frame per unit, a frame per type. */
  datatype Aggregated =
    | TotalSeries(index: seq<int>, total: seq<int>)
    | UnitFrame(index: seq<int>, units: map<string, seq<Option<int>>>)
    | BusinessTypeFrame(index: seq<int>, businessTypes: map<string, seq<int>>)

  /** The ValueError for an unknown `by`; its message names the valid options. */
  datatype AggregationError = UnknownAggregation(options: seq<string>)

  function AggregateOutages(events: seq<OutageEvent>, dimension: string): (r: Result<Aggregated, AggregationError>)
    requires DistinctIds(events)
    ensures r.Failure? <==> dimension !in AggregationOptions
    ensures r.Failure? ==> r.error.options == AggregationOptions
    ensures r.Success? ==> r.value.index == TimeIndex(events)
    ensures dimension == "total" ==> r.Success? && r.value.TotalSeries? && |r.value.total| == |r.value.index|
    ensures dimension == "production_unit" ==>
      && r.Success? && r.value.UnitFrame?
      && r.value.units.Keys == UnitNames(events)
      && forall u :: u in r.value.units ==> |r.value.units[u]| == |r.value.index|
    ensures dimension == "businesstype" ==>
      && r.Success? && r.value.BusinessTypeFrame?
      && r.value.businessTypes.Keys == BusinessTypes(events)
      && forall b :: b in r.value.businessTypes ==> |r.value.businessTypes[b]| == |r.value.index|
  {
    var idx := TimeIndex(events);
    if dimension == "total" then
      Success(TotalSeries(idx, seq(|idx|, k requires 0 <= k < |idx| => TotalAt(events, k))))
    else if dimension == "production_unit" then
      Success(UnitFrame(idx, map u | u in UnitNames(events) ::
        seq(|idx|, k requires 0 <= k < |idx| => UnitAt(events, u, k))))
    else if dimension == "businesstype" then
      Success(BusinessTypeFrame(idx, map b | b in BusinessTypes(events) ::
        seq(|idx|, k requires 0 <= k < |idx| => BusinessTypeAt(events, b, k))))
    else
      Failure(UnknownAggregation(AggregationOptions))
  }

  // ---------------------------------------------------------------------------
  // What the reshaping means

  function Lo(e: OutageEvent): int {
    if e.start <= e.end then e.start else e.end
  }

  function Hi(e: OutageEvent): int {
    if e.start <= e.end then e.end else e.start
  }

  /** What one event contributes at instant t: its delta while t lies between
      its two instants, both included; nothing when its delta is 0. */
  function Contribution(e: OutageEvent, t: int): Option<int> {
    if e.delta != 0 && Lo(e) <= t <= Hi(e) then Some(e.delta) else None
  }

  /** Before the fill, an event's column holds its delta exactly at its start
      and end instants, unless the delta is 0. */
  lemma ObservedEvent(events: seq<OutageEvent>, i: nat, k: nat)
    requires DistinctIds(events)
    requires i < |events| && k < |TimeIndex(events)|
    ensures var e := events[i];
      var t := TimeIndex(events)[k];
      Observed(events, KeyOf(e))[k]
        == if (t == e.start || t == e.end) && e.delta != 0 then Some(e.delta) else None
  {
    var e := events[i];
    var t := TimeIndex(events)[k];
    var cells := Stacked(events);
    var n := |events|;
    var col := KeyOf(e);
    var vs := seq(|cells|, c requires 0 <= c < |cells| =>
      if cells[c].instant == t && cells[c].column == col then Some(cells[c].value) else None);
    assert MergedAt(cells, t, col) == MaxAll(vs);
    var m := MaxAll(vs);
    forall c | 0 <= c < |cells| && vs[c].Some?
      ensures vs[c] == Some(e.delta) && (t == e.start || t == e.end)
    {
      var j := if c < n then c else c - n;
      assert cells[c].column == KeyOf(events[j]);
      assert events[j].uniqueId == events[i].uniqueId;
    }
    if t == e.end {
      assert vs[i] == Some(e.delta);
    } else if t == e.start {
      assert vs[n + i] == Some(e.delta);
    }
  }

  /** Filling a column known only at positions a <= b, both with value d,
      gives d on [a, b] and nothing elsewhere. */
  lemma FillInsideSpan(col: seq<Option<int>>, a: nat, b: nat, d: int, k: nat)
    requires a <= b < |col| && k < |col|
    requires forall j :: 0 <= j < |col| ==> (col[j].Some? <==> j == a || j == b)
    requires col[a] == Some(d) && col[b] == Some(d)
    ensures FillInside(col)[k] == if a <= k <= b then Some(d) else None
  {
    if a <= k <= b {
      assert col[a].Some? && k <= b && col[b].Some?;
      FillInsideKnown(col, k);
    } else if k < a {
      FillInsideNone(col, k);
    } else {
      FillInsideNone(col, k);
    }
  }

  lemma FillInsideKnown(col: seq<Option<int>>, k: nat)
    requires k < |col|
    requires exists i :: 0 <= i <= k && col[i].Some?
    requires KnownFrom(col, k)
    ensures exists i :: 0 <= i <= k && FillInside(col)[k] == col[i] && col[i].Some?
  {
  }

  lemma FillInsideNone(col: seq<Option<int>>, k: nat)
    requires k < |col|
    requires (forall i :: 0 <= i <= k ==> col[i].None?) || !KnownFrom(col, k)
    ensures FillInside(col)[k].None?
  {
  }

  /** An event is active on the closed interval between its two instants:
      after the inside forward fill its column holds its delta at exactly the
      axis instants t with min(start, end) <= t <= max(start, end), and holds
      nothing anywhere when its delta is 0. */
  lemma FilledEvent(events: seq<OutageEvent>, i: nat, k: nat)
    requires DistinctIds(events)
    requires i < |events| && k < |TimeIndex(events)|
    ensures Filled(events, KeyOf(events[i]))[k] == Contribution(events[i], TimeIndex(events)[k])
  {
    var e := events[i];
    var idx := TimeIndex(events);
    var col := Observed(events, KeyOf(e));
    forall j | 0 <= j < |idx|
      ensures col[j] == if (idx[j] == e.start || idx[j] == e.end) && e.delta != 0 then Some(e.delta) else None
    {
      ObservedEvent(events, i, j);
    }
    if e.delta == 0 {
      assert forall j :: 0 <= j < |col| ==> col[j].None?;
      assert FillInside(col)[k].None?;
    } else {
      assert Lo(e) in idx && Hi(e) in idx;
      var a :| 0 <= a < |idx| && idx[a] == Lo(e);
      var b :| 0 <= b < |idx| && idx[b] == Hi(e);
      PositionOrder(idx, a, b);
      forall j | 0 <= j < |idx| ensures (idx[j] == e.start || idx[j] == e.end) <==> (j == a || j == b) {
        PositionOrder(idx, j, a);
        PositionOrder(idx, a, j);
        PositionOrder(idx, j, b);
        PositionOrder(idx, b, j);
      }
      FillInsideSpan(col, a, b, e.delta, k);
      PositionOrder(idx, a, k);
      PositionOrder(idx, k, b);
    }
  }

  /** The contributions of the events of group g at t (absent for the others). */
  function GroupContributions(events: seq<OutageEvent>, g: Group, t: int): seq<Option<int>> {
    seq(|events|, i requires 0 <= i < |events| =>
      if GroupOf(events[i]) == g then Contribution(events[i], t) else None)
  }

  /** The value of a group: the largest contribution of its events, absent when none contributes. */
  function GroupMax(events: seq<OutageEvent>, g: Group, t: int): Option<int> {
    MaxAll(GroupContributions(events, g, t))
  }

  /** The collapse by max of a group's filled columns is the largest
      contribution of its events at that instant. */
  lemma GroupValueMeaning(events: seq<OutageEvent>, g: Group, k: nat)
    requires DistinctIds(events)
    requires k < |TimeIndex(events)|
    ensures GroupValue(events, g, k) == GroupMax(events, g, TimeIndex(events)[k])
    ensures IsMaxOf(GroupValue(events, g, k), GroupContributions(events, g, TimeIndex(events)[k]))
  {
    var filled := seq(|events|, i requires 0 <= i < |events| =>
      if GroupOf(events[i]) == g then Filled(events, KeyOf(events[i]))[k] else None);
    forall i | 0 <= i < |events|
      ensures filled[i] == GroupContributions(events, g, TimeIndex(events)[k])[i]
    {
      FilledEvent(events, i, k);
    }
    assert filled == GroupContributions(events, g, TimeIndex(events)[k]);
  }

  /** The groups are distinct and are exactly those of the events. */
  lemma GroupsOfEvents(events: seq<OutageEvent>)
    ensures NoDuplicates(Groups(events))
    ensures forall g :: g in Groups(events) <==> exists i :: 0 <= i < |events| && GroupOf(events[i]) == g
  {
    var all := seq(|events|, i requires 0 <= i < |events| => GroupOf(events[i]));
    FirstOccurrencesNoDuplicates(all);
    FirstOccurrencesElements(all);
    forall g ensures g in all <==> exists i :: 0 <= i < |events| && GroupOf(events[i]) == g {
      if exists i :: 0 <= i < |events| && GroupOf(events[i]) == g {
        var i :| 0 <= i < |events| && GroupOf(events[i]) == g;
        assert all[i] == g;
      }
    }
  }

  /** The contributions of the events of unit u at t (absent for the others). */
  function UnitContributions(events: seq<OutageEvent>, u: string, t: int): seq<Option<int>> {
    seq(|events|, i requires 0 <= i < |events| =>
      if events[i].unitName == u then Contribution(events[i], t) else None)
  }

  /** The max over a unit's business types is the largest contribution of any
      event of that unit. */
  lemma UnitAtMeaning(events: seq<OutageEvent>, u: string, k: nat)
    requires DistinctIds(events)
    requires k < |TimeIndex(events)|
    ensures IsMaxOf(UnitAt(events, u, k), UnitContributions(events, u, TimeIndex(events)[k]))
  {
    var t := TimeIndex(events)[k];
    var gs := Groups(events);
    var ws := seq(|gs|, j requires 0 <= j < |gs| =>
      if gs[j].unitName == u then GroupValue(events, gs[j], k) else None);
    var cs := UnitContributions(events, u, t);
    UnitContributionsSeen(events, u, k, ws);
    UnitGroupValuesAttained(events, u, k, ws);
    IsMaxOfTransfer(MaxAll(ws), ws, cs);
  }

  /** Every contribution of a unit is bounded by the value of its group. */
  lemma UnitContributionsSeen(events: seq<OutageEvent>, u: string, k: nat, ws: seq<Option<int>>)
    requires DistinctIds(events)
    requires k < |TimeIndex(events)|
    requires var gs := Groups(events);
      ws == seq(|gs|, j requires 0 <= j < |gs| =>
        if gs[j].unitName == u then GroupValue(events, gs[j], k) else None)
    ensures var cs := UnitContributions(events, u, TimeIndex(events)[k]);
      forall i :: 0 <= i < |cs| && cs[i].Some? ==>
        exists j :: 0 <= j < |ws| && ws[j].Some? && cs[i].value <= ws[j].value
  {
    var t := TimeIndex(events)[k];
    var cs := UnitContributions(events, u, t);
    forall i | 0 <= i < |cs| && cs[i].Some?
      ensures exists j :: 0 <= j < |ws| && ws[j].Some? && cs[i].value <= ws[j].value
    {
      var j := GroupPosition(events, i);
      GroupValueMeaning(events, GroupOf(events[i]), k);
      assert GroupContributions(events, GroupOf(events[i]), t)[i] == cs[i];
      assert ws[j] == GroupValue(events, GroupOf(events[i]), k);
    }
  }

  /** Where the group of event i stands in the list of groups. */
  lemma GroupPosition(events: seq<OutageEvent>, i: nat) returns (j: nat)
    requires i < |events|
    ensures j < |Groups(events)| && Groups(events)[j] == GroupOf(events[i])
  {
    GroupsOfEvents(events);
    assert GroupOf(events[i]) in Groups(events);
    j :| 0 <= j < |Groups(events)| && Groups(events)[j] == GroupOf(events[i]);
  }

  /** Every value of a group of the unit is a contribution of the unit. */
  lemma UnitGroupValuesAttained(events: seq<OutageEvent>, u: string, k: nat, ws: seq<Option<int>>)
    requires DistinctIds(events)
    requires k < |TimeIndex(events)|
    requires var gs := Groups(events);
      ws == seq(|gs|, j requires 0 <= j < |gs| =>
        if gs[j].unitName == u then GroupValue(events, gs[j], k) else None)
    ensures var cs := UnitContributions(events, u, TimeIndex(events)[k]);
      forall j :: 0 <= j < |ws| && ws[j].Some? ==> exists i :: 0 <= i < |cs| && cs[i] == ws[j]
  {
    var t := TimeIndex(events)[k];
    var gs := Groups(events);
    var cs := UnitContributions(events, u, t);
    forall j | 0 <= j < |ws| && ws[j].Some?
      ensures exists i :: 0 <= i < |cs| && cs[i] == ws[j]
    {
      GroupValueMeaning(events, gs[j], k);
      var i :| 0 <= i < |events| && GroupContributions(events, gs[j], t)[i] == ws[j];
      assert cs[i] == ws[j];
    }
  }

  /** The largest nominal power recorded for unit u. */
  function MaxNominal(events: seq<OutageEvent>, u: string): Option<int> {
    MaxAll(seq(|events|, i requires 0 <= i < |events| =>
      if events[i].unitName == u then Some(events[i].nominalPower) else None))
  }

  // ---------------------------------------------------------------------------
  // The three results

  /** by="production_unit": the columns are exactly the units of the input,
      and each cell is the largest contribution of that unit's events at that
      instant (absent when none contributes). */
  lemma ProductionUnitOutput(events: seq<OutageEvent>, u: string, k: nat)
    requires DistinctIds(events)
    requires k < |TimeIndex(events)|
    ensures var out := AggregateOutages(events, "production_unit").value;
      && out.units.Keys == UnitNames(events)
      && (u in out.units ==> IsMaxOf(out.units[u][k], UnitContributions(events, u, out.index[k])))
  {
    UnitAtMeaning(events, u, k);
  }

  /** The outage of a unit never exceeds the largest nominal power recorded
      for it, when every available quantity is non-negative. */
  lemma CapacityBound(events: seq<OutageEvent>, u: string, k: nat)
    requires DistinctIds(events)
    requires forall i :: 0 <= i < |events| ==>
      events[i].delta == events[i].nominalPower - events[i].availQty && events[i].availQty >= 0
    requires u in UnitNames(events)
    requires k < |TimeIndex(events)|
    ensures var v := AggregateOutages(events, "production_unit").value.units[u][k];
      v.Some? ==> MaxNominal(events, u).Some? && v.value <= MaxNominal(events, u).value
  {
    var v := AggregateOutages(events, "production_unit").value.units[u][k];
    ProductionUnitOutput(events, u, k);
    if v.Some? {
      var cs := UnitContributions(events, u, TimeIndex(events)[k]);
      var i :| 0 <= i < |events| && cs[i] == v;
      var ns := seq(|events|, i requires 0 <= i < |events| =>
        if events[i].unitName == u then Some(events[i].nominalPower) else None);
      assert ns[i].Some?;
    }
  }

  /** by="total": at each instant, the sum over all (unit, businesstype)
      groups of the group's largest contribution, absent counted as 0. */
  lemma TotalOutput(events: seq<OutageEvent>, k: nat)
    requires DistinctIds(events)
    requires k < |TimeIndex(events)|
    ensures var out := AggregateOutages(events, "total").value;
      var gs := Groups(events);
      out.total[k] == Sum(seq(|gs|, j requires 0 <= j < |gs| => GroupMax(events, gs[j], out.index[k]).GetOr(0)))
  {
    var gs := Groups(events);
    GroupMaxValues(events, k);
  }

  /** Each group's value as pandas sums it equals its largest contribution. */
  lemma GroupMaxValues(events: seq<OutageEvent>, k: nat)
    requires DistinctIds(events)
    requires k < |TimeIndex(events)|
    ensures var gs := Groups(events);
      GroupValues(events, k)
        == seq(|gs|, j requires 0 <= j < |gs| => GroupMax(events, gs[j], TimeIndex(events)[k]).GetOr(0))
  {
    var gs := Groups(events);
    forall j | 0 <= j < |gs| ensures GroupValues(events, k)[j] == GroupMax(events, gs[j], TimeIndex(events)[k]).GetOr(0) {
      GroupValueMeaning(events, gs[j], k);
    }
  }

  /** by="businesstype": the columns are exactly the business types of the
      input, and each cell is the sum, over the groups of that type (one per
      unit), of the group's largest contribution, absent counted as 0. */
  lemma BusinessTypeOutput(events: seq<OutageEvent>, b: string, k: nat)
    requires DistinctIds(events)
    requires k < |TimeIndex(events)|
    ensures var out := AggregateOutages(events, "businesstype").value;
      var gs := Groups(events);
      && out.businessTypes.Keys == BusinessTypes(events)
      && (b in out.businessTypes ==>
            out.businessTypes[b][k]
              == SumWhere(GroupLabels(events),
                          seq(|gs|, j requires 0 <= j < |gs| => GroupMax(events, gs[j], out.index[k]).GetOr(0)), b))
  {
    GroupMaxValues(events, k);
  }

  /** The business types present, each once, in order of first appearance. */
  function BusinessTypeList(events: seq<OutageEvent>): seq<string> {
    FirstOccurrences(seq(|events|, i requires 0 <= i < |events| => events[i].businessType))
  }

  /** The total at an instant is the sum of the per-business-type values. */
  lemma TotalIsSumOfBusinessTypes(events: seq<OutageEvent>, k: nat)
    requires DistinctIds(events)
    requires k < |TimeIndex(events)|
    ensures var total := AggregateOutages(events, "total").value.total;
      var byType := AggregateOutages(events, "businesstype").value.businessTypes;
      var bl := BusinessTypeList(events);
      && (forall j :: 0 <= j < |bl| ==> bl[j] in byType)
      && total[k] == Sum(seq(|bl|, j requires 0 <= j < |bl| && bl[j] in byType => byType[bl[j]][k]))
  {
    var byType := AggregateOutages(events, "businesstype").value.businessTypes;
    var bl := BusinessTypeList(events);
    var types := seq(|events|, i requires 0 <= i < |events| => events[i].businessType);
    FirstOccurrencesElements(types);
    FirstOccurrencesNoDuplicates(types);
    forall j | 0 <= j < |bl| ensures bl[j] in byType {
      assert bl[j] in types;
    }
    var labels := GroupLabels(events);
    var xs := GroupValues(events, k);
    var gs := Groups(events);
    GroupsOfEvents(events);
    forall j | 0 <= j < |labels| ensures labels[j] in bl {
      assert gs[j] in gs;
      var i :| 0 <= i < |events| && GroupOf(events[i]) == gs[j];
      assert types[i] == labels[j];
    }
    SumRegroup(labels, xs, bl);
    SumOfGroupsAsSum(labels, xs, bl);
    assert seq(|bl|, j requires 0 <= j < |bl| && bl[j] in byType => byType[bl[j]][k])
        == seq(|bl|, j requires 0 <= j < |bl| => SumWhere(labels, xs, bl[j]));
  }

  /** Two overlapping outages of one unit, A on [t0, t2] with delta 100 and
      B on [t1, t3] with delta 150 (t0 < t1 < t2 < t3): the axis is the four
      instants and the unit reads 100, then 150 up to and including t3 (the
      larger value wins where they overlap), with nothing after t3. */
  lemma OverlappingOutages(a: OutageEvent, b: OutageEvent, u: string)
    requires a.uniqueId != b.uniqueId
    requires a.unitName == u && b.unitName == u
    requires a.start < b.start < a.end < b.end
    requires a.delta == 100 && b.delta == 150
    ensures var out := AggregateOutages([a, b], "production_unit").value;
      && out.index == [a.start, b.start, a.end, b.end]
      && u in out.units
      && out.units[u] == [Some(100), Some(150), Some(150), Some(150)]
  {
    var events := [a, b];
    OverlappingIndex(a, b);
    assert u in UnitNames(events) by {
      assert events[0].unitName == u;
    }
    var col := AggregateOutages(events, "production_unit").value.units[u];
    assert |col| == 4;
    forall k | 0 <= k < 4 ensures col[k] == [Some(100), Some(150), Some(150), Some(150)][k] {
      OverlappingAt(a, b, u, k);
    }
  }

  lemma OverlappingIndex(a: OutageEvent, b: OutageEvent)
    requires a.start < b.start < a.end < b.end
    ensures TimeIndex([a, b]) == [a.start, b.start, a.end, b.end]
  {
    var events := [a, b];
    var idx := [a.start, b.start, a.end, b.end];
    forall t ensures t in idx <==> exists i :: 0 <= i < |events| && (t == events[i].start || t == events[i].end) {
      if t in idx {
        if t == a.start || t == a.end {
          assert events[0] == a;
        } else {
          assert events[1] == b;
        }
      }
    }
    StrictlyIncreasingUnique(TimeIndex(events), idx);
  }

  lemma OverlappingAt(a: OutageEvent, b: OutageEvent, u: string, k: nat)
    requires a.uniqueId != b.uniqueId
    requires a.unitName == u && b.unitName == u
    requires a.start < b.start < a.end < b.end
    requires a.delta == 100 && b.delta == 150
    requires k < 4
    ensures var units := AggregateOutages([a, b], "production_unit").value.units;
      u in units && |units[u]| == 4 && units[u][k] == [Some(100), Some(150), Some(150), Some(150)][k]
  {
    var events := [a, b];
    OverlappingIndex(a, b);
    var idx := TimeIndex(events);
    assert u in UnitNames(events) by {
      assert events[0].unitName == u;
    }
    ProductionUnitOutput(events, u, k);
    var cs := UnitContributions(events, u, idx[k]);
    assert cs[0] == (if k <= 2 then Some(100) else None);
    assert cs[1] == (if k >= 1 then Some(150) else None);
  }

  /** Preprocessing produces what aggregation needs: one event per id. */
  lemma PreprocessedFeedsAggregation(raw: seq<P.RawOutage>, outageDuration: Option<int>, generationType: string)
    requires P.Preprocessed(raw, outageDuration, generationType).Success?
    ensures DistinctIds(P.Preprocessed(raw, outageDuration, generationType).value)
  {
    P.PreprocessedRows(raw, outageDuration, generationType);
  }
}
