/**
  Cleaning of raw outage announcements (`preprocess_outages_data`).

  Timestamps are integer UTC instants (`preprocess_outages_data` converts them
  to CET, which changes neither their order nor their differences); capacities
  are integers. The steps, in the order `preprocess_outages_data` takes them:
  drop the `resolution` column and then exact duplicates (keeping the first),
  number the survivors 0..n-1 as `unique_id`, check the requested generation
  type against the plant types present, keep Nuclear, non-cancelled rows
  longer than the optional minimum duration, project onto the output columns,
  add `delta`, drop duplicates again.
*/
module Preprocess {
  import opened Tables

  /** The plant type the filter keeps. It is fixed, whatever generation type
      the caller asks for: the argument only decides whether an error is raised. */
  const Nuclear := "Nuclear"

  /** One row of the raw export. `others` holds the values of the export's
      remaining columns, which take part in duplicate detection only. */
  datatype RawOutage = RawOutage(
    start: int,
    end: int,
    resolution: string,
    plantType: string,
    docstatus: Option<string>,
    nominalPower: int,
    availQty: int,
    businessType: string,
    unitName: string,
    mrid: string,
    others: seq<string>)

  /** A raw row once the `resolution` column is dropped. */
  datatype Announcement = Announcement(
    start: int,
    end: int,
    plantType: string,
    docstatus: Option<string>,
    nominalPower: int,
    availQty: int,
    businessType: string,
    unitName: string,
    mrid: string,
    others: seq<string>)

  /** A deduplicated row with its `unique_id` column. */
  datatype NumberedRow = NumberedRow(row: Announcement, uniqueId: nat)

  /** One output row: the projected columns plus `delta`. */
  datatype OutageEvent = OutageEvent(
    nominalPower: int,
    start: int,
    end: int,
    businessType: string,
    availQty: int,
    uniqueId: nat,
    unitName: string,
    mrid: string,
    delta: int)

  /** The ValueError raised for an unknown generation type; its message lists
      the plant types present, in order of first appearance. */
  datatype PreprocessError = UnknownGenerationType(available: seq<string>)

  function DropResolution(r: RawOutage): Announcement {
    Announcement(r.start, r.end, r.plantType, r.docstatus, r.nominalPower, r.availQty,
                 r.businessType, r.unitName, r.mrid, r.others)
  }

  /** `raw_data["plant_type"].unique()`: each plant type once, in order of first appearance. */
  function PlantTypes(rows: seq<Announcement>): seq<string> {
    FirstOccurrences(seq(|rows|, i requires 0 <= i < |rows| => rows[i].plantType))
  }

  /** filter_generation_type (hard-coded to Nuclear) */
  predicate IsNuclear(a: Announcement) {
    a.plantType == Nuclear
  }

  /** filter_cancelled: a maintained outage has no docstatus */
  predicate NotCancelled(a: Announcement) {
    a.docstatus.None?
  }

  /** filter_duration: strictly longer than the minimum, or no minimum at all */
  predicate LongerThan(a: Announcement, outageDuration: Option<int>) {
    outageDuration.Some? ==> a.end - a.start > outageDuration.value
  }

  predicate Kept(a: Announcement, outageDuration: Option<int>) {
    IsNuclear(a) && NotCancelled(a) && LongerThan(a, outageDuration)
  }

  /** Projection onto the output columns, with `delta = nominal_power - avail_qty`. */
  function ToEvent(n: NumberedRow): OutageEvent {
    var a := n.row;
    OutageEvent(a.nominalPower, a.start, a.end, a.businessType, a.availQty, n.uniqueId,
                a.unitName, a.mrid, a.nominalPower - a.availQty)
  }

  // ---------------------------------------------------------------------------
  // Specification of the whole preprocessing step

  /** The raw rows, in order, without the `resolution` column. */
  function WithoutResolution(raw: seq<RawOutage>): seq<Announcement> {
    seq(|raw|, i requires 0 <= i < |raw| => DropResolution(raw[i]))
  }

  /** The raw rows without `resolution`, exact duplicates dropped (first kept). */
  function Deduplicated(raw: seq<RawOutage>): seq<Announcement> {
    FirstOccurrences(WithoutResolution(raw))
  }

  /** The kept rows of `rows`, in order, each projected with its position in
      `rows` as its id. */
  function Selected(rows: seq<Announcement>, outageDuration: Option<int>): seq<OutageEvent> {
    if rows == [] then []
    else
      var n := |rows| - 1;
      Selected(rows[..n], outageDuration)
        + (if Kept(rows[n], outageDuration) then [ToEvent(NumberedRow(rows[n], n))] else [])
  }

  function Preprocessed(raw: seq<RawOutage>, outageDuration: Option<int>, generationType: string)
    : Result<seq<OutageEvent>, PreprocessError>
  {
    var rows := Deduplicated(raw);
    if generationType !in PlantTypes(rows) then Failure(UnknownGenerationType(PlantTypes(rows)))
    else Success(FirstOccurrences(Selected(rows, outageDuration)))
  }

  // ---------------------------------------------------------------------------
  // The step-by-step computation

  /** `np.arange(0, n)` assigned as the `unique_id` column. */
  function Number(rows: seq<Announcement>): (r: seq<NumberedRow>)
    ensures |r| == |rows|
    ensures forall i :: 0 <= i < |r| ==> r[i].row == rows[i] && r[i].uniqueId == i
  {
    seq(|rows|, i requires 0 <= i < |rows| => NumberedRow(rows[i], i))
  }

  /** `table.loc[mask]`: the rows whose mask entry is true, in order. */
  function Loc(rows: seq<NumberedRow>, mask: seq<bool>): seq<NumberedRow>
    requires |mask| == |rows|
  {
    if rows == [] then []
    else
      var n := |rows| - 1;
      Loc(rows[..n], mask[..n]) + (if mask[n] then [rows[n]] else [])
  }

  method PreprocessOutagesData(raw: seq<RawOutage>, outageDuration: Option<int>, generationType: string)
    returns (r: Result<seq<OutageEvent>, PreprocessError>)
    ensures r == Preprocessed(raw, outageDuration, generationType)
  {
    var rows := seq(|raw|, i requires 0 <= i < |raw| => DropResolution(raw[i]));
    rows := FirstOccurrences(rows);
    var numbered := Number(rows);
    var plantTypes := FirstOccurrences(seq(|numbered|, i requires 0 <= i < |numbered| => numbered[i].row.plantType));
    assert plantTypes == PlantTypes(rows) by {
      assert seq(|numbered|, i requires 0 <= i < |numbered| => numbered[i].row.plantType)
          == seq(|rows|, i requires 0 <= i < |rows| => rows[i].plantType);
    }
    if generationType !in plantTypes {
      return Failure(UnknownGenerationType(plantTypes));
    }
    var mask := seq(|numbered|, i requires 0 <= i < |numbered| => Kept(numbered[i].row, outageDuration));
    var filtered := Loc(numbered, mask);
    var events := seq(|filtered|, i requires 0 <= i < |filtered| => ToEvent(filtered[i]));
    LocSelected(rows, outageDuration, |rows|);
    assert Number(rows)[..|rows|] == Number(rows);
    assert rows[..|rows|] == rows;
    events := FirstOccurrences(events);
    r := Success(events);
  }

  /** Masking the numbered prefix and projecting gives the specified selection. */
  lemma {:induction false} LocSelected(rows: seq<Announcement>, outageDuration: Option<int>, n: nat)
    requires n <= |rows|
    ensures var numbered := Number(rows)[..n];
      var mask := seq(n, i requires 0 <= i < n => Kept(numbered[i].row, outageDuration));
      var filtered := Loc(numbered, mask);
      seq(|filtered|, i requires 0 <= i < |filtered| => ToEvent(filtered[i]))
        == Selected(rows[..n], outageDuration)
  {
    var numbered := Number(rows)[..n];
    var mask := seq(n, i requires 0 <= i < n => Kept(numbered[i].row, outageDuration));
    var filtered := Loc(numbered, mask);
    if n > 0 {
      LocSelected(rows, outageDuration, n - 1);
      var numbered' := Number(rows)[..n - 1];
      var mask' := seq(n - 1, i requires 0 <= i < n - 1 => Kept(numbered'[i].row, outageDuration));
      assert numbered[..n - 1] == numbered';
      assert mask[..n - 1] == mask';
      assert rows[..n][..n - 1] == rows[..n - 1];
      var filtered' := Loc(numbered', mask');
      var tail := if mask[n - 1] then [numbered[n - 1]] else [];
      assert filtered == filtered' + tail;
      assert numbered[n - 1] == NumberedRow(rows[..n][n - 1], n - 1);
    }
  }

  // ---------------------------------------------------------------------------
  // Properties of the specification

  /** The deduplicated rows keep the order in which they first occur in the
      raw table; this is the order `unique_id` numbers. */
  lemma DeduplicatedOrder(raw: seq<RawOutage>)
    ensures var rows := Deduplicated(raw);
      forall k, l :: 0 <= k < l < |rows| ==>
        FirstIndex(WithoutResolution(raw), rows[k]) < FirstIndex(WithoutResolution(raw), rows[l])
  {
    FirstOccurrencesOrder(WithoutResolution(raw));
    assert Deduplicated(raw) == FirstOccurrences(WithoutResolution(raw));
  }

  /** After `resolution` is dropped no two rows are identical, and a row
      occurs exactly when some raw row projects to it. */
  lemma DeduplicatedRows(raw: seq<RawOutage>)
    ensures NoDuplicates(Deduplicated(raw))
    ensures forall a :: a in Deduplicated(raw) <==> exists i :: 0 <= i < |raw| && DropResolution(raw[i]) == a
  {
    var dropped := WithoutResolution(raw);
    FirstOccurrencesNoDuplicates(dropped);
    FirstOccurrencesElements(dropped);
    forall a ensures a in dropped <==> exists i :: 0 <= i < |raw| && DropResolution(raw[i]) == a {
      if a in dropped {
        var i :| 0 <= i < |dropped| && dropped[i] == a;
        assert DropResolution(raw[i]) == a;
      }
      if exists i :: 0 <= i < |raw| && DropResolution(raw[i]) == a {
        var i :| 0 <= i < |raw| && DropResolution(raw[i]) == a;
        assert dropped[i] == a;
      }
    }
  }

  /** Each selected row comes from a kept row, projected with its position
      as id; ids strictly increase; and no kept row is left out. */
  lemma {:induction false} SelectedRows(rows: seq<Announcement>, outageDuration: Option<int>)
    ensures var ev := Selected(rows, outageDuration);
      && (forall k :: 0 <= k < |ev| ==>
            && ev[k].uniqueId < |rows|
            && Kept(rows[ev[k].uniqueId], outageDuration)
            && ev[k] == ToEvent(NumberedRow(rows[ev[k].uniqueId], ev[k].uniqueId)))
      && (forall k, l :: 0 <= k < l < |ev| ==> ev[k].uniqueId < ev[l].uniqueId)
      && (forall i :: 0 <= i < |rows| && Kept(rows[i], outageDuration) ==>
            exists k :: 0 <= k < |ev| && ev[k].uniqueId == i)
  {
    if rows != [] {
      var n := |rows| - 1;
      var init := rows[..n];
      SelectedRows(init, outageDuration);
      var ev' := Selected(init, outageDuration);
      var ev := Selected(rows, outageDuration);
      assert ev[..|ev'|] == ev';
      forall i | 0 <= i < |rows| && Kept(rows[i], outageDuration)
        ensures exists k :: 0 <= k < |ev| && ev[k].uniqueId == i
      {
        if i < n {
          assert init[i] == rows[i];
          var k :| 0 <= k < |ev'| && ev'[k].uniqueId == i;
          assert ev[k] == ev'[k];
        } else {
          assert ev[|ev'|].uniqueId == n;
        }
      }
    }
  }

  /** Every selected row is distinct (their ids differ). */
  lemma SelectedNoDuplicates(rows: seq<Announcement>, outageDuration: Option<int>)
    ensures NoDuplicates(Selected(rows, outageDuration))
  {
    SelectedRows(rows, outageDuration);
  }

  /** What a successful preprocessing returns: the final duplicate drop
      removes nothing; every row is Nuclear, not cancelled and strictly longer
      than the minimum duration; its `unique_id` is its position among the
      deduplicated rows, ids strictly increase; its projected columns are
      copied from that row and `delta = nominal_power - avail_qty`; and every
      deduplicated row that passes the three filters is in the output. */
  lemma PreprocessedRows(raw: seq<RawOutage>, outageDuration: Option<int>, generationType: string)
    requires Preprocessed(raw, outageDuration, generationType).Success?
    ensures var rows := Deduplicated(raw);
      var out := Preprocessed(raw, outageDuration, generationType).value;
      && out == Selected(rows, outageDuration)
      && (forall k :: 0 <= k < |out| ==>
            && out[k].uniqueId < |rows|
            && rows[out[k].uniqueId].plantType == Nuclear
            && rows[out[k].uniqueId].docstatus.None?
            && (outageDuration.Some? ==> out[k].end - out[k].start > outageDuration.value)
            && out[k].delta == out[k].nominalPower - out[k].availQty
            && out[k].nominalPower == rows[out[k].uniqueId].nominalPower
            && out[k].start == rows[out[k].uniqueId].start
            && out[k].end == rows[out[k].uniqueId].end
            && out[k].businessType == rows[out[k].uniqueId].businessType
            && out[k].availQty == rows[out[k].uniqueId].availQty
            && out[k].unitName == rows[out[k].uniqueId].unitName
            && out[k].mrid == rows[out[k].uniqueId].mrid)
      && (forall k, l :: 0 <= k < l < |out| ==> out[k].uniqueId < out[l].uniqueId)
      && (forall i :: 0 <= i < |rows| && Kept(rows[i], outageDuration) ==>
            exists k :: 0 <= k < |out| && out[k].uniqueId == i)
  {
    var rows := Deduplicated(raw);
    SelectedRows(rows, outageDuration);
    SelectedNoDuplicates(rows, outageDuration);
    FirstOccurrencesOfDistinct(Selected(rows, outageDuration));
  }

  /** Preprocessing fails exactly when no raw row has the requested plant
      type, and the error then lists every plant type present, each once. */
  lemma PreprocessedFailure(raw: seq<RawOutage>, outageDuration: Option<int>, generationType: string)
    ensures Preprocessed(raw, outageDuration, generationType).Failure?
        <==> forall i :: 0 <= i < |raw| ==> raw[i].plantType != generationType
    ensures Preprocessed(raw, outageDuration, generationType).Failure? ==>
      var available := Preprocessed(raw, outageDuration, generationType).error.available;
      && NoDuplicates(available)
      && forall p :: p in available <==> exists i :: 0 <= i < |raw| && raw[i].plantType == p
  {
    var rows := Deduplicated(raw);
    DeduplicatedRows(raw);
    var types := seq(|rows|, i requires 0 <= i < |rows| => rows[i].plantType);
    FirstOccurrencesElements(types);
    FirstOccurrencesNoDuplicates(types);
    forall p ensures p in PlantTypes(rows) <==> exists i :: 0 <= i < |raw| && raw[i].plantType == p {
      if p in types {
        var j :| 0 <= j < |rows| && rows[j].plantType == p;
        assert rows[j] in rows;
        var i :| 0 <= i < |raw| && DropResolution(raw[i]) == rows[j];
        assert raw[i].plantType == p;
      }
      if exists i :: 0 <= i < |raw| && raw[i].plantType == p {
        var i :| 0 <= i < |raw| && raw[i].plantType == p;
        assert DropResolution(raw[i]) in rows;
        var j :| 0 <= j < |rows| && rows[j] == DropResolution(raw[i]);
        assert types[j] == p;
      }
    }
  }

  /** The generation type argument only decides whether preprocessing fails:
      two successful calls differing only in it return the same rows. */
  lemma GenerationTypeOnlyValidated(raw: seq<RawOutage>, outageDuration: Option<int>, g1: string, g2: string)
    requires Preprocessed(raw, outageDuration, g1).Success?
    requires Preprocessed(raw, outageDuration, g2).Success?
    ensures Preprocessed(raw, outageDuration, g1) == Preprocessed(raw, outageDuration, g2)
  {
  }

  /** When no deduplicated row is filtered out, the ids are exactly 0..n-1. */
  lemma {:induction false} SelectedAllKept(rows: seq<Announcement>, outageDuration: Option<int>)
    requires forall i :: 0 <= i < |rows| ==> Kept(rows[i], outageDuration)
    ensures |Selected(rows, outageDuration)| == |rows|
    ensures forall k :: 0 <= k < |rows| ==> Selected(rows, outageDuration)[k].uniqueId == k
  {
    if rows != [] {
      var n := |rows| - 1;
      SelectedAllKept(rows[..n], outageDuration);
    }
  }

  /** The output ids number the output rows 0..N-1. */
  predicate DenseIds(events: seq<OutageEvent>) {
    forall k :: 0 <= k < |events| ==> events[k].uniqueId == k
  }

  /** Every row that the filters drop comes after every row they keep. */
  predicate KeptFirst(rows: seq<Announcement>, outageDuration: Option<int>) {
    forall i, j :: 0 <= i < j < |rows| && !Kept(rows[i], outageDuration) ==> !Kept(rows[j], outageDuration)
  }

  /** The selection is never longer than its input, and as long exactly when
      every row is kept. */
  lemma {:induction false} SelectedLength(rows: seq<Announcement>, outageDuration: Option<int>)
    ensures |Selected(rows, outageDuration)| <= |rows|
    ensures |Selected(rows, outageDuration)| == |rows| <==> forall i :: 0 <= i < |rows| ==> Kept(rows[i], outageDuration)
  {
    if rows != [] {
      var n := |rows| - 1;
      SelectedLength(rows[..n], outageDuration);
      assert forall i :: 0 <= i < n ==> rows[..n][i] == rows[i];
    }
  }

  /** Because ids are given before filtering, they are 0..N-1 over the output
      exactly when no dropped row precedes a kept one. */
  lemma {:induction false} SelectedDenseIds(rows: seq<Announcement>, outageDuration: Option<int>)
    ensures DenseIds(Selected(rows, outageDuration)) <==> KeptFirst(rows, outageDuration)
  {
    if rows != [] {
      var n := |rows| - 1;
      var init := rows[..n];
      SelectedDenseIds(init, outageDuration);
      SelectedLength(init, outageDuration);
      var s' := Selected(init, outageDuration);
      var s := Selected(rows, outageDuration);
      assert forall i :: 0 <= i < n ==> init[i] == rows[i];
      if Kept(rows[n], outageDuration) {
        assert s == s' + [ToEvent(NumberedRow(rows[n], n))];
        if forall i :: 0 <= i < n ==> Kept(rows[i], outageDuration) {
          assert KeptFirst(init, outageDuration);
          assert DenseIds(s);
          assert KeptFirst(rows, outageDuration);
        } else {
          var i :| 0 <= i < n && !Kept(rows[i], outageDuration);
          assert |s'| < n;
          assert s[|s'|].uniqueId == n;
          assert !DenseIds(s);
          assert !KeptFirst(rows, outageDuration);
        }
      } else {
        assert s == s';
        assert KeptFirst(rows, outageDuration) <==> KeptFirst(init, outageDuration);
      }
    }
  }
}
