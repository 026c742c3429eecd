/**
 * `process_roll_shp`: the roll's point shapefile gives each evaluation unit
 * its coordinates.  The shapefile's records are split into one index range
 * per worker; a worker walks its range, writing each record's point into the
 * unit with the record's id, until an index is out of range; afterwards,
 * outside test mode, the units still without coordinates are deleted.
 */
module RollShapefile {
  import opened Wrappers
  import opened Registry

  // ---------------------------------------------------------------------------
  // `split_data_between_workers`

  datatype Split = Split(workerId: nat, start: nat, stop: nat)

  datatype SplitError = NoWorkers

  /** `math.ceil(num_units / num_workers)`. */
  function UnitsPerWorker(numUnits: nat, numWorkers: nat): (u: nat)
    requires numWorkers > 0
    ensures numUnits <= u * numWorkers
    ensures u > 0 ==> (u - 1) * numWorkers < numUnits
  {
    (numUnits + numWorkers - 1) / numWorkers
  }

  /** Worker `i` gets `[i·u, (i+1)·u)`, or `[i·u, i·u + 500)` in test mode. */
  function RangeOf(i: nat, u: nat, test: bool): Split
  {
    Split(i, i * u, if test then i * u + 500 else (i + 1) * u)
  }

  /**
   * One range per worker; no workers at all divides by zero, and a negative
   * count gives no ranges.
   */
  method SplitDataBetweenWorkers(numUnits: nat, numWorkers: int, test: bool) returns (r: Result<seq<Split>, SplitError>)
    ensures numWorkers == 0 <==> r.Err?
    ensures numWorkers < 0 ==> r == Ok([])
    ensures numWorkers > 0 ==> (r.Ok? && |r.value| == numWorkers &&
      forall i | 0 <= i < numWorkers :: r.value[i] == RangeOf(i, UnitsPerWorker(numUnits, numWorkers), test))
  {
    if numWorkers == 0 {
      return Err(NoWorkers);
    }
    if numWorkers < 0 {
      return Ok([]);
    }
    var u := UnitsPerWorker(numUnits, numWorkers);
    var splits: seq<Split> := [];
    for i := 0 to numWorkers
      invariant |splits| == i
      invariant forall k | 0 <= k < i :: splits[k] == RangeOf(k, u, test)
    {
      splits := splits + [RangeOf(i, u, test)];
    }
    r := Ok(splits);
  }

  predicate InRange(x: nat, s: Split)
  {
    s.start <= x < s.stop
  }

  /**
   * Outside test mode the ranges start at 0, each starts where the previous
   * one stops, the last reaches `numUnits` (it may run past it), and every
   * record index below `numUnits` lies in the range of worker `x / u` and in
   * no other.
   */
  lemma RangesPartition(numUnits: nat, n: nat)
    requires n > 0
    ensures var u := UnitsPerWorker(numUnits, n);
      RangeOf(0, u, false).start == 0 &&
      (forall i | 0 <= i < n - 1 :: RangeOf(i, u, false).stop == RangeOf(i + 1, u, false).start) &&
      RangeOf(n - 1, u, false).stop >= numUnits
    ensures var u := UnitsPerWorker(numUnits, n);
      forall x: nat | x < numUnits :: u > 0 && x / u < n && InRange(x, RangeOf(x / u, u, false))
    ensures var u := UnitsPerWorker(numUnits, n);
      forall x: nat, i | 0 <= i < n && InRange(x, RangeOf(i, u, false)) :: i == x / u
  {
    var u := UnitsPerWorker(numUnits, n);
    assert n * u >= numUnits;
    forall x: nat | x < numUnits
      ensures u > 0 && x / u < n && InRange(x, RangeOf(x / u, u, false))
    {
      var i := x / u;
      assert i * u <= x < (i + 1) * u;
      if i >= n {
        MulMonotone(n, i, u);
      }
    }
    forall x: nat, i | 0 <= i < n && InRange(x, RangeOf(i, u, false))
      ensures i == x / u
    {
      assert i * u <= x < i * u + u;
      DivBetween(x, i, u);
    }
  }

  lemma DivBetween(x: nat, i: nat, u: nat)
    requires u > 0 && i * u <= x < i * u + u
    ensures x / u == i
  {
    var q, r := x / u, x % u;
    assert x == q * u + r;
    if q < i {
      MulMonotone(q + 1, i, u);
    } else if q > i {
      MulMonotone(i + 1, q, u);
    }
  }

  lemma MulMonotone(a: nat, b: nat, u: nat)
    requires a <= b
    ensures a * u <= b * u
  {
  }

  /** In test mode neighbouring ranges overlap as soon as a worker's share is under 500 records. */
  lemma TestRangesOverlap(numUnits: nat, n: nat)
    requires n >= 2 && UnitsPerWorker(numUnits, n) < 500
    ensures var u := UnitsPerWorker(numUnits, n);
      RangeOf(1, u, true).start < RangeOf(0, u, true).stop
  {
  }

  // ---------------------------------------------------------------------------
  // `parse_shapefile`

  /** One shapefile record: its attribute fields (the first is the unit id) and its points. */
  datatype ShpEntry = ShpEntry(fields: seq<string>, points: seq<Point>)

  /** All three of the record lookup, the id field and the first point would raise `IndexError` otherwise. */
  predicate Readable(shp: seq<ShpEntry>, i: nat)
  {
    i < |shp| && |shp[i].fields| > 0 && |shp[i].points| > 0
  }

  /** `UPDATE ... SET lng, lat, point WHERE id = ...`. */
  function MoveTo(u: EvalUnit, p: Point): EvalUnit
  {
    u.(lng := Some(p.lng), lat := Some(p.lat), point := Some(p))
  }

  function IdIs(id: string): EvalUnit -> bool
  {
    (u: EvalUnit) => u.id == id
  }

  function Mover(p: Point): EvalUnit -> EvalUnit
  {
    (u: EvalUnit) => MoveTo(u, p)
  }

  datatype Visit = Stop | Skip | Updated(t: Table)

  /**
   * Index `i`: an `IndexError` ends the worker; an update the database
   * refuses (`rejects`) is skipped; otherwise the record's point is written.
   */
  function VisitIndex(i: nat, shp: seq<ShpEntry>, t: Table, rejects: string -> bool): Visit
  {
    if !Readable(shp, i) then Stop
    else if rejects(shp[i].fields[0]) then Skip
    else Updated(UpdateWhere(t, IdIs(shp[i].fields[0]), Mover(shp[i].points[0])))
  }

  /** The table after the worker's indices from `i` up to `stop`. */
  function RunFrom(i: nat, stop: nat, shp: seq<ShpEntry>, t: Table, rejects: string -> bool): Table
    decreases stop - i
  {
    if i >= stop then t
    else
      match VisitIndex(i, shp, t, rejects)
      case Stop => t
      case Skip => RunFrom(i + 1, stop, shp, t, rejects)
      case Updated(t1) => RunFrom(i + 1, stop, shp, t1, rejects)
  }

  method ParseShapefile(split: Split, shp: seq<ShpEntry>, units: Table, rejects: string -> bool) returns (t: Table)
    ensures t == RunFrom(split.start, split.stop, shp, units, rejects)
  {
    t := units;
    var i := split.start;
    while i < split.stop
      invariant RunFrom(i, split.stop, shp, t, rejects) == RunFrom(split.start, split.stop, shp, units, rejects)
      decreases split.stop - i
    {
      if !Readable(shp, i) {
        return;
      }
      var id := shp[i].fields[0];
      if !rejects(id) {
        t := UpdateWhere(t, IdIs(id), Mover(shp[i].points[0]));
      }
      i := i + 1;
    }
  }

  /** The first index from `i` on, below `stop`, whose record cannot be read; `stop` when there is none. */
  function FirstUnreadable(i: nat, stop: nat, shp: seq<ShpEntry>): (e: nat)
    ensures i <= stop ==> i <= e <= stop
    ensures forall j | i <= j < e :: Readable(shp, j)
    decreases stop - i
  {
    if i >= stop || !Readable(shp, i) then i else FirstUnreadable(i + 1, stop, shp)
  }

  /** Record `j` can be read and names unit `id`. */
  predicate Names(shp: seq<ShpEntry>, j: nat, id: string)
  {
    Readable(shp, j) && shp[j].fields[0] == id
  }

  /** The last index in `[i, e)` whose record names `id`. */
  function LastNaming(id: string, i: nat, e: nat, shp: seq<ShpEntry>): (r: Option<nat>)
    ensures r.Some? ==> i <= r.value < e && Names(shp, r.value, id) && forall j | r.value < j < e :: !Names(shp, j, id)
    ensures r.None? ==> forall j | i <= j < e :: !Names(shp, j, id)
    decreases e - i
  {
    if i >= e then None
    else match LastNaming(id, i + 1, e, shp)
      case Some(j) => Some(j)
      case None => if Names(shp, i, id) then Some(i) else None
  }

  /**
   * A unit after a worker's indices `[i, e)`, all readable: moved to the point
   * of the last record naming it, unless the database refuses its update or
   * no record names it.
   */
  function Located(u: EvalUnit, i: nat, e: nat, shp: seq<ShpEntry>, rejects: string -> bool): EvalUnit
  {
    match LastNaming(u.id, i, e, shp)
    case Some(j) => if rejects(u.id) then u else MoveTo(u, shp[j].points[0])
    case None => u
  }

  /** Each unit takes the point of the last record naming it before the first unreadable index. */
  predicate Relocated(t0: Table, t: Table, shp: seq<ShpEntry>, start: nat, stop: nat, rejects: string -> bool)
  {
    |t| == |t0| &&
    forall k | 0 <= k < |t| :: t[k] == Located(t0[k], start, FirstUnreadable(start, stop, shp), shp, rejects)
  }

  /** Writing a point twice keeps the second. */
  lemma MoveTwice(u: EvalUnit, p: Point, q: Point)
    ensures MoveTo(MoveTo(u, p), q) == MoveTo(u, q)
  {
  }

  /** One applied record, then the rest, locates a unit as the whole range does. */
  lemma LocatedStep(u: EvalUnit, i: nat, e: nat, shp: seq<ShpEntry>, rejects: string -> bool)
    requires i < e && Readable(shp, i) && !rejects(shp[i].fields[0])
    ensures Located(if u.id == shp[i].fields[0] then MoveTo(u, shp[i].points[0]) else u, i + 1, e, shp, rejects)
      == Located(u, i, e, shp, rejects)
  {
    var p := shp[i].points[0];
    if u.id == shp[i].fields[0] {
      match LastNaming(u.id, i + 1, e, shp)
      case Some(j) => MoveTwice(u, p, shp[j].points[0]);
      case None =>
    }
  }

  /** A refused record, then the rest, locates a unit as the whole range does. */
  lemma SkippedStep(u: EvalUnit, i: nat, e: nat, shp: seq<ShpEntry>, rejects: string -> bool)
    requires i < e && Readable(shp, i) && rejects(shp[i].fields[0])
    ensures Located(u, i + 1, e, shp, rejects) == Located(u, i, e, shp, rejects)
  {
  }

  lemma {:induction false} RunRelocates(i: nat, stop: nat, shp: seq<ShpEntry>, t: Table, rejects: string -> bool)
    ensures Relocated(t, RunFrom(i, stop, shp, t, rejects), shp, i, stop, rejects)
    decreases stop - i
  {
    var e := FirstUnreadable(i, stop, shp);
    if i >= stop || !Readable(shp, i) {
      assert e == i;
    } else {
      assert e == FirstUnreadable(i + 1, stop, shp);
      var r := RunFrom(i, stop, shp, t, rejects);
      match VisitIndex(i, shp, t, rejects)
      case Skip =>
        RunRelocates(i + 1, stop, shp, t, rejects);
        forall k | 0 <= k < |t| ensures r[k] == Located(t[k], i, e, shp, rejects) {
          SkippedStep(t[k], i, e, shp, rejects);
        }
      case Updated(t1) =>
        RunRelocates(i + 1, stop, shp, t1, rejects);
        forall k | 0 <= k < |t| ensures r[k] == Located(t[k], i, e, shp, rejects) {
          assert t1[k] == if t[k].id == shp[i].fields[0] then MoveTo(t[k], shp[i].points[0]) else t[k];
          LocatedStep(t[k], i, e, shp, rejects);
        }
    }
  }

  /** The first out-of-range index ends the worker: nothing after it is applied. */
  lemma {:induction false} StopIsFinal(i: nat, e: nat, stop: nat, shp: seq<ShpEntry>, t: Table, rejects: string -> bool)
    requires i <= e < stop && !Readable(shp, e)
    ensures RunFrom(i, stop, shp, t, rejects) == RunFrom(i, e, shp, t, rejects)
    decreases e - i
  {
    if i < e {
      match VisitIndex(i, shp, t, rejects)
      case Stop =>
      case Skip => StopIsFinal(i + 1, e, stop, shp, t, rejects);
      case Updated(t1) => StopIsFinal(i + 1, e, stop, shp, t1, rejects);
    }
  }

  /** A refused update changes nothing and the worker goes on to the next index. */
  lemma RejectedIsSkipped(i: nat, stop: nat, shp: seq<ShpEntry>, t: Table, rejects: string -> bool)
    requires i < stop && Readable(shp, i) && rejects(shp[i].fields[0])
    ensures RunFrom(i, stop, shp, t, rejects) == RunFrom(i + 1, stop, shp, t, rejects)
  {
  }

  // ---------------------------------------------------------------------------
  // `cleanup_entries_without_coords`

  predicate WithoutCoords(u: EvalUnit)
  {
    u.lat.None? || u.lng.None?
  }

  function NoCoords(): EvalUnit -> bool
  {
    (u: EvalUnit) => WithoutCoords(u)
  }

  /** The count of units without a latitude or a longitude, and the table once they are deleted. */
  function CleanupEntriesWithoutCoords(t: Table): (r: (nat, Table))
    ensures r.0 + |r.1| == |t| && r.0 == |Filter(t, NoCoords())|
    ensures forall u :: u in r.1 <==> u in t && !WithoutCoords(u)
  {
    DeleteWhere(t, NoCoords())
  }

  lemma {:induction false} FilterNothing(t: Table, keep: EvalUnit -> bool)
    requires forall k | 0 <= k < |t| :: !keep(t[k])
    ensures Filter(t, keep) == []
  {
    if t != [] {
      assert forall k | 0 <= k < |t[1..]| :: t[1..][k] == t[k + 1];
      FilterNothing(t[1..], keep);
    }
  }

  /** The closing `assert`: after the cleanup no unit lacks coordinates. */
  lemma CleanupLeavesNone(t: Table)
    ensures Filter(CleanupEntriesWithoutCoords(t).1, NoCoords()) == []
  {
    var kept := CleanupEntriesWithoutCoords(t).1;
    assert forall k | 0 <= k < |kept| :: kept[k] in kept;
    FilterNothing(kept, NoCoords());
  }

  /** The workers in turn (they touch disjoint index ranges), then the cleanup outside test mode. */
  function RunWorkers(splits: seq<Split>, shp: seq<ShpEntry>, t: Table, rejects: string -> bool): Table
    decreases |splits|
  {
    if splits == [] then t
    else RunWorkers(splits[1..], shp, RunFrom(splits[0].start, splits[0].stop, shp, t, rejects), rejects)
  }

  /** `handle`: the ranges, the workers, and the count cleaned up (none in test mode). */
  function ProcessRollShp(numWorkers: nat, shp: seq<ShpEntry>, t: Table, test: bool, rejects: string -> bool):
    (r: Result<(Table, Option<nat>), SplitError>)
    ensures numWorkers == 0 <==> r.Err?
    ensures r.Ok? ==> (test <==> r.value.1.None?)
    ensures r.Ok? && !test ==> forall u | u in r.value.0 :: !WithoutCoords(u)
  {
    if numWorkers == 0 then Err(NoWorkers)
    else
      var u := UnitsPerWorker(|shp|, numWorkers);
      var located := RunWorkers(seq(numWorkers, i requires 0 <= i < numWorkers => RangeOf(i, u, test)), shp, t, rejects);
      if test then Ok((located, None))
      else
        var (count, kept) := CleanupEntriesWithoutCoords(located);
        Ok((kept, Some(count)))
  }
}
