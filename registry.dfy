/**
 * The evaluation-unit table of the property assessment roll: one row per
 * evaluation unit, keyed by its 23-character provincial id.  A table is the
 * list of its rows in storage order; the loaders keep ids unique.
 */
module Registry {
  import opened Wrappers

  /** A PostGIS point, longitude first as `ST_MakePoint(lng, lat)` takes it. */
  datatype Point = Point(lng: real, lat: real)

  /** One row of the evaluation-unit table (the columns the pipeline writes). */
  datatype EvalUnit = EvalUnit(
    id: string,
    lat: Option<real>,
    lng: Option<real>,
    point: Option<Point>,
    lotId: Option<int>,
    lotGeom: Option<string>,
    year: Option<string>,
    muni: string,
    muniCode: Option<string>,
    arrond: Option<string>,
    address: string,
    numAdrInf: Option<string>,
    numAdrInf2: Option<string>,
    numAdrSup: Option<string>,
    numAdrSup2: Option<string>,
    streetName: Option<string>,
    aptNum: Option<string>,
    aptNum1: Option<string>,
    aptNum2: Option<string>,
    mat18: string,
    cubf: int,
    fileNum: Option<string>,
    nghbrUnit: Option<string>,
    ownerDate: Option<string>,
    ownerType: Option<string>,
    ownerStatus: Option<string>,
    lotLinDim: Option<real>,
    lotArea: Option<real>,
    maxFloors: Option<int>,
    constYr: Option<int>,
    constYrReal: Option<string>,
    floorArea: Option<real>,
    physLink: Option<string>,
    constType: Option<string>,
    numDwelling: Option<int>,
    numRental: Option<int>,
    numNonRes: Option<int>,
    appraisDate: Option<string>,
    lotValue: Option<real>,
    buildingValue: Option<real>,
    value: Option<real>,
    prevValue: Option<real>
  )

  type Table = seq<EvalUnit>

  predicate HasId(t: Table, id: string)
  {
    exists k | 0 <= k < |t| :: t[k].id == id
  }

  /** The primary-key constraint. */
  predicate UniqueIds(t: Table)
  {
    forall i, j | 0 <= i < j < |t| :: t[i].id != t[j].id
  }

  /** The rows of `t` satisfying `keep`, in storage order (a `SELECT ... WHERE`). */
  function Filter(t: Table, keep: EvalUnit -> bool): (r: Table)
    ensures |r| <= |t|
    ensures forall u :: u in r <==> u in t && keep(u)
  {
    if t == [] then []
    else (if keep(t[0]) then [t[0]] else []) + Filter(t[1..], keep)
  }

  /** Rows that keep their place in a filtered table keep their ids unique. */
  lemma {:induction false} FilterUnique(t: Table, keep: EvalUnit -> bool)
    requires UniqueIds(t)
    ensures UniqueIds(Filter(t, keep))
  {
    if t != [] {
      assert UniqueIds(t[1..]) by {
        forall i, j | 0 <= i < j < |t[1..]| ensures t[1..][i].id != t[1..][j].id {
          assert t[1..][i] == t[i + 1] && t[1..][j] == t[j + 1];
        }
      }
      FilterUnique(t[1..], keep);
      var rest := Filter(t[1..], keep);
      if keep(t[0]) {
        forall k | 0 <= k < |rest| ensures rest[k].id != t[0].id {
          assert rest[k] in t[1..];
          var m :| 0 <= m < |t[1..]| && t[1..][m] == rest[k];
          assert t[m + 1] == rest[k];
        }
        var r := [t[0]] + rest;
        forall i, j | 0 <= i < j < |r| ensures r[i].id != r[j].id {
          if i > 0 {
            assert r[i] == rest[i - 1] && r[j] == rest[j - 1];
          }
        }
      }
    }
  }

  /**
   * `DELETE ... WHERE` with the prior count: the number of rows deleted and
   * what is left, which is every row not deleted, as often as the table holds it.
   */
  function DeleteWhere(t: Table, gone: EvalUnit -> bool): (r: (nat, Table))
    ensures r.0 + |r.1| == |t|
    ensures forall u :: u in r.1 <==> u in t && !gone(u)
    ensures forall u :: multiset(r.1)[u] == if gone(u) then 0 else multiset(t)[u]
  {
    var kept := Filter(t, Complement(gone));
    CountSplit(t, gone);
    FilterCounts(t, Complement(gone));
    (|Filter(t, gone)|, kept)
  }

  /** A filtered table holds each row it keeps as often as the table does, and no other. */
  lemma {:induction false} FilterCounts(t: Table, keep: EvalUnit -> bool)
    ensures forall u :: multiset(Filter(t, keep))[u] == if keep(u) then multiset(t)[u] else 0
  {
    if t != [] {
      FilterCounts(t[1..], keep);
      assert t == [t[0]] + t[1..];
    }
  }

  function Complement(p: EvalUnit -> bool): EvalUnit -> bool
  {
    u => !p(u)
  }

  lemma {:induction false} CountSplit(t: Table, gone: EvalUnit -> bool)
    ensures |Filter(t, gone)| + |Filter(t, Complement(gone))| == |t|
  {
    if t != [] {
      CountSplit(t[1..], gone);
    }
  }

  /** `UPDATE ... SET ... WHERE`: every row satisfying `hit` is rewritten by `change`. */
  function UpdateWhere(t: Table, hit: EvalUnit -> bool, change: EvalUnit -> EvalUnit): (r: Table)
    ensures |r| == |t|
    ensures forall k | 0 <= k < |t| :: r[k] == (if hit(t[k]) then change(t[k]) else t[k])
  {
    if t == [] then [] else [if hit(t[0]) then change(t[0]) else t[0]] + UpdateWhere(t[1..], hit, change)
  }

  /** The ids of a table, in storage order. */
  function Ids(t: Table): (r: seq<string>)
    ensures |r| == |t|
    ensures forall k | 0 <= k < |t| :: r[k] == t[k].id
  {
    if t == [] then [] else [t[0].id] + Ids(t[1..])
  }
}
