/**
 * MURB aggregation (`aggregate_murbs`): the roll lists every dwelling of a
 * multi-unit residential building (CUBF 1000) as its own evaluation unit.
 * Units sharing latitude, longitude, address and municipality are merged into
 * one synthetic unit whose id ends in `9999`; the members are archived in the
 * `murb_disag` table and deleted from the evaluation-unit table.
 */
module MurbAggregation {
  import opened Wrappers
  import opened Text
  import opened Registry

  const MurbCubf := 1000

  /** The grouping key of `get_duplicated_MURBs`. */
  datatype Key = Key(address: string, muni: string, lat: Option<real>, lng: Option<real>)

  /** One row of `get_duplicated_MURBs`: a key, its member count and `sum(num_dwelling)`. */
  datatype Cluster = Cluster(key: Key, numDuplicates: nat, sumDwellings: Option<int>)

  /** A row of `murb_disag`: an archived member with the id of its aggregate. */
  datatype Archived = Archived(unit: EvalUnit, aggId: string)

  function KeyOf(u: EvalUnit): Key
  {
    Key(u.address, u.muni, u.lat, u.lng)
  }

  predicate IsMurb(u: EvalUnit)
  {
    u.cubf == MurbCubf
  }

  // ---------------------------------------------------------------------------
  // `get_duplicated_MURBs`: GROUP BY lat, lng, address, muni over CUBF 1000,
  // keeping the groups with more than one row.

  /** The rows of group `k` (GROUP BY puts NULL coordinates in one group). */
  function Group(t: Table, k: Key): (r: Table)
    ensures forall u :: u in r <==> u in t && IsMurb(u) && KeyOf(u) == k
  {
    Filter(t, u => IsMurb(u) && KeyOf(u) == k)
  }

  /** SQL `sum(num_dwelling)`: NULL when every value is NULL, else the sum of the others. */
  function SqlSum(t: Table): (r: Option<int>)
    ensures r.None? <==> forall k | 0 <= k < |t| :: t[k].numDwelling.None?
    decreases |t|
  {
    if t == [] then None
    else
      var rest := SqlSum(t[..|t| - 1]);
      var last := t[|t| - 1].numDwelling;
      if last.None? then rest
      else if rest.None? then last
      else Some(rest.value + last.value)
  }

  /** The distinct keys of the CUBF-1000 rows, in order of first appearance. */
  function MurbKeys(t: Table): (r: seq<Key>)
    ensures forall i, j | 0 <= i < j < |r| :: r[i] != r[j]
    ensures forall k :: k in r <==> exists m | 0 <= m < |t| :: IsMurb(t[m]) && KeyOf(t[m]) == k
    decreases |t|
  {
    if t == [] then []
    else
      var ks := MurbKeys(t[..|t| - 1]);
      var u := t[|t| - 1];
      assert forall m | 0 <= m < |t| - 1 :: t[..|t| - 1][m] == t[m];
      if IsMurb(u) && KeyOf(u) !in ks then ks + [KeyOf(u)] else ks
  }

  lemma MurbKeysCover(t: Table)
    ensures forall m | 0 <= m < |t| && IsMurb(t[m]) :: KeyOf(t[m]) in MurbKeys(t)
  {
    forall m | 0 <= m < |t| && IsMurb(t[m]) ensures KeyOf(t[m]) in MurbKeys(t) { }
  }

  /** One cluster per key of `keys` with more than one row, in the order of `keys`. */
  function ClustersOf(t: Table, keys: seq<Key>): (r: seq<Cluster>)
    ensures forall c | c in r :: c.key in keys
  {
    if keys == [] then []
    else
      var g := Group(t, keys[0]);
      var rest := ClustersOf(t, keys[1..]);
      if |g| > 1 then [Cluster(keys[0], |g|, SqlSum(g))] + rest else rest
  }

  /** Each cluster carries its group's count and sum, and no key of more than one row is missed. */
  lemma {:induction false} ClustersCounted(t: Table, keys: seq<Key>)
    ensures forall c | c in ClustersOf(t, keys) :: c.numDuplicates == |Group(t, c.key)| > 1 && c.sumDwellings == SqlSum(Group(t, c.key))
    ensures forall k | k in keys && |Group(t, k)| > 1 :: exists c | c in ClustersOf(t, keys) :: c.key == k
  {
    if keys != [] {
      ClustersCounted(t, keys[1..]);
      forall k | k in keys && |Group(t, k)| > 1 ensures exists c | c in ClustersOf(t, keys) :: c.key == k {
        if k != keys[0] {
          assert k in keys[1..];
        } else {
          var g := Group(t, keys[0]);
          assert Cluster(keys[0], |g|, SqlSum(g)) in ClustersOf(t, keys);
        }
      }
    }
  }

  predicate DistinctKeys(cs: seq<Cluster>)
  {
    forall i, j | 0 <= i < j < |cs| :: cs[i].key != cs[j].key
  }

  /** With distinct keys, no two clusters share a key. */
  lemma {:induction false} ClustersDistinct(t: Table, keys: seq<Key>)
    requires forall i, j | 0 <= i < j < |keys| :: keys[i] != keys[j]
    ensures DistinctKeys(ClustersOf(t, keys))
  {
    if keys != [] {
      var rest := ClustersOf(t, keys[1..]);
      TailDistinct(keys);
      ClustersDistinct(t, keys[1..]);
      var g := Group(t, keys[0]);
      if |g| > 1 {
        ConsDistinct(Cluster(keys[0], |g|, SqlSum(g)), rest);
      }
    }
  }

  /** The tail of distinct keys is distinct and misses the head. */
  lemma TailDistinct(keys: seq<Key>)
    requires keys != [] && forall i, j | 0 <= i < j < |keys| :: keys[i] != keys[j]
    ensures forall i, j | 0 <= i < j < |keys[1..]| :: keys[1..][i] != keys[1..][j]
    ensures keys[0] !in keys[1..]
  {
    forall i, j | 0 <= i < j < |keys[1..]| ensures keys[1..][i] != keys[1..][j] {
      assert keys[1..][i] == keys[i + 1] && keys[1..][j] == keys[j + 1];
    }
    forall j | 0 <= j < |keys[1..]| ensures keys[1..][j] != keys[0] {
      assert keys[1..][j] == keys[j + 1];
    }
  }

  /** A cluster whose key no later cluster has keeps the keys distinct. */
  lemma ConsDistinct(c: Cluster, rest: seq<Cluster>)
    requires DistinctKeys(rest) && forall x | x in rest :: x.key != c.key
    ensures DistinctKeys([c] + rest)
  {
    var r := [c] + rest;
    forall i, j | 0 <= i < j < |r| ensures r[i].key != r[j].key {
      assert r[j] == rest[j - 1];
      if i > 0 {
        assert r[i] == rest[i - 1];
      } else {
        assert rest[j - 1] in rest;
      }
    }
  }

  /**
   * The clusters to merge: one per key of more than one CUBF-1000 row, with
   * its row count and dwelling sum, no key twice.  (The query's ORDER BY
   * count is not modelled; see README.)
   */
  function GetDuplicatedMurbs(t: Table): (r: seq<Cluster>)
    ensures forall c | c in r :: c.numDuplicates == |Group(t, c.key)| > 1 && c.sumDwellings == SqlSum(Group(t, c.key))
    ensures forall m | 0 <= m < |t| && IsMurb(t[m]) && |Group(t, KeyOf(t[m]))| > 1 :: exists c | c in r :: c.key == KeyOf(t[m])
    ensures DistinctKeys(r)
  {
    var keys := MurbKeys(t);
    MurbKeysCover(t);
    ClustersCounted(t, keys);
    ClustersDistinct(t, keys);
    ClustersOf(t, keys)
  }

  // ---------------------------------------------------------------------------
  // Merging one cluster.

  /** `SQL_GET_DUPLICATES`: every row with the key, whatever its CUBF; `lat = NULL` matches nothing. */
  predicate Matches(u: EvalUnit, k: Key)
  {
    k.lat.Some? && k.lng.Some? && u.lat == k.lat && u.lng == k.lng && u.address == k.address && u.muni == k.muni
  }

  function Duplicates(t: Table, k: Key): (r: Table)
    ensures forall u :: u in r <==> u in t && Matches(u, k)
  {
    Filter(t, u => Matches(u, k))
  }

  /** The column `f` of the members, in member order. */
  function Column<T>(ds: Table, f: EvalUnit -> T): (r: seq<T>)
    ensures |r| == |ds| && forall k | 0 <= k < |ds| :: r[k] == f(ds[k])
    decreases |ds|
  {
    if ds == [] then []
    else
      var r := Column(ds[..|ds| - 1], f) + [f(ds[|ds| - 1])];
      assert forall k | 0 <= k < |ds| - 1 :: ds[..|ds| - 1][k] == ds[k];
      r
  }

  function IdOf(u: EvalUnit): string { u.id }
  function YearOf(u: EvalUnit): Option<string> { u.year }
  function NghbrUnitOf(u: EvalUnit): Option<string> { u.nghbrUnit }
  function OwnerDateOf(u: EvalUnit): Option<string> { u.ownerDate }
  function OwnerTypeOf(u: EvalUnit): Option<string> { u.ownerType }
  function OwnerStatusOf(u: EvalUnit): Option<string> { u.ownerStatus }
  function ConstYrOf(u: EvalUnit): Option<int> { u.constYr }
  function ConstYrRealOf(u: EvalUnit): Option<string> { u.constYrReal }
  function AppraisDateOf(u: EvalUnit): Option<string> { u.appraisDate }
  function NumRentalOf(u: EvalUnit): Option<int> { u.numRental }
  function NumNonResOf(u: EvalUnit): Option<int> { u.numNonRes }
  function LotLinDimOf(u: EvalUnit): Option<real> { u.lotLinDim }
  function LotAreaOf(u: EvalUnit): Option<real> { u.lotArea }
  function FloorAreaOf(u: EvalUnit): Option<real> { u.floorArea }
  function LotValueOf(u: EvalUnit): Option<real> { u.lotValue }
  function BuildingValueOf(u: EvalUnit): Option<real> { u.buildingValue }
  function ValueOf(u: EvalUnit): Option<real> { u.value }
  function PrevValueOf(u: EvalUnit): Option<real> { u.prevValue }

  /** Python truthiness of a nullable number: present and non-zero. */
  function Nonzero(x: Option<real>): seq<real>
  {
    if x.Some? && x.value != 0.0 then [x.value] else []
  }

  /** The truthy values, in order. */
  function Truthy(xs: seq<Option<real>>): seq<real>
    decreases |xs|
  {
    if xs == [] then [] else Truthy(xs[..|xs| - 1]) + Nonzero(xs[|xs| - 1])
  }

  /** `x` is one of the present, non-zero values. */
  predicate PresentNonzero(xs: seq<Option<real>>, x: real)
  {
    exists k | 0 <= k < |xs| :: xs[k] == Some(x) && x != 0.0
  }

  /** Truthy keeps exactly the present, non-zero values. */
  lemma TruthyMembers(xs: seq<Option<real>>)
    ensures forall x :: x in Truthy(xs) <==> PresentNonzero(xs, x)
  {
    forall x ensures x in Truthy(xs) <==> PresentNonzero(xs, x) {
      TruthyHas(xs, x);
    }
  }

  lemma {:induction false} TruthyHas(xs: seq<Option<real>>, x: real)
    ensures x in Truthy(xs) <==> PresentNonzero(xs, x)
    decreases |xs|
  {
    if xs != [] {
      var n := |xs| - 1;
      var init := xs[..n];
      TruthyHas(init, x);
      assert Truthy(xs) == Truthy(init) + Nonzero(xs[n]);
      if PresentNonzero(init, x) {
        var k :| 0 <= k < n && init[k] == Some(x) && x != 0.0;
        assert xs[k] == init[k];
      }
      if PresentNonzero(xs, x) {
        var k :| 0 <= k < |xs| && xs[k] == Some(x) && x != 0.0;
        if k < n {
          assert init[k] == xs[k];
        }
      }
    }
  }

  /** Sum of the present values, NULL counting as 0. */
  function SumPresent(xs: seq<Option<int>>): int
    decreases |xs|
  {
    if xs == [] then 0 else SumPresent(xs[..|xs| - 1]) + xs[|xs| - 1].GetOr(0)
  }

  /** `int(apt_num_1)` when `apt_num_1` is a non-empty parsable string. */
  function AptNumber(u: EvalUnit): Option<int>
  {
    if u.aptNum1.Some? && u.aptNum1.value != "" then ParseInt(u.aptNum1.value) else None
  }

  /** The larger of 0 and every present value. */
  function MaxPresent(xs: seq<Option<int>>): (r: int)
    ensures r >= 0
    ensures forall k | 0 <= k < |xs| && xs[k].Some? :: xs[k].value <= r
    ensures r == 0 || exists k | 0 <= k < |xs| :: xs[k] == Some(r)
    decreases |xs|
  {
    if xs == [] then 0
    else
      var n := |xs| - 1;
      var before := MaxPresent(xs[..n]);
      assert forall k | 0 <= k < n :: xs[..n][k] == xs[k];
      if xs[n].Some? && xs[n].value > before then xs[n].value else before
  }

  /** `max_apt_num`: 0 or a member's apartment number, and no parsable apartment number exceeds it. */
  function MaxAptNum(ds: Table): (r: int)
    ensures r >= 0
    ensures forall k | 0 <= k < |ds| && AptNumber(ds[k]).Some? :: AptNumber(ds[k]).value <= r
    ensures r == 0 || exists k | 0 <= k < |ds| :: AptNumber(ds[k]) == Some(r)
  {
    MaxPresent(Column(ds, AptNumber))
  }

  /** Keeping the larger apartment number is taking the maximum over one more member. */
  lemma MaxSnoc(ds: Table, i: nat)
    requires i < |ds|
    ensures MaxAptNum(ds[..i + 1])
         == (var a := AptNumber(ds[i]); if a.Some? && a.value > MaxAptNum(ds[..i]) then a.value else MaxAptNum(ds[..i]))
  {
    ColumnSnoc(ds, i, AptNumber);
    var xs := Column(ds[..i], AptNumber);
    assert (xs + [AptNumber(ds[i])])[..|xs|] == xs;
  }

  /** What the member loop gathers. */
  datatype Gathered = Gathered(
    ids: seq<string>,
    years: seq<Option<string>>, nghbrUnits: seq<Option<string>>, ownerDates: seq<Option<string>>,
    ownerTypes: seq<Option<string>>, ownerStatuses: seq<Option<string>>, constYears: seq<Option<int>>,
    constYearsReal: seq<Option<string>>, appraisDates: seq<Option<string>>,
    numRentals: int, numNonRes: int,
    lotLinDims: seq<real>, lotAreas: seq<real>, floorAreas: seq<real>, lotValues: seq<real>,
    buildingValues: seq<real>, values: seq<real>, prevValues: seq<real>,
    maxAptNum: int)

  /**
   * What the loop gathers over `ds`: every member's id and categorical values,
   * the sums of the rental and non-residential counts (NULL as 0), the truthy
   * measures, and the largest apartment number.
   */
  function GatherAll(ds: Table): Gathered
  {
    Gathered(
      Column(ds, IdOf),
      Column(ds, YearOf), Column(ds, NghbrUnitOf), Column(ds, OwnerDateOf),
      Column(ds, OwnerTypeOf), Column(ds, OwnerStatusOf), Column(ds, ConstYrOf),
      Column(ds, ConstYrRealOf), Column(ds, AppraisDateOf),
      SumPresent(Column(ds, NumRentalOf)), SumPresent(Column(ds, NumNonResOf)),
      Truthy(Column(ds, LotLinDimOf)), Truthy(Column(ds, LotAreaOf)), Truthy(Column(ds, FloorAreaOf)),
      Truthy(Column(ds, LotValueOf)), Truthy(Column(ds, BuildingValueOf)),
      Truthy(Column(ds, ValueOf)), Truthy(Column(ds, PrevValueOf)),
      MaxAptNum(ds))
  }

  function AddTruthy(acc: int, x: Option<int>): int
  {
    if x.Some? && x.value != 0 then acc + x.value else acc
  }

  /** One pass of the member loop: append, add when truthy, keep the larger apartment number. */
  function GatherStep(g: Gathered, d: EvalUnit): Gathered
  {
    Gathered(
      g.ids + [d.id],
      g.years + [d.year], g.nghbrUnits + [d.nghbrUnit], g.ownerDates + [d.ownerDate],
      g.ownerTypes + [d.ownerType], g.ownerStatuses + [d.ownerStatus], g.constYears + [d.constYr],
      g.constYearsReal + [d.constYrReal], g.appraisDates + [d.appraisDate],
      AddTruthy(g.numRentals, d.numRental), AddTruthy(g.numNonRes, d.numNonRes),
      g.lotLinDims + Nonzero(d.lotLinDim), g.lotAreas + Nonzero(d.lotArea), g.floorAreas + Nonzero(d.floorArea),
      g.lotValues + Nonzero(d.lotValue), g.buildingValues + Nonzero(d.buildingValue),
      g.values + Nonzero(d.value), g.prevValues + Nonzero(d.prevValue),
      if AptNumber(d).Some? && AptNumber(d).value > g.maxAptNum then AptNumber(d).value else g.maxAptNum)
  }

  /** One more member extends what was gathered by one loop pass. */
  lemma GatherOneMore(ds: Table, i: nat)
    requires i < |ds|
    ensures GatherStep(GatherAll(ds[..i]), ds[i]) == GatherAll(ds[..i + 1])
  {
    ColumnSnoc(ds, i, IdOf);
    ColumnSnoc(ds, i, YearOf);
    ColumnSnoc(ds, i, NghbrUnitOf);
    ColumnSnoc(ds, i, OwnerDateOf);
    ColumnSnoc(ds, i, OwnerTypeOf);
    ColumnSnoc(ds, i, OwnerStatusOf);
    ColumnSnoc(ds, i, ConstYrOf);
    ColumnSnoc(ds, i, ConstYrRealOf);
    ColumnSnoc(ds, i, AppraisDateOf);
    SumSnoc(ds, i, NumRentalOf);
    SumSnoc(ds, i, NumNonResOf);
    TruthySnoc(ds, i, LotLinDimOf);
    TruthySnoc(ds, i, LotAreaOf);
    TruthySnoc(ds, i, FloorAreaOf);
    TruthySnoc(ds, i, LotValueOf);
    TruthySnoc(ds, i, BuildingValueOf);
    TruthySnoc(ds, i, ValueOf);
    TruthySnoc(ds, i, PrevValueOf);
    MaxSnoc(ds, i);
    assert ds[..i + 1][..i] == ds[..i];
  }

  lemma ColumnSnoc<T>(ds: Table, i: nat, f: EvalUnit -> T)
    requires i < |ds|
    ensures Column(ds[..i + 1], f) == Column(ds[..i], f) + [f(ds[i])]
  {
    assert ds[..i + 1][..i] == ds[..i];
  }

  lemma SumSnoc(ds: Table, i: nat, f: EvalUnit -> Option<int>)
    requires i < |ds|
    ensures SumPresent(Column(ds[..i + 1], f)) == AddTruthy(SumPresent(Column(ds[..i], f)), f(ds[i]))
  {
    ColumnSnoc(ds, i, f);
    SumPresentSnoc(Column(ds[..i], f), f(ds[i]));
  }

  /** Adding when truthy is adding the value, NULL as 0. */
  lemma SumPresentSnoc(xs: seq<Option<int>>, x: Option<int>)
    ensures SumPresent(xs + [x]) == AddTruthy(SumPresent(xs), x)
  {
    assert (xs + [x])[..|xs|] == xs;
  }

  lemma TruthySnoc(ds: Table, i: nat, f: EvalUnit -> Option<real>)
    requires i < |ds|
    ensures Truthy(Column(ds[..i + 1], f)) == Truthy(Column(ds[..i], f)) + Nonzero(f(ds[i]))
  {
    ColumnSnoc(ds, i, f);
    var xs := Column(ds[..i], f);
    assert (xs + [f(ds[i])])[..|xs|] == xs;
  }

  /** The member loop of `aggregate_murbs`. */
  method GatherMembers(ds: Table) returns (g: Gathered)
    ensures g == GatherAll(ds)
  {
    g := Gathered([], [], [], [], [], [], [], [], [], 0, 0, [], [], [], [], [], [], [], 0);
    var i := 0;
    while i < |ds|
      invariant 0 <= i <= |ds|
      invariant g == GatherAll(ds[..i])
    {
      var d := ds[i];
      GatherOneMore(ds, i);
      g := GatherStep(g, d);
      i := i + 1;
    }
    assert ds[..|ds|] == ds;
  }

  // `Counter(xs).most_common(1)[0][0]`.

  function Count<T(==)>(xs: seq<T>, v: T): nat
  {
    multiset(xs)[v]
  }

  /** The scan of `max` over the counter's items, which keep first-appearance order. */
  function Scan<T(==)>(xs: seq<T>, i: nat, b: nat): (r: nat)
    requires b < i <= |xs|
    requires forall j | 0 <= j < i :: Count(xs, xs[j]) <= Count(xs, xs[b])
    requires forall j | 0 <= j < b :: Count(xs, xs[j]) < Count(xs, xs[b])
    ensures r < |xs|
    ensures forall j | 0 <= j < |xs| :: Count(xs, xs[j]) <= Count(xs, xs[r])
    ensures forall j | 0 <= j < r :: Count(xs, xs[j]) < Count(xs, xs[r])
    decreases |xs| - i
  {
    if i == |xs| then b
    else if Count(xs, xs[i]) > Count(xs, xs[b]) then Scan(xs, i + 1, i)
    else Scan(xs, i + 1, b)
  }

  /**
   * The most frequent value; among equally frequent values, the one seen
   * first (no earlier position holds a value as frequent).
   */
  function MostCommon<T(==)>(xs: seq<T>): (r: T)
    requires |xs| > 0
    ensures r in xs
    ensures forall j | 0 <= j < |xs| :: Count(xs, xs[j]) <= Count(xs, r)
    ensures exists b | 0 <= b < |xs| :: xs[b] == r && forall j | 0 <= j < b :: Count(xs, xs[j]) < Count(xs, r)
  {
    var b := Scan(xs, 1, 0);
    xs[b]
  }

  // `_sum_or_none` and `_average_or_none` (without the rounding to 2 places).

  function Sum(xs: seq<real>): real
    decreases |xs|
  {
    if xs == [] then 0.0 else Sum(xs[..|xs| - 1]) + xs[|xs| - 1]
  }

  function SumOrNone(xs: seq<real>): (r: Option<real>)
    ensures r.None? <==> xs == []
    ensures r.Some? ==> r.value == Sum(xs)
  {
    if xs == [] then None else Some(Sum(xs))
  }

  function AverageOrNone(xs: seq<real>): (r: Option<real>)
    ensures r.None? <==> xs == []
    ensures r.Some? ==> r.value * (|xs| as real) == Sum(xs)
  {
    if xs == [] then None else Some(Sum(xs) / (|xs| as real))
  }

  /** The mean lies between the least and the greatest value. */
  lemma {:induction false} SumBounds(xs: seq<real>, lo: real, hi: real)
    requires forall k | 0 <= k < |xs| :: lo <= xs[k] <= hi
    ensures (|xs| as real) * lo <= Sum(xs) <= (|xs| as real) * hi
    decreases |xs|
  {
    if xs != [] {
      assert forall k | 0 <= k < |xs| - 1 :: xs[..|xs| - 1][k] == xs[k];
      SumBounds(xs[..|xs| - 1], lo, hi);
    }
  }

  lemma AverageBetween(xs: seq<real>, lo: real, hi: real)
    requires xs != [] && forall k | 0 <= k < |xs| :: lo <= xs[k] <= hi
    ensures lo <= AverageOrNone(xs).value <= hi
  {
    SumBounds(xs, lo, hi);
    var n := |xs| as real;
    var a := AverageOrNone(xs).value;
    assert a * n == Sum(xs);
  }

  /** `infer_number_of_floors`, with the hard-coded building compared exactly. */
  function InferNumberOfFloors(maxAptNum: int, lat: Option<real>, lng: Option<real>): (r: int)
    ensures maxAptNum >= 0 ==> 0 <= r <= 99
    ensures 0 <= maxAptNum < 10 ==> r == 0
  {
    if maxAptNum >= 10000 then
      if lat == Some(46.7174122671) && lng == Some(-71.2773427875) then 3 else 10
    else if maxAptNum >= 1000 then
      maxAptNum / 100
    else
      maxAptNum / 10
  }

  /** The heuristic reads the leading digits: 305 gives 30, 1204 gives 12, and 9999 gives more floors than 10000. */
  lemma FloorExamples()
    ensures InferNumberOfFloors(305, None, None) == 30
    ensures InferNumberOfFloors(1204, None, None) == 12
    ensures InferNumberOfFloors(9999, None, None) == 99 && InferNumberOfFloors(10000, None, None) == 10
    ensures InferNumberOfFloors(10000, Some(46.7174122671), Some(-71.2773427875)) == 3
  {
  }

  /** `dupe['id'][:-4] + '9999'`: the same length for ids of four characters or more, ending in 9999. */
  function AggregateId(id: string): (r: string)
    ensures |id| >= 4 ==> |r| == |id| && r[..|id| - 4] == id[..|id| - 4]
    ensures |r| >= 4 && r[|r| - 4..] == "9999"
  {
    DropLast(id, 4) + "9999"
  }

  /** An id that already ends in 9999 is its own aggregate id. */
  lemma AggregateIdFixed(id: string)
    requires |id| >= 4 && id[|id| - 4..] == "9999"
    ensures AggregateId(id) == id
  {
    assert id == id[..|id| - 4] + id[|id| - 4..];
  }

  /** The categorical columns of the aggregate, each the members' most common value. */
  datatype Votes = Votes(
    year: Option<string>, nghbrUnit: Option<string>, ownerDate: Option<string>, ownerType: Option<string>,
    ownerStatus: Option<string>, constYr: Option<int>, constYrReal: Option<string>, appraisDate: Option<string>)

  /** Every categorical column has a value to vote on. */
  predicate Votable(g: Gathered)
  {
    |g.years| > 0 && |g.nghbrUnits| > 0 && |g.ownerDates| > 0 && |g.ownerTypes| > 0 &&
    |g.ownerStatuses| > 0 && |g.constYears| > 0 && |g.constYearsReal| > 0 && |g.appraisDates| > 0
  }

  function Vote(g: Gathered): Votes
    requires Votable(g)
  {
    Votes(MostCommon(g.years), MostCommon(g.nghbrUnits), MostCommon(g.ownerDates), MostCommon(g.ownerTypes),
      MostCommon(g.ownerStatuses), MostCommon(g.constYears), MostCommon(g.constYearsReal), MostCommon(g.appraisDates))
  }

  /**
   * The row `SQL_INSERT_AGGREGATED_MURB` writes: key fields from the
   * cluster, categorical fields by vote, sums and means of the members,
   * location and code fields from the last member.  The INSERT lists no
   * civic-number, apartment or file-number column, so those stay NULL.
   */
  function AggregateRow(c: Cluster, ds: Table, g: Gathered): EvalUnit
    requires |ds| > 0 && Votable(g)
  {
    var last := ds[|ds| - 1];
    var v := Vote(g);
    EvalUnit(
      id := AggregateId(last.id), lat := c.key.lat, lng := c.key.lng, point := last.point,
      lotId := last.lotId, lotGeom := last.lotGeom,
      year := v.year, muni := c.key.muni, muniCode := last.muniCode, arrond := last.arrond,
      address := c.key.address,
      numAdrInf := None, numAdrInf2 := None, numAdrSup := None, numAdrSup2 := None,
      streetName := last.streetName,
      aptNum := None, aptNum1 := None, aptNum2 := None,
      mat18 := AggregateId(last.mat18), cubf := last.cubf, fileNum := None,
      nghbrUnit := v.nghbrUnit, ownerDate := v.ownerDate,
      ownerType := v.ownerType, ownerStatus := v.ownerStatus,
      lotLinDim := AverageOrNone(g.lotLinDims), lotArea := SumOrNone(g.lotAreas),
      maxFloors := Some(InferNumberOfFloors(g.maxAptNum, c.key.lat, c.key.lng)),
      constYr := v.constYr, constYrReal := v.constYrReal,
      floorArea := SumOrNone(g.floorAreas),
      physLink := Some("1"), constType := Some("5"),
      numDwelling := c.sumDwellings, numRental := Some(g.numRentals), numNonRes := Some(g.numNonRes),
      appraisDate := v.appraisDate,
      lotValue := SumOrNone(g.lotValues), buildingValue := SumOrNone(g.buildingValues),
      value := SumOrNone(g.values), prevValue := SumOrNone(g.prevValues))
  }

  /**
   * The aggregate takes its ids from the last member with the suffix 9999,
   * matches its own key exactly when the key has coordinates, is a detached
   * (physical link 1) building of construction type 5, carries the cluster's
   * dwelling sum and the last member's CUBF, and has no civic number,
   * apartment number or file number.
   */
  lemma AggregateRowShape(c: Cluster, ds: Table, g: Gathered)
    requires |ds| > 0 && Votable(g)
    ensures RowShape(AggregateRow(c, ds, g), c, ds[|ds| - 1])
  {
  }

  lemma AggregateMatchesKey(c: Cluster, ds: Table, g: Gathered)
    requires |ds| > 0 && Votable(g)
    ensures Matches(AggregateRow(c, ds, g), c.key) <==> c.key.lat.Some? && c.key.lng.Some?
  {
    var r := AggregateRow(c, ds, g);
    assert r.lat == c.key.lat && r.lng == c.key.lng;
    assert r.address == c.key.address && r.muni == c.key.muni;
  }

  predicate RowShape(r: EvalUnit, c: Cluster, last: EvalUnit)
  {
    && r.id == AggregateId(last.id) && r.mat18 == AggregateId(last.mat18)
    && r.physLink == Some("1") && r.constType == Some("5")
    && r.numDwelling == c.sumDwellings && r.cubf == last.cubf
    && r.numAdrInf.None? && r.aptNum.None? && r.fileNum.None?
  }

  /** INSERT ... ON CONFLICT DO NOTHING on the primary key. */
  function InsertIfNew(t: Table, u: EvalUnit): (r: Table)
    ensures HasId(t, u.id) ==> r == t
    ensures !HasId(t, u.id) ==> r == t + [u]
  {
    if HasId(t, u.id) then t else t + [u]
  }

  predicate Archives(a: seq<Archived>, id: string)
  {
    exists k | 0 <= k < |a| :: a[k].unit.id == id
  }

  /** `SQL_COPY_DUPLICATES_TO_OTHER_TABLE`: each member with `agg_id`, skipping ids already archived. */
  function ArchiveAll(a: seq<Archived>, ds: Table, aggId: string): (r: seq<Archived>)
    ensures |a| <= |r| && r[..|a|] == a
    ensures forall k | 0 <= k < |ds| :: Archives(r, ds[k].id)
    ensures forall k | |a| <= k < |r| :: r[k].aggId == aggId && r[k].unit in ds
    decreases |ds|
  {
    if ds == [] then a
    else
      var before := ArchiveAll(a, ds[..|ds| - 1], aggId);
      var d := ds[|ds| - 1];
      assert forall k | 0 <= k < |ds| - 1 :: ds[..|ds| - 1][k] == ds[k];
      if Archives(before, d.id) then before
      else
        var r := before + [Archived(d, aggId)];
        assert r[..|a|] == before[..|a|];
        assert forall k | 0 <= k < |before| :: r[k] == before[k];
        assert r[|r| - 1].unit.id == d.id;
        r
  }

  function InIds(ids: seq<string>): EvalUnit -> bool
  {
    (u: EvalUnit) => u.id in ids
  }

  /** The state after merging one cluster: the evaluation-unit table and `murb_disag`. */
  function MergeCluster(t: Table, a: seq<Archived>, c: Cluster): (Table, seq<Archived>)
  {
    var ds := Duplicates(t, c.key);
    if |ds| < 1 then (t, a)
    else
      var g := GatherAll(ds);
      var row := AggregateRow(c, ds, g);
      var t1 := InsertIfNew(t, row);
      var a1 := ArchiveAll(a, ds, row.id);
      (DeleteWhere(t1, InIds(g.ids)).1, a1)
  }

  /** One cluster, in the order `aggregate_murbs` writes: insert, archive, delete. */
  method AggregateCluster(t: Table, a: seq<Archived>, c: Cluster) returns (t': Table, a': seq<Archived>)
    ensures (t', a') == MergeCluster(t, a, c)
  {
    var ds := Duplicates(t, c.key);
    if |ds| < 1 {
      return t, a;
    }
    var g := GatherMembers(ds);
    var row := AggregateRow(c, ds, g);
    t' := InsertIfNew(t, row);
    a' := ArchiveAll(a, ds, row.id);
    var deleted := DeleteWhere(t', InIds(g.ids));
    t' := deleted.1;
  }

  function RunClusters(t: Table, a: seq<Archived>, cs: seq<Cluster>): (Table, seq<Archived>)
    decreases |cs|
  {
    if cs == [] then (t, a)
    else
      var p := RunClusters(t, a, cs[..|cs| - 1]);
      MergeCluster(p.0, p.1, cs[|cs| - 1])
  }

  lemma RunClustersStep(t: Table, a: seq<Archived>, cs: seq<Cluster>, i: nat)
    requires i < |cs|
    ensures var p := RunClusters(t, a, cs[..i]); RunClusters(t, a, cs[..i + 1]) == MergeCluster(p.0, p.1, cs[i])
  {
    assert cs[..i + 1][..i] == cs[..i];
  }

  /** One worker of `aggregate_murbs` over its share of the clusters. */
  method AggregateMurbs(t: Table, a: seq<Archived>, cs: seq<Cluster>) returns (t': Table, a': seq<Archived>)
    ensures (t', a') == RunClusters(t, a, cs)
  {
    t', a' := t, a;
    var i := 0;
    while i < |cs|
      invariant 0 <= i <= |cs|
      invariant (t', a') == RunClusters(t, a, cs[..i])
    {
      RunClustersStep(t, a, cs, i);
      t', a' := AggregateCluster(t', a', cs[i]);
      i := i + 1;
    }
    assert cs[..|cs|] == cs;
  }

  // ---------------------------------------------------------------------------
  // What a merge does to the table.

  /** Rows whose id is a member's id are exactly the members, when ids are unique. */
  lemma MemberIds(t: Table, k: Key, u: EvalUnit)
    requires UniqueIds(t) && u in t
    ensures u.id in Column(Duplicates(t, k), IdOf) <==> Matches(u, k)
  {
    var ds := Duplicates(t, k);
    if u.id in Column(ds, IdOf) {
      var m :| 0 <= m < |ds| && Column(ds, IdOf)[m] == u.id;
      assert ds[m] in t;
      var i :| 0 <= i < |t| && t[i] == u;
      var j :| 0 <= j < |t| && t[j] == ds[m];
      assert i == j;
    }
    if Matches(u, k) {
      assert u in ds;
      var m :| 0 <= m < |ds| && ds[m] == u;
      assert Column(ds, IdOf)[m] == u.id;
    }
  }

  /** The table a merge leaves: the insert, then the delete of the members' ids. */
  lemma MergeTable(t: Table, a: seq<Archived>, c: Cluster)
    requires |Duplicates(t, c.key)| >= 1
    ensures var ds := Duplicates(t, c.key);
      MergeCluster(t, a, c).0 == DeleteWhere(InsertIfNew(t, AggregateRow(c, ds, GatherAll(ds))), InIds(Column(ds, IdOf))).1
  {
  }

  /** A new id is no member's id. */
  lemma NewIdNotMember(t: Table, k: Key, id: string)
    requires !HasId(t, id)
    ensures id !in Column(Duplicates(t, k), IdOf)
  {
    var ds := Duplicates(t, k);
    forall m | 0 <= m < |ds| ensures Column(ds, IdOf)[m] != id {
      assert ds[m] in t;
    }
  }

  /** What survives deleting `ids` after appending `row`. */
  lemma DeleteAfterInsert(t: Table, row: EvalUnit, ids: seq<string>)
    ensures forall u :: u in DeleteWhere(t + [row], InIds(ids)).1 <==> (u in t || u == row) && u.id !in ids
  {
  }

  /**
   * A first merge of a cluster whose aggregate id is new: afterwards the
   * table holds the rows that did not match the key, plus the aggregate.
   */
  lemma MergeReplacesMembers(t: Table, a: seq<Archived>, c: Cluster, ds: Table)
    requires UniqueIds(t) && ds == Duplicates(t, c.key) && |ds| >= 1
    requires !HasId(t, AggregateId(ds[|ds| - 1].id))
    ensures forall u :: u in MergeCluster(t, a, c).0 <==> (u in t && !Matches(u, c.key)) || u == AggregateRow(c, ds, GatherAll(ds))
  {
    var g := GatherAll(ds);
    AggregateRowShape(c, ds, g);
    var row := AggregateRow(c, ds, g);
    MergeTable(t, a, c);
    NewIdNotMember(t, c.key, row.id);
    assert InsertIfNew(t, row) == t + [row];
    DeleteAfterInsert(t, row, g.ids);
    forall u | u in t ensures u.id in g.ids <==> Matches(u, c.key) {
      MemberIds(t, c.key, u);
    }
  }

  /** After a first merge, the aggregate is the only row left with the key. */
  lemma MergeLeavesOneWithKey(t: Table, a: seq<Archived>, c: Cluster, ds: Table, u: EvalUnit)
    requires UniqueIds(t) && ds == Duplicates(t, c.key) && |ds| >= 1
    requires !HasId(t, AggregateId(ds[|ds| - 1].id))
    requires u in MergeCluster(t, a, c).0 && Matches(u, c.key)
    ensures u == AggregateRow(c, ds, GatherAll(ds))
  {
    MergeReplacesMembers(t, a, c, ds);
  }

  /**
   * Merging again after a run that stopped between the insert and the
   * delete: the stored aggregate matches the key and, inserted last, is the
   * last member, so its id is the new aggregate id; the insert is skipped
   * and the delete removes every row with the key, the aggregate included.
   */
  lemma RerunDropsBuilding(t: Table, a: seq<Archived>, c: Cluster, ds: Table)
    requires UniqueIds(t) && ds == Duplicates(t, c.key) && |ds| >= 1
    requires |ds[|ds| - 1].id| >= 4 && ds[|ds| - 1].id[|ds[|ds| - 1].id| - 4..] == "9999"
    ensures forall u | u in MergeCluster(t, a, c).0 :: !Matches(u, c.key)
    ensures forall u | u in MergeCluster(t, a, c).0 :: u in t
  {
    RerunSkipsInsert(t, c, ds);
    MergeTable(t, a, c);
    forall u | u in MergeCluster(t, a, c).0 ensures !Matches(u, c.key) {
      MemberIds(t, c.key, u);
    }
  }

  /** On a re-run the aggregate's id is already in the table, so nothing is inserted. */
  lemma RerunSkipsInsert(t: Table, c: Cluster, ds: Table)
    requires ds == Duplicates(t, c.key) && |ds| >= 1
    requires |ds[|ds| - 1].id| >= 4 && ds[|ds| - 1].id[|ds[|ds| - 1].id| - 4..] == "9999"
    ensures InsertIfNew(t, AggregateRow(c, ds, GatherAll(ds))) == t
  {
    var g := GatherAll(ds);
    var last := ds[|ds| - 1];
    AggregateIdFixed(last.id);
    AggregateRowShape(c, ds, g);
    assert last in t;
    var row := AggregateRow(c, ds, g);
    assert HasId(t, row.id) by {
      var i :| 0 <= i < |t| && t[i] == last;
    }
  }
}
