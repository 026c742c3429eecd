/**
 * The per-record work of a `crossref_hlms` worker
 * (`geocode_and_crossref_HLMs`).  Each record is read, passed through two
 * gates (at least 3 dwellings, a known municipality), its street name
 * resolved, geocoded with Mapbox and, failing that, Google, and then
 * matched to an evaluation unit by lot containment, by the nearest lot, or
 * by address.  A match is upserted into the HLM table and counted.  Any
 * exception abandons the record and the loop goes on; what the record
 * already did to the counters and the caches stays.
 */
module HlmCrossref {
  import opened Wrappers
  import opened Text
  import opened Registry
  import opened HlmParse
  import opened HlmResolve

  datatype MapboxAddress = MapboxAddress(name: string, streetName: string, addressNumber: string)

  /** The first feature's confidence (absent when `match_code` is missing), point and context address. */
  datatype MapboxFeature = MapboxFeature(confidence: Option<string>, lng: real, lat: real, context: Option<MapboxAddress>)

  datatype MapboxResponse = MapboxResponse(ok: bool, features: seq<MapboxFeature>)

  datatype Component = Component(types: seq<string>, longName: string)

  /** One Google geocoding result; `partialMatch` is false when the key is absent. */
  datatype GoogleResult = GoogleResult(
    locationType: Option<string>, partialMatch: bool, components: seq<Component>, lng: real, lat: real)

  /**
   * The outside world: Mapbox (address number, street, place), Google (the
   * query text), the Street View metadata endpoint (latitude, longitude to
   * status code and body status) and the two PostGIS predicates on a lot
   * geometry and a point given longitude first.
   */
  datatype Services = Services(
    mapbox: (string, string, string) -> MapboxResponse,
    google: string -> seq<GoogleResult>,
    streetviewMetadata: (real, real) -> (int, string),
    intersects: (string, real, real) -> bool,
    distance: (string, real, real) -> real)

  datatype Env = Env(db: RollDb, codes: WayCodes, services: Services, units: Table)

  /** A stored row of the HLM table. */
  datatype HlmRow = HlmRow(hlm: Hlm, lat: real, lng: real, evalUnitId: Option<string>, streetviewAvailable: bool)

  type HlmTable = map<string, HlmRow>

  datatype Counters = Counters(
    numFound: nat, lessThan3Dwellings: nat, unknownMuni: nat, mapboxApiCalls: nat, googleApiCalls: nat)

  datatype Worker = Worker(counters: Counters, caches: Caches, hlms: HlmTable)

  const AcceptedConfidence: set<string> := {"medium", "high", "exact"}
  const PreciseLocation: set<string> := {"ROOFTOP", "RANGE_INTERPOLATED"}
  /** The `ST_DWithin` radius of the nearest-lot stage, in degrees. */
  const NearRadius: real := 0.001

  // ---------------------------------------------------------------------------
  // Geocoding

  datatype Geo = Located(hlm: Hlm, lng: real, lat: real) | Unlocated | GeoFailed

  /**
   * The Mapbox answer: a first feature of medium, high or exact confidence
   * gives the point, and its context address (when present) replaces the
   * address, street name and number; anything else leaves the record
   * unlocated, and a feature without a match code raises.
   */
  function MapboxPhase(hlm: Hlm, resp: MapboxResponse): (g: Geo)
    ensures g.Located? <==> (resp.ok && |resp.features| > 0 &&
      resp.features[0].confidence.Some? && resp.features[0].confidence.value in AcceptedConfidence)
    ensures g.GeoFailed? <==> resp.ok && |resp.features| > 0 && resp.features[0].confidence.None?
    ensures g.Located? ==> g.lng == resp.features[0].lng && g.lat == resp.features[0].lat
    ensures g.Located? ==> (g.hlm.address.Some? <==> resp.features[0].context.Some? || hlm.address.Some?)
  {
    if !resp.ok || |resp.features| == 0 then Unlocated
    else
      var f := resp.features[0];
      match f.confidence
      case None => GeoFailed
      case Some(conf) =>
        if conf !in AcceptedConfidence then Unlocated
        else
          match f.context
          case None => Located(hlm, f.lng, f.lat)
          case Some(a) => Located(hlm.(address := Some(a.name), streetName := a.streetName, streetNum := a.addressNumber), f.lng, f.lat)
  }

  /** The component loop: the last component typed `street_number`, and the last typed `route`, win. */
  function ApplyComponents(cs: seq<Component>, num: string, name: string): (string, string)
    decreases |cs|
  {
    if cs == [] then (num, name)
    else
      var (n, r) := ApplyComponents(cs[..|cs| - 1], num, name);
      var c := cs[|cs| - 1];
      (if "street_number" in c.types then c.longName else n, if "route" in c.types then c.longName else r)
  }

  method ReadComponents(cs: seq<Component>, num: string, name: string) returns (n: string, r: string)
    ensures (n, r) == ApplyComponents(cs, num, name)
  {
    n, r := num, name;
    var i := 0;
    while i < |cs|
      invariant 0 <= i <= |cs|
      invariant (n, r) == ApplyComponents(cs[..i], num, name)
    {
      assert cs[..i + 1][..i] == cs[..i];
      if "street_number" in cs[i].types {
        n := cs[i].longName;
      }
      if "route" in cs[i].types {
        r := cs[i].longName;
      }
      i := i + 1;
    }
    assert cs[..i] == cs;
  }

  /** A component typed `street_number` decides the number; without one the record's number stays. */
  lemma {:induction false} ComponentNumber(cs: seq<Component>, num: string, name: string)
    ensures (forall k | 0 <= k < |cs| :: "street_number" !in cs[k].types) ==> ApplyComponents(cs, num, name).0 == num
    ensures forall k | 0 <= k < |cs| && "street_number" in cs[k].types ::
      exists j | k <= j < |cs| :: ApplyComponents(cs, num, name).0 == cs[j].longName
    decreases |cs|
  {
    if cs != [] {
      var init := cs[..|cs| - 1];
      ComponentNumber(init, num, name);
      assert forall k | 0 <= k < |init| :: init[k] == cs[k];
      forall k | 0 <= k < |cs| && "street_number" in cs[k].types
        ensures exists j | k <= j < |cs| :: ApplyComponents(cs, num, name).0 == cs[j].longName
      {
        if "street_number" in cs[|cs| - 1].types {
          assert ApplyComponents(cs, num, name).0 == cs[|cs| - 1].longName;
        } else {
          assert k < |init|;
          var j :| k <= j < |init| && ApplyComponents(init, num, name).0 == init[j].longName;
          assert ApplyComponents(cs, num, name).0 == cs[j].longName;
        }
      }
    }
  }

  /** The Google query: number, street, municipality, province and postal code. */
  function GoogleQuery(hlm: Hlm): string
  {
    Join([hlm.streetNum, hlm.streetName, hlm.muni, "QC", hlm.postalCode], " ")
  }

  /**
   * The first Google result: a rooftop or interpolated location, or any
   * result that is not a partial match, gives the point and the number and
   * street read from its components; a partial match is dropped.  (The
   * check for a missing street number cannot fire: the number is always
   * text.)
   */
  function GooglePhase(hlm: Hlm, g: GoogleResult): (r: Geo)
    ensures r.Located? <==> (g.locationType.Some? && g.locationType.value in PreciseLocation) || !g.partialMatch
    ensures r.Located? ==> r.lng == g.lng && r.lat == g.lat && r.hlm.address == Some(r.hlm.streetNum + " " + r.hlm.streetName)
    ensures r.Located? ==> (r.hlm.streetNum, r.hlm.streetName) == ApplyComponents(g.components, hlm.streetNum, hlm.streetName)
  {
    if (g.locationType.Some? && g.locationType.value in PreciseLocation) || !g.partialMatch then
      var (num, name) := ApplyComponents(g.components, hlm.streetNum, hlm.streetName);
      Located(hlm.(streetNum := num, streetName := name, address := Some(num + " " + name)), g.lng, g.lat)
    else Unlocated
  }

  /** `is_streetview_imagery_available`: a 200 answer whose status is not `ZERO_RESULTS`. */
  function ImageryAvailable(answer: (int, string)): bool
  {
    answer.0 == 200 && answer.1 != "ZERO_RESULTS"
  }

  // ---------------------------------------------------------------------------
  // The match cascade

  /** The land uses the lot stages skip: 4000-4999, 7600-7699 and 9200-9399. */
  predicate Eligible(cubf: int)
  {
    !(4000 <= cubf <= 4999) && !(7600 <= cubf <= 7699) && !(9200 <= cubf <= 9399)
  }

  predicate Contains(u: EvalUnit, lng: real, lat: real, svc: Services)
  {
    u.lotGeom.Some? && svc.intersects(u.lotGeom.value, lng, lat) && Eligible(u.cubf)
  }

  /** Stage 1: a unit whose lot contains the point (the first in storage order). */
  function FirstContaining(units: Table, lng: real, lat: real, svc: Services): (r: Option<EvalUnit>)
    ensures r.Some? ==> r.value in units && Contains(r.value, lng, lat, svc)
    ensures r.None? <==> forall u | u in units :: !Contains(u, lng, lat, svc)
  {
    if units == [] then None
    else if Contains(units[0], lng, lat, svc) then Some(units[0])
    else FirstContaining(units[1..], lng, lat, svc)
  }

  function Dist(u: EvalUnit, lng: real, lat: real, svc: Services): real
  {
    if u.lotGeom.Some? then svc.distance(u.lotGeom.value, lng, lat) else 0.0
  }

  predicate Near(u: EvalUnit, lng: real, lat: real, svc: Services)
  {
    u.lotGeom.Some? && Dist(u, lng, lat, svc) <= NearRadius && Eligible(u.cubf)
  }

  /** Stage 2: among the eligible lots within the radius, one nearest to the point. */
  function Nearest(units: Table, lng: real, lat: real, svc: Services): (r: Option<EvalUnit>)
    ensures r.Some? ==> r.value in units && Near(r.value, lng, lat, svc)
    ensures r.Some? ==> forall u | u in units && Near(u, lng, lat, svc) :: Dist(r.value, lng, lat, svc) <= Dist(u, lng, lat, svc)
    ensures r.None? <==> forall u | u in units :: !Near(u, lng, lat, svc)
  {
    if units == [] then None
    else
      var rest := Nearest(units[1..], lng, lat, svc);
      if !Near(units[0], lng, lat, svc) then rest
      else if rest.None? || Dist(units[0], lng, lat, svc) <= Dist(rest.value, lng, lat, svc) then Some(units[0])
      else rest
  }

  /** Stage 3 joins the HLM table on rows without a unit: it can answer only if such a row exists. */
  function AddressMatch(hlms: HlmTable, units: Table, address: string): (r: Option<EvalUnit>)
    ensures r.Some? ==> r.value in units && Lower(r.value.address) == Lower(address)
    ensures r.Some? ==> exists id | id in hlms :: hlms[id].evalUnitId.None?
  {
    if exists id | id in hlms :: hlms[id].evalUnitId.None? then FirstWithAddress(units, address) else None
  }

  function FirstWithAddress(units: Table, address: string): (r: Option<EvalUnit>)
    ensures r.Some? ==> r.value in units && Lower(r.value.address) == Lower(address)
    ensures r.None? <==> forall u | u in units :: Lower(u.address) != Lower(address)
  {
    if units == [] then None
    else if Lower(units[0].address) == Lower(address) then Some(units[0])
    else FirstWithAddress(units[1..], address)
  }

  datatype Failure = MissingAddress

  /** The first stage with a hit decides; the address stage reads the address, which may be missing. */
  function Cascade(hlms: HlmTable, hlm: Hlm, lng: real, lat: real, env: Env): Result<Option<EvalUnit>, Failure>
  {
    var s1 := FirstContaining(env.units, lng, lat, env.services);
    if s1.Some? then Ok(s1)
    else
      var s2 := Nearest(env.units, lng, lat, env.services);
      if s2.Some? then Ok(s2)
      else
        match hlm.address
        case None => Err(MissingAddress)
        case Some(a) => Ok(AddressMatch(hlms, env.units, a))
  }

  /** `SQL_UPSERT_HLM`: insert or replace by id; a record without an address cannot be bound. */
  function Upsert(hlms: HlmTable, hlm: Hlm, lng: real, lat: real, unitId: string, sv: bool): Result<HlmTable, Failure>
  {
    if hlm.address.None? then Err(MissingAddress)
    else Ok(hlms[hlm.id := HlmRow(hlm, lat, lng, Some(unitId), sv)])
  }

  /** A located record: the Street View check, the cascade, and the upsert of a hit. */
  function Crossref(w: Worker, hlm: Hlm, lng: real, lat: real, env: Env): Worker
  {
    var sv := ImageryAvailable(env.services.streetviewMetadata(lat, lng));
    match Cascade(w.hlms, hlm, lng, lat, env)
    case Err(_) => w
    case Ok(None) => w
    case Ok(Some(u)) =>
      match Upsert(w.hlms, hlm, lng, lat, u.id, sv)
      case Err(_) => w
      case Ok(h) => w.(hlms := h, counters := w.counters.(numFound := w.counters.numFound + 1))
  }

  /** Mapbox first; when it gives no point, Google, counted only when it returns a result. */
  function Geolocate(w: Worker, hlm: Hlm, env: Env): Worker
  {
    match MapboxPhase(hlm, env.services.mapbox(hlm.streetNum, hlm.streetName, hlm.muni))
    case GeoFailed => w
    case Located(h, lng, lat) => Crossref(w, h, lng, lat, env)
    case Unlocated =>
      var results := env.services.google(GoogleQuery(hlm));
      if |results| == 0 then w
      else
        var w1 := w.(counters := w.counters.(googleApiCalls := w.counters.googleApiCalls + 1));
        match GooglePhase(hlm, results[0])
        case Located(h, lng, lat) => Crossref(w1, h, lng, lat, env)
        case _ => w1
  }

  /** One iteration of the worker's loop over its records; a row that cannot be read is skipped. */
  function RecordStep(w: Worker, row: seq<string>, env: Env): Worker
  {
    match ParseHlmCsvRow(row)
    case Err(_) => w
    case Ok(hlm) => Admit(w, hlm, env)
  }

  /** The two gates: fewer than 3 dwellings, then a municipality the roll does not know. */
  function Admit(w: Worker, hlm: Hlm, env: Env): Worker
  {
    if hlm.numDwellings < 3 then
      w.(counters := w.counters.(lessThan3Dwellings := w.counters.lessThan3Dwellings + 1))
    else
      var (muni, c1) := ResolveMunicipality(hlm.muni, w.caches, env.db);
      if muni.None? then
        w.(caches := c1, counters := w.counters.(unknownMuni := w.counters.unknownMuni + 1))
      else
        Locate(w.(caches := c1), hlm, muni.value, env)
  }

  /** The roll's street name when one resolves (and is not empty), then one Mapbox call and what follows. */
  function Locate(w: Worker, hlm: Hlm, muni: string, env: Env): Worker
  {
    var r := ResolveStreetName(hlm.streetName, EscapeQuotes(muni), w.caches, env.db, env.codes);
    Geolocate(Charge(w, r.1), WithStreet(hlm, muni, r.0), env)
  }

  function WithStreet(hlm: Hlm, muni: string, street: Option<string>): Hlm
  {
    hlm.(muni := muni, streetName := if street.Some? && street.value != "" then street.value else hlm.streetName)
  }

  /** The caches after resolution, and the Mapbox call counted. */
  function Charge(w: Worker, c: Caches): Worker
  {
    w.(caches := c, counters := w.counters.(mapboxApiCalls := w.counters.mapboxApiCalls + 1))
  }

  function RunRecords(w: Worker, rows: seq<seq<string>>, env: Env): Worker
    decreases |rows|
  {
    if rows == [] then w else RecordStep(RunRecords(w, rows[..|rows| - 1], env), rows[|rows| - 1], env)
  }

  function Start(hlms: HlmTable): Worker
  {
    Worker(Counters(0, 0, 0, 0, 0), NoCaches, hlms)
  }

  /** `geocode_and_crossref_HLMs` over one worker's records: its counters and the HLM table it leaves. */
  method GeocodeAndCrossrefHlms(rows: seq<seq<string>>, hlms: HlmTable, env: Env) returns (counters: Counters, table: HlmTable)
    ensures counters == RunRecords(Start(hlms), rows, env).counters
    ensures table == RunRecords(Start(hlms), rows, env).hlms
  {
    var w := Start(hlms);
    var i := 0;
    while i < |rows|
      invariant 0 <= i <= |rows|
      invariant w == RunRecords(Start(hlms), rows[..i], env)
    {
      assert rows[..i + 1][..i] == rows[..i];
      w := RecordStep(w, rows[i], env);
      i := i + 1;
    }
    assert rows[..i] == rows;
    counters, table := w.counters, w.hlms;
  }

  // ---------------------------------------------------------------------------
  // What a run keeps

  /** Every row of the HLM table names its evaluation unit; this command writes no other kind. */
  predicate Linked(hlms: HlmTable)
  {
    forall id | id in hlms :: hlms[id].evalUnitId.Some?
  }

  /**
   * A row this command wrote: keyed by its record's id, with an address, the
   * Street View answer for its point, and the id of an eligible unit whose
   * lot contains the point or lies within the radius of it.
   */
  predicate StoredRow(id: string, r: HlmRow, env: Env)
  {
    r.hlm.id == id && r.hlm.address.Some? && r.evalUnitId.Some? &&
    r.streetviewAvailable == ImageryAvailable(env.services.streetviewMetadata(r.lat, r.lng)) &&
    exists u | u in env.units :: u.id == r.evalUnitId.value &&
      (Contains(u, r.lng, r.lat, env.services) || Near(u, r.lng, r.lat, env.services))
  }

  /** What geocoding and matching one record may do: count Google and a match, and upsert one row. */
  predicate Extends(w: Worker, w1: Worker, env: Env)
  {
    w1.caches == w.caches &&
    w1.counters.mapboxApiCalls == w.counters.mapboxApiCalls &&
    w1.counters.lessThan3Dwellings == w.counters.lessThan3Dwellings &&
    w1.counters.unknownMuni == w.counters.unknownMuni &&
    w.counters.googleApiCalls <= w1.counters.googleApiCalls <= w.counters.googleApiCalls + 1 &&
    w.counters.numFound <= w1.counters.numFound <= w.counters.numFound + 1 &&
    w.hlms.Keys <= w1.hlms.Keys &&
    |w1.hlms.Keys| <= |w.hlms.Keys| + (w1.counters.numFound - w.counters.numFound) &&
    (forall id | id in w1.hlms :: (id in w.hlms && w1.hlms[id] == w.hlms[id]) || StoredRow(id, w1.hlms[id], env)) &&
    Linked(w1.hlms)
  }

  /** With every row linked, the address stage has nothing to join on. */
  lemma AddressStageIdle(hlms: HlmTable, units: Table, address: string)
    requires Linked(hlms)
    ensures AddressMatch(hlms, units, address) == None
  {
  }

  lemma UpsertKeys(hlms: HlmTable, id: string, r: HlmRow)
    ensures hlms.Keys <= hlms[id := r].Keys && |hlms[id := r].Keys| <= |hlms.Keys| + 1
  {
    assert hlms[id := r].Keys == hlms.Keys + {id};
  }

  /**
   * Matching a located record upserts at most one row, counted, of an
   * eligible unit found by the lot stages.
   */
  lemma CrossrefExtends(w: Worker, hlm: Hlm, lng: real, lat: real, env: Env)
    requires Linked(w.hlms)
    ensures Extends(w, Crossref(w, hlm, lng, lat, env), env)
  {
    AddressStageIdle(w.hlms, env.units, if hlm.address.Some? then hlm.address.value else "");
    var s1 := FirstContaining(env.units, lng, lat, env.services);
    var s2 := Nearest(env.units, lng, lat, env.services);
    var sv := ImageryAvailable(env.services.streetviewMetadata(lat, lng));
    var w1 := Crossref(w, hlm, lng, lat, env);
    if w1 != w {
      var u := if s1.Some? then s1.value else s2.value;
      assert u in env.units && (Contains(u, lng, lat, env.services) || Near(u, lng, lat, env.services));
      var row := HlmRow(hlm, lat, lng, Some(u.id), sv);
      assert w1.hlms == w.hlms[hlm.id := row];
      UpsertKeys(w.hlms, hlm.id, row);
      assert StoredRow(hlm.id, row, env);
    }
  }

  /** Without an address a located record changes nothing, whatever the table holds. */
  lemma CrossrefNeedsAddress(w: Worker, hlm: Hlm, lng: real, lat: real, env: Env)
    requires hlm.address.None?
    ensures Crossref(w, hlm, lng, lat, env) == w
  {
  }

  /**
   * A record Mapbox accepts whose feature has no context address still has
   * none (records are read without one), so its upsert, or its address
   * stage, raises: it is never stored and never counted as found.
   */
  lemma MapboxWithoutContextDropped(w: Worker, hlm: Hlm, env: Env)
    requires hlm.address.None?
    requires var resp := env.services.mapbox(hlm.streetNum, hlm.streetName, hlm.muni);
      MapboxPhase(hlm, resp).Located? && resp.features[0].context.None?
    ensures Geolocate(w, hlm, env) == w
  {
    var g := MapboxPhase(hlm, env.services.mapbox(hlm.streetNum, hlm.streetName, hlm.muni));
    CrossrefNeedsAddress(w, g.hlm, g.lng, g.lat, env);
  }

  lemma GeolocateExtends(w: Worker, hlm: Hlm, env: Env)
    requires Linked(w.hlms)
    ensures Extends(w, Geolocate(w, hlm, env), env)
  {
    match MapboxPhase(hlm, env.services.mapbox(hlm.streetNum, hlm.streetName, hlm.muni))
    case GeoFailed =>
    case Located(h, lng, lat) => CrossrefExtends(w, h, lng, lat, env);
    case Unlocated =>
      var results := env.services.google(GoogleQuery(hlm));
      if |results| > 0 {
        var w1 := w.(counters := w.counters.(googleApiCalls := w.counters.googleApiCalls + 1));
        match GooglePhase(hlm, results[0])
        case Located(h, lng, lat) => CrossrefExtends(w1, h, lng, lat, env);
        case _ =>
      }
  }

  lemma GrowsTrans(c: Caches, c1: Caches, c2: Caches)
    requires Grows(c, c1) && Grows(c1, c2)
    ensures Grows(c, c2)
  {
  }

  /**
   * The worker's bookkeeping after `n` records: each record counts at most
   * one of a gate or a Mapbox call, Google and a match only after a Mapbox
   * call; the caches only grow and stay disjoint; the table keeps its rows
   * and gains no more than the matches counted, each new or replaced row
   * one this command wrote.
   */
  predicate Accounted(w0: Worker, w: Worker, n: nat, env: Env)
  {
    w.counters.numFound <= w.counters.mapboxApiCalls &&
    w.counters.googleApiCalls <= w.counters.mapboxApiCalls &&
    w.counters.mapboxApiCalls + w.counters.lessThan3Dwellings + w.counters.unknownMuni <= n &&
    Grows(w0.caches, w.caches) && Disjoint(w.caches) &&
    w0.hlms.Keys <= w.hlms.Keys &&
    |w.hlms.Keys| <= |w0.hlms.Keys| + w.counters.numFound &&
    (forall id | id in w.hlms :: (id in w0.hlms && w.hlms[id] == w0.hlms[id]) || StoredRow(id, w.hlms[id], env)) &&
    Linked(w.hlms)
  }

  lemma StepAccounted(w0: Worker, w: Worker, n: nat, row: seq<string>, env: Env)
    requires Accounted(w0, w, n, env)
    ensures Accounted(w0, RecordStep(w, row, env), n + 1, env)
  {
    match ParseHlmCsvRow(row)
    case Err(_) =>
    case Ok(hlm) => AdmitAccounted(w0, w, n, hlm, env);
  }

  lemma AdmitAccounted(w0: Worker, w: Worker, n: nat, hlm: Hlm, env: Env)
    requires Accounted(w0, w, n, env)
    ensures Accounted(w0, Admit(w, hlm, env), n + 1, env)
  {
    if hlm.numDwellings >= 3 {
      var (muni, c1) := ResolveMunicipality(hlm.muni, w.caches, env.db);
      MuniKeepsCaches(hlm.muni, w.caches, env.db);
      GrowsTrans(w0.caches, w.caches, c1);
      if muni.Some? {
        LocateAccounted(w0, w, w.(caches := c1), n, hlm, muni.value, env);
      }
    }
  }

  lemma LocateAccounted(w0: Worker, w: Worker, wc: Worker, n: nat, hlm: Hlm, muni: string, env: Env)
    requires Accounted(w0, w, n, env)
    requires wc == w.(caches := wc.caches) && Grows(w0.caches, wc.caches) && Disjoint(wc.caches)
    ensures Accounted(w0, Locate(wc, hlm, muni, env), n + 1, env)
  {
    var r := ResolveStreetName(hlm.streetName, EscapeQuotes(muni), wc.caches, env.db, env.codes);
    StreetKeepsCaches(hlm.streetName, EscapeQuotes(muni), wc.caches, env.db, env.codes);
    GrowsTrans(w0.caches, wc.caches, r.1);
    var w1 := Charge(wc, r.1);
    GeolocateExtends(w1, WithStreet(hlm, muni, r.0), env);
    AccountedAfterGeocoding(w0, w, w1, Geolocate(w1, WithStreet(hlm, muni, r.0), env), n, env);
  }

  /** A Mapbox call followed by what geocoding and matching may do keeps the bookkeeping. */
  lemma AccountedAfterGeocoding(w0: Worker, w: Worker, w1: Worker, w2: Worker, n: nat, env: Env)
    requires Accounted(w0, w, n, env)
    requires Grows(w0.caches, w1.caches) && Disjoint(w1.caches) && w1.hlms == w.hlms
    requires w1.counters == w.counters.(mapboxApiCalls := w.counters.mapboxApiCalls + 1)
    requires Extends(w1, w2, env)
    ensures Accounted(w0, w2, n + 1, env)
  {
    forall id | id in w2.hlms
      ensures (id in w0.hlms && w2.hlms[id] == w0.hlms[id]) || StoredRow(id, w2.hlms[id], env)
    {
    }
  }

  /** Over any records, from a table of linked rows (the empty one included), the bookkeeping holds. */
  lemma {:induction false} RunAccounted(hlms: HlmTable, rows: seq<seq<string>>, env: Env)
    requires Linked(hlms)
    ensures Accounted(Start(hlms), RunRecords(Start(hlms), rows, env), |rows|, env)
    decreases |rows|
  {
    if rows != [] {
      RunAccounted(hlms, rows[..|rows| - 1], env);
      StepAccounted(Start(hlms), RunRecords(Start(hlms), rows[..|rows| - 1], env), |rows| - 1, rows[|rows| - 1], env);
    }
  }
}
