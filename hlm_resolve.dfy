/**
 * Matching the HLM spreadsheet's municipality and street names to the
 * roll's (`sanitize_street_name`, `resolve_municipality` and
 * `resolve_street_name` in `crossref_hlms`).  Each worker memoizes what it
 * resolved in dictionaries and a set it owns; here those travel as a
 * `Caches` value that every resolution returns updated.  The roll's
 * queries (exact names, trigram similarity, `LIKE` matches) are oracles.
 */
module HlmResolve {
  import opened Wrappers
  import opened Text

  /** The roll as the resolvers query it; every text argument is already quote-escaped. */
  datatype RollDb = RollDb(
    munis: set<string>,
    similarMuni: string -> Option<string>,
    streetPrefix: (string, string) -> Option<string>,
    streetContains: (string, string) -> Option<string>,
    streetSimilar: (string, string) -> seq<string>)

  /** The code tables' values (cardinal points lower-cased) and the accent folding. */
  datatype WayCodes = WayCodes(
    wayTypes: seq<string>, wayLinks: seq<string>, cardinals: seq<string>,
    unidecode: string -> string)

  /** `HLM_ROLL_MUNI_MAP`, `MISSING_MUNIS` and `HLM_ROLL_STREET_NAME_MAP` of one worker. */
  datatype Caches = Caches(munis: map<string, string>, missing: set<string>, streets: map<string, string>)

  const NoCaches := Caches(map[], {}, map[])

  // ---------------------------------------------------------------------------
  // `sanitize_street_name`

  /** `if v in s: s = s.replace(v, '')`. */
  function RemoveOne(s: string, v: string): string
  {
    if Contains(s, v) then ReplaceAll(s, v, "") else s
  }

  /** The loop over a code table, one value after the other. */
  function RemoveEach(s: string, vals: seq<string>): string
    decreases |vals|
  {
    if vals == [] then s else RemoveOne(RemoveEach(s, vals[..|vals| - 1]), vals[|vals| - 1])
  }

  /** A final space-separated token that is a cardinal point is dropped with its space. */
  function DropCardinal(s: string, cardinals: seq<string>): string
  {
    var parts := Split(s, ' ');
    if parts[|parts| - 1] in cardinals then Join(parts[..|parts| - 1], " ") else s
  }

  function SanitizedStreetName(name: string, codes: WayCodes): string
  {
    var noWays := RemoveEach(RemoveEach(Lower(name), codes.wayTypes), codes.wayLinks);
    Strip(codes.unidecode(EscapeQuotes(DropCardinal(noWays, codes.cardinals))))
  }

  /** Lower-case, strip way types then way links, drop a cardinal point, escape, fold and strip. */
  method SanitizeStreetName(name: string, codes: WayCodes) returns (r: string)
    ensures r == SanitizedStreetName(name, codes)
  {
    var s := Lower(name);
    var i := 0;
    while i < |codes.wayTypes|
      invariant 0 <= i <= |codes.wayTypes|
      invariant s == RemoveEach(Lower(name), codes.wayTypes[..i])
    {
      assert codes.wayTypes[..i + 1][..i] == codes.wayTypes[..i];
      if Contains(s, codes.wayTypes[i]) {
        s := ReplaceAll(s, codes.wayTypes[i], "");
      }
      i := i + 1;
    }
    assert codes.wayTypes[..i] == codes.wayTypes;
    var noTypes := s;
    var j := 0;
    while j < |codes.wayLinks|
      invariant 0 <= j <= |codes.wayLinks|
      invariant s == RemoveEach(noTypes, codes.wayLinks[..j])
    {
      assert codes.wayLinks[..j + 1][..j] == codes.wayLinks[..j];
      if Contains(s, codes.wayLinks[j]) {
        s := ReplaceAll(s, codes.wayLinks[j], "");
      }
      j := j + 1;
    }
    assert codes.wayLinks[..j] == codes.wayLinks;
    var parts := Split(s, ' ');
    if parts[|parts| - 1] in codes.cardinals {
      s := Join(parts[..|parts| - 1], " ");
    }
    s := EscapeQuotes(s);
    r := Strip(codes.unidecode(s));
  }

  /** Dropping the cardinal point loses only the last token and the space before it. */
  lemma DropCardinalSplits(s: string, cardinals: seq<string>)
    ensures var parts := Split(s, ' '); var last := parts[|parts| - 1];
      if last in cardinals && |parts| >= 2 then DropCardinal(s, cardinals) + " " + last == s
      else if last in cardinals then DropCardinal(s, cardinals) == [] && s == last
      else DropCardinal(s, cardinals) == s
  {
    var parts := Split(s, ' ');
    JoinSplit(s, ' ');
    if |parts| >= 2 {
      JoinSnoc(parts[..|parts| - 1], parts[|parts| - 1], " ");
      assert parts[..|parts| - 1] + [parts[|parts| - 1]] == parts;
    }
  }

  /** A value of the code table that does not occur leaves the name alone. */
  lemma {:induction false} RemoveEachAbsent(s: string, vals: seq<string>)
    requires forall k | 0 <= k < |vals| :: !Contains(s, vals[k])
    ensures RemoveEach(s, vals) == s
    decreases |vals|
  {
    if vals != [] {
      RemoveEachAbsent(s, vals[..|vals| - 1]);
    }
  }

  /** Removing a one-character value leaves no trace of it. */
  lemma RemoveOneChar(s: string, c: char)
    ensures forall k | 0 <= k < |RemoveOne(s, [c])| :: RemoveOne(s, [c])[k] != c
  {
    ReplaceCharRemoves(s, c, "");
    if !Contains(s, [c]) {
      forall k | 0 <= k < |s| ensures s[k] != c {
        assert !OccursAt(s, [c], k);
        assert s[k..k + 1] == [s[k]];
      }
    }
  }

  // ---------------------------------------------------------------------------
  // `resolve_municipality`

  /** Whether resolving `name` runs the similarity query. */
  predicate MuniQueries(name: string, c: Caches, db: RollDb)
  {
    name !in db.munis && name !in c.munis && name !in c.missing
  }

  /**
   * A roll name is itself; else the cached match; else a known miss is none;
   * else the most similar roll name, cached, or none, remembered as missing.
   */
  function ResolveMunicipality(name: string, c: Caches, db: RollDb): (r: (Option<string>, Caches))
    ensures r.1.streets == c.streets
  {
    if name in db.munis then (Some(name), c)
    else if name in c.munis then (Some(c.munis[name]), c)
    else if name in c.missing then (None, c)
    else
      match db.similarMuni(EscapeQuotes(name))
      case Some(m) => (Some(m), c.(munis := c.munis[name := m]))
      case None => (None, c.(missing := c.missing + {name}))
  }

  /** The roll's own names come back unchanged, with no query and no caching. */
  lemma MuniExact(name: string, c: Caches, db: RollDb)
    requires name in db.munis
    ensures ResolveMunicipality(name, c, db) == (Some(name), c) && !MuniQueries(name, c, db)
  {
  }

  /** Only a name met for the first time is queried, and its answer is what the query found. */
  lemma MuniQueryAnswer(name: string, c: Caches, db: RollDb)
    ensures MuniQueries(name, c, db) ==> ResolveMunicipality(name, c, db).0 == db.similarMuni(EscapeQuotes(name))
    ensures !MuniQueries(name, c, db) ==> ResolveMunicipality(name, c, db).1 == c
  {
  }

  /** After one resolution the name is never queried again, and it resolves the same way. */
  lemma MuniResolvedOnce(name: string, c: Caches, db: RollDb)
    ensures var (r, c1) := ResolveMunicipality(name, c, db);
      !MuniQueries(name, c1, db) && ResolveMunicipality(name, c1, db) == (r, c1)
  {
  }

  /** The caches only grow: no entry is dropped or changed, so a name stays unqueried. */
  predicate Grows(c: Caches, c1: Caches)
  {
    (forall n | n in c.munis :: n in c1.munis && c1.munis[n] == c.munis[n]) &&
    c.missing <= c1.missing &&
    (forall n | n in c.streets :: n in c1.streets && c1.streets[n] == c.streets[n])
  }

  /** The match cache and the missing set never share a name. */
  predicate Disjoint(c: Caches)
  {
    forall n | n in c.munis :: n !in c.missing
  }

  lemma MuniKeepsCaches(name: string, c: Caches, db: RollDb)
    requires Disjoint(c)
    ensures Grows(c, ResolveMunicipality(name, c, db).1)
    ensures Disjoint(ResolveMunicipality(name, c, db).1)
  {
  }

  // ---------------------------------------------------------------------------
  // `resolve_street_name`

  /** `LIMIT 1`. */
  function Limit1(rows: seq<string>): (r: seq<string>)
    ensures |r| <= 1
  {
    if |rows| <= 1 then rows else rows[..1]
  }

  /** `fetchone()` after a first `fetchone()`: the second row of the result, if any. */
  function SecondRow(rows: seq<string>): (r: Option<string>)
    ensures r.Some? <==> |rows| >= 2
  {
    if |rows| >= 2 then Some(rows[1]) else None
  }

  /**
   * The cache (keyed by the escaped name alone); else a case-insensitive
   * prefix match in the municipality; else a contains-match of the sanitized
   * name; the similarity query's only row is consumed by a first `fetchone`,
   * so its second `fetchone` finds nothing.  Only hits are cached.
   */
  function ResolveStreetName(name: string, muniClean: string, c: Caches, db: RollDb, codes: WayCodes): (r: (Option<string>, Caches))
    ensures r.1.munis == c.munis && r.1.missing == c.missing
  {
    var key := EscapeQuotes(name);
    if key in c.streets then (Some(c.streets[key]), c)
    else
      match db.streetPrefix(muniClean, key)
      case Some(s) => (Some(s), c.(streets := c.streets[key := s]))
      case None =>
        var clean := SanitizedStreetName(key, codes);
        match db.streetContains(muniClean, clean)
        case Some(s) => (Some(s), c.(streets := c.streets[key := s]))
        case None =>
          match SecondRow(Limit1(db.streetSimilar(muniClean, clean)))
          case Some(s) => (Some(s), c.(streets := c.streets[key := s]))
          case None => (None, c)
  }

  /** A street resolves only from the cache, the prefix match or the contains-match. */
  lemma StreetNeverBySimilarity(name: string, muniClean: string, c: Caches, db: RollDb, codes: WayCodes)
    ensures var key := EscapeQuotes(name); var r := ResolveStreetName(name, muniClean, c, db, codes).0;
      r.Some? ==> ((key in c.streets && r.value == c.streets[key]) ||
        db.streetPrefix(muniClean, key) == r ||
        db.streetContains(muniClean, SanitizedStreetName(key, codes)) == r)
  {
  }

  /** A failure is not remembered. */
  lemma StreetFailureNotCached(name: string, muniClean: string, c: Caches, db: RollDb, codes: WayCodes)
    ensures ResolveStreetName(name, muniClean, c, db, codes).0.None? ==> ResolveStreetName(name, muniClean, c, db, codes).1 == c
  {
  }

  /** Once a name is cached, the municipality no longer matters. */
  lemma StreetCacheIgnoresMuni(name: string, m1: string, m2: string, c: Caches, db: RollDb, codes: WayCodes)
    requires EscapeQuotes(name) in c.streets
    ensures ResolveStreetName(name, m1, c, db, codes) == ResolveStreetName(name, m2, c, db, codes)
    ensures ResolveStreetName(name, m1, c, db, codes) == (Some(c.streets[EscapeQuotes(name)]), c)
  {
  }

  /** A resolved street resolves to the same name from then on, in any municipality. */
  lemma StreetResolvedOnce(name: string, m1: string, m2: string, c: Caches, db: RollDb, codes: WayCodes)
    ensures var (r, c1) := ResolveStreetName(name, m1, c, db, codes);
      r.Some? ==> ResolveStreetName(name, m2, c1, db, codes) == (r, c1)
  {
  }

  lemma StreetKeepsCaches(name: string, muniClean: string, c: Caches, db: RollDb, codes: WayCodes)
    requires Disjoint(c)
    ensures Grows(c, ResolveStreetName(name, muniClean, c, db, codes).1)
    ensures Disjoint(ResolveStreetName(name, muniClean, c, db, codes).1)
  {
  }
}
