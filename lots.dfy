/**
 * `process_lots`: the land-use lot polygons.  Lots without a land use
 * (`utilisatio`) are deleted from the imported table; then every lot is
 * linked to its evaluation units, page by page in descending `gid` order
 * (about 100 pages, 2 in test mode): a lot whose provincial id is
 * `Multiple` gives its `gid` to every unit whose point it contains, any
 * other lot to the unit carrying that id.  The connection commits after a
 * lot whose index within its page is not a multiple of 10000, and not after
 * the loop.
 */
module LotLinking {
  import opened Wrappers
  import opened Registry

  // ---------------------------------------------------------------------------
  // `delete_lots_without_cubf`

  /** A row of the imported lots table, with its land use. */
  datatype ImportedLot = ImportedLot(gid: Option<int>, objectId: int, idProvinc: Option<string>, utilisatio: Option<string>)

  /** The lots that keep a land use, in order, and how many were deleted. */
  function DeleteLotsWithoutCubf(lots: seq<ImportedLot>): (r: (nat, seq<ImportedLot>))
    ensures r.0 + |r.1| == |lots|
  {
    if lots == [] then (0, [])
    else
      var (n, kept) := DeleteLotsWithoutCubf(lots[1..]);
      if lots[0].utilisatio.None? then (n + 1, kept) else (n, [lots[0]] + kept)
  }

  /** Every lot with a land use is kept as often as it occurs, and no other is. */
  lemma {:induction false} DeleteKeepsLandUse(lots: seq<ImportedLot>)
    ensures forall l: ImportedLot :: l in DeleteLotsWithoutCubf(lots).1 <==> l in lots && l.utilisatio.Some?
    ensures forall l: ImportedLot | l.utilisatio.Some? :: multiset(DeleteLotsWithoutCubf(lots).1)[l] == multiset(lots)[l]
  {
    if lots != [] {
      DeleteKeepsLandUse(lots[1..]);
      assert lots == [lots[0]] + lots[1..];
    }
  }

  /** The closing `assert`: no lot without a land use is left. */
  lemma NoneLeft(lots: seq<ImportedLot>)
    ensures forall l | l in DeleteLotsWithoutCubf(lots).1 :: l.utilisatio.Some?
  {
    DeleteKeepsLandUse(lots);
  }

  // ---------------------------------------------------------------------------
  // `link_lots_to_evalunits`

  /** A row of the lots table as the page query returns it: `gid, id_provinc`. */
  datatype LotRef = LotRef(gid: int, idProvinc: Option<string>)

  const MultipleIds := "Multiple"

  function NumChunks(test: bool): nat
  {
    if test then 2 else 100
  }

  /** `math.ceil(num_lots / NUM_CHUNKS)`. */
  function ChunkLength(numLots: nat, test: bool): (c: nat)
    ensures numLots <= c * NumChunks(test)
    ensures c == 0 <==> numLots == 0
  {
    (numLots + NumChunks(test) - 1) / NumChunks(test)
  }

  /** How many offsets `range(offset, numLots, c)` yields. */
  function NumPages(numLots: nat, c: nat, offset: nat): nat
    requires c > 0
    decreases numLots - offset
  {
    if offset >= numLots then 0 else 1 + NumPages(numLots, c, offset + c)
  }

  /** The lot touches the unit: its polygon contains the unit's point, or it names the unit. */
  predicate LinksTo(lot: LotRef, u: EvalUnit, covers: (int, Point) -> bool)
  {
    if lot.idProvinc == Some(MultipleIds) then u.point.Some? && covers(lot.gid, u.point.value)
    else lot.idProvinc.Some? && u.id == lot.idProvinc.value
  }

  function Touched(lot: LotRef, covers: (int, Point) -> bool): EvalUnit -> bool
  {
    (u: EvalUnit) => LinksTo(lot, u, covers)
  }

  function SetLot(gid: int): EvalUnit -> EvalUnit
  {
    (u: EvalUnit) => u.(lotId := Some(gid))
  }

  /** One lot's `UPDATE ... SET lot_id`. */
  function LinkLot(t: Table, lot: LotRef, covers: (int, Point) -> bool): Table
  {
    UpdateWhere(t, Touched(lot, covers), SetLot(lot.gid))
  }

  /** The first `k` lots linked one after the other. */
  function LinkFirst(t: Table, lots: seq<LotRef>, k: nat, covers: (int, Point) -> bool): Table
    requires k <= |lots|
  {
    if k == 0 then t else LinkLot(LinkFirst(t, lots, k - 1, covers), lots[k - 1], covers)
  }

  /**
   * After `g` lots, how many of them are committed: up to the last lot whose
   * index within its page (`g - 1` modulo the page length) is not a
   * multiple of 10000.
   */
  function CommitPoint(g: nat, c: nat): (k: nat)
    requires c > 0
    ensures k <= g
  {
    if g == 0 then 0 else if CommitsAfter(IndexInPage(g - 1, c)) then g else CommitPoint(g - 1, c)
  }

  /** `if i % 10_000: conn.commit()`. */
  predicate CommitsAfter(i: nat)
  {
    i % 10000 != 0
  }

  /** The index of lot `g` within its page, pages being `c` lots long. */
  function IndexInPage(g: nat, c: nat): (i: nat)
    requires c > 0
    ensures i < c
  {
    if g < c then g else IndexInPage(g - c, c)
  }

  /** The database as the connection sees it, and as it is committed. */
  datatype Db = Db(committed: Table, working: Table)

  datatype LinkError = ZeroStep

  function Min(a: int, b: int): int
  {
    if a <= b then a else b
  }

  /** An offset of the page loop: 0, `c`, `2c`, … */
  predicate PageStart(offset: nat, c: nat)
    decreases offset
  {
    offset == 0 || (c > 0 && offset >= c && PageStart(offset - c, c))
  }

  lemma {:induction false} IndexAfterStart(offset: nat, i: nat, c: nat)
    requires PageStart(offset, c) && i < c
    ensures IndexInPage(offset + i, c) == i
    decreases offset
  {
    if offset > 0 {
      IndexAfterStart(offset - c, i, c);
    }
  }

  lemma {:induction false} PageStarts(p: nat, c: nat)
    requires c > 0
    ensures PageStart(p * c, c)
  {
    if p > 0 {
      assert p * c - c == (p - 1) * c;
      PageStarts(p - 1, c);
    }
  }

  /**
   * The page loop over `lots`, the rows of the lots table in descending
   * `gid` order: every lot is linked once, in that order, whatever the
   * paging; what is committed is the lots up to `CommitPoint`.  No lots
   * makes the page step zero, which `range` rejects.
   */
  method LinkLotsToEvalunits(lots: seq<LotRef>, units: Table, test: bool, covers: (int, Point) -> bool)
    returns (r: Result<Db, LinkError>)
    ensures |lots| == 0 <==> r.Err?
    ensures r.Ok? ==> r.value.working == LinkFirst(units, lots, |lots|, covers)
    ensures r.Ok? ==> r.value.committed == LinkFirst(units, lots, CommitPoint(|lots|, ChunkLength(|lots|, test)), covers)
  {
    var n := |lots|;
    var c := ChunkLength(n, test);
    if c == 0 {
      return Err(ZeroStep);
    }
    var working, committed := units, units;
    var offset := 0;
    ghost var done, kept := 0, 0;
    while offset < n
      invariant PageStart(offset, c)
      invariant done == Min(offset, n) && kept == CommitPoint(done, c)
      invariant working == LinkFirst(units, lots, done, covers)
      invariant committed == LinkFirst(units, lots, kept, covers)
      decreases n - offset
    {
      var end := Min(offset + c, n);
      working, committed := LinkPage(lots, units, covers, c, offset, end, working, committed);
      done, kept := end, CommitPoint(end, c);
      offset := offset + c;
    }
    r := Ok(Db(committed, working));
  }

  /** One page: the lots from `offset` to `end`, committing after those at an index not a multiple of 10000. */
  method LinkPage(lots: seq<LotRef>, units: Table, covers: (int, Point) -> bool, c: nat, offset: nat, end: nat,
                  working0: Table, committed0: Table) returns (working: Table, committed: Table)
    requires c > 0 && PageStart(offset, c) && offset <= end <= |lots| && end - offset <= c
    requires working0 == LinkFirst(units, lots, offset, covers)
    requires committed0 == LinkFirst(units, lots, CommitPoint(offset, c), covers)
    ensures working == LinkFirst(units, lots, end, covers)
    ensures committed == LinkFirst(units, lots, CommitPoint(end, c), covers)
  {
    working, committed := working0, committed0;
    var g := offset;
    ghost var kept := CommitPoint(offset, c);
    while g < end
      invariant offset <= g <= end
      invariant working == LinkFirst(units, lots, g, covers)
      invariant kept == CommitPoint(g, c) && committed == LinkFirst(units, lots, kept, covers)
    {
      PageStep(units, lots, covers, c, offset, g);
      working := LinkOne(working, lots[g], covers);
      if CommitsAfter(g - offset) {
        committed, kept := working, g + 1;
      }
      g := g + 1;
    }
  }

  /** One lot's `UPDATE`. */
  method LinkOne(t: Table, lot: LotRef, covers: (int, Point) -> bool) returns (r: Table)
    ensures r == LinkLot(t, lot, covers)
  {
    r := UpdateWhere(t, Touched(lot, covers), SetLot(lot.gid));
  }

  /** Lot `g` of the page from `offset`: it is linked after the lots before it, and committed when its index commits. */
  lemma PageStep(units: Table, lots: seq<LotRef>, covers: (int, Point) -> bool, c: nat, offset: nat, g: nat)
    requires c > 0 && PageStart(offset, c) && offset <= g < |lots| && g - offset < c
    ensures LinkFirst(units, lots, g + 1, covers) == LinkLot(LinkFirst(units, lots, g, covers), lots[g], covers)
    ensures CommitsAfter(g - offset) ==> CommitPoint(g + 1, c) == g + 1
    ensures !CommitsAfter(g - offset) ==> CommitPoint(g + 1, c) == CommitPoint(g, c)
  {
    IndexAfterStart(offset, g - offset, c);
  }

  /** At most `NUM_CHUNKS` pages. */
  lemma PageCount(numLots: nat, test: bool)
    requires numLots > 0
    ensures NumPages(numLots, ChunkLength(numLots, test), 0) <= NumChunks(test)
  {
    PagesAtMost(numLots, ChunkLength(numLots, test), 0, NumChunks(test));
  }

  lemma {:induction false} PagesAtMost(numLots: nat, c: nat, offset: nat, m: nat)
    requires c > 0 && offset + m * c >= numLots
    ensures NumPages(numLots, c, offset) <= m
    decreases m
  {
    if offset < numLots {
      assert m != 0;
      assert offset + c + (m - 1) * c == offset + m * c;
      PagesAtMost(numLots, c, offset + c, m - 1);
    }
  }

  /** Everything is committed exactly when the last lot's index within its page is not a multiple of 10000. */
  lemma AllCommitted(g: nat, c: nat)
    requires g > 0 && c > 0
    ensures CommitPoint(g, c) == g <==> CommitsAfter(IndexInPage(g - 1, c))
  {
  }

  /**
   * 101 lots make pages of 2, the last holding lot 101 alone at index 0:
   * its link is never committed.
   */
  lemma LastLotUncommitted()
    ensures ChunkLength(101, false) == 2 && CommitPoint(101, 2) == 100
  {
    assert PageStart(100, 2) by {
      PageStarts(50, 2);
    }
    IndexAfterStart(100, 0, 2);
    assert PageStart(98, 2) by {
      PageStarts(49, 2);
    }
    IndexAfterStart(98, 1, 2);
  }

  function Relinked(u: EvalUnit, gid: Option<int>): EvalUnit
  {
    if gid.Some? then u.(lotId := gid) else u
  }

  /** The lot whose link a unit ends with: the last of the first `n` lots that touches it. */
  function LastLink(lots: seq<LotRef>, n: nat, u: EvalUnit, covers: (int, Point) -> bool): Option<int>
    requires n <= |lots|
  {
    if n == 0 then None
    else if LinksTo(lots[n - 1], u, covers) then Some(lots[n - 1].gid)
    else LastLink(lots, n - 1, u, covers)
  }

  /**
   * Linking changes only `lot_id`: each unit keeps its own unless some lot
   * touches it, and then holds the `gid` of the last lot that does.
   */
  lemma {:induction false} LinkFirstEffect(t: Table, lots: seq<LotRef>, n: nat, covers: (int, Point) -> bool)
    requires n <= |lots|
    ensures |LinkFirst(t, lots, n, covers)| == |t|
    ensures forall k | 0 <= k < |t| :: LinkFirst(t, lots, n, covers)[k] == Relinked(t[k], LastLink(lots, n, t[k], covers))
  {
    if n > 0 {
      LinkFirstEffect(t, lots, n - 1, covers);
      var before := LinkFirst(t, lots, n - 1, covers);
      var lot := lots[n - 1];
      var after := LinkLot(before, lot, covers);
      assert LinkFirst(t, lots, n, covers) == after;
      forall k | 0 <= k < |t|
        ensures after[k] == Relinked(t[k], LastLink(lots, n, t[k], covers))
      {
        assert after[k] == if Touched(lot, covers)(before[k]) then SetLot(lot.gid)(before[k]) else before[k];
        RelinkStep(t[k], before[k], lot, covers, LastLink(lots, n - 1, t[k], covers));
      }
    }
  }

  /** Linking one more lot to a unit: only `lot_id` changes, and only when the lot touches the unit. */
  lemma RelinkStep(u: EvalUnit, b: EvalUnit, lot: LotRef, covers: (int, Point) -> bool, prev: Option<int>)
    requires b == Relinked(u, prev)
    ensures (if Touched(lot, covers)(b) then SetLot(lot.gid)(b) else b) ==
      Relinked(u, if LinksTo(lot, u, covers) then Some(lot.gid) else prev)
  {
    assert b.id == u.id && b.point == u.point;
    assert LinksTo(lot, b, covers) == LinksTo(lot, u, covers);
  }
}
