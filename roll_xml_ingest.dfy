/**
 * One ingestion worker (`parse_xmls`): it streams its roll XML files, keeps
 * the units whose land-use code (CUBF) is on the allow-list and whose id is
 * not stored yet, buffers their rows and bulk-inserts the buffer whenever it
 * holds a multiple of 1000 rows, and once more at the end of each file.
 */
module RollXmlIngest {
  import opened Wrappers
  import opened Registry
  import opened RollXmlUnit

  /** `CUBFS_TO_KEEP`: residential codes and codes likely to hold prefabricated metal buildings. */
  const CubfsToKeep: set<int> := {
    1000, 1511, 1512, 1521, 1522, 1541, 1543, 1551, 1553, 1590, 2799, 5001, 5010, 5712, 5811, 5812,
    6241, 6299, 6379, 6411, 6419, 6516, 6519, 6531, 6532, 6534, 6539, 6541, 6542, 6643, 6713, 6722,
    6811, 6812, 6813, 6814, 6815, 6816, 6821, 6823, 6911, 6994, 6997, 6999, 7116, 7219, 7221, 7222,
    7223, 7224, 7225, 7229, 7233, 7239, 7290, 7311, 7312, 7313, 7314, 7392, 7393, 7394, 7395, 7396,
    7397, 7399, 7411, 7412, 7413, 7414, 7415, 7416, 7417, 7418, 7419, 7421, 7422, 7423, 7424, 7425,
    7429, 7431, 7432, 7433, 7441, 7442, 7443, 7444, 7445, 7446, 7447, 7448, 7449, 7451, 7452, 7459,
    7491, 7492, 7493, 7499, 7611, 9100, 9530}

  const FlushSize: nat := 1000

  /** A pull-parser event after the document header: a whole `RLUEx` element, or anything else. */
  datatype Event = UnitElement(xml: UnitXml) | OtherEvent

  /**
   * How a file's reading ends: cleanly, or in a SAX parse error raised by a
   * pull between elements (in the header, or after the unit loop's last
   * event), or raised while an `RLUEx` element after the last event is
   * being expanded, or in the header at an `RLM01A` or `RLM02A` element
   * without a text child, whose `childNodes[0]` raises IndexError.
   */
  datatype StreamEnd = Complete | ErrorBetweenElements | ErrorInUnit | HeaderTagEmpty
  {
    /** The stream broke with a SAX parse error. */
    predicate SaxError() { ErrorBetweenElements? || ErrorInUnit? }
  }

  /**
   * A roll file: the municipal code (`RLM01A`) and the year entered
   * (`RLM02A`) from its header, the events after them, and how the stream
   * ends.  Without `RLM02A` the header loop consumes the whole stream, and a
   * SAX error in the header comes before any event.
   */
  datatype XmlDoc = XmlDoc(muniCode: Option<string>, year: Option<string>, events: seq<Event>, end: StreamEnd)

  /**
   * The table, the unflushed buffer, `worker_total_units`, and the locals of
   * `parse_xmls` that outlive a file: the last municipal code read (a header
   * without `RLM01A` leaves the previous file's code in force, None before
   * any was read), whether the unit loop has bound `j`, and whether a unit
   * element has bound `unit_xml`.
   */
  datatype WorkerState = WorkerState(store: Table, buffer: seq<EvalUnit>, total: nat, muniCode: Option<string>,
    jBound: bool, unitXmlBound: bool)

  /** The worker before its first file. */
  function Start(store: Table): WorkerState
  {
    WorkerState(store, [], 0, None, false, false)
  }

  /** `bulk_create`, atomic: it fails on an id already stored or repeated in the batch. */
  function BulkCreate(store: Table, units: seq<EvalUnit>): (r: Option<Table>)
    ensures r.Some? <==> UniqueIds(units) && forall k | 0 <= k < |units| :: !HasId(store, units[k].id)
    ensures r.Some? ==> r.value == store + units
  {
    if UniqueIds(units) && forall k | 0 <= k < |units| :: !HasId(store, units[k].id) then Some(store + units) else None
  }

  /** The matricule a unit element would get, whatever its CUBF. */
  function Mat18Of(ev: Event): Option<string>
  {
    if ev.UnitElement? && ev.xml.rl0104.Some? && GenerateMat18(ev.xml.rl0104.value).Ok?
    then Some(GenerateMat18(ev.xml.rl0104.value).value)
    else None
  }

  /** The id a unit element would get under municipal code `muniCode`. */
  function IdOf(muniCode: Option<string>, ev: Event): Option<string>
  {
    if muniCode.Some? && Mat18Of(ev).Some? then Some(UnitId(muniCode.value, Mat18Of(ev).value)) else None
  }

  /** Under one municipal code, equal ids mean equal matricules. */
  lemma IdInjective(muniCode: Option<string>, a: Event, b: Event)
    requires IdOf(muniCode, a).Some? && IdOf(muniCode, a) == IdOf(muniCode, b)
    ensures Mat18Of(a) == Mat18Of(b)
  {
    var m := muniCode.value;
    assert IdOf(muniCode, a).value[|m|..] == Mat18Of(a).value;
    assert IdOf(muniCode, b).value[|m|..] == Mat18Of(b).value;
  }

  /**
   * The row a unit element yields, or None when it is skipped for a reason
   * that does not depend on the table: CUBF absent, unreadable or not
   * allowed, no matricule, no municipality for the code, or a parsing error.
   * Whether the id is already stored is checked by `Step`; every skip
   * `continue`s the same way, so checking it last changes nothing.
   */
  function Candidate(xml: UnitXml, muniCode: Option<string>, year: string, codes: Codes, title: string -> string): (r: Option<EvalUnit>)
    ensures r.Some? ==> r.value.cubf in CubfsToKeep && IdOf(muniCode, UnitElement(xml)) == Some(r.value.id)
    ensures r.Some? ==> IntField(xml.tags, "rl0105a") == Ok(Some(r.value.cubf))
  {
    match Admit(xml, muniCode, year, codes)
    case None => None
    case Some(h) =>
      var row := ParseUnitXml(xml, codes, title, h);
      if row.Ok? then Some(row.value) else None
  }

  /** The fields `parse_xmls` fills in before `parse_unit_xml`, or None when the unit is skipped before parsing. */
  function Admit(xml: UnitXml, muniCode: Option<string>, year: string, codes: Codes): (r: Option<UnitHeader>)
    ensures r.Some? ==> r.value.cubf in CubfsToKeep && IdOf(muniCode, UnitElement(xml)) == Some(r.value.id)
    ensures r.Some? ==> IntField(xml.tags, "rl0105a") == Ok(Some(r.value.cubf))
  {
    match IntField(xml.tags, "rl0105a")
    case Err(_) => None
    case Ok(cubf) =>
      if cubf.None? || cubf.value !in CubfsToKeep || muniCode.None? then None
      else HeaderOf(xml, cubf.value, muniCode.value, year, codes)
  }

  /** An allowed unit's header: its matricule, the id made from it, and the municipality of the code. */
  function HeaderOf(xml: UnitXml, cubf: int, muniCode: string, year: string, codes: Codes): (r: Option<UnitHeader>)
    ensures r.Some? ==> r.value.cubf == cubf && IdOf(Some(muniCode), UnitElement(xml)) == Some(r.value.id)
  {
    if xml.rl0104.None? then None
    else match GenerateMat18(xml.rl0104.value)
      case Err(_) => None
      case Ok(mat18) =>
        var id := UnitId(muniCode, mat18);
        if "RL" + muniCode !in codes.municipalities then None
        else Some(UnitHeader(id, cubf, codes.municipalities["RL" + muniCode], muniCode, year, mat18))
  }

  /** Each row offered is that of a unit element, allowed, and carries the element's id. */
  predicate RowsFit(events: seq<Event>, rows: seq<Option<EvalUnit>>, muniCode: Option<string>)
  {
    |rows| == |events| &&
    forall k | 0 <= k < |rows| :: rows[k].Some? ==>
      events[k].UnitElement? && rows[k].value.cubf in CubfsToKeep && IdOf(muniCode, events[k]) == Some(rows[k].value.id)
  }

  /** The candidate row of every event of a file. */
  function Rows(events: seq<Event>, muniCode: Option<string>, year: string, codes: Codes, title: string -> string): (r: seq<Option<EvalUnit>>)
    ensures RowsFit(events, r, muniCode)
  {
    seq(|events|, k requires 0 <= k < |events| =>
      if events[k].UnitElement? then Candidate(events[k].xml, muniCode, year, codes, title) else None)
  }

  /** The in-loop flush: a full buffer is inserted and emptied; a failed insert keeps both as they were. */
  function FlushIfFull(s: WorkerState): WorkerState
  {
    if |s.buffer| > 0 && |s.buffer| % FlushSize == 0 then
      match BulkCreate(s.store, s.buffer)
      case None => s
      case Some(t) => s.(store := t, buffer := [], total := s.total + |s.buffer|)
    else s
  }

  /**
   * One event with its candidate row.  The event binds `j`, and a unit
   * element binds `unit_xml`; a skipped unit (no row, or its id already
   * stored) `continue`s past the flush check, anything else reaches it.
   */
  function Step(s: WorkerState, ev: Event, row: Option<EvalUnit>): WorkerState
  {
    var b := s.(jBound := true);
    if ev.OtherEvent? then FlushIfFull(b)
    else
      var u := b.(unitXmlBound := true);
      if row.None? || HasId(s.store, row.value.id) then u
      else FlushIfFull(u.(buffer := s.buffer + [row.value]))
  }

  function RunEvents(s: WorkerState, events: seq<Event>, rows: seq<Option<EvalUnit>>): WorkerState
    requires |rows| == |events|
    decreases |events|
  {
    if events == [] then s
    else Step(RunEvents(s, events[..|events| - 1], rows[..|events| - 1]), events[|events| - 1], rows[|events| - 1])
  }

  /** The municipal code in force for a file's units. */
  function FileMuni(s: WorkerState, doc: XmlDoc): Option<string>
  {
    if doc.muniCode.Some? then doc.muniCode else s.muniCode
  }

  /**
   * One file, and whether it ends the worker.  A SAX error reached between
   * elements goes to the handler that prints `i`, `j`, `evt` and `node`: it
   * drops the buffered rows and moves on once `j` is bound, and raises
   * `UnboundLocalError` before.  One raised inside a unit element first
   * reaches the per-event handler, which prints `unit_xml`: it raises while
   * `unit_xml` is unbound, and otherwise continues to the next pull, which
   * raises the parser's error again into the first handler, with `j` bound.
   * (The child events queued before the error change nothing: a flush they
   * reach retries an insert that already failed.)  Without a SAX error the
   * end-of-file flush runs outside the per-event `try`, so its failure ends
   * the worker.  The IndexError of a header tag without text is caught by
   * neither handler and always ends the worker.
   */
  function ParseFile(s: WorkerState, doc: XmlDoc, codes: Codes, title: string -> string): (WorkerState, bool)
  {
    var s0 := s.(buffer := [], muniCode := FileMuni(s, doc));
    if doc.end.HeaderTagEmpty? then (s0, true) else ParseStream(s0, doc, codes, title)
  }

  /** A file whose header tags hold text, from the state `s0` after its header. */
  function ParseStream(s0: WorkerState, doc: XmlDoc, codes: Codes, title: string -> string): (WorkerState, bool)
    requires !doc.end.HeaderTagEmpty?
  {
    if doc.year.None? then (s0, !doc.end.Complete? && !s0.jBound)
    else
      var after := RunEvents(s0, doc.events, Rows(doc.events, s0.muniCode, doc.year.value, codes, title));
      match doc.end
      case ErrorBetweenElements => (after.(buffer := []), !after.jBound)
      case ErrorInUnit => (after.(buffer := [], jBound := true), !after.unitXmlBound)
      case Complete =>
        match BulkCreate(after.store, after.buffer)
        case None => (after, true)
        case Some(t) => (after.(store := t, buffer := [], total := after.total + |after.buffer|), false)
  }

  /** `parse_xmls`' file loop: the state after the files, and whether one of them ended the worker. */
  function RunFiles(s: WorkerState, docs: seq<XmlDoc>, codes: Codes, title: string -> string): (WorkerState, bool)
    decreases |docs|
  {
    if docs == [] then (s, false)
    else
      var (next, crashed) := ParseFile(s, docs[0], codes, title);
      if crashed then (next, true) else RunFiles(next, docs[1..], codes, title)
  }

  // ---------------------------------------------------------------------------
  // What the worker keeps true.

  /** The table grew from `store0` by rows that were allowed and new, and `total` counts them. */
  predicate Grown(store0: Table, s: WorkerState)
  {
    |store0| <= |s.store| && s.store[..|store0|] == store0 &&
    s.total == |s.store| - |store0| &&
    (forall k | |store0| <= k < |s.store| :: s.store[k].cubf in CubfsToKeep && !HasId(store0, s.store[k].id)) &&
    (UniqueIds(store0) ==> UniqueIds(s.store))
  }

  /** Every buffered row is allowed and not stored. */
  predicate BufferOk(s: WorkerState)
  {
    forall k | 0 <= k < |s.buffer| :: s.buffer[k].cubf in CubfsToKeep && !HasId(s.store, s.buffer[k].id)
  }

  lemma AppendUnique(t: Table, b: seq<EvalUnit>)
    requires UniqueIds(t) && UniqueIds(b)
    requires forall k | 0 <= k < |b| :: !HasId(t, b[k].id)
    ensures UniqueIds(t + b)
  {
    var r := t + b;
    forall i, j | 0 <= i < j < |r| ensures r[i].id != r[j].id {
      if j >= |t| && i < |t| {
        assert r[j] == b[j - |t|];
        assert r[i] == t[i];
        if r[i].id == r[j].id { assert HasId(t, b[j - |t|].id); }
      } else if i >= |t| {
        assert r[i] == b[i - |t|] && r[j] == b[j - |t|];
      }
    }
  }

  /** An id of a prefix of the table is an id of the table. */
  lemma PrefixIds(p: Table, t: Table)
    requires |p| <= |t| && t[..|p|] == p
    ensures forall id | HasId(p, id) :: HasId(t, id)
  {
    forall id | HasId(p, id) ensures HasId(t, id) {
      var m :| 0 <= m < |p| && p[m].id == id;
      assert t[m] == p[m];
    }
  }

  /** A successful insert of a checked buffer keeps the worker's invariant. */
  lemma FlushKeeps(store0: Table, s: WorkerState)
    requires Grown(store0, s) && BufferOk(s) && BulkCreate(s.store, s.buffer).Some?
    ensures Grown(store0, s.(store := s.store + s.buffer, buffer := [], total := s.total + |s.buffer|))
  {
    var t := s.store + s.buffer;
    PrefixIds(store0, s.store);
    assert t[..|s.store|] == s.store;
    assert t[..|store0|] == s.store[..|store0|];
    forall k | |store0| <= k < |t| ensures t[k].cubf in CubfsToKeep && !HasId(store0, t[k].id) {
      if k >= |s.store| {
        assert t[k] == s.buffer[k - |s.store|];
      } else {
        assert t[k] == s.store[k];
      }
    }
    if UniqueIds(store0) {
      AppendUnique(s.store, s.buffer);
    }
  }

  lemma StepKeeps(store0: Table, s: WorkerState, ev: Event, row: Option<EvalUnit>)
    requires Grown(store0, s) && BufferOk(s)
    requires row.Some? ==> row.value.cubf in CubfsToKeep
    ensures Grown(store0, Step(s, ev, row)) && BufferOk(Step(s, ev, row))
  {
    var b := if ev.UnitElement? then s.(jBound := true, unitXmlBound := true) else s.(jBound := true);
    var s1 := if ev.UnitElement? && row.Some? && !HasId(s.store, row.value.id) then b.(buffer := s.buffer + [row.value]) else b;
    assert BufferOk(s1) by {
      forall k | 0 <= k < |s1.buffer| ensures s1.buffer[k].cubf in CubfsToKeep && !HasId(s1.store, s1.buffer[k].id) {
        if k < |s.buffer| { assert s1.buffer[k] == s.buffer[k]; }
      }
    }
    if |s1.buffer| > 0 && |s1.buffer| % FlushSize == 0 && BulkCreate(s1.store, s1.buffer).Some? {
      FlushKeeps(store0, s1);
    }
  }

  lemma {:induction false} RunEventsKeeps(store0: Table, s: WorkerState, events: seq<Event>, rows: seq<Option<EvalUnit>>, muniCode: Option<string>)
    requires Grown(store0, s) && BufferOk(s) && RowsFit(events, rows, muniCode)
    ensures Grown(store0, RunEvents(s, events, rows)) && BufferOk(RunEvents(s, events, rows))
    decreases |events|
  {
    if events != [] {
      var n := |events| - 1;
      assert RowsFit(events[..n], rows[..n], muniCode) by {
        forall k | 0 <= k < n ensures rows[..n][k] == rows[k] && events[..n][k] == events[k] { }
      }
      RunEventsKeeps(store0, s, events[..n], rows[..n], muniCode);
      StepKeeps(store0, RunEvents(s, events[..n], rows[..n]), events[n], rows[n]);
    }
  }

  lemma ParseFileKeeps(store0: Table, s: WorkerState, doc: XmlDoc, codes: Codes, title: string -> string)
    requires Grown(store0, s)
    ensures Grown(store0, ParseFile(s, doc, codes, title).0)
    ensures !ParseFile(s, doc, codes, title).1 ==> ParseFile(s, doc, codes, title).0.buffer == []
  {
    var s0 := s.(buffer := [], muniCode := FileMuni(s, doc));
    if doc.year.Some? && !doc.end.HeaderTagEmpty? {
      var rows := Rows(doc.events, s0.muniCode, doc.year.value, codes, title);
      RunEventsKeeps(store0, s0, doc.events, rows, s0.muniCode);
      var after := RunEvents(s0, doc.events, rows);
      if doc.end.Complete? && BulkCreate(after.store, after.buffer).Some? {
        FlushKeeps(store0, after);
      }
      assert ParseFile(s, doc, codes, title) == ParseStream(s0, doc, codes, title);
    }
  }

  /** Every file keeps the worker's invariant, and a worker that does not crash ends with an empty buffer. */
  lemma {:induction false} RunFilesKeeps(store0: Table, s: WorkerState, docs: seq<XmlDoc>, codes: Codes, title: string -> string)
    requires Grown(store0, s)
    ensures Grown(store0, RunFiles(s, docs, codes, title).0)
    ensures !RunFiles(s, docs, codes, title).1 && s.buffer == [] ==> RunFiles(s, docs, codes, title).0.buffer == []
    decreases |docs|
  {
    if docs != [] {
      ParseFileKeeps(store0, s, docs[0], codes, title);
      RunFilesKeeps(store0, ParseFile(s, docs[0], codes, title).0, docs[1..], codes, title);
    }
  }

  // ---------------------------------------------------------------------------
  // With distinct unit ids inside each file, no insert fails and the buffer
  // stays below 1000 rows between events.

  /** No two unit elements of the file carry the same matricule. */
  predicate DistinctIds(doc: XmlDoc)
  {
    forall i, j | 0 <= i < j < |doc.events| ::
      Mat18Of(doc.events[i]).None? || Mat18Of(doc.events[i]) != Mat18Of(doc.events[j])
  }

  predicate AllDistinct(docs: seq<XmlDoc>)
  {
    forall d | 0 <= d < |docs| :: DistinctIds(docs[d])
  }

  /** The buffer holds distinct rows from distinct earlier events, fewer than 1000 of them. */
  predicate BufferFromEvents(s: WorkerState, events: seq<Event>, muniCode: Option<string>)
  {
    |s.buffer| < FlushSize && UniqueIds(s.buffer) &&
    forall k | 0 <= k < |s.buffer| :: FromEvents(events, muniCode, s.buffer[k].id)
  }

  /** Buffering a row whose matricule is new to the file keeps the buffer distinct. */
  lemma AppendFromEvents(p: WorkerState, prefix: seq<Event>, ev: Event, u: EvalUnit, muniCode: Option<string>)
    requires BufferFromEvents(p, prefix, muniCode) && BufferOk(p)
    requires forall j | 0 <= j < |prefix| :: Mat18Of(prefix[j]).None? || Mat18Of(prefix[j]) != Mat18Of(ev)
    requires IdOf(muniCode, ev) == Some(u.id) && u.cubf in CubfsToKeep && !HasId(p.store, u.id)
    ensures UniqueIds(p.buffer + [u]) && BufferOk(p.(buffer := p.buffer + [u]))
    ensures forall k | 0 <= k < |p.buffer + [u]| :: FromEvents(prefix + [ev], muniCode, (p.buffer + [u])[k].id)
  {
    var events := prefix + [ev];
    var b := p.buffer + [u];
    assert forall j | 0 <= j < |prefix| :: events[j] == prefix[j];
    assert events[|prefix|] == ev;
    forall k | 0 <= k < |b| ensures FromEvents(events, muniCode, b[k].id) {
      if k < |p.buffer| {
        assert b[k] == p.buffer[k];
        assert FromEvents(prefix, muniCode, p.buffer[k].id);
        var j :| 0 <= j < |prefix| && IdOf(muniCode, prefix[j]) == Some(p.buffer[k].id);
        assert IdOf(muniCode, events[j]) == Some(b[k].id);
      } else {
        assert IdOf(muniCode, events[|prefix|]) == Some(b[k].id);
      }
    }
    forall k | 0 <= k < |p.buffer| ensures p.buffer[k].id != u.id {
      assert FromEvents(prefix, muniCode, p.buffer[k].id);
      var j :| 0 <= j < |prefix| && IdOf(muniCode, prefix[j]) == Some(p.buffer[k].id);
      if p.buffer[k].id == u.id {
        IdInjective(muniCode, prefix[j], ev);
      }
    }
    forall i, j | 0 <= i < j < |b| ensures b[i].id != b[j].id {
      assert b[i] == p.buffer[i];
      if j < |p.buffer| { assert b[j] == p.buffer[j]; }
    }
    forall k | 0 <= k < |b| ensures b[k].cubf in CubfsToKeep && !HasId(p.store, b[k].id) {
      if k < |p.buffer| { assert b[k] == p.buffer[k]; }
    }
  }

  lemma {:induction false} RunEventsBounded(store0: Table, s: WorkerState, events: seq<Event>, rows: seq<Option<EvalUnit>>, muniCode: Option<string>)
    requires Grown(store0, s) && s.buffer == [] && RowsFit(events, rows, muniCode)
    requires DistinctIds(XmlDoc(muniCode, None, events, Complete))
    ensures BufferFromEvents(RunEvents(s, events, rows), events, muniCode)
    decreases |events|
  {
    if events != [] {
      var n := |events| - 1;
      var prefix, ev := events[..n], events[n];
      assert events == prefix + [ev];
      PrefixFits(prefix, ev, rows, muniCode);
      RunEventsBounded(store0, s, prefix, rows[..n], muniCode);
      RunEventsKeeps(store0, s, prefix, rows[..n], muniCode);
      StepBounded(store0, RunEvents(s, prefix, rows[..n]), prefix, ev, rows[n], muniCode);
    }
  }

  /** One event keeps the buffer distinct, drawn from the file's events, and below 1000 rows. */
  lemma StepBounded(store0: Table, p: WorkerState, prefix: seq<Event>, ev: Event, row: Option<EvalUnit>, muniCode: Option<string>)
    requires Grown(store0, p) && BufferOk(p) && BufferFromEvents(p, prefix, muniCode)
    requires row.Some? ==> ev.UnitElement? && row.value.cubf in CubfsToKeep && IdOf(muniCode, ev) == Some(row.value.id)
    requires forall j | 0 <= j < |prefix| :: Mat18Of(prefix[j]).None? || Mat18Of(prefix[j]) != Mat18Of(ev)
    ensures BufferFromEvents(Step(p, ev, row), prefix + [ev], muniCode)
  {
    var events := prefix + [ev];
    if ev.UnitElement? && row.Some? && !HasId(p.store, row.value.id) {
      AppendFromEvents(p, prefix, ev, row.value, muniCode);
      var s1 := p.(jBound := true, unitXmlBound := true, buffer := p.buffer + [row.value]);
      if |s1.buffer| == FlushSize {
        assert BulkCreate(s1.store, s1.buffer).Some?;
      }
    } else {
      forall k | 0 <= k < |p.buffer|
        ensures FromEvents(events, muniCode, p.buffer[k].id)
      {
        assert FromEvents(prefix, muniCode, p.buffer[k].id);
        var j :| 0 <= j < |prefix| && IdOf(muniCode, prefix[j]) == Some(p.buffer[k].id);
        assert events[j] == prefix[j];
      }
      assert Step(p, ev, row).buffer == p.buffer;
    }
  }

  /** What holds of a file's events holds of all but its last, and the last is distinct from them. */
  lemma PrefixFits(prefix: seq<Event>, ev: Event, rows: seq<Option<EvalUnit>>, muniCode: Option<string>)
    requires RowsFit(prefix + [ev], rows, muniCode)
    requires DistinctIds(XmlDoc(muniCode, None, prefix + [ev], Complete))
    ensures RowsFit(prefix, rows[..|prefix|], muniCode)
    ensures DistinctIds(XmlDoc(muniCode, None, prefix, Complete))
    ensures forall j | 0 <= j < |prefix| :: Mat18Of(prefix[j]).None? || Mat18Of(prefix[j]) != Mat18Of(ev)
  {
    var events, n := prefix + [ev], |prefix|;
    assert RowsFit(prefix, rows[..n], muniCode) by {
      forall k | 0 <= k < n ensures rows[..n][k] == rows[k] && prefix[k] == events[k] { }
    }
    assert DistinctIds(XmlDoc(muniCode, None, prefix, Complete)) by {
      forall i, j | 0 <= i < j < n ensures Mat18Of(prefix[i]).None? || Mat18Of(prefix[i]) != Mat18Of(prefix[j]) {
        assert prefix[i] == events[i] && prefix[j] == events[j];
      }
    }
    forall j | 0 <= j < n ensures Mat18Of(prefix[j]).None? || Mat18Of(prefix[j]) != Mat18Of(ev) {
      assert prefix[j] == events[j] && ev == events[n];
    }
  }

  /** With distinct matricules in a file without a SAX error, the end-of-file flush succeeds. */
  lemma ParseFileSucceeds(store0: Table, s: WorkerState, doc: XmlDoc, codes: Codes, title: string -> string)
    requires Grown(store0, s) && DistinctIds(doc) && doc.end.Complete?
    ensures !ParseFile(s, doc, codes, title).1
  {
    var s0 := s.(buffer := [], muniCode := FileMuni(s, doc));
    if doc.year.Some? {
      var rows := Rows(doc.events, s0.muniCode, doc.year.value, codes, title);
      assert DistinctIds(XmlDoc(s0.muniCode, None, doc.events, Complete));
      RunEventsBounded(store0, s0, doc.events, rows, s0.muniCode);
      RunEventsKeeps(store0, s0, doc.events, rows, s0.muniCode);
    }
  }

  // ---------------------------------------------------------------------------
  // Which SAX errors end the worker.

  predicate HasUnit(events: seq<Event>)
  {
    exists k | 0 <= k < |events| :: events[k].UnitElement?
  }

  /** `unit_xml` is bound only by a unit element, which binds `j` too. */
  predicate BoundInOrder(s: WorkerState)
  {
    s.unitXmlBound ==> s.jBound
  }

  /** A file's events bind `j` if there is one and `unit_xml` if one is a unit element, and unbind nothing. */
  lemma {:induction false} RunEventsBinds(s: WorkerState, events: seq<Event>, rows: seq<Option<EvalUnit>>)
    requires |rows| == |events| && BoundInOrder(s)
    ensures BoundInOrder(RunEvents(s, events, rows))
    ensures s.jBound || events != [] ==> RunEvents(s, events, rows).jBound
    ensures s.unitXmlBound || HasUnit(events) ==> RunEvents(s, events, rows).unitXmlBound
    decreases |events|
  {
    if events != [] {
      var n := |events| - 1;
      RunEventsBinds(s, events[..n], rows[..n]);
      if HasUnit(events) && !events[n].UnitElement? {
        var k :| 0 <= k < |events| && events[k].UnitElement?;
        assert events[..n][k].UnitElement?;
      }
    }
  }

  /** Events without a unit element leave `unit_xml` as it was. */
  lemma {:induction false} UnitUnbound(s: WorkerState, events: seq<Event>, rows: seq<Option<EvalUnit>>)
    requires |rows| == |events| && !HasUnit(events)
    ensures RunEvents(s, events, rows).unitXmlBound == s.unitXmlBound
    decreases |events|
  {
    if events != [] {
      var n := |events| - 1;
      assert !HasUnit(events[..n]) by {
        forall k | 0 <= k < n ensures !events[..n][k].UnitElement? { assert events[..n][k] == events[k]; }
      }
      UnitUnbound(s, events[..n], rows[..n]);
    }
  }

  /** A file leaves bound what was bound, and a file with a unit element binds `unit_xml`. */
  lemma ParseFileBinds(s: WorkerState, doc: XmlDoc, codes: Codes, title: string -> string)
    requires BoundInOrder(s)
    ensures BoundInOrder(ParseFile(s, doc, codes, title).0)
    ensures s.jBound ==> ParseFile(s, doc, codes, title).0.jBound
    ensures s.unitXmlBound || (doc.year.Some? && !doc.end.HeaderTagEmpty? && HasUnit(doc.events)) ==>
      ParseFile(s, doc, codes, title).0.unitXmlBound
  {
    var s0 := s.(buffer := [], muniCode := FileMuni(s, doc));
    if doc.year.Some? {
      RunEventsBinds(s0, doc.events, Rows(doc.events, s0.muniCode, doc.year.value, codes, title));
    }
  }

  /** Once `unit_xml` is bound, no SAX error ends the worker. */
  lemma ParseFileSurvivesErrors(s: WorkerState, doc: XmlDoc, codes: Codes, title: string -> string)
    requires s.unitXmlBound && BoundInOrder(s) && doc.end.SaxError()
    ensures !ParseFile(s, doc, codes, title).1
  {
    var s0 := s.(buffer := [], muniCode := FileMuni(s, doc));
    if doc.year.Some? {
      RunEventsBinds(s0, doc.events, Rows(doc.events, s0.muniCode, doc.year.value, codes, title));
    }
  }

  /** Every file whose stream breaks comes after a file holding a unit element. */
  predicate ErrorsAfterAUnit(docs: seq<XmlDoc>)
  {
    forall d | 0 <= d < |docs| && docs[d].end.SaxError() ::
      exists e | 0 <= e < d :: docs[e].year.Some? && HasUnit(docs[e].events)
  }

  /** Every file's `RLM01A` and `RLM02A` tags, where present, hold text. */
  predicate HeadersHaveText(docs: seq<XmlDoc>)
  {
    forall d | 0 <= d < |docs| :: !docs[d].end.HeaderTagEmpty?
  }

  /**
   * A worker crashes only on a failed end-of-file insert, on a header tag
   * without text, or on a SAX error handled while `j` or `unit_xml` is
   * unbound: with distinct matricules in every file, text in every header
   * tag, and every broken file after one holding a unit element (or
   * `unit_xml` already bound), it does not crash.
   */
  lemma {:induction false} RunFilesSafe(store0: Table, s: WorkerState, docs: seq<XmlDoc>, codes: Codes, title: string -> string)
    requires Grown(store0, s) && BoundInOrder(s) && AllDistinct(docs) && HeadersHaveText(docs)
    requires forall d | 0 <= d < |docs| && docs[d].end.SaxError() ::
      s.unitXmlBound || exists e | 0 <= e < d :: docs[e].year.Some? && HasUnit(docs[e].events)
    ensures !RunFiles(s, docs, codes, title).1
    decreases |docs|
  {
    if docs != [] {
      var doc := docs[0];
      assert DistinctIds(doc) && !doc.end.HeaderTagEmpty?;
      if doc.end.Complete? {
        ParseFileSucceeds(store0, s, doc, codes, title);
      } else {
        ParseFileSurvivesErrors(s, doc, codes, title);
      }
      var next := ParseFile(s, doc, codes, title).0;
      ParseFileKeeps(store0, s, doc, codes, title);
      ParseFileBinds(s, doc, codes, title);
      var rest := docs[1..];
      assert AllDistinct(rest) && HeadersHaveText(rest) by {
        forall d | 0 <= d < |rest| ensures DistinctIds(rest[d]) && !rest[d].end.HeaderTagEmpty? {
          assert rest[d] == docs[d + 1];
        }
      }
      forall d | 0 <= d < |rest| && rest[d].end.SaxError()
        ensures next.unitXmlBound || exists e | 0 <= e < d :: rest[e].year.Some? && HasUnit(rest[e].events)
      {
        assert rest[d] == docs[d + 1];
        if !next.unitXmlBound {
          var e :| 0 <= e < d + 1 && docs[e].year.Some? && HasUnit(docs[e].events);
          assert rest[e - 1] == docs[e];
        }
      }
      RunFilesSafe(store0, next, rest, codes, title);
    }
  }

  /**
   * The handlers' own error: a SAX error in the header of the worker's first
   * file, or inside its first unit element, meets `j` or `unit_xml` unbound
   * and ends the worker.
   */
  lemma FirstFileErrorCrashes(store: Table, doc: XmlDoc, docs: seq<XmlDoc>, codes: Codes, title: string -> string)
    requires (doc.year.None? && !doc.end.Complete?) || (doc.year.Some? && doc.end.ErrorInUnit? && !HasUnit(doc.events))
    ensures RunFiles(Start(store), [doc] + docs, codes, title).1
  {
    var s := Start(store);
    var s0 := s.(buffer := [], muniCode := FileMuni(s, doc));
    if doc.year.Some? {
      UnitUnbound(s0, doc.events, Rows(doc.events, s0.muniCode, doc.year.value, codes, title));
    }
    assert ([doc] + docs)[0] == doc;
  }

  /**
   * A header tag without text ends the worker whatever came before: the
   * table and the total stay as the earlier files left them.
   */
  lemma EmptyHeaderTagCrashes(s: WorkerState, doc: XmlDoc, docs: seq<XmlDoc>, codes: Codes, title: string -> string)
    requires doc.end.HeaderTagEmpty?
    ensures RunFiles(s, [doc] + docs, codes, title).1
    ensures RunFiles(s, [doc] + docs, codes, title).0.store == s.store
    ensures RunFiles(s, [doc] + docs, codes, title).0.total == s.total
  {
    assert ([doc] + docs)[0] == doc;
  }

  // ---------------------------------------------------------------------------
  // Which units get stored.

  /** The rows the worker holds: stored, then buffered. */
  function Held(s: WorkerState): Table
  {
    s.store + s.buffer
  }

  /** `b` starts with `a`. */
  predicate Extends(a: Table, b: Table)
  {
    |a| <= |b| && b[..|a|] == a
  }

  /** An event adds its unit's row to the held rows when it is new; a flush only moves rows into the table. */
  lemma HeldStep(s: WorkerState, ev: Event, row: Option<EvalUnit>)
    ensures Held(Step(s, ev, row)) ==
      Held(s) + if ev.UnitElement? && row.Some? && !HasId(s.store, row.value.id) then [row.value] else []
  {
    var b := if ev.UnitElement? then s.(jBound := true, unitXmlBound := true) else s.(jBound := true);
    var s1 := if ev.UnitElement? && row.Some? && !HasId(s.store, row.value.id) then b.(buffer := s.buffer + [row.value]) else b;
    assert Held(s1) == Held(s) + if ev.UnitElement? && row.Some? && !HasId(s.store, row.value.id) then [row.value] else [];
    assert Held(s1) + [] == Held(s1);
  }

  /**
   * `h` is `store` followed by rows of unit elements among `events`, and
   * holds every candidate row whose id `store` lacks.
   */
  predicate HeldFrom(store: Table, h: Table, events: seq<Event>, rows: seq<Option<EvalUnit>>, muniCode: Option<string>)
    requires |rows| == |events|
  {
    Extends(store, h) &&
    Traced(store, h, events, muniCode) &&
    (forall k | 0 <= k < |events| && rows[k].Some? && !HasId(store, rows[k].value.id) :: rows[k].value in h)
  }

  /** `id` is the id of one of `events`. */
  predicate FromEvents(events: seq<Event>, muniCode: Option<string>, id: string)
  {
    exists j | 0 <= j < |events| :: IdOf(muniCode, events[j]) == Some(id)
  }

  /** Every row of `h` past `store` carries the id of one of `events`. */
  predicate Traced(store: Table, h: Table, events: seq<Event>, muniCode: Option<string>)
  {
    forall m | |store| <= m < |h| :: FromEvents(events, muniCode, h[m].id)
  }

  /**
   * After a file's events the held rows are the table's rows followed by
   * rows of the file's unit elements, and with distinct matricules in the
   * file every candidate row whose id was not stored before is among them.
   */
  lemma {:induction false} RunEventsHeld(s: WorkerState, events: seq<Event>, rows: seq<Option<EvalUnit>>, muniCode: Option<string>)
    requires s.buffer == [] && RowsFit(events, rows, muniCode)
    requires DistinctIds(XmlDoc(muniCode, None, events, Complete))
    ensures HeldFrom(s.store, Held(RunEvents(s, events, rows)), events, rows, muniCode)
    decreases |events|
  {
    if events == [] {
      assert Held(s) == s.store;
    } else {
      var n := |events| - 1;
      var prefix, ev := events[..n], events[n];
      assert events == prefix + [ev];
      PrefixFits(prefix, ev, rows, muniCode);
      RunEventsHeld(s, prefix, rows[..n], muniCode);
      var p := RunEvents(s, prefix, rows[..n]);
      HeldStep(p, ev, rows[n]);
      assert Held(p)[..|p.store|] == p.store;
      HeldFromStep(s.store, p.store, Held(p), prefix, ev, rows, muniCode);
    }
  }

  /** One more event keeps `HeldFrom`, given that its matricule is new to the file. */
  lemma HeldFromStep(store: Table, current: Table, h: Table, prefix: seq<Event>, ev: Event, rows: seq<Option<EvalUnit>>, muniCode: Option<string>)
    requires |rows| == |prefix| + 1 && HeldFrom(store, h, prefix, rows[..|prefix|], muniCode)
    requires |current| <= |h| && h[..|current|] == current
    requires rows[|prefix|].Some? ==> ev.UnitElement? && IdOf(muniCode, ev) == Some(rows[|prefix|].value.id)
    requires forall j | 0 <= j < |prefix| :: Mat18Of(prefix[j]).None? || Mat18Of(prefix[j]) != Mat18Of(ev)
    ensures HeldFrom(store, h + if ev.UnitElement? && rows[|prefix|].Some? && !HasId(current, rows[|prefix|].value.id)
      then [rows[|prefix|].value] else [], prefix + [ev], rows, muniCode)
  {
    var n, events := |prefix|, prefix + [ev];
    assert |rows[..n]| == |prefix|;
    var added := if ev.UnitElement? && rows[n].Some? && !HasId(current, rows[n].value.id) then [rows[n].value] else [];
    var h1 := h + added;
    assert h1[..|h|] == h;
    assert h1[..|store|] == h[..|store|] == store;
    assert Traced(store, h1, events, muniCode) by {
      forall m | |store| <= m < |h1|
        ensures FromEvents(events, muniCode, h1[m].id)
      {
        if m < |h| {
          assert FromEvents(prefix, muniCode, h[m].id);
          var j :| 0 <= j < |prefix| && IdOf(muniCode, prefix[j]) == Some(h[m].id);
          assert events[j] == prefix[j] && h1[m] == h[m];
        } else {
          assert h1[m] == rows[n].value && events[n] == ev;
        }
      }
    }
    forall k | 0 <= k < |events| && rows[k].Some? && !HasId(store, rows[k].value.id)
      ensures rows[k].value in h1
    {
      if k < n {
        assert rows[..n][k] == rows[k];
        var i :| 0 <= i < |h| && h[i] == rows[k].value;
        assert h1[i] == h[i];
      } else {
        NotYetStored(store, current, h, prefix, ev, rows[n].value, muniCode);
        assert h1[|h|] == rows[k].value;
      }
    }
  }

  /** The row of the file's next unit is not in a table that holds, past the old rows, only rows of earlier units. */
  lemma NotYetStored(store: Table, current: Table, h: Table, prefix: seq<Event>, ev: Event, u: EvalUnit, muniCode: Option<string>)
    requires Extends(store, h) && !HasId(store, u.id) && IdOf(muniCode, ev) == Some(u.id)
    requires |current| <= |h| && h[..|current|] == current
    requires Traced(store, h, prefix, muniCode)
    requires forall j | 0 <= j < |prefix| :: Mat18Of(prefix[j]).None? || Mat18Of(prefix[j]) != Mat18Of(ev)
    ensures !HasId(current, u.id)
  {
    forall m | 0 <= m < |current| ensures current[m].id != u.id {
      assert current[m] == h[m];
      if m < |store| {
        assert h[m] == store[m];
      } else {
        var j :| 0 <= j < |prefix| && IdOf(muniCode, prefix[j]) == Some(h[m].id);
        if h[m].id == u.id {
          IdInjective(muniCode, prefix[j], ev);
        }
      }
    }
  }

  /** The candidate rows of a file, under the municipal code in force for it. */
  function FileRows(s: WorkerState, doc: XmlDoc, codes: Codes, title: string -> string): seq<Option<EvalUnit>>
    requires doc.year.Some?
  {
    Rows(doc.events, FileMuni(s, doc), doc.year.value, codes, title)
  }

  /**
   * In a file without a SAX error and with distinct matricules, the row of
   * every unit element with an allowed CUBF whose id is not stored yet ends
   * up in the table.
   */
  lemma ParseFileStores(store0: Table, s: WorkerState, doc: XmlDoc, codes: Codes, title: string -> string, k: nat)
    requires Grown(store0, s) && doc.end.Complete? && DistinctIds(doc) && doc.year.Some?
    requires k < |doc.events| && FileRows(s, doc, codes, title)[k].Some?
    requires !HasId(s.store, FileRows(s, doc, codes, title)[k].value.id)
    ensures FileRows(s, doc, codes, title)[k].value in ParseFile(s, doc, codes, title).0.store
  {
    var s0 := s.(buffer := [], muniCode := FileMuni(s, doc));
    var rows := FileRows(s, doc, codes, title);
    assert DistinctIds(XmlDoc(s0.muniCode, None, doc.events, Complete));
    HeldIfNew(s0, doc.events, rows, s0.muniCode, k);
    ParseFileSucceeds(store0, s, doc, codes, title);
    var after := RunEvents(s0, doc.events, rows);
    assert ParseFile(s, doc, codes, title) == ParseStream(s0, doc, codes, title);
    assert ParseFile(s, doc, codes, title).0.store == Held(after);
  }

  /** A candidate row whose id was not stored is held after the file's events. */
  lemma HeldIfNew(s: WorkerState, events: seq<Event>, rows: seq<Option<EvalUnit>>, muniCode: Option<string>, k: nat)
    requires s.buffer == [] && RowsFit(events, rows, muniCode)
    requires DistinctIds(XmlDoc(muniCode, None, events, Complete))
    requires k < |events| && rows[k].Some? && !HasId(s.store, rows[k].value.id)
    ensures rows[k].value in Held(RunEvents(s, events, rows))
  {
    RunEventsHeld(s, events, rows, muniCode);
  }

  // ---------------------------------------------------------------------------
  // The worker loop.

  /**
   * `parse_xmls` over one worker's files: the table, `worker_total_units`,
   * and whether the worker crashed.  The table only grows, by allowed rows
   * with new ids that `total` counts.
   */
  method ParseXmls(docs: seq<XmlDoc>, store: Table, codes: Codes, title: string -> string)
    returns (newStore: Table, total: nat, crashed: bool)
    ensures newStore == RunFiles(Start(store), docs, codes, title).0.store
    ensures total == RunFiles(Start(store), docs, codes, title).0.total
    ensures crashed == RunFiles(Start(store), docs, codes, title).1
    ensures |store| <= |newStore| && newStore[..|store|] == store
    ensures total == |newStore| - |store|
    ensures forall k | |store| <= k < |newStore| :: newStore[k].cubf in CubfsToKeep && !HasId(store, newStore[k].id)
    ensures UniqueIds(store) ==> UniqueIds(newStore)
    ensures AllDistinct(docs) && HeadersHaveText(docs) && ErrorsAfterAUnit(docs) ==> !crashed
  {
    var s := Start(store);
    var f := 0;
    crashed := false;
    while f < |docs|
      invariant 0 <= f <= |docs|
      invariant RunFiles(s, docs[f..], codes, title) == RunFiles(Start(store), docs, codes, title)
      decreases |docs| - f
    {
      var next, failed := ParseFileLoop(s, docs[f], codes, title);
      assert docs[f..][1..] == docs[f + 1..];
      if failed {
        s, crashed := next, true;
        break;
      }
      s := next;
      f := f + 1;
    }
    assert store[..|store|] == store;
    RunFilesKeeps(store, Start(store), docs, codes, title);
    if AllDistinct(docs) && HeadersHaveText(docs) && ErrorsAfterAUnit(docs) {
      RunFilesSafe(store, Start(store), docs, codes, title);
    }
    newStore, total := s.store, s.total;
  }

  /** One file: the header, the event loop, then the SAX-error or end-of-file branch. */
  method ParseFileLoop(s: WorkerState, doc: XmlDoc, codes: Codes, title: string -> string) returns (r: WorkerState, crashed: bool)
    ensures (r, crashed) == ParseFile(s, doc, codes, title)
  {
    var st := s.(buffer := [], muniCode := FileMuni(s, doc));
    if doc.end.HeaderTagEmpty? {
      return st, true;
    }
    r, crashed := ParseStreamLoop(st, doc, codes, title);
  }

  /** A file past its header: the event loop, then the SAX-error or end-of-file branch. */
  method ParseStreamLoop(s0: WorkerState, doc: XmlDoc, codes: Codes, title: string -> string) returns (r: WorkerState, crashed: bool)
    requires !doc.end.HeaderTagEmpty?
    ensures (r, crashed) == ParseStream(s0, doc, codes, title)
  {
    var st := s0;
    if doc.year.None? {
      return st, !doc.end.Complete? && !st.jBound;
    }
    st := ParseEvents(st, doc.events, st.muniCode, doc.year.value, codes, title);
    if doc.end.ErrorBetweenElements? {
      return st.(buffer := []), !st.jBound;
    }
    if doc.end.ErrorInUnit? {
      return st.(buffer := [], jBound := true), !st.unitXmlBound;
    }
    var inserted := BulkCreate(st.store, st.buffer);
    if inserted.None? {
      return st, true;
    }
    return st.(store := inserted.value, buffer := [], total := st.total + |st.buffer|), false;
  }

  lemma StepInvariant(s: WorkerState, events: seq<Event>, rows: seq<Option<EvalUnit>>, k: nat, before: WorkerState, after: WorkerState)
    requires |rows| == |events| && k < |events|
    requires before == RunEvents(s, events[..k], rows[..k]) && after == Step(before, events[k], rows[k])
    ensures after == RunEvents(s, events[..k + 1], rows[..k + 1])
  {
    assert events[..k + 1][..k] == events[..k] && rows[..k + 1][..k] == rows[..k];
  }

  /** The body of the per-event `try` and the flush check after it. */
  method HandleEvent(s: WorkerState, ev: Event, row: Option<EvalUnit>) returns (st: WorkerState)
    ensures st == Step(s, ev, row)
  {
    st := s.(jBound := true);
    if ev.UnitElement? {
      st := st.(unitXmlBound := true);
      if row.None? || HasId(st.store, row.value.id) {
        return;
      }
      st := st.(buffer := st.buffer + [row.value]);
    }
    if |st.buffer| > 0 && |st.buffer| % FlushSize == 0 {
      var inserted := BulkCreate(st.store, st.buffer);
      if inserted.Some? {
        st := st.(store := inserted.value, buffer := [], total := st.total + |st.buffer|);
      }
    }
  }

  /** The inner loop of `parse_xmls`, event by event. */
  method ParseEvents(s: WorkerState, events: seq<Event>, muniCode: Option<string>, year: string, codes: Codes, title: string -> string)
    returns (st: WorkerState)
    ensures st == RunEvents(s, events, Rows(events, muniCode, year, codes, title))
  {
    ghost var rows := Rows(events, muniCode, year, codes, title);
    st := s;
    var k := 0;
    while k < |events|
      invariant 0 <= k <= |events|
      invariant st == RunEvents(s, events[..k], rows[..k])
    {
      ghost var before := st;
      var row := None;
      if events[k].UnitElement? {
        row := Candidate(events[k].xml, muniCode, year, codes, title);
      }
      assert row == rows[k];
      st := HandleEvent(st, events[k], row);
      StepInvariant(s, events, rows, k, before, st);
      k := k + 1;
    }
    assert events[..|events|] == events && rows[..|events|] == rows;
  }
}
