# ReCONstruct Building-Identification-Tool: the data pipeline, modelled in Dafny

The Building-Identification-Tool fills a PostgreSQL/PostGIS database with
Quebec buildings that survey users then classify. A set of Django
management commands prepares that database:

- **process_roll_xml** reads the provincial property-assessment roll. It
  holds one XML file per municipality, with one `RLUEx` element per
  evaluation unit. The command deals the files to workers, largest file
  first, each to the least-loaded worker. Each worker keeps the units
  whose land use (CUBF) is allowed. It builds their 18-character
  matricule and 23-character id, assembles the address, the street name
  and the apartment number, and selects the owner sub-record. It buffers
  the rows and bulk-inserts them 1000 at a time.
- **process_roll_shp** gives each unit its coordinates from the roll
  shapefile. Workers get ceil-sized contiguous index ranges. It then
  deletes the units left without coordinates.
- **process_lots** deletes cadastral lots without a land use. It then
  links every lot to its units, page by page in `gid` order: a lot marked
  `Multiple` links every unit whose point it contains, any other lot links
  the unit it names. It commits after each lot whose index within its page
  is not a multiple of 10000.
- **aggregate_murbs** merges the units of a multi-unit residential
  building (MURB). These are the CUBF-1000 units that share coordinates,
  address and municipality. Their merge is one synthetic unit whose id
  ends in `9999`, built by vote, sum and mean rules and a floor-count
  heuristic. The command inserts the aggregate, archives the members and
  deletes them.
- **crossref_hlms** cross-references the public-housing (HLM) list.
  - Each CSV row is parsed by fixed columns.
  - Records with fewer than 3 dwellings or an unknown municipality are
    counted and skipped.
  - The municipality and the street are resolved against the roll, with
    per-worker caches.
  - The record is geocoded, with Mapbox first and Google second.
  - It is matched to a unit by lot containment, then by the nearest lot,
    then by address. A match is upserted.
- **check_streetview** probes Street View availability for every unit and
  backs off exponentially on network errors. Every 100th unit it upserts
  the whole list of answers gathered so far. The answers gathered after
  the last such flush are never written.
- **upload_screenshots** polls for upload jobs on a 1/5/10-second
  schedule. Each job uploads its Street View and satellite images at three
  sizes and records them.
- **query_utils** turns the front end's query-builder JSON into a Django
  filter tree.

The model is written module by module, one module per command:

| module | file | source |
|---|---|---|
| `Wrappers` | wrappers.dfy | `Option` / `Result` |
| `Text` | text.dfy | the Python string built-ins the commands use (`int()`, `str()`, `split`, `replace`, `upper`, `lower`, `strip`, slicing) |
| `Registry` | registry.dfy | the `evalunits` table as a sequence of rows, and its `SELECT`/`DELETE`/`UPDATE ... WHERE` |
| `RollXmlPartition` | roll_xml_partition.dfy | `split_xmls_between_workers` |
| `RollXmlUnit` | roll_xml_unit.dfy | `parse_unit_xml` and its helpers |
| `RollXmlIngest` | roll_xml_ingest.dfy | `parse_xmls` |
| `MurbAggregation` | aggregate_murbs.dfy | aggregate_murbs.py |
| `HlmParse` | hlm_parse.dfy | `parse_HLM_csv_row`, `separate_num_adr` |
| `HlmResolve` | hlm_resolve.dfy | `sanitize_street_name`, `resolve_municipality`, `resolve_street_name` |
| `HlmCrossref` | hlm_crossref.dfy | `geocode_and_crossref_HLMs`, `is_streetview_imagery_available` |
| `RollShapefile` | roll_shp.dfy | process_roll_shp.py |
| `LotLinking` | lots.dfy | process_lots.py |
| `StreetviewCheck` | streetview_check.dfy | check_streetview.py |
| `ScreenshotUpload` | screenshot_upload.dfy | upload_screenshots.py |
| `QueryRules` | query_rules.dfy | query_utils.py |

How the model is built:

- **The database is a value.** A command takes the tables it reads and
  returns the tables it leaves, as sequences of rows in storage order or
  as maps keyed by id.
- **External services are parameters.** The services, PostGIS
  predicates, trigram similarity, `title()`, `unidecode` and the code
  tables imported from `buildings.utils.constants` are function-typed or
  map-typed parameters with no assumed body.
- **Loops are methods.** Every loop of the source is a method with a
  `while` loop. Each is proved equal to a recursive specification
  function, and lemmas prove what the source promises about that
  function. `parse_xmls`, for example, has a file loop proved equal to
  `RunFiles` and an event loop proved equal to `RunEvents`.
- **The mutated job is a class.** The upload job that `process_job`
  mutates is a `class` with `status`, `jobData` and the list of saved
  statuses.

Several behaviours follow from the code as written. The model states them
and proves them:

- The owner loop never raises `max_date`, so the *last* listed
  sub-record dated after 1500-01-01 is the owner, not the latest one
  (`RollXmlUnit.LastListedOwnerWins`).
- `str(int('007'))` drops leading zeros from an all-digit HLM civic
  number (`HlmParse.AllDigitNumber`). The later `replace('-', '')` is
  discarded, so a dash stays (`HlmParse.DashKept`).
- The street-similarity stage of `resolve_street_name` never answers:
  its only row is consumed by the first `fetchone`
  (`HlmResolve.StreetNeverBySimilarity`).
- Nothing the HLM worker writes leaves `eval_unit_id` null, so the
  stage-3 address match joins on no row (`HlmCrossref.AddressStageIdle`).
- A Mapbox match without a context address leaves the record without
  one, and the record is then never stored
  (`HlmCrossref.MapboxWithoutContextDropped`).
- Google's "no street number" check cannot fire, because the number is
  always text.
- `infer_number_of_floors` reads a 3-digit apartment number `n` as
  `n // 10` floors: 305 gives 30 (`MurbAggregation.FloorExamples`).
- Re-running aggregation after a crash between the insert and the delete
  removes the building altogether
  (`MurbAggregation.RerunDropsBuilding`).
- With 101 lots the link of the last lot is never committed
  (`LotLinking.LastLotUncommitted`).
- An empty satellite image makes the upload reuse the Street View image
  (`ScreenshotUpload.EmptySatelliteReusesStreetview`).
- A failed in-loop `bulk_create` keeps the buffer, and a SAX error drops
  the buffered units.
- The SAX-error handler prints `j`, and the per-unit handler prints
  `unit_xml`. A SAX error in the header of a worker's first file, or
  inside its first unit element, meets that local unbound, so the
  handler's own `UnboundLocalError` ends the worker
  (`RollXmlIngest.FirstFileErrorCrashes`).
- An `RLM01A` or `RLM02A` header tag without text makes `childNodes[0]`
  raise IndexError, which neither handler catches: the worker ends
  whatever was bound (`RollXmlIngest.EmptyHeaderTagCrashes`).

## Model

| member | source | states |
|---|---|---|
| RollXmlPartition.SortBySizeCorrect | buildings/management/commands/process_roll_xml.py:151 | the files come out in size order and as a permutation of the input: nothing is lost or added |
| RollXmlPartition.InsertElems | buildings/management/commands/process_roll_xml.py:151 | inserting one file into the ordered list adds exactly that file |
| RollXmlPartition.InsertSorted | buildings/management/commands/process_roll_xml.py:151 | inserting a file into a size-ordered list keeps it ordered |
| RollXmlPartition.Slice | buildings/management/commands/process_roll_xml.py:155-159 | `islice(s, start, stop)` is the sub-sequence from start to stop, cut at the end of the sequence, and empty when the range is empty or starts at or past the end |
| RollXmlPartition.LeastWorker | buildings/management/commands/process_roll_xml.py:166-181 | the worker `heappushpop` hands the next file to: its `[load, id]` pair is the least of all workers', so its load is minimal and ties go to the lowest id |
| RollXmlPartition.MaxSize | buildings/management/commands/process_roll_xml.py:140-144 | the largest file size: no file exceeds it, some file has it, and it is 0 without files |
| RollXmlPartition.NoFiles | buildings/management/commands/process_roll_xml.py:166-168 | the initial splits: one per worker, ids 1..n, no file and size 0 |
| RollXmlPartition.Give | buildings/management/commands/process_roll_xml.py:176-180 | giving a file to a worker keeps the number of splits |
| RollXmlPartition.GiveFiles | buildings/management/commands/process_roll_xml.py:176-180 | after giving a file, the files of all splits are the files before plus that one |
| RollXmlPartition.GiveWellFormed | buildings/management/commands/process_roll_xml.py:176-180 | ids 1..n are kept, and each split's size stays the sum of its files' sizes |
| RollXmlPartition.LoadsGive | buildings/management/commands/process_roll_xml.py:176-180 | giving a file adds its size to the receiving worker's load and to no other |
| RollXmlPartition.Deal | buildings/management/commands/process_roll_xml.py:171-181 | dealing the files yields exactly one split per worker |
| RollXmlPartition.DealWellFormed | buildings/management/commands/process_roll_xml.py:166-181 | after dealing, split ids are 1..n and each split's size is the sum of its files' sizes |
| RollXmlPartition.DealFiles | buildings/management/commands/process_roll_xml.py:166-181 | every file lands in exactly one split: the multiset of all splits' files is the multiset of the dealt files |
| RollXmlPartition.DealBalanced | buildings/management/commands/process_roll_xml.py:171-181 | with every file at most `bound` in size, the final loads differ by at most `bound` |
| RollXmlPartition.Rebalance | buildings/management/commands/process_roll_xml.py:176-180 | adding at most `bound` to a least-loaded worker keeps all loads within `bound` of each other |
| RollXmlPartition.EmptyFiles | buildings/management/commands/process_roll_xml.py:166-168 | splits with no files hold no file |
| RollXmlPartition.SplitXmlsBetweenWorkers | buildings/management/commands/process_roll_xml.py:139-187 | fails iff there are no workers. Otherwise it returns `n` well-formed splits (ids 1..n, sizes equal file-size sums), made by the greedy dealing of the files largest first. Every file is in exactly one split, and loads differ by at most the largest file size |
| RollXmlUnit.TextField | buildings/management/commands/process_roll_xml.py:412-419 | `extract_field_or_none` without a type: the tag's text iff the tag is present |
| RollXmlUnit.IntField | buildings/management/commands/process_roll_xml.py:412-419 | with `type=int`: None when absent; an error exactly when the text is present and `int()` rejects it (white space around a signed, underscore-grouped digit run is accepted); else its value |
| RollXmlUnit.RealField | buildings/management/commands/process_roll_xml.py:412-419 | with `type=float`: None when absent; an error exactly when the text is present and `float()` rejects it; else the value `float()` reads |
| RollXmlUnit.GenerateMat18 | buildings/management/commands/process_roll_xml.py:509-532 | succeeds iff `rl0104a`, `rl0104b` and `rl0104c` are all present |
| RollXmlUnit.Mat18RoundTrip | buildings/management/commands/process_roll_xml.py:509-532 | with parts of the standard widths the matricule has 18 characters. Cutting it back at those widths yields `a`, `b`, `c`, then `d`, `e`, `f` padded with `'0'`, `'000'`, `'0000'` when absent |
| RollXmlUnit.SixParts | buildings/management/commands/process_roll_xml.py:509-532 | six parts of widths 4, 2, 4, 1, 3, 4 are recovered from their concatenation |
| RollXmlUnit.UnitId | buildings/management/commands/process_roll_xml.py:241-242 | the id is the municipal code followed by the matricule, and both can be read back |
| RollXmlUnit.IdLength | buildings/management/commands/process_roll_xml.py:241-242 | a five-character municipal code and a standard matricule give a 23-character id |
| RollXmlUnit.Resolved | buildings/management/commands/process_roll_xml.py:462-480 | a present code is resolved through its table; an unknown code raises; an absent one gives no token |
| RollXmlUnit.StreetTokens | buildings/management/commands/process_roll_xml.py:462-485 | fails iff the way-type, way-link or cardinal-point code is present but unknown; otherwise at most four tokens |
| RollXmlUnit.AssembleAddress | buildings/management/commands/process_roll_xml.py:427-485 | fails exactly when the street tokens do. The address is the civic-number tokens followed by the street tokens, space-joined. The street name is the street tokens space-joined |
| RollXmlUnit.AddressEndsWithStreet | buildings/management/commands/process_roll_xml.py:484-485 | the address is the civic-number part, a space and the street name (or just one of them when the other is empty), so the street name is its suffix |
| RollXmlUnit.AddressIgnoresApartment | buildings/management/commands/process_roll_xml.py:427-485 | changing the apartment fields never changes the address or street name |
| RollXmlUnit.JoinConcat | buildings/management/commands/process_roll_xml.py:484-485 | joining two non-empty token lists is joining each and putting the separator between |
| RollXmlUnit.AptNum | buildings/management/commands/process_roll_xml.py:488-506 | None iff both apartment fields are absent; otherwise the present one, or both joined by a space |
| RollXmlUnit.IsoFields | buildings/management/commands/process_roll_xml.py:353 | a `%Y-%m-%d` text splits into four year digits and one or two month and day digits |
| RollXmlUnit.ParseIsoDate | buildings/management/commands/process_roll_xml.py:353 | `strptime` with `%Y-%m-%d` only yields real calendar dates (month 1..12, day within the month, year at least 1) |
| RollXmlUnit.IsoParts | buildings/management/commands/process_roll_xml.py:353 | a date written as year, month and day digit runs reads as those numbers |
| RollXmlUnit.Date20200601 | buildings/management/commands/process_roll_xml.py:353 | "2020-06-01" reads as 2020-06-01 |
| RollXmlUnit.Date19991231 | buildings/management/commands/process_roll_xml.py:353 | "1999-12-31" reads as 1999-12-31 |
| RollXmlUnit.FirstUnreadable | buildings/management/commands/process_roll_xml.py:350-360 | the first owner sub-record the loop cannot get past (no parsable date, or a qualifying one without a type): everything before it is readable |
| RollXmlUnit.LastQualifying | buildings/management/commands/process_roll_xml.py:355 | the last sub-record dated after 1500-01-01 among the first `n`: none iff none qualifies, and no later one qualifies |
| RollXmlUnit.OwnerSelectionMeaning | buildings/management/commands/process_roll_xml.py:345-363 | the owner loop succeeds iff every sub-record is readable and at least one qualifies. The owner is then the date and type of a qualifying sub-record with no qualifying one after it. The type is `physical` iff `rl0201hx` is `'1'` |
| RollXmlUnit.LoopSelects | buildings/management/commands/process_roll_xml.py:349-363 | started from any readable prefix, the loop ends as the owner selection says |
| RollXmlUnit.LoopStops | buildings/management/commands/process_roll_xml.py:352-353 | at the first unreadable sub-record the loop raises the error the selection gives |
| RollXmlUnit.LoopStep | buildings/management/commands/process_roll_xml.py:350-360 | past a readable sub-record, the loop is where the selection is one sub-record later |
| RollXmlUnit.SelectOwner | buildings/management/commands/process_roll_xml.py:345-363 | the owner loop method computes the owner selection |
| RollXmlUnit.ReadOwnerRecord | buildings/management/commands/process_roll_xml.py:350-360 | one pass of the loop body is one step of the selection |
| RollXmlUnit.StopsAt | buildings/management/commands/process_roll_xml.py:352-353 | the loop stops at the first unreadable sub-record |
| RollXmlUnit.OwnerStep | buildings/management/commands/process_roll_xml.py:355-360 | one readable sub-record more replaces the owner exactly when it qualifies |
| RollXmlUnit.OwnerSettled | buildings/management/commands/process_roll_xml.py:362-363 | with all sub-records readable, the owner is the one the loop holds at the end, and with none qualifying the unbound `owner_date` raises |
| RollXmlUnit.SelectsLast | buildings/management/commands/process_roll_xml.py:345-363 | when all sub-records are readable and the last qualifies, the last is the owner |
| RollXmlUnit.LastListedOwnerWins | buildings/management/commands/process_roll_xml.py:349-360 | of two qualifying sub-records, the second is the owner even when the first is dated later, since `max_date` is never raised |
| RollXmlUnit.DecodeKnown | buildings/management/commands/process_roll_xml.py:366-395 | owner-status, physical-link and construction-type codes: only a non-empty known code is replaced; an unknown one is kept raw |
| RollXmlUnit.ReadLot | buildings/management/commands/process_roll_xml.py:374-380 | the numeric unit characteristics read without error iff every present one converts, and then are, in order, the converted `rl0301a`, `rl0302a` (decimals), `rl0306a`, `rl0307a` (integers), `rl0308a` (decimal) and `rl0311a` (integer) |
| RollXmlUnit.ReadValues | buildings/management/commands/process_roll_xml.py:397-407 | the counts and values read without error iff every present one converts, and then are the converted `rl0312a`, `rl0313a` (integers) and `rl0402a` to `rl0405a` (decimals) |
| RollXmlUnit.ReadMeasures | buildings/management/commands/process_roll_xml.py:374-407 | all numeric fields read iff each converts, and each of the twelve is its tag converted: `lot_lin_dim` from `rl0301a`, `lot_area` `rl0302a`, `max_floors` `rl0306a`, `const_yr` `rl0307a`, `floor_area` `rl0308a`, `num_dwelling` `rl0311a`, `num_rental` `rl0312a`, `num_non_res` `rl0313a`, `lot_value` `rl0402a`, `building_value` `rl0403a`, `value` `rl0404a`, `prev_value` `rl0405a` |
| RollXmlUnit.ParseUnitXml | buildings/management/commands/process_roll_xml.py:319-409 | the row succeeds iff the address block is present with known way codes, the owner loop succeeds and every numeric field converts. The row then carries the header's id, matricule and CUBF; the title-cased address and street; the apartment number; the selected owner date and type; and the decoded physical link and construction type, with no coordinates or lot |
| RollXmlUnit.ParseUnitXmlFields | buildings/management/commands/process_roll_xml.py:319-409 | every other field of a parsed row: year, municipality and code from the header; `arrond`, `file_num`, `nghbr_unit`, `const_yr_real` and `apprais_date` as the text of their tags; the four civic-number parts and the two apartment parts as the text of the address block's tags; the owner status decoded from `rl0201u`; the twelve numeric fields as `ReadMeasures` reads them; no point and no lot geometry |
| RollXmlIngest.BulkCreate | buildings/management/commands/process_roll_xml.py:266-274 | atomic `bulk_create`: succeeds iff the batch's ids are distinct and none is stored, and then appends the batch |
| RollXmlIngest.IdInjective | buildings/management/commands/process_roll_xml.py:241-242 | under one municipal code, equal ids mean equal matricules |
| RollXmlIngest.Admit | buildings/management/commands/process_roll_xml.py:232-263 | a unit is admitted only with an allowed CUBF, and then carries the id made from its matricule |
| RollXmlIngest.HeaderOf | buildings/management/commands/process_roll_xml.py:240-263 | an allowed unit's header keeps its CUBF and carries the id made from the file's code and the unit's matricule |
| RollXmlIngest.Candidate | buildings/management/commands/process_roll_xml.py:232-284 | a candidate row has an allowed CUBF, read from `rl0105a`, and the unit's own id |
| RollXmlIngest.Rows | buildings/management/commands/process_roll_xml.py:224-284 | each event's candidate row belongs to a unit element, is allowed, and carries that element's id |
| RollXmlIngest.AppendUnique | buildings/management/commands/process_roll_xml.py:266-274 | appending distinct rows not yet stored keeps the table's ids unique |
| RollXmlIngest.PrefixIds | buildings/management/commands/process_roll_xml.py:245-253 | an id stored before is still stored after the table grows |
| RollXmlIngest.FlushKeeps | buildings/management/commands/process_roll_xml.py:266-274 | a successful flush keeps the worker's invariant: the table only grew by allowed, new rows, and the total counts them |
| RollXmlIngest.StepKeeps | buildings/management/commands/process_roll_xml.py:232-284 | one event keeps the invariant, and the buffer holds only allowed rows not stored |
| RollXmlIngest.RunEventsKeeps | buildings/management/commands/process_roll_xml.py:224-284 | a file's events keep the invariant |
| RollXmlIngest.ParseFileKeeps | buildings/management/commands/process_roll_xml.py:201-302 | a file keeps the invariant, and a file that does not end the worker leaves the buffer empty |
| RollXmlIngest.AppendFromEvents | buildings/management/commands/process_roll_xml.py:256-263 | buffering a row whose matricule is new to the file keeps the buffer's ids distinct and traceable to the file's events |
| RollXmlIngest.RunEventsBounded | buildings/management/commands/process_roll_xml.py:224-284 | with distinct matricules in a file, the buffer never holds 1000 rows between events, and its rows are distinct and carry ids of the file's unit elements |
| RollXmlIngest.StepBounded | buildings/management/commands/process_roll_xml.py:231-274 | one event keeps the buffer below 1000 distinct rows traceable to the file's events: a row that makes 1000 is flushed, and that flush succeeds |
| RollXmlIngest.PrefixFits | buildings/management/commands/process_roll_xml.py:224-284 | what holds of a file's events holds of all but the last, whose matricule is new |
| RollXmlIngest.ParseFileSucceeds | buildings/management/commands/process_roll_xml.py:294-296 | with distinct matricules in a file, the end-of-file flush succeeds |
| RollXmlIngest.RunFilesKeeps | buildings/management/commands/process_roll_xml.py:201-302 | over any files the invariant holds, and a worker that does not crash ends with an empty buffer |
| RollXmlIngest.RunEventsBinds | buildings/management/commands/process_roll_xml.py:224-231 | a file's events bind `j` if there is one and `unit_xml` if one is a unit element; `unit_xml` is never bound without `j` |
| RollXmlIngest.UnitUnbound | buildings/management/commands/process_roll_xml.py:224-231 | events without a unit element leave `unit_xml` as it was |
| RollXmlIngest.ParseFileBinds | buildings/management/commands/process_roll_xml.py:201-302 | a file unbinds nothing, and a file with a year, text in its header tags and a unit element binds `unit_xml` |
| RollXmlIngest.ParseFileSurvivesErrors | buildings/management/commands/process_roll_xml.py:280-302 | once `unit_xml` is bound, a SAX error, between elements or inside a unit, does not end the worker |
| RollXmlIngest.RunFilesSafe | buildings/management/commands/process_roll_xml.py:201-302 | with distinct matricules in every file, text in every header tag, and every broken stream after a file with a unit element (or with `unit_xml` already bound), the worker does not crash |
| RollXmlIngest.EmptyHeaderTagCrashes | buildings/management/commands/process_roll_xml.py:210-219 | a header tag `RLM01A` or `RLM02A` without a text child ends the worker, leaving the table and the total as the earlier files left them |
| RollXmlIngest.FirstFileErrorCrashes | buildings/management/commands/process_roll_xml.py:280-302 | a SAX error in the header of the worker's first file, or inside its first unit element, ends the worker: the handler's print meets `j` or `unit_xml` unbound |
| RollXmlIngest.HeldStep | buildings/management/commands/process_roll_xml.py:245-274 | an event adds its row to the stored-then-buffered rows exactly when it is a unit element with a candidate row whose id is not stored; a flush only moves rows into the table |
| RollXmlIngest.RunEventsHeld | buildings/management/commands/process_roll_xml.py:224-284 | with distinct matricules in a file, the rows held after its events are the table's followed by rows of its unit elements, and include every candidate row whose id was not stored |
| RollXmlIngest.HeldFromStep | buildings/management/commands/process_roll_xml.py:224-284 | one more event with a new matricule keeps that description |
| RollXmlIngest.NotYetStored | buildings/management/commands/process_roll_xml.py:245-253 | the row of the file's next unit is not yet in a table holding, past the old rows, only rows of earlier units |
| RollXmlIngest.HeldIfNew | buildings/management/commands/process_roll_xml.py:224-284 | with distinct matricules in a file, a candidate row whose id was not stored is among the stored-then-buffered rows after the file's events |
| RollXmlIngest.ParseFileStores | buildings/management/commands/process_roll_xml.py:224-296 | in a file without a SAX error and with distinct matricules, every allowed candidate row whose id is not stored yet ends up in the table |
| RollXmlIngest.StepInvariant | buildings/management/commands/process_roll_xml.py:224-284 | one loop pass extends the run by one event |
| RollXmlIngest.HandleEvent | buildings/management/commands/process_roll_xml.py:232-284 | the per-event body: skip, buffer, then the flush check when the buffer reaches a multiple of 1000 |
| RollXmlIngest.ParseEvents | buildings/management/commands/process_roll_xml.py:224-284 | the event loop computes the run over the file's candidate rows |
| RollXmlIngest.ParseFileLoop | buildings/management/commands/process_roll_xml.py:201-302 | one file is `ParseFile`: a header tag without text ends the worker; a SAX error drops the buffer and ends the worker iff it meets `j` (between elements) or `unit_xml` (inside a unit) unbound; without one the end-of-file insert runs, and its failure ends the worker |
| RollXmlIngest.ParseStreamLoop | buildings/management/commands/process_roll_xml.py:221-302 | a file past a readable header is `ParseStream`: the event loop's run, then the SAX-error branch or the end-of-file insert |
| RollXmlIngest.ParseXmls | buildings/management/commands/process_roll_xml.py:191-308 | the table, `worker_total_units` and the crash are those of `RunFiles`, the file-by-file fold that stops at the first crash. The stored prefix is kept, the total counts the added rows, every added row has an allowed CUBF and an id not stored before, and unique ids stay unique. With distinct matricules in every file, text in every header tag, and every broken stream after a file with a unit element, the worker does not crash |
| MurbAggregation.Group | buildings/management/commands/aggregate_murbs.py:139-141 | the group of a key holds the CUBF-1000 rows with that key |
| MurbAggregation.SqlSum | buildings/management/commands/aggregate_murbs.py:139-141 | SQL `sum(num_dwelling)` is NULL iff every value is NULL |
| MurbAggregation.MurbKeys | buildings/management/commands/aggregate_murbs.py:139-141 | the distinct `(lat, lng, address, muni)` keys of CUBF-1000 rows, with each such key present |
| MurbAggregation.MurbKeysCover | buildings/management/commands/aggregate_murbs.py:139-141 | every CUBF-1000 row's key is among the keys |
| MurbAggregation.ClustersOf | buildings/management/commands/aggregate_murbs.py:139-141 | every cluster's key is one of the keys |
| MurbAggregation.ClustersCounted | buildings/management/commands/aggregate_murbs.py:139-141 | each cluster has its group's count, which is more than 1 (`HAVING count > 1`), and its dwelling sum; no key of more than one row is missed |
| MurbAggregation.ClustersDistinct | buildings/management/commands/aggregate_murbs.py:139-141 | distinct keys give clusters with distinct keys |
| MurbAggregation.GetDuplicatedMurbs | buildings/management/commands/aggregate_murbs.py:135-145 | one cluster per key of more than one CUBF-1000 row, with its count and `sum_dwellings`, no key twice, and every such key covered |
| MurbAggregation.Duplicates | buildings/management/commands/aggregate_murbs.py:163-167 | the members fetched for a cluster are exactly the rows matching its key |
| MurbAggregation.Column | buildings/management/commands/aggregate_murbs.py:196-209 | the per-field list appended in the member loop: one value per member, in member order |
| MurbAggregation.TruthyMembers | buildings/management/commands/aggregate_murbs.py:212-225 | `if value:` keeps exactly the present, non-zero values |
| MurbAggregation.MaxAptNum | buildings/management/commands/aggregate_murbs.py:194-236 | `max_apt_num` is 0 or some member's apartment number as `int()` reads it, and no member's readable apartment number exceeds it |
| MurbAggregation.MaxPresent | buildings/management/commands/aggregate_murbs.py:194-236 | the larger of 0 and every present value: none exceeds it, and it is 0 or one of them |
| MurbAggregation.MaxSnoc | buildings/management/commands/aggregate_murbs.py:234-236 | keeping the larger apartment number over one more member is taking the maximum over all of them |
| MurbAggregation.GatherOneMore | buildings/management/commands/aggregate_murbs.py:196-238 | one loop pass extends what was gathered by one member |
| MurbAggregation.SumPresentSnoc | buildings/management/commands/aggregate_murbs.py:228-231 | adding a value when truthy is adding it with NULL as 0 |
| MurbAggregation.GatherMembers | buildings/management/commands/aggregate_murbs.py:196-238 | the member loop computes the per-field lists, the truthy sums of rentals and non-residential units, and `max_apt_num` |
| MurbAggregation.MostCommon | buildings/management/commands/aggregate_murbs.py:277-284 | `Counter.most_common(1)` gives a member value that is at least as frequent as every other, with no earlier value as frequent: ties go to the value seen first |
| MurbAggregation.SumOrNone | buildings/management/commands/aggregate_murbs.py:321-324 | None iff no value contributes, else the sum |
| MurbAggregation.AverageOrNone | buildings/management/commands/aggregate_murbs.py:326-329 | None iff no value contributes; otherwise the mean, whose product with the count is the sum |
| MurbAggregation.SumBounds | buildings/management/commands/aggregate_murbs.py:321-329 | a sum of values in `[lo, hi]` lies between count·lo and count·hi |
| MurbAggregation.AverageBetween | buildings/management/commands/aggregate_murbs.py:326-329 | the mean lies between the least and the greatest contributing value |
| MurbAggregation.InferNumberOfFloors | buildings/management/commands/aggregate_murbs.py:332-349 | for a non-negative apartment number the floor count is between 0 and 99, and below 10 it is 0 |
| MurbAggregation.FloorExamples | buildings/management/commands/aggregate_murbs.py:332-349 | 305 → 30 floors, 1204 → 12, 9999 → 99 but 10000 → 10, and the hard-coded building gives 3 |
| MurbAggregation.AggregateId | buildings/management/commands/aggregate_murbs.py:241-243 | the last four characters are replaced by `9999`, so an id of four characters or more keeps its length and its prefix |
| MurbAggregation.AggregateIdFixed | buildings/management/commands/aggregate_murbs.py:241-243 | an id that already ends in `9999` is its own aggregate id |
| MurbAggregation.AggregateRowShape | buildings/management/commands/aggregate_murbs.py:245-298 | the aggregate has the `9999` id and matricule, the cluster's key fields and dwelling sum, the last member's CUBF, `phys_link` 1 and `const_type` 5, and no civic, apartment or file number |
| MurbAggregation.AggregateMatchesKey | buildings/management/commands/aggregate_murbs.py:245-268 | the aggregate matches its cluster's key iff the key has both coordinates |
| MurbAggregation.InsertIfNew | buildings/management/commands/aggregate_murbs.py:51-62 | `ON CONFLICT DO NOTHING`: a stored id leaves the table unchanged, and a new one appends the row |
| MurbAggregation.ArchiveAll | buildings/management/commands/aggregate_murbs.py:305-310 | the archive keeps its rows, archives every member, and adds only members tagged with the aggregate id |
| MurbAggregation.AggregateCluster | buildings/management/commands/aggregate_murbs.py:149-317 | one cluster, in order: fetch (skipping no rows), gather, insert, archive, delete |
| MurbAggregation.RunClustersStep | buildings/management/commands/aggregate_murbs.py:149-317 | one more cluster merges after the previous ones |
| MurbAggregation.AggregateMurbs | buildings/management/commands/aggregate_murbs.py:149-317 | the worker merges its clusters one after another |
| MurbAggregation.MemberIds | buildings/management/commands/aggregate_murbs.py:313-314 | with unique ids, a row's id is a member id iff the row matches the key |
| MurbAggregation.MergeTable | buildings/management/commands/aggregate_murbs.py:301-314 | the merged table is the insert of the aggregate, then the delete of the members' ids |
| MurbAggregation.NewIdNotMember | buildings/management/commands/aggregate_murbs.py:301-314 | a new id is no member's id |
| MurbAggregation.DeleteAfterInsert | buildings/management/commands/aggregate_murbs.py:301-314 | deleting ids after appending a row leaves the old and new rows whose ids are not deleted |
| MurbAggregation.MergeReplacesMembers | buildings/management/commands/aggregate_murbs.py:301-314 | a first merge leaves exactly the rows not matching the key, plus the aggregate |
| MurbAggregation.MergeLeavesOneWithKey | buildings/management/commands/aggregate_murbs.py:301-314 | after a first merge, the aggregate is the only row with the key |
| MurbAggregation.RerunDropsBuilding | buildings/management/commands/aggregate_murbs.py:301-314 | when the last member already is an aggregate (a re-run), no row with the key survives and nothing new is added |
| MurbAggregation.RerunSkipsInsert | buildings/management/commands/aggregate_murbs.py:301-302 | on a re-run the aggregate's id is already stored, so the insert is skipped |
| HlmParse.LeadingDigits | buildings/management/commands/crossref_hlms.py:515-520 | the loop's digit run is the longest all-digit prefix |
| HlmParse.LeadingDigitsAt | buildings/management/commands/crossref_hlms.py:515-520 | a digit prefix followed by a non-digit or the end is that run |
| HlmParse.SeparateNumAdr | buildings/management/commands/crossref_hlms.py:510-530 | the character loop and the two returns compute the civic-number split |
| HlmParse.AllDigitNumber | buildings/management/commands/crossref_hlms.py:422-426 | an all-digit designation gives `str(int(s))`, which equals the text iff it has no leading zero |
| HlmParse.NoLeadingDigits | buildings/management/commands/crossref_hlms.py:510-530 | without leading digits the first part is `''` and the second the whole designation |
| HlmParse.DashKept | buildings/management/commands/crossref_hlms.py:524-525 | "12-A" splits into 12 and "-A": the dash is not removed |
| HlmParse.EveryOccurrenceRemoved | buildings/management/commands/crossref_hlms.py:524 | "12-12" splits into 12 and "-": every occurrence of the run is removed |
| HlmParse.DecimalComma | buildings/management/commands/crossref_hlms.py:441 | after the decimal comma becomes a point, "12,5" reads as 12.5 |
| HlmParse.ParseHlmCsvRow | buildings/management/commands/crossref_hlms.py:420-449 | fewer than 21 columns raise. Otherwise the fields come from columns 0-6, 8, 9, 11-17, 19 and 20. The row succeeds iff the integer and decimal conversions do (`,` → `.`, `%` stripped from the IVP). The contract end date is None iff `#N/A` |
| HlmResolve.SanitizeStreetName | buildings/management/commands/crossref_hlms.py:486-507 | the loops compute the sanitized name: lower-cased, way types then way links removed, a final cardinal token dropped, quotes doubled, folded and stripped |
| HlmResolve.DropCardinalSplits | buildings/management/commands/crossref_hlms.py:498-499 | dropping a cardinal point removes only the last token and the space before it |
| HlmResolve.RemoveEachAbsent | buildings/management/commands/crossref_hlms.py:490-496 | code values that do not occur leave the name unchanged |
| HlmResolve.RemoveOneChar | buildings/management/commands/crossref_hlms.py:490-496 | removing a one-character value leaves no occurrence of it |
| HlmResolve.ResolveMunicipality | buildings/management/commands/crossref_hlms.py:533-567 | resolving a municipality never touches the street cache |
| HlmResolve.MuniExact | buildings/management/commands/crossref_hlms.py:533-567 | a roll name is returned unchanged, with no query and no caching |
| HlmResolve.MuniQueryAnswer | buildings/management/commands/crossref_hlms.py:533-567 | only a name met for the first time is queried, and the result is the similarity answer; otherwise the caches are unchanged |
| HlmResolve.MuniResolvedOnce | buildings/management/commands/crossref_hlms.py:533-567 | after one resolution the name is never queried again and resolves the same way |
| HlmResolve.MuniKeepsCaches | buildings/management/commands/crossref_hlms.py:533-567 | the cache and the missing set only grow and stay disjoint |
| HlmResolve.Limit1 | buildings/management/commands/crossref_hlms.py:570-611 | `LIMIT 1` returns at most one row |
| HlmResolve.SecondRow | buildings/management/commands/crossref_hlms.py:605-607 | a second `fetchone` finds a row iff the result had two |
| HlmResolve.ResolveStreetName | buildings/management/commands/crossref_hlms.py:570-611 | street resolution never touches the municipality caches |
| HlmResolve.StreetNeverBySimilarity | buildings/management/commands/crossref_hlms.py:570-611 | a resolved street comes from the cache, the prefix match or the sanitized contains-match, never from the similarity stage |
| HlmResolve.StreetFailureNotCached | buildings/management/commands/crossref_hlms.py:570-611 | a failure leaves the caches unchanged |
| HlmResolve.StreetCacheIgnoresMuni | buildings/management/commands/crossref_hlms.py:570-611 | a cached name resolves the same in every municipality, from the cache |
| HlmResolve.StreetResolvedOnce | buildings/management/commands/crossref_hlms.py:570-611 | a resolved street resolves the same from then on, in any municipality |
| HlmResolve.StreetKeepsCaches | buildings/management/commands/crossref_hlms.py:570-611 | the caches only grow and stay disjoint |
| HlmCrossref.MapboxPhase | buildings/management/commands/crossref_hlms.py:240-261 | a point is accepted iff the response is ok and its first feature's confidence is medium, high or exact. A feature without a match code raises. An accepted point is the feature's, and the record has an address iff the feature's context or the record gave one |
| HlmCrossref.ReadComponents | buildings/management/commands/crossref_hlms.py:278-283 | the component loop sets the number and street from `street_number` and `route` components |
| HlmCrossref.ComponentNumber | buildings/management/commands/crossref_hlms.py:278-283 | without a `street_number` component the number stays; otherwise it is some such component's long name |
| HlmCrossref.GooglePhase | buildings/management/commands/crossref_hlms.py:274-316 | a Google result is accepted iff it is ROOFTOP/RANGE_INTERPOLATED or not a partial match. It then gives its point, and the address is number + space + street, read from the components |
| HlmCrossref.FirstContaining | buildings/management/commands/crossref_hlms.py:327-334 | stage 1: an eligible unit whose lot contains the point, none iff no such unit |
| HlmCrossref.Nearest | buildings/management/commands/crossref_hlms.py:344-352 | stage 2: an eligible unit within 0.001 that is nearest to the point, none iff no unit is within the radius |
| HlmCrossref.AddressMatch | buildings/management/commands/crossref_hlms.py:361-364 | stage 3: a unit whose lower-cased address equals the record's, answered only if some HLM row has no unit |
| HlmCrossref.FirstWithAddress | buildings/management/commands/crossref_hlms.py:361-364 | the first unit with the record's address, case-insensitively, none iff no unit has it |
| HlmCrossref.AddressStageIdle | buildings/management/commands/crossref_hlms.py:361-364 | with every HLM row linked to a unit, stage 3 never answers |
| HlmCrossref.CrossrefExtends | buildings/management/commands/crossref_hlms.py:320-369 | matching a located record upserts at most one row, counted. The row is keyed by the record, has an address and the Street View answer, and links an eligible unit found by stage 1 or 2 |
| HlmCrossref.CrossrefNeedsAddress | buildings/management/commands/crossref_hlms.py:320-369 | without an address a located record changes nothing |
| HlmCrossref.MapboxWithoutContextDropped | buildings/management/commands/crossref_hlms.py:256-261 | a Mapbox-accepted record without a context address is never stored or counted as found |
| HlmCrossref.GeolocateExtends | buildings/management/commands/crossref_hlms.py:240-369 | geocoding and matching count at most one Google call and one match, and upsert at most one row of this command's kind |
| HlmCrossref.StepAccounted | buildings/management/commands/crossref_hlms.py:214-387 | one record keeps the worker's bookkeeping |
| HlmCrossref.AdmitAccounted | buildings/management/commands/crossref_hlms.py:224-237 | the gates and the resolution keep the bookkeeping |
| HlmCrossref.LocateAccounted | buildings/management/commands/crossref_hlms.py:239-369 | geocoding after the gates keeps the bookkeeping |
| HlmCrossref.AccountedAfterGeocoding | buildings/management/commands/crossref_hlms.py:241-369 | a Mapbox call followed by geocoding and matching keeps the bookkeeping |
| HlmCrossref.RunAccounted | buildings/management/commands/crossref_hlms.py:183-396 | over any records: found ≤ Mapbox calls and Google calls ≤ Mapbox calls; each record bumps at most one of Mapbox calls, fewer-than-3 and unknown-municipality; caches grow and stay disjoint; new rows are at most the matches; new or replaced rows are this command's well-formed upserts |
| HlmCrossref.GeocodeAndCrossrefHlms | buildings/management/commands/crossref_hlms.py:183-396 | the worker loop's counters and HLM table are those of the run over its rows |
| RollShapefile.UnitsPerWorker | buildings/management/commands/process_roll_shp.py:133-137 | `ceil(num_units / num_workers)`: the least share that covers all units |
| RollShapefile.SplitDataBetweenWorkers | buildings/management/commands/process_roll_shp.py:130-152 | zero workers raise (division by zero), a negative count gives no ranges, and otherwise worker `i` gets `[i·u, (i+1)·u)`, or `[i·u, i·u + 500)` in test mode |
| RollShapefile.RangesPartition | buildings/management/commands/process_roll_shp.py:137-151 | the ranges start at 0, are consecutive, and reach `num_units` (the last may pass it). Every index below it lies in worker `x / u`'s range and in no other |
| RollShapefile.TestRangesOverlap | buildings/management/commands/process_roll_shp.py:144-148 | in test mode, neighbouring ranges overlap once a share is under 500 |
| RollShapefile.ParseShapefile | buildings/management/commands/process_roll_shp.py:155-210 | the index loop computes the run over the worker's range |
| RollShapefile.RunRelocates | buildings/management/commands/process_roll_shp.py:176-210 | after a worker's range every unit is moved to the point of the last record naming it before the first unreadable index, unless the database refuses its update or no record names it; no other row changes |
| RollShapefile.FirstUnreadable | buildings/management/commands/process_roll_shp.py:176-207 | the first index from `i` whose record cannot be read, or `stop`: every index before it is readable |
| RollShapefile.LastNaming | buildings/management/commands/process_roll_shp.py:176-196 | the last index before `e` whose record names the unit: none after it names it, and none iff no index does |
| RollShapefile.LocatedStep | buildings/management/commands/process_roll_shp.py:176-197 | applying one record and then the rest locates a unit as the whole range does |
| RollShapefile.SkippedStep | buildings/management/commands/process_roll_shp.py:208-210 | a refused record changes nothing the rest of the range decides |
| RollShapefile.StopIsFinal | buildings/management/commands/process_roll_shp.py:206-207 | an out-of-range index (IndexError) ends the worker: nothing after it applies |
| RollShapefile.RejectedIsSkipped | buildings/management/commands/process_roll_shp.py:208-210 | a failing update changes nothing and the loop goes on |
| RollShapefile.CleanupEntriesWithoutCoords | buildings/management/commands/process_roll_shp.py:213-220 | returns the count of units without coordinates, and keeps exactly the others |
| RollShapefile.CleanupLeavesNone | buildings/management/commands/process_roll_shp.py:103-108 | the closing assert holds: no unit without coordinates is left |
| RollShapefile.ProcessRollShp | buildings/management/commands/process_roll_shp.py:96-116 | fails iff there are no workers, cleans up exactly when not in test mode, and then leaves no unit without coordinates |
| LotLinking.DeleteLotsWithoutCubf | buildings/management/commands/process_lots.py:198-214 | the count deleted and the lots left add up to the lots before |
| LotLinking.DeleteKeepsLandUse | buildings/management/commands/process_lots.py:198-214 | the lots left are exactly those with a land use, each kept as often as it occurred |
| LotLinking.NoneLeft | buildings/management/commands/process_lots.py:210-214 | the closing assert holds: no lot without a land use is left |
| LotLinking.ChunkLength | buildings/management/commands/process_lots.py:228-230 | `ceil(num_lots / NUM_CHUNKS)` with NUM_CHUNKS 100 (2 in test mode): the pages cover all lots, and the length is 0 iff there are none |
| LotLinking.PageCount | buildings/management/commands/process_lots.py:240-247 | the offsets 0, c, 2c, … give at most NUM_CHUNKS pages |
| LotLinking.PagesAtMost | buildings/management/commands/process_lots.py:240 | `m` pages of length `c` past the offset cover the lots in at most `m` pages |
| LotLinking.CommitPoint | buildings/management/commands/process_lots.py:280-281 | the number of lots committed after `g` lots is at most `g` |
| LotLinking.IndexInPage | buildings/management/commands/process_lots.py:240-247 | the in-page index `i` of a lot is below the page length |
| LotLinking.IndexAfterStart | buildings/management/commands/process_lots.py:240-247 | the lot at offset + i of a page has in-page index `i` |
| LotLinking.PageStarts | buildings/management/commands/process_lots.py:240 | every multiple of the page length starts a page |
| LotLinking.LinkOne | buildings/management/commands/process_lots.py:254-277 | one lot's update: a `Multiple` lot links every unit whose point it contains, any other lot the unit it names |
| LotLinking.PageStep | buildings/management/commands/process_lots.py:248-281 | a page's next lot is linked after all before it, and committed exactly when its in-page index is not a multiple of 10000 |
| LotLinking.LinkPage | buildings/management/commands/process_lots.py:240-281 | one page links its lots in order and commits up to the commit point |
| LotLinking.LinkLotsToEvalunits | buildings/management/commands/process_lots.py:217-283 | fails iff there are no lots (`range` with step 0). Otherwise every lot is linked once in `gid` order whatever the paging, and what is committed is the lots up to the commit point |
| LotLinking.AllCommitted | buildings/management/commands/process_lots.py:280-283 | everything is committed iff the last lot's in-page index is not a multiple of 10000 |
| LotLinking.LastLotUncommitted | buildings/management/commands/process_lots.py:228-283 | 101 lots make pages of 2, and the last lot's link is never committed |
| LotLinking.LinkFirstEffect | buildings/management/commands/process_lots.py:254-277 | linking changes only `lot_id`, and a touched unit ends with the `gid` of the last lot that touches it |
| LotLinking.RelinkStep | buildings/management/commands/process_lots.py:254-277 | one more lot changes a unit's `lot_id` only when it touches the unit |
| Registry.DeleteWhere | buildings/management/commands/process_roll_shp.py:213-220 | `DELETE ... WHERE` after the count: the count and the rows left add up, and every row not deleted remains as often as it was stored, and no deleted row remains |
| Registry.FilterCounts | buildings/management/commands/process_roll_shp.py:213-220 | a filtered table holds each kept row as often as the table does, and no other row |
| Registry.UpdateWhere | buildings/management/commands/process_lots.py:254-277 | `UPDATE ... WHERE` rewrites exactly the rows it hits, in place |
| StreetviewCheck.CheckStreetviewAvailability | buildings/management/commands/check_streetview.py:102-141 | the worker loop computes the run over its units |
| StreetviewCheck.RunStopsAtExit | buildings/management/commands/check_streetview.py:129-134 | after the exit nothing more happens |
| StreetviewCheck.Doubling | buildings/management/commands/check_streetview.py:129-134 | the sleeps of the first `k` network errors: one per error |
| StreetviewCheck.RunBackoff | buildings/management/commands/check_streetview.py:110-134 | the sleeps are 1, 2, 4, … (at most 6 of them), never reset, and the worker exits exactly at the 6th network error |
| StreetviewCheck.Pow2Grows | buildings/management/commands/check_streetview.py:131-134 | doubling passes 60 exactly after the sleep of 32 |
| StreetviewCheck.LastFlush | buildings/management/commands/check_streetview.py:121-124 | the number of units the last flush covered is at most the units seen |
| StreetviewCheck.RunGathers | buildings/management/commands/check_streetview.py:117-140 | the results are the answers of the units so far, with no retry. The table is the upsert of the answers up to the last flush, and later answers are never stored |
| StreetviewCheck.StepGathers | buildings/management/commands/check_streetview.py:117-138 | one unit later the results and the table are so described |
| StreetviewCheck.AnswersPrefix | buildings/management/commands/check_streetview.py:117-124 | the results list only grows |
| StreetviewCheck.UpsertAgain | buildings/management/commands/check_streetview.py:50-54 | upserting a list and then a longer one starting with it is upserting the longer one |
| StreetviewCheck.UpsertTwice | buildings/management/commands/check_streetview.py:50-54 | the upsert is idempotent |
| StreetviewCheck.UpsertHolds | buildings/management/commands/check_streetview.py:50-54 | after the upsert an id holds its last answer in the list, or its old value |
| ScreenshotUpload.Handle | buildings/management/commands/upload_screenshots.py:111-148 | the poll loop computes the schedule after the given checks |
| ScreenshotUpload.StepKeepsSchedule | buildings/management/commands/upload_screenshots.py:117-148 | one check keeps the sleep time in {1, 5, 10} and below its regime's threshold |
| ScreenshotUpload.ScheduleAlways | buildings/management/commands/upload_screenshots.py:113-148 | after any checks the sleep time is 1, 5 or 10, `num_checks` < 600 while 1 and < 720 while 5, and every sleep is 1, 5 or 10 |
| ScreenshotUpload.Repeat | buildings/management/commands/upload_screenshots.py:133-139 | `k` sleeps of the same time |
| ScreenshotUpload.IdleCounts | buildings/management/commands/upload_screenshots.py:133-139 | below the threshold, empty checks only count and sleep the current time |
| ScreenshotUpload.SwitchToFive | buildings/management/commands/upload_screenshots.py:141-143 | 600 one-second empty checks switch to five seconds, after 600 s |
| ScreenshotUpload.SwitchToTen | buildings/management/commands/upload_screenshots.py:144-147 | 720 five-second empty checks switch to ten seconds, after 3600 s more |
| ScreenshotUpload.SumRepeat | buildings/management/commands/upload_screenshots.py:133-139 | `k` sleeps of `x` total `x·k` seconds |
| ScreenshotUpload.TenIsFinal | buildings/management/commands/upload_screenshots.py:141-147 | empty checks never leave the ten-second regime |
| ScreenshotUpload.UploadJob.constructor | buildings/management/commands/upload_screenshots.py:27-30 | a job starts pending, with its data and no saves |
| ScreenshotUpload.UploadJob.Save | buildings/management/commands/upload_screenshots.py:29-30 | `job.save()` records the current status and changes nothing else |
| ScreenshotUpload.UploadSizes | buildings/management/commands/upload_screenshots.py:67-81 | the size loop computes the uploads of one image |
| ScreenshotUpload.ProcessJob | buildings/management/commands/upload_screenshots.py:27-105 | always returns 1. Saves IN_PROGRESS and then the final status. The job ends DONE with its data cleared when every upload went through, and ERROR with its data kept otherwise. The effects are the uploads and records made |
| ScreenshotUpload.SizeFailureIsFinal | buildings/management/commands/upload_screenshots.py:67-81 | a failed size upload ends the image's uploads |
| ScreenshotUpload.FailureIsFinal | buildings/management/commands/upload_screenshots.py:52-101 | a failure ends the job: nothing after it is uploaded |
| ScreenshotUpload.SizesUploaded | buildings/management/commands/upload_screenshots.py:67-81 | sizes are uploaded l, m, s in order, under `screenshots/{type}/{size}/{uuid}.jpg` |
| ScreenshotUpload.SuccessEffects | buildings/management/commands/upload_screenshots.py:45-87 | a successful job made 8 effects: l, m, s of the Street View image and its record, then the same for the satellite image, each type under its own uuid |
| ScreenshotUpload.RecordsFollowUploads | buildings/management/commands/upload_screenshots.py:84-87 | a record is saved only right after the three uploads of its image under the same uuid |
| ScreenshotUpload.MissingStreetviewFails | buildings/management/commands/upload_screenshots.py:52-57 | a job without a Street View image fails before any upload |
| ScreenshotUpload.EmptySatelliteReusesStreetview | buildings/management/commands/upload_screenshots.py:52-66 | an empty satellite image does not fail the job: its sizes are cut from the Street View image |
| QueryRules.ParseRules | buildings/utils/query_utils.py:64-101 | the rule loop, recursing into groups, computes the rules' filters |
| QueryRules.RulesFailFrom | buildings/utils/query_utils.py:64-101 | once a rule fails the whole list fails with the same error |
| QueryRules.OnePerRule | buildings/utils/query_utils.py:64-101 | the list parses iff every rule does, and then gives one filter per rule, in order |
| QueryRules.SimpleRuleFilter | buildings/utils/query_utils.py:85-99 | a known operator gives `field__lookup = value`, negated exactly for the negative operators |
| QueryRules.UnknownOperator | buildings/utils/query_utils.py:88-89 | an operator outside `OPERATORS` raises NotImplementedError |
| QueryRules.EmptyQueryFails | buildings/utils/query_utils.py:52-61 | an empty rule list makes the reduce fail |
| QueryRules.NestedConditionCase | buildings/utils/query_utils.py:59 | the top-level condition is upper-cased, but a nested lowercase condition fails the lookup |
| QueryRules.TestQuery | tests/utils/test_query_utils.py:6-57 | the test's query parses to the single expected filter tree |
| QueryRules.RuleFilter | buildings/utils/query_utils.py:21-42 | `equal` gives `field__exact = value`, `not_equal` its negation |
| QueryRules.OneRule | buildings/utils/query_utils.py:64-101 | one rule gives its one filter |
| QueryRules.TwoRules | buildings/utils/query_utils.py:64-101 | two rules give their two filters in order |
| QueryRules.FoldMeaning | buildings/utils/query_utils.py:44-47 | an AND fold passes iff every filter does, an OR fold iff one does |
| Text.NatToStringRoundTrip | buildings/management/commands/crossref_hlms.py:426 | `str(n)` reads back as `n` and has no superfluous leading zero |
| Text.StringToNatRoundTrip | buildings/management/commands/crossref_hlms.py:511-512 | a digit string without a leading zero reads as an integer and prints back as itself |
| Text.ParseInt | buildings/management/commands/process_roll_xml.py:416 | `int(s)` succeeds iff the text, stripped of white space, is an optional sign followed by digits with single underscores between them |
| Text.DigitsOf | buildings/management/commands/process_roll_xml.py:416 | the digits of the text without its underscores: all digits, and the text itself when it has no underscore |
| Text.ParseIntDigits | buildings/management/commands/crossref_hlms.py:422-426 | a digit string reads as its value, and with a minus sign as its negation |
| Text.ParseIntOfString | buildings/management/commands/crossref_hlms.py:426 | `int(str(n))` is `n` |
| Text.ParseIntIgnoresPadding | buildings/management/commands/process_roll_xml.py:416 | white space around the text does not change what `int()` reads |
| Text.ParseIntPadded | buildings/management/commands/process_roll_xml.py:416 | `int(" 12\n")` reads 12: a printed number padded with white space reads as the number |
| Text.ParseIntGrouped | buildings/management/commands/process_roll_xml.py:416 | `int("1_000")` is 1000 |
| Text.ParseIntMisplacedUnderscore | buildings/management/commands/process_roll_xml.py:416 | a doubled, leading or trailing underscore makes `int()` raise |
| Text.ParseIntNoDigits | buildings/management/commands/process_roll_xml.py:416 | a space after the sign, blank text or empty text makes `int()` raise |
| Text.ParseDecimal | buildings/management/commands/process_roll_xml.py:412-419 | `float()` of blank text raises |
| Text.ParseDecimalOfInteger | buildings/management/commands/process_roll_xml.py:416 | on an integer literal `float()` succeeds and agrees with `int()`: digits, sign, padding and underscores read alike |
| Text.ParseDecimalPoint | buildings/management/commands/process_roll_xml.py:416 | `float("w.f")` for digit runs `w` and `f`, one of them possibly empty, is `w + f / 10^len(f)` |
| Text.ParseDecimalNegates | buildings/management/commands/process_roll_xml.py:416 | a minus sign in front of an unsigned decimal makes `float()` succeed iff it did without, with the value negated |
| Text.ParseDecimalIgnoresPadding | buildings/management/commands/process_roll_xml.py:416 | white space around the text does not change what `float()` reads |
| Text.ParseDecimalMalformed | buildings/management/commands/process_roll_xml.py:416 | a second point, a point alone, or a sign alone makes `float()` raise |
| Text.ParseNatZeros | buildings/management/commands/crossref_hlms.py:422-426 | leading zeros do not change the value of a digit string: `int('007')` is 7 |
| Text.JoinSplit | buildings/management/commands/crossref_hlms.py:498-499 | splitting on a character and joining back restores the text |
| Text.SplitPiecesFree | buildings/management/commands/crossref_hlms.py:498-499 | no piece of a split holds the separator |
| Text.ReplaceAbsent | buildings/management/commands/crossref_hlms.py:490-496 | replacing a pattern that does not occur changes nothing |
| Text.ReplaceCharRemoves | buildings/management/commands/crossref_hlms.py:443 | replacing a character by text without it leaves no occurrence |
| Text.Upper | buildings/utils/query_utils.py:59 | `upper()` maps each character, keeping the length |
| Text.Lower | buildings/management/commands/crossref_hlms.py:488 | `lower()` maps each character, keeping the length |
| Text.Trim | buildings/management/commands/crossref_hlms.py:505 | `strip()`: the text after the leading white-space run, followed only by white space, with no white space at either of its ends |
| Text.TrimUnique | buildings/management/commands/crossref_hlms.py:505 | white space around a text with no white space at its ends strips to that text |
| Text.TrimPadded | buildings/management/commands/crossref_hlms.py:505 | padding with white space does not change the stripped text |
| Text.TrimNothing | buildings/management/commands/crossref_hlms.py:505 | a text with no white space at either end is its own strip |
| Text.TrimAllSpace | buildings/management/commands/crossref_hlms.py:505 | all-white-space text strips to the empty text |
| Text.LeadingRun | buildings/management/commands/crossref_hlms.py:505 | the length of the white-space run that starts the text: all white space, followed by a non-space or the end |
| Text.TrailingRun | buildings/management/commands/crossref_hlms.py:505 | the length of the white-space run that ends the text: all white space, preceded by a non-space or the start |
| Text.DropLast | buildings/management/commands/aggregate_murbs.py:243 | `s[:-4]` is all but the last four characters, or empty for shorter text |
| Text.EscapeRoundTrip | buildings/management/commands/crossref_hlms.py:502 | doubling single quotes loses nothing: the SQL reader gets the text back |
| Text.JoinSnoc | buildings/management/commands/process_roll_xml.py:484-485 | joining one more token appends the separator and the token |

## Left out

- The database is modelled as values: a command takes the tables it reads and returns those it leaves. Cursors, commits, transactions and connection resets are not modelled. Commits are modelled only in process_lots, as the committed prefix.
- PostGIS `ST_Intersects`/`ST_DWithin`/`ST_Distance`, trigram `SIMILARITY` and the SQL `LIKE`/`ILIKE` queries are oracle parameters with no assumed body.
- The `ORDER BY count(*) ASC` of `get_duplicated_MURBs` is not modelled. The clusters come in first-appearance order of their keys.
- Multiprocessing (`multiprocessing.Pool`, `launch_jobs`, `split_list_in_n`) is not modelled: workers share nothing and each worker is modelled alone. `split_list_in_n` is not part of this model, and neither is the test-mode slice in `aggregate_murbs`' `handle`.
- Mapbox, Google geocoding, the Street View metadata call and URL signing, Backblaze B2 uploads, PIL resizing and `unidecode` are parameters. Their responses are modelled only as far as the code reads them.
- `str.title()` and accent folding are opaque parameters. Case mapping and `isdigit` are modelled for ASCII only.
- Floating point: coordinates and decimal fields are `real`. `round(…, 2)` is not modelled, and the comparison with the hard-coded building in `infer_number_of_floors` is exact equality.
- KeyboardInterrupt handling, tqdm progress bars, printing and timing are not modelled.
- Downloads, file deletion, the `shp2pgsql` subprocess, the pyshp reader, pandas reading and the table-creation functions are not modelled. The shapefile is a sequence of records and the HLM list a sequence of CSV rows.
- `migrate_to_real_table` in process_lots.py (an insert-select with `st_simplify`) is not modelled.
- The poller's `while True` loop is modelled over a finite sequence of pending-job counts. `Handle` does not call `process_job`; `ProcessJob` models one job on its own.
- The Street View flush is assumed to succeed; a failing upsert inside the flush is not modelled separately.
- BeautifulSoup and pulldom are not modelled. An XML file is a sequence of events, each unit element with its tags, and the way its reading ends: cleanly, in a SAX error between elements, in one inside a unit element, or at a header tag `RLM01A` or `RLM02A` without text, whose IndexError no handler catches. A file whose header breaks before `RLM02A` is one without a year, with no events and a broken stream. The stream position, the progress bar and `event_stream.clear()` are not modelled.
- The code tables `WAY_TYPES`, `WAY_LINKS`, `CARDINAL_POINTS`, `OWNER_STATUSES`, `PHYSICAL_LINKS`, `CONSTRUCTION_TYPES` and `MUNICIPALITIES` are map parameters. buildings/utils/constants.py and `get_DB_conn` are not part of this model.
- RollXmlUnit.SelectOwner: the owner loop reads dates through a parameter. `ParseIsoDate` is plugged in only where `ParseUnitXml` calls it.
- RollXmlUnit.ParseUnitXml: its own contract states the outcome, the id, matricule, CUBF, address, street, apartment number, owner date and type, physical link, construction type and the absent coordinates and lot. The remaining fields are stated by `RollXmlUnit.ParseUnitXmlFields`.
- LotLinking.DeleteLotsWithoutCubf: its own contract states only that the counts add up. Which lots remain is stated by `LotLinking.DeleteKeepsLandUse`.
- HlmCrossref.MapboxPhase: the response is reduced to the fields the code reads (ok flag, features with confidence, coordinates and context address). The Google result is reduced the same way.
- HlmCrossref.GeocodeAndCrossrefHlms: a record whose processing raises is modelled only for the cases the model can name: a row that does not parse, a Mapbox feature without a match code, and a missing address at the upsert or the address stage. Other exceptions caught by the bare `except` are not modelled.
- HlmCrossref.ImageryAvailable: carries no contract of its own. It is the two tests of `is_streetview_imagery_available` (status 200, body status not `ZERO_RESULTS`), and `HlmCrossref.CrossrefExtends` states that every stored row carries its answer.
- Text.ParseInt: `int()` also reads non-ASCII decimal digits and Unicode white space around the text; the model reads ASCII text only, where it follows `int()` in base 10.
- Text.ParseDecimal: `float()` also reads exponents, `inf` and `nan`; the model reads only signed decimal notation with optional underscores between digits.
- RollShapefile.RunRelocates: a refused `UPDATE` is a parameter `rejects` of the unit id, so every record naming one unit is refused or applied alike. Other failures of the bare `except` are not modelled.
- ScreenshotUpload.ProcessJob: a failure of the final `job.save()` after DONE, which leaves the job ERROR with `job_data` already `{}`, is not modelled; saves succeed.
- MurbAggregation.AggregateMurbs: an SQL failure (a constraint violation, say) escapes the cluster loop, which catches only KeyboardInterrupt, and ends the worker. The model assumes every statement succeeds.
- QueryRules.Q: a `Q` object is a binary tree of `&` and `|`, where Django's `Node.add` flattens children joined by the same connector; the tree's shape is modelled only up to what `QueryRules.Matches` gives it as a filter.
- HlmCrossref.FirstContaining: the stage-1 lot-containment query and the duplicate-member `SELECT` of aggregate_murbs have no `ORDER BY`; the model takes the rows in storage order.
