/**
 * Construction of one evaluation-unit row from a `RLUEx` element of a roll
 * XML file (`parse_unit_xml` and the helpers it calls).  The element is seen
 * the way the parser reaches it through `find`: the text of the first
 * descendant with a given tag name, in three sub-elements (address block
 * `rl0101x`, matricule block `rl0104`, owner block `rl0201`) and the unit
 * itself.  Any exception while building the row makes the ingestion loop skip
 * the unit; the model returns it as an `Err`.
 */
module RollXmlUnit {
  import opened Wrappers
  import opened Text
  import opened Registry

  /** Tag name to text of an element's descendants. */
  type Tags = map<string, string>

  /** The owner block: its `rl0201x` sub-records in document order and its own tags. */
  datatype OwnerBlock = OwnerBlock(records: seq<Tags>, tags: Tags)

  datatype UnitXml = UnitXml(tags: Tags, rl0101x: Option<Tags>, rl0104: Option<Tags>, rl0201: Option<OwnerBlock>)

  /**
   * The code tables of the constants module (way types, way links, cardinal
   * points, owner statuses, physical links, construction types and the
   * municipality names keyed by `RL` + municipal code).
   */
  datatype Codes = Codes(
    wayTypes: map<string, string>,
    wayLinks: map<string, string>,
    cardinalPoints: map<string, string>,
    ownerStatuses: map<string, string>,
    physicalLinks: map<string, string>,
    constructionTypes: map<string, string>,
    municipalities: map<string, string>)

  /** Why a unit could not be built. */
  datatype UnitError =
    | MissingElement(tag: string)   // `None.find` or `None.text`: AttributeError
    | UnknownCode(tag: string)      // a code-table lookup: KeyError
    | BadValue(tag: string)         // `int()`, `float()` or `strptime` rejected the text: ValueError
    | NoOwnerDate                   // no owner record qualified: UnboundLocalError

  // ---------------------------------------------------------------------------
  // `extract_field_or_none`: a present tag (bs4 tags are always truthy) gives
  // its text, converted by `type` when one is given; an absent tag gives None.

  function TextField(t: Tags, tag: string): (r: Option<string>)
    ensures r.Some? <==> tag in t
    ensures r.Some? ==> r.value == t[tag]
  {
    if tag in t then Some(t[tag]) else None
  }

  function IntField(t: Tags, tag: string): (r: Result<Option<int>, UnitError>)
    ensures r.Err? <==> tag in t && ParseInt(t[tag]).None?
    ensures r.Ok? && r.value.Some? ==> tag in t && ParseInt(t[tag]) == r.value
    ensures tag !in t ==> r == Ok(None)
  {
    if tag !in t then Ok(None)
    else match ParseInt(t[tag])
      case Some(v) => Ok(Some(v))
      case None => Err(BadValue(tag))
  }

  function RealField(t: Tags, tag: string): (r: Result<Option<real>, UnitError>)
    ensures r.Err? <==> tag in t && ParseDecimal(t[tag]).None?
    ensures r.Ok? && r.value.Some? ==> tag in t && ParseDecimal(t[tag]) == r.value
    ensures tag !in t ==> r == Ok(None)
  {
    if tag !in t then Ok(None)
    else match ParseDecimal(t[tag])
      case Some(v) => Ok(Some(v))
      case None => Err(BadValue(tag))
  }

  // ---------------------------------------------------------------------------
  // The matricule: `generate_mat18`.

  /** Sub-fields `rl0104a` to `rl0104c` are required; `d`, `e`, `f` are padded with zeros. */
  function GenerateMat18(rl0104: Tags): (r: Result<string, UnitError>)
    ensures r.Ok? <==> "rl0104a" in rl0104 && "rl0104b" in rl0104 && "rl0104c" in rl0104
  {
    if "rl0104a" !in rl0104 then Err(MissingElement("rl0104a"))
    else if "rl0104b" !in rl0104 then Err(MissingElement("rl0104b"))
    else if "rl0104c" !in rl0104 then Err(MissingElement("rl0104c"))
    else
      Ok(rl0104["rl0104a"] + rl0104["rl0104b"] + rl0104["rl0104c"]
         + TextField(rl0104, "rl0104d").GetOr("0")
         + TextField(rl0104, "rl0104e").GetOr("000")
         + TextField(rl0104, "rl0104f").GetOr("0000"))
  }

  /** The widths of the six matricule parts in the provincial format. */
  const Mat18Widths: seq<nat> := [4, 2, 4, 1, 3, 4]

  predicate StandardParts(rl0104: Tags)
  {
    var tags := ["rl0104a", "rl0104b", "rl0104c", "rl0104d", "rl0104e", "rl0104f"];
    forall k | 0 <= k < 6 :: tags[k] in rl0104 ==> |rl0104[tags[k]]| == Mat18Widths[k]
  }

  /** The six parts of a matricule, cut at the standard widths. */
  function SplitMat18(m: string): seq<string>
    requires |m| == 18
  {
    [m[0..4], m[4..6], m[6..10], m[10..11], m[11..14], m[14..18]]
  }

  /**
   * With parts of the standard widths the matricule is 18 characters long,
   * cutting it at those widths gives back every present part, and an absent
   * optional part comes back as its zero padding.
   */
  lemma Mat18RoundTrip(rl0104: Tags)
    requires GenerateMat18(rl0104).Ok? && StandardParts(rl0104)
    ensures |GenerateMat18(rl0104).value| == 18
    ensures SplitMat18(GenerateMat18(rl0104).value) ==
      [rl0104["rl0104a"], rl0104["rl0104b"], rl0104["rl0104c"],
       TextField(rl0104, "rl0104d").GetOr("0"),
       TextField(rl0104, "rl0104e").GetOr("000"),
       TextField(rl0104, "rl0104f").GetOr("0000")]
  {
    var tags := ["rl0104a", "rl0104b", "rl0104c", "rl0104d", "rl0104e", "rl0104f"];
    assert tags[0] in rl0104 && tags[1] in rl0104 && tags[2] in rl0104;
    assert tags[3] in rl0104 ==> |rl0104[tags[3]]| == 1;
    assert tags[4] in rl0104 ==> |rl0104[tags[4]]| == 3;
    assert tags[5] in rl0104 ==> |rl0104[tags[5]]| == 4;
    var m := GenerateMat18(rl0104).value;
    var a, b, c := rl0104["rl0104a"], rl0104["rl0104b"], rl0104["rl0104c"];
    var d, e, f := TextField(rl0104, "rl0104d").GetOr("0"), TextField(rl0104, "rl0104e").GetOr("000"), TextField(rl0104, "rl0104f").GetOr("0000");
    assert |a| == 4 && |b| == 2 && |c| == 4 && |d| == 1 && |e| == 3 && |f| == 4;
    assert m == a + b + c + d + e + f;
    SixParts(a, b, c, d, e, f);
  }

  /** Cutting six parts of widths 4, 2, 4, 1, 3 and 4 back out of their concatenation. */
  lemma SixParts(a: string, b: string, c: string, d: string, e: string, f: string)
    requires |a| == 4 && |b| == 2 && |c| == 4 && |d| == 1 && |e| == 3 && |f| == 4
    ensures |a + b + c + d + e + f| == 18
    ensures SplitMat18(a + b + c + d + e + f) == [a, b, c, d, e, f]
  {
    var m := a + b + c + d + e + f;
    forall i | 0 <= i < 4 ensures m[i] == a[i] && m[14 + i] == f[i] && m[6 + i] == c[i] { }
    forall i | 0 <= i < 3 ensures m[11 + i] == e[i] { }
    forall i | 0 <= i < 2 ensures m[4 + i] == b[i] { }
    assert m[10] == d[0];
    assert m[0..4] == a && m[4..6] == b && m[6..10] == c;
    assert m[10..11] == d && m[11..14] == e && m[14..18] == f;
  }

  /** The provincial id of a unit: municipal code followed by the matricule. */
  function UnitId(muniCode: string, mat18: string): (id: string)
    ensures |id| == |muniCode| + |mat18|
    ensures id[..|muniCode|] == muniCode && id[|muniCode|..] == mat18
  {
    muniCode + mat18
  }

  /** A five-character municipal code and a standard matricule make a 23-character id. */
  lemma IdLength(muniCode: string, rl0104: Tags)
    requires |muniCode| == 5 && GenerateMat18(rl0104).Ok? && StandardParts(rl0104)
    ensures |UnitId(muniCode, GenerateMat18(rl0104).value)| == 23
  {
    Mat18RoundTrip(rl0104);
  }

  // ---------------------------------------------------------------------------
  // Address assembly: `get_address_components_and_resolve`.

  function Present(t: Tags, tag: string): (r: seq<string>)
    ensures |r| <= 1
  {
    if tag in t then [t[tag]] else []
  }

  /** The civic-number tokens: lower numbers, then `-` and the upper numbers. */
  function NumberTokens(x: Tags): seq<string>
  {
    Present(x, "rl0101ax") + Present(x, "rl0101bx")
    + (if "rl0101cx" in x then ["-", x["rl0101cx"]] else [])
    + Present(x, "rl0101dx")
  }

  /** A present code resolved through its table; an unknown code raises. */
  function Resolved(x: Tags, tag: string, table: map<string, string>): (r: Result<seq<string>, UnitError>)
    ensures r.Err? <==> tag in x && x[tag] !in table
    ensures r.Ok? ==> r.value == if tag in x then [table[x[tag]]] else []
  {
    if tag !in x then Ok([])
    else if x[tag] in table then Ok([table[x[tag]]])
    else Err(UnknownCode(tag))
  }

  /** The street tokens: way type, way link, street name, cardinal point. */
  function StreetTokens(x: Tags, codes: Codes): (r: Result<seq<string>, UnitError>)
    ensures r.Err? <==>
      ("rl0101ex" in x && x["rl0101ex"] !in codes.wayTypes) ||
      ("rl0101fx" in x && x["rl0101fx"] !in codes.wayLinks) ||
      ("rl0101hx" in x && x["rl0101hx"] !in codes.cardinalPoints)
    ensures r.Ok? ==> |r.value| <= 4
  {
    var wayType :- Resolved(x, "rl0101ex", codes.wayTypes);
    var wayLink :- Resolved(x, "rl0101fx", codes.wayLinks);
    var cardinal :- Resolved(x, "rl0101hx", codes.cardinalPoints);
    Ok(wayType + wayLink + Present(x, "rl0101gx") + cardinal)
  }

  /** The text of the address and of the street name, before title-casing. */
  datatype Address = Address(address: string, streetName: string)

  function AssembleAddress(x: Tags, codes: Codes): (r: Result<Address, UnitError>)
    ensures r.Err? <==> StreetTokens(x, codes).Err?
    ensures r.Ok? ==> r.value.address == Join(NumberTokens(x) + StreetTokens(x, codes).value, " ")
    ensures r.Ok? ==> r.value.streetName == Join(StreetTokens(x, codes).value, " ")
  {
    var street :- StreetTokens(x, codes);
    Ok(Address(Join(NumberTokens(x) + street, " "), Join(street, " ")))
  }

  lemma {:induction false} JoinConcat(a: seq<string>, b: seq<string>, sep: string)
    requires a != [] && b != []
    ensures Join(a + b, sep) == Join(a, sep) + sep + Join(b, sep)
    decreases |a|
  {
    if |a| == 1 {
      assert (a + b)[1..] == b;
    } else {
      assert (a + b)[1..] == a[1..] + b;
      JoinConcat(a[1..], b, sep);
    }
  }

  /**
   * The address text ends with the street-name text: it is the civic-number
   * part, a space, then the street name, when both are present.
   */
  lemma AddressEndsWithStreet(x: Tags, codes: Codes)
    requires AssembleAddress(x, codes).Ok?
    ensures var a := AssembleAddress(x, codes).value;
      if NumberTokens(x) == [] then a.address == a.streetName
      else if a.streetName == [] && StreetTokens(x, codes).value == [] then a.address == Join(NumberTokens(x), " ")
      else a.address == Join(NumberTokens(x), " ") + " " + a.streetName
  {
    var street := StreetTokens(x, codes).value;
    if NumberTokens(x) == [] {
      assert NumberTokens(x) + street == street;
    } else if street == [] {
      assert NumberTokens(x) + street == NumberTokens(x);
    } else {
      JoinConcat(NumberTokens(x), street, " ");
    }
  }

  /** The apartment part never reaches the address. */
  lemma AddressIgnoresApartment(x: Tags, codes: Codes, apt1: string, apt2: string)
    ensures AssembleAddress(x["rl0101ix" := apt1]["rl0101jx" := apt2], codes) == AssembleAddress(x, codes)
  {
    var y := x["rl0101ix" := apt1]["rl0101jx" := apt2];
    assert NumberTokens(y) == NumberTokens(x);
    assert StreetTokens(y, codes) == StreetTokens(x, codes);
  }

  // ---------------------------------------------------------------------------
  // Apartment number: `get_apt_num_components`.

  function AptNum(x: Tags): (r: Option<string>)
    ensures r.None? <==> "rl0101ix" !in x && "rl0101jx" !in x
    ensures "rl0101ix" in x && "rl0101jx" in x ==> r == Some(x["rl0101ix"] + " " + x["rl0101jx"])
    ensures "rl0101ix" in x && "rl0101jx" !in x ==> r == Some(x["rl0101ix"])
    ensures "rl0101ix" !in x && "rl0101jx" in x ==> r == Some(x["rl0101jx"])
  {
    var parts := Present(x, "rl0101ix") + Present(x, "rl0101jx");
    assert |parts| == 2 ==> Join(parts, " ") == parts[0] + " " + Join(parts[1..], " ") && parts[1..] == [parts[1]];
    if parts == [] then None else Some(Join(parts, " "))
  }

  // ---------------------------------------------------------------------------
  // Owner dates: `datetime.strptime(text, '%Y-%m-%d')`.

  datatype Date = Date(year: nat, month: nat, day: nat)

  predicate LeapYear(y: nat) { y % 4 == 0 && (y % 100 != 0 || y % 400 == 0) }

  function DaysInMonth(y: nat, m: nat): nat
    requires 1 <= m <= 12
  {
    if m == 2 then (if LeapYear(y) then 29 else 28)
    else if m == 4 || m == 6 || m == 9 || m == 11 then 30
    else 31
  }

  /** Four year digits, a `-`, one or two month digits, a `-`, one or two day digits: the three runs. */
  function IsoFields(s: string): (r: Option<(string, string, string)>)
    ensures r.Some? ==> |r.value.0| == 4 && AllDigits(r.value.0)
    ensures r.Some? ==> 1 <= |r.value.1| <= 2 && AllDigits(r.value.1) && 1 <= |r.value.2| <= 2 && AllDigits(r.value.2)
  {
    if |s| < 5 || !AllDigits(s[..4]) || s[4] != '-' then None
    else
      var rest := s[5..];
      var i := IndexOf(rest, '-');
      if i == |rest| then None
      else
        var month, day := rest[..i], rest[i + 1..];
        if 1 <= |month| <= 2 && AllDigits(month) && 1 <= |day| <= 2 && AllDigits(day) then Some((s[..4], month, day))
        else None
  }

  /** The day the three digit runs name, when it is a real calendar day of a year from 1 on. */
  function CalendarDate(ys: string, ms: string, ds: string): (r: Option<Date>)
    requires AllDigits(ys) && AllDigits(ms) && AllDigits(ds)
  {
    var y, m, d := ParseNat(ys), ParseNat(ms), ParseNat(ds);
    if y >= 1 && 1 <= m <= 12 && 1 <= d <= DaysInMonth(y, m) then Some(Date(y, m, d)) else None
  }

  /** `datetime.strptime(s, '%Y-%m-%d')`. */
  function ParseIsoDate(s: string): (r: Option<Date>)
    ensures r.Some? ==> 1 <= r.value.month <= 12 && 1 <= r.value.day <= DaysInMonth(r.value.year, r.value.month)
    ensures r.Some? ==> r.value.year >= 1
  {
    match IsoFields(s)
    case None => None
    case Some((ys, ms, ds)) => CalendarDate(ys, ms, ds)
  }

  predicate After(a: Date, b: Date)
  {
    a.year > b.year || (a.year == b.year && (a.month > b.month || (a.month == b.month && a.day > b.day)))
  }

  /**
   * How the owner loop reads a date: `ParseIsoDate` for the unit's row.  The
   * loop's logic is stated for any reader, so that its proofs do not depend
   * on the calendar.
   */
  type DateParser = string -> Option<Date>

  /** The initial `max_date`, which the owner loop never raises. */
  const Threshold := Date(1500, 1, 1)

  datatype Owner = Owner(date: string, ownerType: string)

  /** An owner sub-record that takes part: dated after 1500-01-01. */
  predicate Qualifies(rec: Tags, parse: DateParser)
  {
    "rl0201gx" in rec && parse(rec["rl0201gx"]).Some? && After(parse(rec["rl0201gx"]).value, Threshold)
  }

  /** A sub-record the loop gets past: a parsable date, and a type tag when it qualifies. */
  predicate Readable(rec: Tags, parse: DateParser)
  {
    "rl0201gx" in rec && parse(rec["rl0201gx"]).Some? && (Qualifies(rec, parse) ==> "rl0201hx" in rec)
  }

  function OwnerOf(rec: Tags): Owner
    requires "rl0201gx" in rec && "rl0201hx" in rec
  {
    Owner(rec["rl0201gx"], if rec["rl0201hx"] == "1" then "physical" else "moral")
  }

  /** The first sub-record the loop cannot get past, if any. */
  function FirstUnreadable(records: seq<Tags>, parse: DateParser): (k: nat)
    ensures k <= |records|
    ensures forall j | 0 <= j < k :: Readable(records[j], parse)
    ensures k < |records| ==> !Readable(records[k], parse)
  {
    if records == [] then 0
    else if !Readable(records[0], parse) then 0
    else 1 + FirstUnreadable(records[1..], parse)
  }

  /** The index of the last qualifying sub-record among the first `n`, if any qualifies. */
  function LastQualifying(records: seq<Tags>, n: nat, parse: DateParser): (r: Option<nat>)
    requires n <= |records|
    ensures r.None? <==> forall j | 0 <= j < n :: !Qualifies(records[j], parse)
    ensures r.Some? ==> r.value < n && Qualifies(records[r.value], parse)
    ensures r.Some? ==> forall j | r.value < j < n :: !Qualifies(records[j], parse)
  {
    if n == 0 then None
    else if Qualifies(records[n - 1], parse) then Some(n - 1)
    else LastQualifying(records, n - 1, parse)
  }

  /** Why the loop cannot get past a sub-record. */
  function UnreadableError(rec: Tags, parse: DateParser): UnitError
  {
    if "rl0201gx" !in rec then MissingElement("rl0201gx")
    else if parse(rec["rl0201gx"]).None? then BadValue("rl0201gx")
    else MissingElement("rl0201hx")
  }

  /**
   * The owner the loop settles on: that of the *last* sub-record dated after
   * 1500-01-01 (the running maximum is never raised); an unreadable
   * sub-record raises, and none qualifying leaves the owner unbound.
   */
  function OwnerSelection(records: seq<Tags>, parse: DateParser): Result<Owner, UnitError>
  {
    var k := FirstUnreadable(records, parse);
    if k < |records| then Err(UnreadableError(records[k], parse))
    else match LastQualifying(records, |records|, parse)
      case None => Err(NoOwnerDate)
      case Some(i) => assert Readable(records[i], parse); Ok(OwnerOf(records[i]))
  }

  /**
   * The loop succeeds exactly when every sub-record is readable and one
   * qualifies, and its owner is then that of the last qualifying one.
   */
  lemma OwnerSelectionMeaning(records: seq<Tags>, parse: DateParser)
    ensures OwnerSelection(records, parse).Ok? <==>
      FirstUnreadable(records, parse) == |records| && exists j | 0 <= j < |records| :: Qualifies(records[j], parse)
    ensures OwnerSelection(records, parse).Ok? ==> exists k | 0 <= k < |records| ::
      (Qualifies(records[k], parse) && "rl0201hx" in records[k] &&
       OwnerSelection(records, parse).value == OwnerOf(records[k]) && forall j | k < j < |records| :: !Qualifies(records[j], parse))
  {
    if FirstUnreadable(records, parse) == |records| && LastQualifying(records, |records|, parse).Some? {
      var k := LastQualifying(records, |records|, parse).value;
      assert Readable(records[k], parse);
    }
  }

  /** The owner found among the first `n` sub-records, as the loop holds it. */
  function OwnerSoFar(records: seq<Tags>, n: nat, parse: DateParser): Option<Owner>
    requires n <= FirstUnreadable(records, parse)
  {
    match LastQualifying(records, n, parse)
    case None => None
    case Some(i) => assert Readable(records[i], parse); Some(OwnerOf(records[i]))
  }

  /** The owner loop of `parse_unit_xml`. */
  /** One pass of the owner loop: an unreadable sub-record raises, a qualifying one replaces the owner. */
  function RecordStep(rec: Tags, owner: Option<Owner>, parse: DateParser): Result<Option<Owner>, UnitError>
  {
    if !Readable(rec, parse) then Err(UnreadableError(rec, parse))
    else Ok(if Qualifies(rec, parse) then Some(OwnerOf(rec)) else owner)
  }

  /** The rest of the owner loop from sub-record `k` on, holding `owner`. */
  function OwnerLoop(records: seq<Tags>, k: nat, owner: Option<Owner>, parse: DateParser): Result<Owner, UnitError>
    requires k <= |records|
    decreases |records| - k
  {
    if k == |records| then (if owner.None? then Err(NoOwnerDate) else Ok(owner.value))
    else match RecordStep(records[k], owner, parse)
      case Err(e) => Err(e)
      case Ok(o) => OwnerLoop(records, k + 1, o, parse)
  }

  /** Run from any readable prefix, the loop ends as the owner selection says. */
  lemma {:induction false} LoopSelects(records: seq<Tags>, k: nat, parse: DateParser)
    requires k <= FirstUnreadable(records, parse)
    ensures OwnerLoop(records, k, OwnerSoFar(records, k, parse), parse) == OwnerSelection(records, parse)
    decreases |records| - k
  {
    if k == |records| {
      OwnerSettled(records, parse);
    } else if !Readable(records[k], parse) {
      LoopStops(records, k, parse);
    } else {
      LoopStep(records, k, parse);
      LoopSelects(records, k + 1, parse);
    }
  }

  /** At the first unreadable sub-record the loop raises what the selection does. */
  lemma LoopStops(records: seq<Tags>, k: nat, parse: DateParser)
    requires k < |records| && !Readable(records[k], parse) && k <= FirstUnreadable(records, parse)
    ensures OwnerLoop(records, k, OwnerSoFar(records, k, parse), parse) == OwnerSelection(records, parse)
  {
    StopsAt(records, k, parse);
  }

  /** Past a readable sub-record the loop holds the owner of one sub-record more. */
  lemma LoopStep(records: seq<Tags>, k: nat, parse: DateParser)
    requires k < |records| && Readable(records[k], parse) && k <= FirstUnreadable(records, parse)
    ensures k + 1 <= FirstUnreadable(records, parse)
    ensures OwnerLoop(records, k, OwnerSoFar(records, k, parse), parse) ==
      OwnerLoop(records, k + 1, OwnerSoFar(records, k + 1, parse), parse)
  {
    OwnerStep(records, k, parse);
  }

  method SelectOwner(records: seq<Tags>, parse: DateParser) returns (r: Result<Owner, UnitError>)
    ensures r == OwnerSelection(records, parse)
  {
    LoopSelects(records, 0, parse);
    var owner: Option<Owner> := None;
    var k := 0;
    while k < |records|
      invariant 0 <= k <= |records|
      invariant OwnerLoop(records, k, owner, parse) == OwnerSelection(records, parse)
    {
      var next := ReadOwnerRecord(records[k], owner, parse);
      if next.Err? {
        return Err(next.error);
      }
      owner := next.value;
      k := k + 1;
    }
    if owner.None? {
      return Err(NoOwnerDate);
    }
    return Ok(owner.value);
  }

  /**
   * One pass of the owner loop as `parse_unit_xml` writes it: a sub-record
   * without a parsable date, or qualifying without a type, raises; a
   * qualifying one replaces the owner.
   */
  method ReadOwnerRecord(rec: Tags, owner: Option<Owner>, parse: DateParser) returns (r: Result<Option<Owner>, UnitError>)
    ensures r == RecordStep(rec, owner, parse)
  {
    if "rl0201gx" !in rec {
      return Err(MissingElement("rl0201gx"));
    }
    var date := parse(rec["rl0201gx"]);
    if date.None? {
      return Err(BadValue("rl0201gx"));
    }
    if After(date.value, Threshold) {
      if "rl0201hx" !in rec {
        return Err(MissingElement("rl0201hx"));
      }
      return Ok(Some(Owner(rec["rl0201gx"], if rec["rl0201hx"] == "1" then "physical" else "moral")));
    }
    return Ok(owner);
  }

  /** The first sub-record the loop cannot get past is where it stops. */
  lemma StopsAt(records: seq<Tags>, k: nat, parse: DateParser)
    requires k < |records| && !Readable(records[k], parse) && k <= FirstUnreadable(records, parse)
    ensures FirstUnreadable(records, parse) == k
  {
  }

  /** One readable sub-record more: it becomes the owner exactly when it qualifies. */
  lemma OwnerStep(records: seq<Tags>, k: nat, parse: DateParser)
    requires k < |records| && Readable(records[k], parse) && k <= FirstUnreadable(records, parse)
    ensures k + 1 <= FirstUnreadable(records, parse)
    ensures OwnerSoFar(records, k + 1, parse) ==
      if Qualifies(records[k], parse) then Some(OwnerOf(records[k])) else OwnerSoFar(records, k, parse)
  {
  }

  /** With every sub-record readable, the owner is the one the loop holds at the end. */
  lemma OwnerSettled(records: seq<Tags>, parse: DateParser)
    requires FirstUnreadable(records, parse) == |records|
    ensures OwnerSelection(records, parse) ==
      if OwnerSoFar(records, |records|, parse).None? then Err(NoOwnerDate) else Ok(OwnerSoFar(records, |records|, parse).value)
  {
  }

  /** When every sub-record is readable and the last one qualifies, the last one is the owner. */
  lemma SelectsLast(records: seq<Tags>, parse: DateParser)
    requires |records| > 0 && forall j | 0 <= j < |records| :: Readable(records[j], parse)
    requires Qualifies(records[|records| - 1], parse)
    ensures Readable(records[|records| - 1], parse)
    ensures OwnerSelection(records, parse) == Ok(OwnerOf(records[|records| - 1]))
  {
    assert Readable(records[|records| - 1], parse);
    assert FirstUnreadable(records, parse) == |records|;
  }

  /**
   * Of two qualifying sub-records, the second is the owner even when the
   * first is dated later: the running maximum is never raised.
   */
  lemma LastListedOwnerWins(r0: Tags, r1: Tags, parse: DateParser)
    requires Readable(r0, parse) && Qualifies(r0, parse) && Readable(r1, parse) && Qualifies(r1, parse)
    requires After(parse(r0["rl0201gx"]).value, parse(r1["rl0201gx"]).value)
    ensures OwnerSelection([r0, r1], parse) == Ok(OwnerOf(r1))
  {
    SelectsLast([r0, r1], parse);
  }

  lemma {:induction false} DigitsRead(s: string, v: nat)
    requires 1 <= |s| <= 4 && AllDigits(s)
    requires v == if |s| == 1 then DigitValue(s[0])
      else if |s| == 2 then DigitValue(s[0]) * 10 + DigitValue(s[1])
      else if |s| == 3 then (DigitValue(s[0]) * 10 + DigitValue(s[1])) * 10 + DigitValue(s[2])
      else ((DigitValue(s[0]) * 10 + DigitValue(s[1])) * 10 + DigitValue(s[2])) * 10 + DigitValue(s[3])
    ensures ParseNat(s) == v
  {
    var p := s[..|s| - 1];
    if |s| > 1 {
      assert AllDigits(p);
      var w := if |p| == 1 then DigitValue(p[0])
        else if |p| == 2 then DigitValue(p[0]) * 10 + DigitValue(p[1])
        else (DigitValue(p[0]) * 10 + DigitValue(p[1])) * 10 + DigitValue(p[2]);
      DigitsRead(p, w);
    } else {
      assert p == [];
    }
  }

  /** A date written as four year digits, then one or two month and day digits, reads as its numbers. */
  lemma IsoParts(ys: string, ms: string, ds: string)
    requires |ys| == 4 && AllDigits(ys) && 1 <= |ms| <= 2 && AllDigits(ms) && 1 <= |ds| <= 2 && AllDigits(ds)
    ensures ParseIsoDate(ys + "-" + ms + "-" + ds) == CalendarDate(ys, ms, ds)
  {
    DashAssoc(ys, ms, ds);
    IsoFieldsOf(ys, ms, ds);
  }

  lemma DashAssoc(ys: string, ms: string, ds: string)
    ensures ys + "-" + ms + "-" + ds == ys + "-" + (ms + "-" + ds)
  {
  }

  lemma IsoFieldsOf(ys: string, ms: string, ds: string)
    requires |ys| == 4 && AllDigits(ys) && 1 <= |ms| <= 2 && AllDigits(ms) && 1 <= |ds| <= 2 && AllDigits(ds)
    ensures IsoFields(ys + "-" + (ms + "-" + ds)) == Some((ys, ms, ds))
  {
    CutAtDash(ys, ms + "-" + ds);
    CutAtDash(ms, ds);
  }

  /** Digits, a dash, and the rest: the dash is the first one, and cutting there gives both parts back. */
  lemma CutAtDash(ds: string, rest: string)
    requires AllDigits(ds)
    ensures IndexOf(ds + "-" + rest, '-') == |ds|
    ensures (ds + "-" + rest)[..|ds|] == ds && (ds + "-" + rest)[|ds| + 1..] == rest
  {
    var s := ds + "-" + rest;
    assert s[|ds|] == '-';
    forall k | 0 <= k < |ds| ensures s[k] != '-' {
      assert s[k] == ds[k];
    }
  }

  lemma Date20200601()
    ensures ParseIsoDate("2020-06-01") == Some(Date(2020, 6, 1))
  {
    assert "2020-06-01" == "2020" + "-" + "06" + "-" + "01";
    IsoParts("2020", "06", "01");
    DigitsRead("2020", 2020);
    DigitsRead("06", 6);
    DigitsRead("01", 1);
  }

  lemma Date19991231()
    ensures ParseIsoDate("1999-12-31") == Some(Date(1999, 12, 31))
  {
    assert "1999-12-31" == "1999" + "-" + "12" + "-" + "31";
    IsoParts("1999", "12", "31");
    DigitsRead("1999", 1999);
    DigitsRead("12", 12);
    DigitsRead("31", 31);
  }

  // ---------------------------------------------------------------------------
  // Code fields kept raw when unknown.

  /** `if v := field: if v in TABLE: field = TABLE[v]`: only a non-empty known code is replaced. */
  function DecodeKnown(v: Option<string>, table: map<string, string>): (r: Option<string>)
    ensures v.None? ==> r.None?
    ensures v.Some? && (v.value == [] || v.value !in table) ==> r == v
    ensures v.Some? && v.value != [] && v.value in table ==> r == Some(table[v.value])
  {
    if v.Some? && v.value != [] && v.value in table then Some(table[v.value]) else v
  }

  // ---------------------------------------------------------------------------
  // The whole row.

  /** What the ingestion loop has settled before calling `parse_unit_xml`. */
  datatype UnitHeader = UnitHeader(id: string, cubf: int, muni: string, muniCode: string, year: string, mat18: string)

  /** The numeric fields of a unit, read with `type=int` or `type=float`. */
  datatype Measures = Measures(
    lotLinDim: Option<real>, lotArea: Option<real>, maxFloors: Option<int>, constYr: Option<int>,
    floorArea: Option<real>, numDwelling: Option<int>, numRental: Option<int>, numNonRes: Option<int>,
    lotValue: Option<real>, buildingValue: Option<real>, value: Option<real>, prevValue: Option<real>)

  /** The lot and building fields, `rl0301a` to `rl0311a`, convert. */
  predicate LotReadable(t: Tags)
  {
    RealField(t, "rl0301a").Ok? && RealField(t, "rl0302a").Ok? && IntField(t, "rl0306a").Ok? &&
    IntField(t, "rl0307a").Ok? && RealField(t, "rl0308a").Ok? && IntField(t, "rl0311a").Ok?
  }

  /** The remaining counts and the values, `rl0312a` to `rl0405a`, convert. */
  predicate ValuesReadable(t: Tags)
  {
    IntField(t, "rl0312a").Ok? && IntField(t, "rl0313a").Ok? && RealField(t, "rl0402a").Ok? &&
    RealField(t, "rl0403a").Ok? && RealField(t, "rl0404a").Ok? && RealField(t, "rl0405a").Ok?
  }

  /** Every field read with `type=int` or `type=float` converts. */
  predicate MeasuresReadable(t: Tags)
  {
    LotReadable(t) && ValuesReadable(t)
  }

  /** The first six numeric fields, in the order `parse_unit_xml` reads them. */
  function ReadLot(t: Tags): (r: Result<(Option<real>, Option<real>, Option<int>, Option<int>, Option<real>, Option<int>), UnitError>)
    ensures r.Ok? <==> LotReadable(t)
    ensures r.Ok? ==> r.value.0 == RealField(t, "rl0301a").value && r.value.1 == RealField(t, "rl0302a").value
    ensures r.Ok? ==> r.value.2 == IntField(t, "rl0306a").value && r.value.3 == IntField(t, "rl0307a").value
    ensures r.Ok? ==> r.value.4 == RealField(t, "rl0308a").value && r.value.5 == IntField(t, "rl0311a").value
  {
    var lotLinDim :- RealField(t, "rl0301a");
    var lotArea :- RealField(t, "rl0302a");
    var maxFloors :- IntField(t, "rl0306a");
    var constYr :- IntField(t, "rl0307a");
    var floorArea :- RealField(t, "rl0308a");
    var numDwelling :- IntField(t, "rl0311a");
    Ok((lotLinDim, lotArea, maxFloors, constYr, floorArea, numDwelling))
  }

  /** The last six numeric fields. */
  function ReadValues(t: Tags): (r: Result<(Option<int>, Option<int>, Option<real>, Option<real>, Option<real>, Option<real>), UnitError>)
    ensures r.Ok? <==> ValuesReadable(t)
    ensures r.Ok? ==> r.value.0 == IntField(t, "rl0312a").value && r.value.1 == IntField(t, "rl0313a").value
    ensures r.Ok? ==> r.value.2 == RealField(t, "rl0402a").value && r.value.3 == RealField(t, "rl0403a").value
    ensures r.Ok? ==> r.value.4 == RealField(t, "rl0404a").value && r.value.5 == RealField(t, "rl0405a").value
  {
    var numRental :- IntField(t, "rl0312a");
    var numNonRes :- IntField(t, "rl0313a");
    var lotValue :- RealField(t, "rl0402a");
    var buildingValue :- RealField(t, "rl0403a");
    var value :- RealField(t, "rl0404a");
    var prevValue :- RealField(t, "rl0405a");
    Ok((numRental, numNonRes, lotValue, buildingValue, value, prevValue))
  }

  function ReadMeasures(t: Tags): (r: Result<Measures, UnitError>)
    ensures r.Ok? <==> MeasuresReadable(t)
    ensures r.Ok? ==> r.value.lotLinDim == RealField(t, "rl0301a").value && r.value.lotArea == RealField(t, "rl0302a").value
    ensures r.Ok? ==> r.value.maxFloors == IntField(t, "rl0306a").value && r.value.constYr == IntField(t, "rl0307a").value
    ensures r.Ok? ==> r.value.floorArea == RealField(t, "rl0308a").value && r.value.numDwelling == IntField(t, "rl0311a").value
    ensures r.Ok? ==> r.value.numRental == IntField(t, "rl0312a").value && r.value.numNonRes == IntField(t, "rl0313a").value
    ensures r.Ok? ==> r.value.lotValue == RealField(t, "rl0402a").value && r.value.buildingValue == RealField(t, "rl0403a").value
    ensures r.Ok? ==> r.value.value == RealField(t, "rl0404a").value && r.value.prevValue == RealField(t, "rl0405a").value
  {
    var a :- ReadLot(t);
    var b :- ReadValues(t);
    Ok(Measures(a.0, a.1, a.2, a.3, a.4, a.5, b.0, b.1, b.2, b.3, b.4, b.5))
  }

  /**
   * `parse_unit_xml`: the row of one unit.  It fails exactly when a required
   * block is missing, a way code is unknown, the owner loop raises, or a
   * numeric field does not convert.
   */
  function ParseUnitXml(xml: UnitXml, codes: Codes, title: string -> string, h: UnitHeader): (r: Result<EvalUnit, UnitError>)
    ensures r.Ok? <==>
      xml.rl0101x.Some? && StreetTokens(xml.rl0101x.value, codes).Ok? &&
      xml.rl0201.Some? && OwnerSelection(xml.rl0201.value.records, ParseIsoDate).Ok? &&
      MeasuresReadable(xml.tags)
    ensures r.Ok? ==> r.value.id == h.id && r.value.mat18 == h.mat18 && r.value.cubf == h.cubf
    ensures r.Ok? ==> r.value.address == title(AssembleAddress(xml.rl0101x.value, codes).value.address)
    ensures r.Ok? ==> r.value.streetName == Some(title(AssembleAddress(xml.rl0101x.value, codes).value.streetName))
    ensures r.Ok? ==> r.value.aptNum == AptNum(xml.rl0101x.value)
    ensures r.Ok? ==> r.value.ownerDate == Some(OwnerSelection(xml.rl0201.value.records, ParseIsoDate).value.date)
    ensures r.Ok? ==> r.value.ownerType == Some(OwnerSelection(xml.rl0201.value.records, ParseIsoDate).value.ownerType)
    ensures r.Ok? ==> r.value.physLink == DecodeKnown(TextField(xml.tags, "rl0309a"), codes.physicalLinks)
    ensures r.Ok? ==> r.value.constType == DecodeKnown(TextField(xml.tags, "rl0310a"), codes.constructionTypes)
    ensures r.Ok? ==> r.value.lat.None? && r.value.lng.None? && r.value.lotId.None?
  {
    if xml.rl0101x.None? then Err(MissingElement("rl0101x"))
    else
      var x := xml.rl0101x.value;
      var adr :- AssembleAddress(x, codes);
      if xml.rl0201.None? then Err(MissingElement("rl0201"))
      else
        var owner :- OwnerSelection(xml.rl0201.value.records, ParseIsoDate);
        var t := xml.tags;
        var n :- ReadMeasures(t);
        Ok(EvalUnit(
          id := h.id, lat := None, lng := None, point := None, lotId := None, lotGeom := None,
          year := Some(h.year), muni := h.muni, muniCode := Some(h.muniCode),
          arrond := TextField(t, "rl0102a"),
          address := title(adr.address),
          numAdrInf := TextField(x, "rl0101ax"), numAdrInf2 := TextField(x, "rl0101bx"),
          numAdrSup := TextField(x, "rl0101cx"), numAdrSup2 := TextField(x, "rl0101dx"),
          streetName := Some(title(adr.streetName)),
          aptNum := AptNum(x), aptNum1 := TextField(x, "rl0101ix"), aptNum2 := TextField(x, "rl0101jx"),
          mat18 := h.mat18, cubf := h.cubf,
          fileNum := TextField(t, "rl0106a"), nghbrUnit := TextField(t, "rl0107a"),
          ownerDate := Some(owner.date), ownerType := Some(owner.ownerType),
          ownerStatus := DecodeKnown(TextField(xml.rl0201.value.tags, "rl0201u"), codes.ownerStatuses),
          lotLinDim := n.lotLinDim, lotArea := n.lotArea, maxFloors := n.maxFloors, constYr := n.constYr,
          constYrReal := TextField(t, "rl0307b"), floorArea := n.floorArea,
          physLink := DecodeKnown(TextField(t, "rl0309a"), codes.physicalLinks),
          constType := DecodeKnown(TextField(t, "rl0310a"), codes.constructionTypes),
          numDwelling := n.numDwelling, numRental := n.numRental, numNonRes := n.numNonRes,
          appraisDate := TextField(t, "rl0401a"),
          lotValue := n.lotValue, buildingValue := n.buildingValue, value := n.value, prevValue := n.prevValue))
  }

  /** The fields of a parsed row that come straight from the header, the tags and the measures. */
  lemma ParseUnitXmlFields(xml: UnitXml, codes: Codes, title: string -> string, h: UnitHeader)
    requires ParseUnitXml(xml, codes, title, h).Ok?
    ensures var u, x, t := ParseUnitXml(xml, codes, title, h).value, xml.rl0101x.value, xml.tags;
      u.point.None? && u.lotGeom.None? &&
      u.year == Some(h.year) && u.muni == h.muni && u.muniCode == Some(h.muniCode) &&
      u.arrond == TextField(t, "rl0102a") && u.fileNum == TextField(t, "rl0106a") && u.nghbrUnit == TextField(t, "rl0107a") &&
      u.numAdrInf == TextField(x, "rl0101ax") && u.numAdrInf2 == TextField(x, "rl0101bx") &&
      u.numAdrSup == TextField(x, "rl0101cx") && u.numAdrSup2 == TextField(x, "rl0101dx") &&
      u.aptNum1 == TextField(x, "rl0101ix") && u.aptNum2 == TextField(x, "rl0101jx") &&
      u.ownerStatus == DecodeKnown(TextField(xml.rl0201.value.tags, "rl0201u"), codes.ownerStatuses) &&
      u.constYrReal == TextField(t, "rl0307b") && u.appraisDate == TextField(t, "rl0401a")
    ensures var u, n := ParseUnitXml(xml, codes, title, h).value, ReadMeasures(xml.tags).value;
      u.lotLinDim == n.lotLinDim && u.lotArea == n.lotArea && u.maxFloors == n.maxFloors &&
      u.constYr == n.constYr && u.floorArea == n.floorArea && u.numDwelling == n.numDwelling &&
      u.numRental == n.numRental && u.numNonRes == n.numNonRes && u.lotValue == n.lotValue &&
      u.buildingValue == n.buildingValue && u.value == n.value && u.prevValue == n.prevValue
  {
  }

}
