/**
 * Reading one record of the public-housing (HLM) spreadsheet export
 * (`parse_HLM_csv_row` and `separate_num_adr` in `crossref_hlms`): fields at
 * fixed column positions, the civic number split into its leading digits
 * and the rest, and the numeric columns read with Python's `int` and `float`.
 */
module HlmParse {
  import opened Wrappers
  import opened Text

  /** The first half of `separate_num_adr`'s pair: `int(digits)`, or `''` when there are none. */
  datatype CivicNumber = Number(n: nat) | Blank

  /** One HLM record as the worker carries it; `address` is absent until a geocoder sets it. */
  datatype Hlm = Hlm(
    id: string, projectId: string, organism: string, serviceCenter: string,
    streetNum: string, streetName: string, muni: string, postalCode: string,
    numDwellings: int, numFloors: int,
    areaFootprint: real, areaTotal: real, ivp: real,
    disrepairState: string, interestAdjustDate: string, contractEndDate: Option<string>,
    category: string, buildingId: string,
    address: Option<string>)

  /** Why a record cannot be read: a missing column or a column `int`/`float` rejects. */
  datatype RowError = TooFewColumns | NotAnInteger(column: nat) | NotANumber(column: nat)

  /** The longest prefix of decimal digits. */
  function LeadingDigits(s: string): (r: string)
    ensures |r| <= |s| && r == s[..|r|] && AllDigits(r)
    ensures |r| < |s| ==> !IsDigit(s[|r|])
  {
    if s != [] && IsDigit(s[0]) then [s[0]] + LeadingDigits(s[1..]) else []
  }

  /** A digit prefix followed by a non-digit (or the end) is the leading-digit run. */
  lemma {:induction false} LeadingDigitsAt(s: string, i: nat)
    requires i <= |s| && AllDigits(s[..i]) && (i < |s| ==> !IsDigit(s[i]))
    ensures LeadingDigits(s) == s[..i]
  {
    if i > 0 {
      assert s[..i][0] == s[0];
      assert s[1..][..i - 1] == s[1..i];
      assert forall k | 0 <= k < i - 1 :: s[1..i][k] == s[..i][k + 1];
      LeadingDigitsAt(s[1..], i - 1);
      assert s[..i] == [s[0]] + s[1..i];
    }
  }

  /**
   * `separate_num_adr`: an all-digit designation is its number and nothing
   * else; otherwise the leading digits (or `''`), and the designation with
   * every occurrence of those digits removed.
   */
  function NumAdrParts(s: string): (CivicNumber, Option<string>)
  {
    if IsDigitString(s) then (Number(ParseNat(s)), None)
    else
      var lead := LeadingDigits(s);
      var rest := ReplaceAll(s, lead, "");
      if lead != [] then (Number(ParseNat(lead)), Some(rest)) else (Blank, Some(rest))
  }

  /** The character loop of `separate_num_adr`, stopping at the first non-digit. */
  method SeparateNumAdr(s: string) returns (inf: CivicNumber, inf2: Option<string>)
    ensures (inf, inf2) == NumAdrParts(s)
  {
    if IsDigitString(s) {
      return Number(ParseNat(s)), None;
    }
    var lead := "";
    var i := 0;
    while i < |s| && IsDigit(s[i])
      invariant 0 <= i <= |s| && lead == s[..i] && AllDigits(lead)
    {
      assert s[..i + 1] == s[..i] + [s[i]];
      lead := lead + [s[i]];
      i := i + 1;
    }
    LeadingDigitsAt(s, i);
    inf2 := Some(ReplaceAll(s, lead, ""));
    if IsDigitString(lead) {
      inf := Number(ParseNat(lead));
    } else {
      inf := Blank;
    }
  }

  /** `str()` of the first part: the number in decimal, or the empty text. */
  function CivicText(n: CivicNumber): string
  {
    match n
    case Number(v) => NatToString(v)
    case Blank => ""
  }

  /** `street_num`: `"inf rest"` when the rest is non-empty, else `str(inf)`. */
  function StreetNumber(s: string): (r: string)
  {
    var (inf, inf2) := NumAdrParts(s);
    if inf2.Some? && inf2.value != "" then CivicText(inf) + " " + inf2.value else CivicText(inf)
  }

  /** An all-digit designation comes back unchanged exactly when it has no leading zero. */
  lemma AllDigitNumber(s: string)
    requires IsDigitString(s)
    ensures StreetNumber(s) == NatToString(ParseNat(s))
    ensures StreetNumber(s) == s <==> Canonical(s)
  {
    NatToStringRoundTrip(ParseNat(s));
    if Canonical(s) {
      StringToNatRoundTrip(s);
    }
  }

  /** Without leading digits the whole designation is the second part. */
  lemma NoLeadingDigits(s: string)
    requires s == [] || !IsDigit(s[0])
    ensures NumAdrParts(s) == (Blank, Some(s))
    ensures s != [] ==> StreetNumber(s) == " " + s
  {
    InsertNothing(s);
  }

  /** "12-A" splits into 12 and "-A": the dash stays. */
  lemma DashKept()
    ensures NumAdrParts("12-A") == (Number(12), Some("-A"))
  {
    var s := "12-A";
    LeadingDigitsAt(s, 2);
    assert ParseNat("12") == 12 by {
      assert "12"[..1] == "1";
    }
    assert s[..2] == "12";
    assert ReplaceAll(s, "12", "") == "-A" by {
      assert s[2..] == "-A";
      assert ReplaceAll("-A", "12", "") == "-A";
    }
  }

  /** "12-12" splits into 12 and "-": every occurrence of the digits goes, not just the first. */
  lemma EveryOccurrenceRemoved()
    ensures NumAdrParts("12-12") == (Number(12), Some("-"))
  {
    var s := "12-12";
    LeadingDigitsAt(s, 2);
    assert ParseNat("12") == 12 by {
      assert "12"[..1] == "1";
    }
    assert s[..2] == "12";
    assert ReplaceAll(s, "12", "") == "-" by {
      assert s[2..] == "-12";
      assert "-12"[1..] == "12";
      assert ReplaceAll("12", "12", "") == "";
      assert ReplaceAll("-12", "12", "") == "-";
    }
  }

  /** A decimal comma becomes a point before `float()`: "12,5" reads as 12.5. */
  lemma DecimalComma()
    ensures ParseDecimal(ReplaceAll("12,5", ",", ".")) == Some(12.5)
  {
    CommaReplaced();
    TwelveAndAHalf();
  }

  lemma CommaReplaced()
    ensures ReplaceAll("12,5", ",", ".") == "12.5"
  {
    assert "12,5"[1..] == "2,5" && "2,5"[1..] == ",5" && ",5"[1..] == "5";
    assert ReplaceAll("5", ",", ".") == "5" by { assert "5"[1..] == []; }
  }

  lemma TwelveAndAHalf()
    ensures ParseDecimal("12.5") == Some(12.5)
  {
    assert "12" + "." + "5" == "12.5";
    ParseDecimalPoint("12", "5");
    TwelvePointFive();
  }

  lemma TwelvePointFive()
    ensures PointValue("12", "5") == 12.5
  {
    assert ParseNat("12") == 12 by {
      assert "12"[..1] == "1";
    }
    assert ParseNat("5") == 5 && Pow10(1) == 10;
  }

  /** `float(text)`, reporting the column it rejects. */
  function DecimalColumn(text: string, k: nat): Result<real, RowError>
  {
    match ParseDecimal(text)
    case Some(v) => Ok(v)
    case None => Err(NotANumber(k))
  }

  function IntColumn(text: string, k: nat): Result<int, RowError>
  {
    match ParseInt(text)
    case Some(v) => Ok(v)
    case None => Err(NotAnInteger(k))
  }

  /**
   * `parse_HLM_csv_row`: columns 0-6, 8, 9, 11-17, 19 and 20; the dwelling and
   * floor counts read as integers; the areas and the IVP read as decimals
   * after turning a decimal comma into a point (and dropping `%` from the
   * IVP); `#N/A` as the contract end date means none.
   */
  function ParseHlmCsvRow(row: seq<string>): (r: Result<Hlm, RowError>)
    ensures |row| < 21 ==> r == Err(TooFewColumns)
    ensures r.Ok? ==> r.value.id == row[0] && r.value.projectId == row[1] && r.value.organism == row[2]
    ensures r.Ok? ==> r.value.serviceCenter == row[3] && r.value.streetName == row[5] && r.value.muni == row[6]
    ensures r.Ok? ==> r.value.disrepairState == row[15] && r.value.interestAdjustDate == row[16]
    ensures r.Ok? ==> r.value.postalCode == row[8] && r.value.category == row[19] && r.value.buildingId == row[20]
    ensures r.Ok? ==> r.value.streetNum == StreetNumber(row[4]) && r.value.address.None?
    ensures r.Ok? ==> (r.value.contractEndDate.None? <==> row[17] == "#N/A")
    ensures r.Ok? ==> r.value.contractEndDate.Some? ==> r.value.contractEndDate.value == row[17]
    ensures |row| >= 21 ==> (r.Ok? <==>
      ParseInt(row[9]).Some? && ParseInt(row[11]).Some? &&
      ParseDecimal(ReplaceAll(row[12], ",", ".")).Some? && ParseDecimal(ReplaceAll(row[13], ",", ".")).Some? &&
      ParseDecimal(ReplaceAll(ReplaceAll(row[14], ",", "."), "%", "")).Some?)
    ensures r.Ok? ==> Some(r.value.numDwellings) == ParseInt(row[9]) && Some(r.value.numFloors) == ParseInt(row[11])
    ensures r.Ok? ==> Some(r.value.areaFootprint) == ParseDecimal(ReplaceAll(row[12], ",", "."))
    ensures r.Ok? ==> Some(r.value.areaTotal) == ParseDecimal(ReplaceAll(row[13], ",", "."))
    ensures r.Ok? ==> Some(r.value.ivp) == ParseDecimal(ReplaceAll(ReplaceAll(row[14], ",", "."), "%", ""))
  {
    if |row| < 21 then Err(TooFewColumns)
    else
      var dwellings :- IntColumn(row[9], 9);
      var floors :- IntColumn(row[11], 11);
      var footprint :- DecimalColumn(ReplaceAll(row[12], ",", "."), 12);
      var total :- DecimalColumn(ReplaceAll(row[13], ",", "."), 13);
      var ivp :- DecimalColumn(ReplaceAll(ReplaceAll(row[14], ",", "."), "%", ""), 14);
      Ok(Hlm(
        id := row[0], projectId := row[1], organism := row[2], serviceCenter := row[3],
        streetNum := StreetNumber(row[4]), streetName := row[5], muni := row[6], postalCode := row[8],
        numDwellings := dwellings, numFloors := floors,
        areaFootprint := footprint, areaTotal := total, ivp := ivp,
        disrepairState := row[15], interestAdjustDate := row[16],
        contractEndDate := if row[17] != "#N/A" then Some(row[17]) else None,
        category := row[19], buildingId := row[20],
        address := None))
  }
}
