/**
 * The few Python string and number builtins the pipeline relies on, read on
 * ASCII text (white space is Python's in full): `str.isdigit`, `int()`, `str(int)`, `float()`, `str.join`,
 * `str.split(sep)`, `str.replace`, `in` on strings, `str.upper`,
 * `str.lower`, `str.strip`, the slice `s[:-k]`, and the quote doubling
 * used to splice text into SQL.
 */
module Text {
  import opened Wrappers

  predicate IsDigit(c: char) { '0' <= c <= '9' }

  predicate AllDigits(s: string) { forall i :: 0 <= i < |s| ==> IsDigit(s[i]) }

  /** Python's `s.isdigit()` on ASCII text: non-empty and made of digits only. */
  predicate IsDigitString(s: string) { |s| > 0 && AllDigits(s) }

  function DigitValue(c: char): (d: nat)
    requires IsDigit(c)
    ensures d < 10
  {
    c as int - '0' as int
  }

  function DigitChar(d: nat): (c: char)
    requires d < 10
    ensures IsDigit(c) && DigitValue(c) == d
  {
    ('0' as int + d) as char
  }

  /** The value of a run of decimal digits (the empty run is 0). */
  function ParseNat(s: string): nat
    requires AllDigits(s)
    decreases |s|
  {
    if s == [] then 0 else ParseNat(s[..|s| - 1]) * 10 + DigitValue(s[|s| - 1])
  }

  /** Python's `str(n)` for a non-negative integer. */
  function NatToString(n: nat): (s: string)
    ensures IsDigitString(s)
  {
    if n < 10 then [DigitChar(n)] else NatToString(n / 10) + [DigitChar(n % 10)]
  }

  /** `str(n)` has no superfluous leading zero. */
  predicate Canonical(s: string) { IsDigitString(s) && (s[0] == '0' ==> |s| == 1) }

  lemma {:induction false} NatToStringRoundTrip(n: nat)
    ensures ParseNat(NatToString(n)) == n
    ensures Canonical(NatToString(n))
  {
    if n >= 10 {
      NatToStringRoundTrip(n / 10);
      var s := NatToString(n);
      assert s[..|s| - 1] == NatToString(n / 10);
    }
  }

  lemma {:induction false} ParseNatBound(s: string)
    requires AllDigits(s)
    ensures ParseNat(s) < Pow10(|s|)
  {
    if s != [] {
      ParseNatBound(s[..|s| - 1]);
    }
  }

  lemma {:induction false} ParseNatLowerBound(s: string)
    requires Canonical(s) && |s| >= 2
    ensures ParseNat(s) >= Pow10(|s| - 1)
  {
    var p := s[..|s| - 1];
    assert p[0] == s[0];
    if |s| == 2 {
      assert ParseNat(p) == DigitValue(p[0]) && p[0] != '0';
    } else {
      ParseNatLowerBound(p);
    }
  }

  /** Reading a canonical digit string and printing it back gives the same text. */
  lemma {:induction false} StringToNatRoundTrip(s: string)
    requires Canonical(s)
    ensures NatToString(ParseNat(s)) == s
    decreases |s|
  {
    if |s| == 1 {
    } else {
      var p := s[..|s| - 1];
      assert p[0] == s[0];
      assert Canonical(p);
      StringToNatRoundTrip(p);
      ParseNatLowerBound(s);
      assert ParseNat(s) >= 10 by { Pow10Monotone(1, |s| - 1); }
      assert ParseNat(s) / 10 == ParseNat(p);
      assert ParseNat(s) % 10 == DigitValue(s[|s| - 1]);
      assert s == p + [s[|s| - 1]];
    }
  }

  function Pow10(k: nat): (p: nat)
    ensures p >= 1
  {
    if k == 0 then 1 else 10 * Pow10(k - 1)
  }

  lemma {:induction false} Pow10Monotone(i: nat, j: nat)
    requires i <= j
    ensures Pow10(i) <= Pow10(j)
    decreases j
  {
    if i < j {
      Pow10Monotone(i, j - 1);
    }
  }

  /** What Python's `int()` and `float()` skip around ASCII text. */
  predicate IsAsciiSpace(c: char) { '\t' <= c <= '\r' || c == ' ' }

  /**
   * Decimal digits with single underscores between them: the digit runs
   * `int()` and `float()` accept in base 10.
   */
  predicate Grouped(s: string)
  {
    |s| > 0 && IsDigit(s[0]) && GroupedTail(s[1..])
  }

  /** What may follow a digit in a grouped run: digits, each optionally preceded by one underscore. */
  predicate GroupedTail(s: string)
    decreases |s|
  {
    s == [] ||
    (IsDigit(s[0]) && GroupedTail(s[1..])) ||
    (|s| > 1 && s[0] == '_' && IsDigit(s[1]) && GroupedTail(s[2..]))
  }

  lemma {:induction false} DigitsGroupedTail(s: string)
    requires AllDigits(s)
    ensures GroupedTail(s)
    decreases |s|
  {
    if s != [] {
      DigitsGroupedTail(s[1..]);
    }
  }

  /** The digits of `s`, in order, without its underscores. */
  function DigitsOf(s: string): (r: string)
    ensures AllDigits(r) && |r| <= |s|
    ensures AllDigits(s) ==> r == s
  {
    if s == [] then [] else (if IsDigit(s[0]) then [s[0]] else []) + DigitsOf(s[1..])
  }

  /** An optional sign and grouped digits. */
  predicate IntLiteral(t: string)
  {
    Grouped(t) || (|t| > 1 && (t[0] == '-' || t[0] == '+') && Grouped(t[1..]))
  }

  /** An integer literal with nothing around it. */
  function ReadInt(t: string): (r: Option<int>)
    ensures r.Some? <==> IntLiteral(t)
  {
    if |t| > 1 && (t[0] == '-' || t[0] == '+') then
      if !Grouped(t[1..]) then None
      else if t[0] == '-' then Some(-(ParseNat(DigitsOf(t[1..])) as int))
      else Some(ParseNat(DigitsOf(t[1..])))
    else if Grouped(t) then Some(ParseNat(DigitsOf(t)))
    else None
  }

  /**
   * Python's `int(s)` on ASCII text: white space around an optional sign and
   * digits with single underscores between them; anything else raises.
   */
  function ParseInt(s: string): (r: Option<int>)
    ensures r.Some? <==> IntLiteral(Trim(s, IsAsciiSpace))
  {
    ReadInt(Trim(s, IsAsciiSpace))
  }

  /** Plain digits, with or without a minus sign, read as their value. */
  lemma {:induction false} ReadDigits(s: string)
    requires IsDigitString(s)
    ensures ReadInt(s) == Some(ParseNat(s))
    ensures ReadInt("-" + s) == Some(-(ParseNat(s) as int))
  {
    DigitsGroupedTail(s[1..]);
    var m := "-" + s;
    assert m[0] == '-' && m[1..] == s;
  }

  /** Digits, with or without a minus sign, are their own trim. */
  lemma {:induction false} DigitsUntrimmed(s: string)
    requires IsDigitString(s)
    ensures Trim(s, IsAsciiSpace) == s && Trim("-" + s, IsAsciiSpace) == "-" + s
  {
    TrimNothing(s, IsAsciiSpace);
    var m := "-" + s;
    assert m[|m| - 1] == s[|s| - 1];
    TrimNothing(m, IsAsciiSpace);
  }

  /** A digit string, with or without a minus sign, reads as its value. */
  lemma {:induction false} ParseIntDigits(s: string)
    requires IsDigitString(s)
    ensures ParseInt(s) == Some(ParseNat(s))
    ensures ParseInt("-" + s) == Some(-(ParseNat(s) as int))
  {
    ReadDigits(s);
    DigitsUntrimmed(s);
  }

  /** `int(str(n))` gives the number back. */
  lemma {:induction false} ParseIntOfString(n: nat)
    ensures ParseInt(NatToString(n)) == Some(n)
  {
    NatToStringRoundTrip(n);
    ParseIntDigits(NatToString(n));
  }

  /** White space around the text does not change what `int()` reads. */
  lemma {:induction false} ParseIntIgnoresPadding(a: string, s: string, b: string)
    requires AllIn(a, IsAsciiSpace) && AllIn(b, IsAsciiSpace)
    ensures ParseInt(a + s + b) == ParseInt(s)
  {
    TrimPadded(a, s, b, IsAsciiSpace);
  }

  /** White space around a printed number is skipped, as Python does: `int(" 12\n") == 12`. */
  lemma {:induction false} ParseIntPadded(a: string, n: nat, b: string)
    requires AllIn(a, IsAsciiSpace) && AllIn(b, IsAsciiSpace)
    ensures ParseInt(a + NatToString(n) + b) == Some(n)
  {
    ParseIntOfString(n);
    ParseIntIgnoresPadding(a, NatToString(n), b);
  }

  /** Single underscores between digits are accepted. */
  lemma {:induction false} ParseIntGrouped()
    ensures ParseInt("1_000") == Some(1000)
  {
    TrimNothing("1_000", IsAsciiSpace);
    ThousandGrouped();
    assert ParseNat("1000") == 1000 by {
      assert "1000"[..3] == "100" && "100"[..2] == "10" && "10"[..1] == "1";
    }
  }

  lemma {:induction false} ThousandGrouped()
    ensures Grouped("1_000") && DigitsOf("1_000") == "1000"
  {
    var g := "1_000";
    assert g[1..] == "_000" && "_000"[1..] == "000";
  }

  /** Every character of `z` is `0`. */
  predicate AllZeros(z: string) { forall k | 0 <= k < |z| :: z[k] == '0' }

  /** Zeros in front do not change the value of a run of digits. */
  lemma {:induction false} ParseNatZeros(z: string, t: string)
    requires AllZeros(z) && AllDigits(t)
    ensures AllDigits(z + t) && ParseNat(z + t) == ParseNat(t)
    decreases |t|
  {
    var s := z + t;
    assert AllDigits(s) by {
      forall k | 0 <= k < |s| ensures IsDigit(s[k]) {
        if k >= |z| { assert s[k] == t[k - |z|]; }
      }
    }
    if t == [] {
      assert s == z;
      ZerosParseToZero(z);
    } else {
      var p := t[..|t| - 1];
      ParseNatZeros(z, p);
      assert s[..|s| - 1] == z + p;
      assert s[|s| - 1] == t[|t| - 1];
    }
  }

  lemma {:induction false} ZerosParseToZero(z: string)
    requires AllZeros(z)
    ensures AllDigits(z) && ParseNat(z) == 0
    decreases |z|
  {
    if z != [] {
      ZerosParseToZero(z[..|z| - 1]);
    }
  }

  /** An underscore that is not between two digits makes `int()` raise. */
  lemma {:induction false} ParseIntMisplacedUnderscore()
    ensures ParseInt("1__0") == None && ParseInt("_1") == None && ParseInt("1_") == None
  {
    TrimNothing("1__0", IsAsciiSpace);
    assert !Grouped("1__0") by { assert "1__0"[1] == '_' && "1__0"[2] == '_'; }
    TrimNothing("_1", IsAsciiSpace);
    assert !Grouped("_1") by { assert "_1"[0] == '_'; }
    TrimNothing("1_", IsAsciiSpace);
    assert !Grouped("1_") by { assert "1_"[1] == '_'; }
  }

  /** Space between the sign and the digits, or no digits at all, makes `int()` raise. */
  lemma {:induction false} ParseIntNoDigits()
    ensures ParseInt("- 1") == None && ParseInt(" ") == None && ParseInt("") == None
  {
    TrimNothing("- 1", IsAsciiSpace);
    assert "- 1"[1..] == " 1" && !Grouped(" 1");
    assert !Grouped("- 1") by { assert "- 1"[0] == '-'; }
    TrimAllSpace(" ", IsAsciiSpace);
    TrimNothing("", IsAsciiSpace);
  }

  /** Index of the first occurrence of `c` in `s`, or `|s|`. */
  function IndexOf(s: string, c: char): (i: nat)
    ensures i <= |s|
    ensures forall k :: 0 <= k < i ==> s[k] != c
    ensures i < |s| ==> s[i] == c
  {
    if s == [] then 0 else if s[0] == c then 0 else 1 + IndexOf(s[1..], c)
  }

  /** A whole or fractional part of a decimal: empty, or grouped digits. */
  predicate DecimalPart(s: string) { s == [] || Grouped(s) }

  /** Digits with at most one point and at least one digit around it, as a value. */
  function UnsignedDecimal(body: string): (r: Option<real>)
  {
    var dot := IndexOf(body, '.');
    var whole := body[..dot];
    var frac := if dot < |body| then body[dot + 1..] else [];
    if |whole| + |frac| == 0 || !DecimalPart(whole) || !DecimalPart(frac) then None
    else
      var w, f := DigitsOf(whole), DigitsOf(frac);
      Some(ParseNat(w) as real + ParseNat(f) as real / Pow10(|f|) as real)
  }

  /** A decimal with nothing around it: an optional sign, then an unsigned decimal. */
  function ReadDecimal(t: string): (r: Option<real>)
  {
    if |t| > 0 && (t[0] == '-' || t[0] == '+') then
      match UnsignedDecimal(t[1..])
      case Some(v) => Some(if t[0] == '-' then -v else v)
      case None => None
    else UnsignedDecimal(t)
  }

  /**
   * Python's `float(s)` on ASCII text: white space around an optional sign
   * and digits with at most one decimal point and at least one digit around
   * it, underscores allowed between digits (exponents, `inf` and `nan` are
   * not modelled).
   */
  function ParseDecimal(s: string): (r: Option<real>)
    ensures Trim(s, IsAsciiSpace) == [] ==> r.None?
  {
    ReadDecimal(Trim(s, IsAsciiSpace))
  }

  /** On an integer literal, `float()` agrees with `int()`. */
  lemma {:induction false} ParseDecimalOfInteger(s: string)
    requires IntLiteral(Trim(s, IsAsciiSpace))
    ensures ParseInt(s).Some? && ParseDecimal(s) == Some(ParseInt(s).value as real)
  {
    ReadDecimalOfInteger(Trim(s, IsAsciiSpace));
  }

  /** Grouped digits hold no decimal point. */
  lemma {:induction false} GroupedNoDot(s: string)
    requires Grouped(s) || GroupedTail(s)
    ensures IndexOf(s, '.') == |s|
    decreases |s|
  {
    if s != [] {
      if Grouped(s) || IsDigit(s[0]) {
        GroupedNoDot(s[1..]);
      } else {
        assert s[1..][0] == s[1];
        GroupedNoDot(s[2..]);
        assert s[1..][1..] == s[2..];
      }
    }
  }

  /** An integer literal reads as the same number as a decimal. */
  lemma {:induction false} ReadDecimalOfInteger(t: string)
    requires IntLiteral(t)
    ensures ReadInt(t).Some? && ReadDecimal(t) == Some(ReadInt(t).value as real)
  {
    var body := if |t| > 0 && (t[0] == '-' || t[0] == '+') then t[1..] else t;
    assert Grouped(body);
    GroupedNoDot(body);
    assert body[..|body|] == body;
  }

  /** Padding with white space does not change what `float()` reads. */
  lemma {:induction false} ParseDecimalIgnoresPadding(a: string, s: string, b: string)
    requires AllIn(a, IsAsciiSpace) && AllIn(b, IsAsciiSpace)
    ensures ParseDecimal(a + s + b) == ParseDecimal(s)
  {
    TrimPadded(a, s, b, IsAsciiSpace);
  }

  /** The value of `w.f` for digit runs `w` and `f`, either of which may be empty. */
  function PointValue(w: string, f: string): real
    requires AllDigits(w) && AllDigits(f)
  {
    ParseNat(w) as real + ParseNat(f) as real / Pow10(|f|) as real
  }

  /** `w.f` reads as the whole part plus the fraction scaled by its number of digits. */
  lemma {:induction false} ReadDecimalPoint(w: string, f: string)
    requires AllDigits(w) && AllDigits(f) && |w| + |f| > 0
    ensures ReadDecimal(w + "." + f) == Some(PointValue(w, f))
  {
    var s := w + "." + f;
    assert s[|w|] == '.';
    assert forall k | 0 <= k < |w| :: s[k] == w[k];
    var dot := IndexOf(s, '.');
    assert dot == |w|;
    assert s[..dot] == w && s[dot + 1..] == f;
    if w != [] { DigitsGroupedTail(w[1..]); }
    if f != [] { DigitsGroupedTail(f[1..]); }
  }

  /** `float("w.f")`, with no white space, reads as `w + f / 10^|f|`. */
  lemma {:induction false} ParseDecimalPoint(w: string, f: string)
    requires AllDigits(w) && AllDigits(f) && |w| + |f| > 0
    ensures ParseDecimal(w + "." + f) == Some(PointValue(w, f))
  {
    PointUntrimmed(w, f);
    ReadDecimalPoint(w, f);
  }

  /** A minus sign in front of an unsigned decimal negates what `float()` reads. */
  lemma {:induction false} ParseDecimalNegates(u: string)
    requires u != [] && u[0] != '-' && u[0] != '+' && !IsAsciiSpace(u[0]) && !IsAsciiSpace(u[|u| - 1])
    ensures ParseDecimal("-" + u).Some? <==> ParseDecimal(u).Some?
    ensures ParseDecimal(u).Some? ==> ParseDecimal("-" + u).value == -ParseDecimal(u).value
  {
    SignedUntrimmed(u);
    var m := "-" + u;
    assert m[1..] == u;
    NegatedDecimal(m);
  }

  lemma {:induction false} NegatedDecimal(m: string)
    requires |m| > 1 && m[0] == '-' && m[1] != '-' && m[1] != '+' && Trim(m, IsAsciiSpace) == m
    ensures ParseDecimal(m).Some? <==> ReadDecimal(m[1..]).Some?
    ensures ReadDecimal(m[1..]).Some? ==> ParseDecimal(m).value == -ReadDecimal(m[1..]).value
  {
    assert m[1..][0] == m[1];
  }

  /** A decimal with a point is its own trim. */
  lemma {:induction false} PointUntrimmed(w: string, f: string)
    requires AllDigits(w) && AllDigits(f)
    ensures Trim(w + "." + f, IsAsciiSpace) == w + "." + f
  {
    var u := w + "." + f;
    assert u[|w|] == '.';
    assert u[0] == (if w == [] then '.' else w[0]);
    assert u[|u| - 1] == (if f == [] then '.' else f[|f| - 1]);
    TrimNothing(u, IsAsciiSpace);
  }

  /** Text with no white space at either end is its own trim, with or without a minus sign. */
  lemma {:induction false} SignedUntrimmed(u: string)
    requires u != [] && !IsAsciiSpace(u[0]) && !IsAsciiSpace(u[|u| - 1])
    ensures Trim(u, IsAsciiSpace) == u && Trim("-" + u, IsAsciiSpace) == "-" + u
  {
    TrimNothing(u, IsAsciiSpace);
    var m := "-" + u;
    assert m[|m| - 1] == u[|u| - 1];
    TrimNothing(m, IsAsciiSpace);
  }

  /** A second point, a point alone, or a sign alone makes `float()` raise. */
  lemma {:induction false} ParseDecimalMalformed()
    ensures ParseDecimal("1.2.3") == None && ParseDecimal(".") == None && ParseDecimal("-") == None
  {
    var s := "1.2.3";
    TrimNothing(s, IsAsciiSpace);
    assert IndexOf(s, '.') == 1 by { assert s[0] == '1' && s[1] == '.'; }
    assert s[2..] == "2.3" && !Grouped("2.3") by {
      assert "2.3"[1..] == ".3";
    }
    TrimNothing(".", IsAsciiSpace);
    assert IndexOf(".", '.') == 0;
    TrimNothing("-", IsAsciiSpace);
    assert "-"[1..] == [];
  }

  function Join(tokens: seq<string>, sep: string): string
  {
    if |tokens| == 0 then []
    else if |tokens| == 1 then tokens[0]
    else tokens[0] + sep + Join(tokens[1..], sep)
  }

  /** Python's `s.split(c)` with an explicit one-character separator. */
  function Split(s: string, c: char): (r: seq<string>)
    ensures |r| >= 1
    decreases |s|
  {
    if s == [] then [[]]
    else if s[0] == c then [[]] + Split(s[1..], c)
    else
      var rest := Split(s[1..], c);
      [[s[0]] + rest[0]] + rest[1..]
  }

  /** Splitting on a character and joining back with it restores the text. */
  lemma {:induction false} JoinSplit(s: string, c: char)
    ensures Join(Split(s, c), [c]) == s
    decreases |s|
  {
    if s != [] {
      JoinSplit(s[1..], c);
      var rest := Split(s[1..], c);
      if s[0] != c && |rest| >= 2 {
        assert Join(rest, [c]) == rest[0] + [c] + Join(rest[1..], [c]);
      }
    }
  }

  /** No piece of a split contains the separator. */
  lemma {:induction false} SplitPiecesFree(s: string, c: char)
    ensures forall k, j :: 0 <= k < |Split(s, c)| && 0 <= j < |Split(s, c)[k]| ==> Split(s, c)[k][j] != c
    decreases |s|
  {
    if s != [] {
      SplitPiecesFree(s[1..], c);
    }
  }

  /** `pat` occurs in `s` starting at index `i`. */
  predicate OccursAt(s: string, pat: string, i: int)
  {
    0 <= i <= |s| - |pat| && s[i..i + |pat|] == pat
  }

  /** Python's `pat in s`. */
  predicate Contains(s: string, pat: string)
  {
    exists i | 0 <= i <= |s| - |pat| :: OccursAt(s, pat, i)
  }

  /** `rep` before every character and at the end: `s.replace('', rep)`. */
  function InsertEverywhere(s: string, rep: string): string
  {
    if s == [] then rep else rep + [s[0]] + InsertEverywhere(s[1..], rep)
  }

  /** Python's `s.replace(pat, rep)`: every non-overlapping occurrence, left to right. */
  function ReplaceAll(s: string, pat: string, rep: string): string
    decreases |s|
  {
    if pat == [] then InsertEverywhere(s, rep)
    else if |s| < |pat| then s
    else if s[..|pat|] == pat then rep + ReplaceAll(s[|pat|..], pat, rep)
    else [s[0]] + ReplaceAll(s[1..], pat, rep)
  }

  lemma {:induction false} InsertNothing(s: string)
    ensures InsertEverywhere(s, []) == s
  {
    if s != [] {
      InsertNothing(s[1..]);
    }
  }

  /** Replacing a pattern that does not occur leaves the text unchanged. */
  lemma {:induction false} ReplaceAbsent(s: string, pat: string, rep: string)
    requires pat != [] && !Contains(s, pat)
    ensures ReplaceAll(s, pat, rep) == s
    decreases |s|
  {
    if |s| >= |pat| {
      AbsentAt(s, pat, 0);
      assert s[0..|pat|] == s[..|pat|];
      assert !Contains(s[1..], pat) by {
        forall i | 0 <= i <= |s[1..]| - |pat|
          ensures !OccursAt(s[1..], pat, i)
        {
          AbsentAt(s, pat, i + 1);
          assert s[1..][i..i + |pat|] == s[i + 1..i + 1 + |pat|];
        }
      }
      ReplaceAbsent(s[1..], pat, rep);
    }
  }

  lemma {:induction false} AbsentAt(s: string, pat: string, i: int)
    requires !Contains(s, pat) && 0 <= i <= |s| - |pat|
    ensures s[i..i + |pat|] != pat
  {
    assert !OccursAt(s, pat, i);
  }

  /** Replacing a character by something without it leaves no occurrence of it. */
  lemma {:induction false} ReplaceCharRemoves(s: string, c: char, rep: string)
    requires forall j :: 0 <= j < |rep| ==> rep[j] != c
    ensures forall j :: 0 <= j < |ReplaceAll(s, [c], rep)| ==> ReplaceAll(s, [c], rep)[j] != c
    decreases |s|
  {
    if |s| >= 1 {
      ReplaceCharRemoves(s[1..], c, rep);
    }
  }

  function UpperChar(c: char): char
  {
    if 'a' <= c <= 'z' then (c as int - 32) as char else c
  }

  /** Python's `s.upper()` on ASCII letters. */
  function Upper(s: string): (r: string)
    ensures |r| == |s|
    ensures forall i :: 0 <= i < |s| ==> r[i] == UpperChar(s[i])
  {
    if s == [] then [] else [UpperChar(s[0])] + Upper(s[1..])
  }

  /** Python's white space: what `str.isspace()` accepts and `str.strip()` removes. */
  predicate IsSpace(c: char)
  {
    '\t' <= c <= '\r' || '\U{1C}' <= c <= ' ' || c == '\U{85}' || c == '\U{A0}' || c == '\U{1680}' ||
    '\U{2000}' <= c <= '\U{200A}' || c == '\U{2028}' || c == '\U{2029}' || c == '\U{202F}' ||
    c == '\U{205F}' || c == '\U{3000}'
  }

  /** The length of the run of `sp` characters that starts `s`. */
  function LeadingRun(s: string, sp: char -> bool): (n: nat)
    ensures n <= |s|
    ensures forall k | 0 <= k < n :: sp(s[k])
    ensures n < |s| ==> !sp(s[n])
  {
    if s != [] && sp(s[0]) then 1 + LeadingRun(s[1..], sp) else 0
  }

  /** The length of the run of `sp` characters that ends `s`. */
  function TrailingRun(s: string, sp: char -> bool): (n: nat)
    ensures n <= |s|
    ensures forall k | |s| - n <= k < |s| :: sp(s[k])
    ensures n < |s| ==> !sp(s[|s| - n - 1])
  {
    if s != [] && sp(s[|s| - 1]) then 1 + TrailingRun(s[..|s| - 1], sp) else 0
  }

  /**
   * `s` without the runs of `sp` characters at either end: it sits in `s`
   * after the leading run, everything after it is an `sp` character, and
   * neither of its ends is one.
   */
  function Trim(s: string, sp: char -> bool): (r: string)
    ensures LeadingRun(s, sp) + |r| <= |s| && r == s[LeadingRun(s, sp)..LeadingRun(s, sp) + |r|]
    ensures forall k | LeadingRun(s, sp) + |r| <= k < |s| :: sp(s[k])
    ensures r == [] || (!sp(r[0]) && !sp(r[|r| - 1]))
  {
    var rest := s[LeadingRun(s, sp)..];
    rest[..|rest| - TrailingRun(rest, sp)]
  }

  /** Python's `s.strip()`. */
  function Strip(s: string): string
  {
    Trim(s, IsSpace)
  }

  /** Every character of `s` is an `sp` character. */
  predicate AllIn(s: string, sp: char -> bool)
  {
    forall k | 0 <= k < |s| :: sp(s[k])
  }

  lemma {:induction false} AllInConcat(a: string, b: string, sp: char -> bool)
    requires AllIn(a, sp) && AllIn(b, sp)
    ensures AllIn(a + b, sp)
  {
    forall k | 0 <= k < |a + b| ensures sp((a + b)[k]) {
      if k >= |a| { assert (a + b)[k] == b[k - |a|]; }
    }
  }

  /** The ends and the middle determine the trimmed text. */
  lemma {:induction false} TrimUnique(x: string, r: string, y: string, sp: char -> bool)
    requires AllIn(x, sp) && AllIn(y, sp)
    requires r == [] || (!sp(r[0]) && !sp(r[|r| - 1]))
    ensures Trim(x + r + y, sp) == r
  {
    var s := x + r + y;
    var n := LeadingRun(s, sp);
    var t := Trim(s, sp);
    if r == [] {
      AllInConcat(x, y, sp);
      assert s == x + y;
      assert n == |s|;
    } else {
      assert forall k | 0 <= k < |x| :: s[k] == x[k];
      assert s[|x|] == r[0];
      assert n == |x|;
      assert s[n + |r| - 1] == r[|r| - 1];
      assert forall k | n + |r| <= k < |s| :: s[k] == y[k - n - |r|];
      assert |t| >= |r|;
      assert t[|t| - 1] == s[n + |t| - 1];
      assert |t| <= |r|;
      assert t == s[n..n + |r|] == r;
    }
  }

  /** Text without `sp` at either end is its own trim. */
  lemma {:induction false} TrimNothing(s: string, sp: char -> bool)
    requires s == [] || (!sp(s[0]) && !sp(s[|s| - 1]))
    ensures Trim(s, sp) == s
  {
    TrimUnique([], s, [], sp);
    assert [] + s + [] == s;
  }

  /** Text made of `sp` characters trims to nothing. */
  lemma {:induction false} TrimAllSpace(s: string, sp: char -> bool)
    requires AllIn(s, sp)
    ensures Trim(s, sp) == []
  {
    TrimUnique(s, [], [], sp);
    assert s + [] + [] == s;
  }

  /** Padding with `sp` characters does not change the trimmed text. */
  lemma {:induction false} TrimPadded(a: string, s: string, b: string, sp: char -> bool)
    requires AllIn(a, sp) && AllIn(b, sp)
    ensures Trim(a + s + b, sp) == Trim(s, sp)
  {
    var n, r := LeadingRun(s, sp), Trim(s, sp);
    var x, y := s[..n], s[n + |r|..];
    assert AllIn(x, sp);
    assert AllIn(y, sp) by {
      forall k | 0 <= k < |y| ensures sp(y[k]) { assert y[k] == s[n + |r| + k]; }
    }
    assert s == x + r + y;
    AllInConcat(a, x, sp);
    AllInConcat(y, b, sp);
    Regroup(a, x, r, y, b);
    TrimUnique(a + x, r, y + b, sp);
  }

  lemma {:induction false} Regroup(a: string, x: string, r: string, y: string, b: string)
    ensures a + (x + r + y) + b == (a + x) + r + (y + b)
  {
  }

  /** Python's `s[:-k]` for k > 0: everything but the last k characters, or "" for shorter text. */
  function DropLast(s: string, k: nat): (r: string)
    ensures |s| >= k ==> |r| == |s| - k && r == s[..|s| - k]
    ensures |s| < k ==> r == []
  {
    if |s| >= k then s[..|s| - k] else []
  }

  function LowerChar(c: char): char
  {
    if 'A' <= c <= 'Z' then (c as int + 32) as char else c
  }

  /** Python's `s.lower()` (and SQL `lower`) on ASCII letters. */
  function Lower(s: string): (r: string)
    ensures |r| == |s|
    ensures forall i :: 0 <= i < |s| ==> r[i] == LowerChar(s[i])
  {
    if s == [] then [] else [LowerChar(s[0])] + Lower(s[1..])
  }

  /** `s.replace("'", "''")`: the quote doubling used before splicing text into SQL. */
  function EscapeQuotes(s: string): string
  {
    ReplaceAll(s, "'", "''")
  }

  /** Reads a quoted SQL literal's body back: every doubled quote is one quote. */
  function UnescapeQuotes(s: string): string
    decreases |s|
  {
    if |s| >= 2 && s[0] == '\'' && s[1] == '\'' then "'" + UnescapeQuotes(s[2..])
    else if s == [] then []
    else [s[0]] + UnescapeQuotes(s[1..])
  }

  /** Escaping loses nothing: the SQL reader gets the original text back. */
  lemma {:induction false} EscapeRoundTrip(s: string)
    ensures UnescapeQuotes(EscapeQuotes(s)) == s
    decreases |s|
  {
    if s != [] {
      EscapeRoundTrip(s[1..]);
      if s[0] == '\'' {
        assert s[..1] == "'";
        assert EscapeQuotes(s) == "''" + EscapeQuotes(s[1..]);
      } else {
        assert s[..1] != "'";
        assert EscapeQuotes(s) == [s[0]] + EscapeQuotes(s[1..]);
      }
    }
  }

  /** Joining one more token appends the separator and the token. */
  lemma {:induction false} JoinSnoc(tokens: seq<string>, x: string, sep: string)
    requires tokens != []
    ensures Join(tokens + [x], sep) == Join(tokens, sep) + sep + x
  {
    if |tokens| == 1 {
      assert (tokens + [x])[1..] == [x];
    } else {
      assert (tokens + [x])[1..] == tokens[1..] + [x];
      JoinSnoc(tokens[1..], x, sep);
    }
  }
}
