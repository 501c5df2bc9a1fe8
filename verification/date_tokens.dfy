/** The date-token normaliser of the tool-call path
    (`normalize_date_token`, chatshhs_refactored.py): a token the language
    model produced is trimmed and must take one of three shapes,
      - `YYYYMMDD`, the basic complete calendar-date form of ISO 8601
        (section 4.1.2.2 of ISO 8601:2004), kept as is when it is a real date;
      - `YYYY-MM-DD`, the extended form, turned into its basic form;
      - `M-D` / `MM-DD`, placed in the anchor date's year,
    otherwise, or when the date does not exist, the result is `None`.
    Validity is decided by `strptime(…, "%Y%m%d")` (module Ymd). */
module DateTokens {
  import opened Wrappers
  import opened Text
  import opened Calendar
  import opened Ymd

  /** `re.match(r"^\d{8}$", t)` on a stripped token. */
  predicate EightDigitShape(t: string) {
    |t| == 8 && AllDigits(t)
  }

  /** `re.match(r"^(\d{4})-(\d{2})-(\d{2})$", t)` on a stripped token. */
  predicate IsoExtendedShape(t: string) {
    |t| == 10 && AllDigits(t[..4]) && t[4] == '-' && AllDigits(t[5..7]) && t[7] == '-' && AllDigits(t[8..])
  }

  /** The three digit groups of a `YYYY-MM-DD` token, concatenated. */
  function IsoGroups(t: string): (c: string)
    requires IsoExtendedShape(t)
    ensures |c| == 8 && AllDigits(c)
    ensures c[..4] == t[..4] && c[4..6] == t[5..7] && c[6..] == t[8..]
  {
    t[..4] + t[5..7] + t[8..]
  }

  /** `re.match(r"^(\d{1,2})-(\d{1,2})$", t)` with the hyphen at index `h`. */
  predicate MonthDayShapeAt(t: string, h: nat) {
    && (h == 1 || h == 2)
    && h < |t| && t[h] == '-'
    && AllDigits(t[..h])
    && 2 <= |t| - h <= 3
    && AllDigits(t[h + 1..])
  }

  /** Where the hyphen of an `M-D` token is, if the token has that shape. */
  function MonthDayHyphen(t: string): (r: Option<nat>)
    ensures r.Some? ==> MonthDayShapeAt(t, r.value)
    ensures r.None? ==> !MonthDayShapeAt(t, 1) && !MonthDayShapeAt(t, 2)
  {
    if MonthDayShapeAt(t, 1) then Some(1)
    else if MonthDayShapeAt(t, 2) then Some(2)
    else None
  }

  /** The string `f"{year}{month}{day}"` the `M-D` branch hands to strptime,
      given the year's text; month and day are `zfill(2)`-padded. */
  function MonthDayCandidate(t: string, h: nat, year: string): string
    requires MonthDayShapeAt(t, h)
  {
    year + ZFill(t[..h], 2) + ZFill(t[h + 1..], 2)
  }

  /** The normaliser as the source writes it: the `M-D` branch renders the
      anchor year with `f"{year}"`, which has fewer than four digits for
      years before 1000. */
  function NormalizeAsWritten(tok: string, anchor: Date): (r: Option<string>)
    requires Valid(anchor)
    ensures r.Some? ==> Parse(r.value).Some?
  {
    var t := Strip(tok);
    if EightDigitShape(t) then
      if Parse(t).Some? then Some(t) else None
    else if IsoExtendedShape(t) then
      var c := IsoGroups(t);
      if Parse(c).Some? then Some(c) else None
    else match MonthDayHyphen(t)
      case Some(h) =>
        var c := MonthDayCandidate(t, h, NatToString(anchor.year));
        if Parse(c).Some? then Some(c) else None
      case None => None
  }

  /** The normaliser with the anchor year zero-padded to four digits, so
      that every branch hands strptime an 8-digit string. The rest of the
      model uses this definition. */
  function NormalizeDateToken(tok: string, anchor: Date): (r: Option<string>)
    requires Valid(anchor)
    ensures r.Some? ==> IsCalendarDate(r.value)
    ensures r.Some? ==> var t := Strip(tok);
      EightDigitShape(t) || IsoExtendedShape(t) || MonthDayHyphen(t).Some?
  {
    var t := Strip(tok);
    if EightDigitShape(t) then
      ParseEightDigits(t);
      if Parse(t).Some? then Some(t) else None
    else if IsoExtendedShape(t) then
      var c := IsoGroups(t);
      ParseEightDigits(c);
      if Parse(c).Some? then Some(c) else None
    else match MonthDayHyphen(t)
      case Some(h) =>
        var c := MonthDayCandidate(t, h, Fixed(anchor.year, 4));
        MonthDayCandidateDigits(t, h, anchor.year);
        ParseEightDigits(c);
        if Parse(c).Some? then Some(c) else None
      case None => None
  }

  /** The padded `M-D` candidate is eight digits and decodes to the anchor
      year with the token's month and day. */
  lemma MonthDayCandidateDigits(t: string, h: nat, year: int)
    requires MonthDayShapeAt(t, h) && MinYear <= year <= MaxYear
    ensures var c := MonthDayCandidate(t, h, Fixed(year, 4));
      |c| == 8 && AllDigits(c) && Decode(c) == Date(year, Value(t[..h]), Value(t[h + 1..]))
  {
    var y := Fixed(year, 4);
    var m := ZFill(t[..h], 2);
    var d := ZFill(t[h + 1..], 2);
    ZFillValue(t[..h], 2);
    ZFillValue(t[h + 1..], 2);
    var c := y + m + d;
    assert c[..4] == y && c[4..6] == m && c[6..] == d;
  }

  /** An 8-digit token is kept unchanged exactly when it is a real date
      (month 13, day 32, 29 February of a common year and year 0000 all
      give `None`). */
  lemma NormalizeEightDigits(tok: string, anchor: Date)
    requires Valid(anchor) && EightDigitShape(Strip(tok))
    ensures NormalizeDateToken(tok, anchor)
      == if IsCalendarDate(Strip(tok)) then Some(Strip(tok)) else None
  {
    ParseEightDigits(Strip(tok));
  }

  /** A `YYYY-MM-DD` token becomes its three digit groups run together when
      that is a real date, and `None` otherwise. */
  lemma NormalizeIsoExtended(tok: string, anchor: Date)
    requires Valid(anchor) && IsoExtendedShape(Strip(tok))
    ensures var c := IsoGroups(Strip(tok));
      NormalizeDateToken(tok, anchor) == if IsCalendarDate(c) then Some(c) else None
  {
    ParseEightDigits(IsoGroups(Strip(tok)));
  }

  /** An `M-D` token becomes the anchor year followed by the zero-padded
      month and day when that date exists in the anchor year. */
  lemma NormalizeMonthDay(tok: string, anchor: Date, h: nat)
    requires Valid(anchor) && MonthDayShapeAt(Strip(tok), h)
    ensures var t := Strip(tok);
      var d := Date(anchor.year, Value(t[..h]), Value(t[h + 1..]));
      NormalizeDateToken(tok, anchor) == if Valid(d) then Some(Format(d)) else None
  {
    var t := Strip(tok);
    assert MonthDayHyphen(t) == Some(h);
    var c := MonthDayCandidate(t, h, Fixed(anchor.year, 4));
    MonthDayCandidateDigits(t, h, anchor.year);
    ParseEightDigits(c);
    if Valid(Decode(c)) {
      FormatDecode(c);
    }
  }

  /** Normalising is idempotent, whatever the anchor of the second call:
      a normalised token is an 8-digit real date, which is kept as is. */
  lemma NormalizeIdempotent(tok: string, anchor: Date, later: Date)
    requires Valid(anchor) && Valid(later) && NormalizeDateToken(tok, anchor).Some?
    ensures var n := NormalizeDateToken(tok, anchor).value;
      NormalizeDateToken(n, later) == Some(n)
  {
    var n := NormalizeDateToken(tok, anchor).value;
    assert !IsSpace(n[0]) && !IsSpace(n[|n| - 1]);
    StripOfStripped(n);
    NormalizeEightDigits(n, later);
  }

  /** Four-digit years print with four digits, so the padding changes nothing. */
  lemma FourDigitYear(y: int)
    requires 1000 <= y <= 9999
    ensures NatToString(y) == Fixed(y, 4)
  {
    var a, b, c := y / 10, y / 10 / 10, y / 10 / 10 / 10;
    assert 100 <= a <= 999 && 10 <= b <= 99 && 1 <= c <= 9;
    assert |NatToString(c)| == 1;
    assert |NatToString(b)| == |NatToString(c)| + 1;
    assert |NatToString(a)| == |NatToString(b)| + 1;
    assert |NatToString(y)| == |NatToString(a)| + 1;
    FixedOfValue(NatToString(y));
  }

  /** From year 1000 on, the source's normaliser and the padded one agree. */
  lemma AsWrittenAgreesFromYear1000(tok: string, anchor: Date)
    requires Valid(anchor) && anchor.year >= 1000
    ensures NormalizeAsWritten(tok, anchor) == NormalizeDateToken(tok, anchor)
  {
    FourDigitYear(anchor.year);
  }

  /** strptime reads the 7-character "9990101" as 1 October 9990: the
      year takes four digits and `1[0-2]` takes "10" before `[1-9]` is tried. */
  lemma ParseSevenCharacters()
    ensures Parse("9990101") == Some(Date(9990, 10, 1))
  {
    var u := "9990101";
    assert u[..4] == "9990" && u[4..] == "101";
    assert Value("9990") == 9990 by {
      assert "9990"[..3] == "999" && "999"[..2] == "99" && "99"[..1] == "9" && "9"[..0] == "";
    }
    var ms := MonthAlternatives("101");
    assert ms[0] == Field(2, 10);
    assert "101"[2..] == "1";
    assert DayAlternatives("1") == [Field(1, 1)];
    assert FirstMatch("101", ms, 0) == Some((Field(2, 10), Field(1, 1)));
  }

  /** The source's normaliser on a token of `M-D` shape: it answers the
      string strptime accepted, which is the anchor year's unpadded
      decimal text followed by two digits of month and two of day; so
      before year 1000 no answer of this branch is an 8-digit calendar
      date. */
  lemma AsWrittenMonthDay(tok: string, anchor: Date, h: nat)
    requires Valid(anchor) && MonthDayShapeAt(Strip(tok), h)
    ensures var c := MonthDayCandidate(Strip(tok), h, NatToString(anchor.year));
      NormalizeAsWritten(tok, anchor) == if Parse(c).Some? then Some(c) else None
    ensures var r, y := NormalizeAsWritten(tok, anchor), NatToString(anchor.year);
      r.Some? ==> |r.value| == |y| + 4 && r.value[..|y|] == y && AllDigits(r.value)
    ensures var r := NormalizeAsWritten(tok, anchor);
      anchor.year < 1000 && r.Some? ==> |r.value| < 8 && !IsCalendarDate(r.value)
  {
    var t := Strip(tok);
    assert MonthDayHyphen(t) == Some(h);
    CandidateShape(t, h, NatToString(anchor.year));
    if anchor.year < 1000 {
      ShortYearDigits(anchor.year);
    }
  }

  /** The `M-D` candidate is the year's text followed by four digits. */
  lemma CandidateShape(t: string, h: nat, y: string)
    requires MonthDayShapeAt(t, h) && AllDigits(y)
    ensures var c := MonthDayCandidate(t, h, y);
      |c| == |y| + 4 && c[..|y|] == y && AllDigits(c)
  {
    var m, d := ZFill(t[..h], 2), ZFill(t[h + 1..], 2);
    ZFillValue(t[..h], 2);
    ZFillValue(t[h + 1..], 2);
    var c := y + m + d;
    assert c[..|y|] == y;
    forall i | 0 <= i < |c|
      ensures IsDigit(c[i])
    {
      if i < |y| {
        assert c[i] == y[i];
      } else if i < |y| + 2 {
        assert c[i] == m[i - |y|];
      } else {
        assert c[i] == d[i - |y| - 2];
      }
    }
  }

  /** Years before 1000 print with at most three digits. */
  lemma ShortYearDigits(y: nat)
    requires y < 1000
    ensures |NatToString(y)| <= 3
  {
    if y >= 10 {
      assert |NatToString(y / 10)| <= 2 by {
        if y / 10 >= 10 {
          assert |NatToString(y / 10 / 10)| == 1;
        }
      }
    }
  }

  lemma OneDashOne()
    ensures Strip("1-1") == "1-1" && MonthDayShapeAt("1-1", 1)
    ensures Value("1-1"[..1]) == 1 && Value("1-1"[2..]) == 1
    ensures MonthDayCandidate("1-1", 1, NatToString(999)) == "9990101"
  {
    OneDashOneShape();
    assert MonthDayCandidate("1-1", 1, NatToString(999)) == "999" + "01" + "01" by {
      StringOf999();
      PaddedOne();
      assert "1-1"[..1] == "1" && "1-1"[2..] == "1";
    }
    assert "999" + "01" + "01" == "9990101";
  }

  lemma OneDashOneShape()
    ensures Strip("1-1") == "1-1" && MonthDayShapeAt("1-1", 1)
    ensures Value("1-1"[..1]) == 1 && Value("1-1"[2..]) == 1
  {
    var t := "1-1";
    assert !IsSpace(t[0]) && !IsSpace(t[2]);
    StripOfStripped(t);
    assert t[..1] == "1" && t[2..] == "1";
    assert Value("1") == 1 by {
      assert "1"[..0] == "";
    }
  }

  lemma StringOf999()
    ensures NatToString(999) == "999"
  {
    assert DigitChar(9) == '9';
    assert NatToString(9) == ['9'] == "9";
    assert NatToString(99) == NatToString(9) + ['9'] == "99";
    assert NatToString(999) == NatToString(99) + ['9'];
  }

  lemma PaddedOne()
    ensures Fixed(1, 2) == "01" && ZFill("1", 2) == "01"
  {
    assert DigitChar(0) == '0' && DigitChar(1) == '1';
    assert Fixed(0, 1) == Fixed(0, 0) + ['0'] == "0";
    assert Fixed(1, 2) == Fixed(0, 1) + ['1'];
    assert Zeros(1) == "0" + Zeros(0) == "0";
  }

  lemma PaddedYear999()
    ensures Fixed(999, 4) == "0999"
  {
    assert DigitChar(0) == '0' && DigitChar(9) == '9';
    assert Fixed(0, 1) == Fixed(0, 0) + ['0'] == "0";
    assert Fixed(9, 2) == Fixed(0, 1) + ['9'] == "09";
    assert Fixed(99, 3) == Fixed(9, 2) + ['9'] == "099";
    assert Fixed(999, 4) == Fixed(99, 3) + ['9'];
  }

  /** Before year 1000 the source's `M-D` branch is wrong: with the anchor
      in year 999, "1-1" yields the 7-character "9990101", which strptime
      reads as 1 October 9990. */
  lemma AsWrittenShortYear()
    ensures NormalizeAsWritten("1-1", Date(999, 6, 1)) == Some("9990101")
    ensures !IsCalendarDate("9990101")
  {
    OneDashOne();
    AsWrittenMonthDay("1-1", Date(999, 6, 1), 1);
    ParseSevenCharacters();
  }

  /** The source's output for year 999 is not idempotent: normalising
      "9990101" again gives `None`. */
  lemma AsWrittenShortYearNotIdempotent()
    ensures NormalizeAsWritten("9990101", Date(999, 6, 1)) == None
  {
    var u := "9990101";
    assert Strip(u) == u;
    assert !EightDigitShape(u) && !IsoExtendedShape(u);
    assert !MonthDayShapeAt(u, 1) && !MonthDayShapeAt(u, 2);
  }

  /** The padded normaliser places "1-1" on 1 January 999. */
  lemma PaddedShortYear()
    ensures NormalizeDateToken("1-1", Date(999, 6, 1)) == Some("09990101")
  {
    OneDashOne();
    NormalizeMonthDay("1-1", Date(999, 6, 1), 1);
    FirstOfJanuary999();
  }

  lemma FirstOfJanuary999()
    ensures Valid(Date(999, 1, 1)) && Format(Date(999, 1, 1)) == "09990101"
  {
    assert Valid(Date(999, 1, 1));
    assert Format(Date(999, 1, 1)) == "0999" + "01" + "01" by {
      PaddedYear999();
      PaddedOne();
    }
    assert "0999" + "01" + "01" == "09990101";
  }
}
