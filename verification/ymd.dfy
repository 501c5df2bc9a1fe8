/** The `%Y%m%d` date format in both directions.

    Parsing follows CPython's `datetime.strptime(s, "%Y%m%d")`, which
    compiles the format to the regular expression
      (\d\d\d\d)(1[0-2]|0[1-9]|[1-9])(3[01]|[12]\d|0[1-9]|[1-9]| [1-9])
    matches it at the start of `s`, raises "unconverted data remains" when
    that first match stops short of the end, and finally builds
    `date(year, month, day)`, which raises for year 0 or a day past the end
    of the month. Every `ValueError` becomes `None`. */
module Ymd {
  import opened Wrappers
  import opened Text
  import opened Calendar

  /** One regex alternative that matched: how many characters it
      consumed and the number `int()` reads from them. */
  datatype Field = Field(width: nat, value: nat)

  /** The alternatives `1[0-2]`, `0[1-9]`, `[1-9]` that match at the start
      of `t`, in the order the regex engine tries them. */
  function MonthAlternatives(t: string): (fs: seq<Field>)
    ensures forall i :: 0 <= i < |fs| ==> 1 <= fs[i].width <= 2 && fs[i].width <= |t|
  {
    (if |t| >= 2 && t[0] == '1' && '0' <= t[1] <= '2' then [Field(2, 10 + DigitValue(t[1]))] else [])
    + (if |t| >= 2 && t[0] == '0' && '1' <= t[1] <= '9' then [Field(2, DigitValue(t[1]))] else [])
    + (if |t| >= 1 && '1' <= t[0] <= '9' then [Field(1, DigitValue(t[0]))] else [])
  }

  /** The alternatives `3[01]`, `[12]\d`, `0[1-9]`, `[1-9]`, `" [1-9]"` that
      match at the start of `t`, in trial order (`int(" 7")` is 7). */
  function DayAlternatives(t: string): (fs: seq<Field>)
    ensures forall i :: 0 <= i < |fs| ==> 1 <= fs[i].width <= 2 && fs[i].width <= |t|
  {
    (if |t| >= 2 && t[0] == '3' && '0' <= t[1] <= '1' then [Field(2, 30 + DigitValue(t[1]))] else [])
    + (if |t| >= 2 && '1' <= t[0] <= '2' && IsDigit(t[1]) then [Field(2, 10 * DigitValue(t[0]) + DigitValue(t[1]))] else [])
    + (if |t| >= 2 && t[0] == '0' && '1' <= t[1] <= '9' then [Field(2, DigitValue(t[1]))] else [])
    + (if |t| >= 1 && '1' <= t[0] <= '9' then [Field(1, DigitValue(t[0]))] else [])
    + (if |t| >= 2 && t[0] == ' ' && '1' <= t[1] <= '9' then [Field(2, DigitValue(t[1]))] else [])
  }

  /** The month and day fields of the first match found when the month
      alternatives `ms[i..]` are tried in order, each followed by the day
      alternatives; the engine backtracks only when no day alternative
      matches. */
  function FirstMatch(t: string, ms: seq<Field>, i: nat): (r: Option<(Field, Field)>)
    requires i <= |ms|
    requires forall j :: 0 <= j < |ms| ==> 1 <= ms[j].width <= 2 && ms[j].width <= |t|
    ensures r.Some? ==> 1 <= r.value.0.width <= 2 && 1 <= r.value.1.width <= 2
    ensures r.Some? ==> r.value.0.width + r.value.1.width <= |t|
    ensures r.Some? ==> r.value.0 in ms && r.value.1 in DayAlternatives(t[r.value.0.width..])
    ensures i < |ms| && |DayAlternatives(t[ms[i].width..])| > 0 ==>
      r == Some((ms[i], DayAlternatives(t[ms[i].width..])[0]))
    decreases |ms| - i
  {
    if i == |ms| then None
    else
      var ds := DayAlternatives(t[ms[i].width..]);
      if |ds| > 0 then Some((ms[i], ds[0])) else FirstMatch(t, ms, i + 1)
  }

  /** `datetime.strptime(s, "%Y%m%d").date()`, or `None` where it raises. */
  function Parse(s: string): (r: Option<Date>)
    ensures r.Some? ==> Valid(r.value)
  {
    if |s| < 4 || !AllDigits(s[..4]) then None
    else
      var t := s[4..];
      match FirstMatch(t, MonthAlternatives(t), 0)
      case None => None
      case Some((m, d)) =>
        if m.width + d.width != |t| then None
        else
          var date := Date(Value(s[..4]), m.value, d.value);
          if Valid(date) then Some(date) else None
  }

  /** `date.strftime("%Y%m%d")` for a date of the representable range. */
  function Format(d: Date): (s: string)
    requires Valid(d)
    ensures |s| == 8 && AllDigits(s)
  {
    Fixed(d.year, 4) + Fixed(d.month, 2) + Fixed(d.day, 2)
  }

  /** An 8-digit string read field by field as year, month and day,
      without any range check. */
  function Decode(s: string): Date
    requires |s| == 8 && AllDigits(s)
  {
    Date(Value(s[..4]), Value(s[4..6]), Value(s[6..]))
  }

  /** The 8-digit strings that denote a real calendar date. */
  predicate IsCalendarDate(s: string) {
    |s| == 8 && AllDigits(s) && Valid(Decode(s))
  }

  lemma ValueTwo(f: string)
    requires |f| == 2 && AllDigits(f)
    ensures Value(f) == DigitValue(f[0]) * 10 + DigitValue(f[1])
  {
    var h := f[..1];
    assert h[..0] == [] && h[0] == f[0];
    assert Value(h) == DigitValue(f[0]);
    assert f[..|f| - 1] == h;
  }

  lemma DivModTen(a: nat, b: nat)
    requires b < 10
    ensures (a * 10 + b) / 10 == a && (a * 10 + b) % 10 == b
  {
  }

  lemma {:induction false} FixedOfValue(f: string)
    requires AllDigits(f)
    ensures Fixed(Value(f), |f|) == f
  {
    if |f| > 0 {
      var p := f[..|f| - 1];
      var c := f[|f| - 1];
      assert AllDigits(p);
      var v, dc := Value(p), DigitValue(c);
      assert Value(f) == v * 10 + dc;
      assert Fixed(v * 10 + dc, |f|) == Fixed(v, |p|) + [c] by {
        DivModTen(v, dc);
        assert DigitChar(dc) == c;
      }
      assert Fixed(v, |p|) == p by { FixedOfValue(p); }
      assert f == p + [c];
    }
  }

  /** Decoding the formatted form gives the date back. */
  lemma DecodeFormat(d: Date)
    requires Valid(d)
    ensures Decode(Format(d)) == d
  {
    var s := Format(d);
    assert s[..4] == Fixed(d.year, 4);
    assert s[4..6] == Fixed(d.month, 2);
    assert s[6..] == Fixed(d.day, 2);
  }

  /** Formatting the decoded fields gives an 8-digit string back. */
  lemma FormatDecode(s: string)
    requires IsCalendarDate(s)
    ensures Format(Decode(s)) == s
  {
    var y, m, d := s[..4], s[4..6], s[6..];
    assert |y| == 4 && |m| == 2 && |d| == 2;
    assert AllDigits(y) && AllDigits(m) && AllDigits(d);
    FixedOfValue(y);
    FixedOfValue(m);
    FixedOfValue(d);
    SplitEight(s);
  }

  lemma SplitEight(s: string)
    requires |s| == 8
    ensures s == s[..4] + s[4..6] + s[6..]
  {
    assert s[..6] == s[..4] + s[4..6];
  }

  /** The two-character month alternatives accept exactly the months 01..12. */
  lemma TwoDigitMonth(t: string)
    requires |t| >= 2 && AllDigits(t[..2])
    ensures var ms := MonthAlternatives(t);
      (|ms| > 0 && ms[0].width == 2) <==> 1 <= Value(t[..2]) <= 12
    ensures forall f :: f in MonthAlternatives(t) && f.width == 2 ==> f.value == Value(t[..2])
  {
    ValueTwo(t[..2]);
  }

  /** The two-character day alternatives accept exactly the days 01..31. */
  lemma TwoDigitDay(u: string)
    requires |u| == 2 && AllDigits(u)
    ensures var ds := DayAlternatives(u);
      (|ds| > 0 && ds[0].width == 2) <==> 1 <= Value(u) <= 31
    ensures forall f :: f in DayAlternatives(u) && f.width == 2 ==> f.value == Value(u)
  {
    ValueTwo(u);
  }

  /** On an 8-digit string, strptime succeeds exactly for the strings that
      denote a real date, and then returns the decoded date. */
  lemma ParseEightDigits(s: string)
    requires |s| == 8 && AllDigits(s)
    ensures Parse(s) == if Valid(Decode(s)) then Some(Decode(s)) else None
  {
    var t := s[4..];
    assert t[..2] == s[4..6] && t[2..] == s[6..];
    TwoDigitMonth(t);
    TwoDigitDay(t[2..]);
    if Valid(Decode(s)) {
      ParseEightValid(s, t);
    } else {
      ParseEightInvalid(s, t);
    }
  }

  lemma ParseEightValid(s: string, t: string)
    requires |s| == 8 && AllDigits(s) && t == s[4..]
    requires t[..2] == s[4..6] && t[2..] == s[6..]
    requires var ms := MonthAlternatives(t);
      (|ms| > 0 && ms[0].width == 2) <==> 1 <= Value(t[..2]) <= 12
    requires forall f :: f in MonthAlternatives(t) && f.width == 2 ==> f.value == Value(t[..2])
    requires var ds := DayAlternatives(t[2..]);
      (|ds| > 0 && ds[0].width == 2) <==> 1 <= Value(t[2..]) <= 31
    requires forall f :: f in DayAlternatives(t[2..]) && f.width == 2 ==> f.value == Value(t[2..])
    requires Valid(Decode(s))
    ensures Parse(s) == Some(Decode(s))
  {
    var ms := MonthAlternatives(t);
    var ds := DayAlternatives(t[2..]);
    assert ms[0].width == 2 && ms[0].value == Value(s[4..6]) by {
      assert ms[0] in ms;
    }
    assert ds[0].width == 2 && ds[0].value == Value(s[6..]) by {
      assert ds[0] in ds;
    }
    assert FirstMatch(t, ms, 0) == Some((ms[0], ds[0]));
    assert Date(Value(s[..4]), ms[0].value, ds[0].value) == Decode(s);
  }

  lemma ParseEightInvalid(s: string, t: string)
    requires |s| == 8 && AllDigits(s) && t == s[4..]
    requires t[..2] == s[4..6] && t[2..] == s[6..]
    requires forall f :: f in MonthAlternatives(t) && f.width == 2 ==> f.value == Value(t[..2])
    requires forall f :: f in DayAlternatives(t[2..]) && f.width == 2 ==> f.value == Value(t[2..])
    requires !Valid(Decode(s))
    ensures Parse(s) == None
  {
    var fm := FirstMatch(t, MonthAlternatives(t), 0);
    if fm.Some? && fm.value.0.width + fm.value.1.width == |t| {
      var (m, d) := fm.value;
      assert m.width == 2 && d.width == 2;
      assert m.value == Value(s[4..6]) && d.value == Value(s[6..]);
    }
  }

  /** strptime reads back what strftime wrote. */
  lemma ParseFormat(d: Date)
    requires Valid(d)
    ensures Parse(Format(d)) == Some(d)
  {
    DecodeFormat(d);
    ParseEightDigits(Format(d));
  }
}
