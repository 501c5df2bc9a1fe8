/** The relative-date resolver of the chat path
    (`convert_relative_date_in_text`, chatshhs_refactored.py): Korean
    phrases for "tomorrow", "the day after tomorrow", "yesterday" and
    "this/next week <weekday>" are replaced, in a fixed order, by the date
    they denote relative to an anchor day, written `YYYY년 MM월 DD일`.
    Weeks start on Sunday. All seventeen dates are computed before any
    replacement, so one date leaving the calendar's range fails the whole
    call. */
module RelativeDates {
  import opened Wrappers
  import opened Text
  import opened Calendar

  /** The source's `days_since_sunday`, `(d.weekday() + 1) % 7`: 0 on a
      Sunday, 6 on a Saturday. Since 0001-01-01 (ordinal 1) was a Monday,
      it is the ordinal modulo 7 (lemma DaysSinceSundayIsWeekdayPlusOne). */
  function DaysSinceSunday(d: Date): (k: int)
    requires Valid(d)
    ensures 0 <= k < 7
  {
    ToOrdinal(d) % 7
  }

  lemma DaysSinceSundayIsWeekdayPlusOne(d: Date)
    requires Valid(d)
    ensures DaysSinceSunday(d) == (Weekday(d) + 1) % 7
  {
    WeekdayShift(ToOrdinal(d));
  }

  lemma WeekdayShift(n: int)
    ensures ((n + 6) % 7 + 1) % 7 == n % 7
  {
    var q, r := n / 7, n % 7;
    if r == 0 {
      assert n + 6 == 7 * q + 6;
    } else {
      assert n + 6 == 7 * (q + 1) + (r - 1);
    }
  }

  predicate IsSunday(d: Date)
    requires Valid(d)
  {
    Weekday(d) == 6
  }

  /** `this_week_start`: the anchor minus its distance from Sunday. */
  function WeekStart(d: Date): Option<Date>
    requires Valid(d)
  {
    AddDays(d, -DaysSinceSunday(d))
  }

  /** The week start exists exactly from 0001-01-07, the first Sunday. */
  lemma WeekStartDefined(d: Date)
    requires Valid(d)
    ensures WeekStart(d).Some? <==> ToOrdinal(d) >= 7
  {
    var n := ToOrdinal(d);
    FloorWeek(n);
    assert WeekStart(d).Some? <==> 1 <= n - n % 7;
  }

  lemma FloorWeek(n: int)
    requires n >= 1
    ensures 0 <= n % 7 < 7 && (n - n % 7) % 7 == 0
    ensures 1 <= n - n % 7 <==> n >= 7
  {
  }

  /** The week start is a Sunday, 0 to 6 days before the anchor. */
  lemma WeekStartIsSunday(d: Date)
    requires Valid(d) && WeekStart(d).Some?
    ensures var s := WeekStart(d).value;
      IsSunday(s) && 0 <= ToOrdinal(d) - ToOrdinal(s) <= 6
  {
    WeekStartOrdinal(d);
    SundayOrdinal(ToOrdinal(WeekStart(d).value));
  }

  /** No other Sunday lies 0 to 6 days before the anchor. */
  lemma WeekStartIsLatestSunday(d: Date, e: Date)
    requires Valid(d) && Valid(e) && WeekStart(d).Some?
    requires IsSunday(e) && 0 <= ToOrdinal(d) - ToOrdinal(e) <= 6
    ensures e == WeekStart(d).value
  {
    SundayWeekday(e);
    SundayInWeek(ToOrdinal(d), ToOrdinal(e));
    WeekStartUnique(d, e);
  }

  lemma WeekStartOrdinal(d: Date)
    requires Valid(d) && WeekStart(d).Some?
    ensures var n := ToOrdinal(d);
      ToOrdinal(WeekStart(d).value) == n - n % 7 && (n - n % 7) % 7 == 0
  {
    FloorWeek(ToOrdinal(d));
  }

  lemma SundayWeekday(e: Date)
    requires Valid(e) && IsSunday(e)
    ensures (ToOrdinal(e) + 6) % 7 == 6
  {
  }

  lemma SundayInWeek(n: int, m: int)
    requires (m + 6) % 7 == 6 && 0 <= n - m <= 6
    ensures m == n - n % 7
  {
    SundayOrdinal(m);
    OnlyMultipleInWeek(n, m);
  }

  lemma WeekStartUnique(d: Date, e: Date)
    requires Valid(d) && Valid(e) && WeekStart(d).Some?
    requires ToOrdinal(e) == ToOrdinal(d) - ToOrdinal(d) % 7
    ensures e == WeekStart(d).value
  {
    WeekStartOrdinal(d);
    ToOrdinalInjective(e, WeekStart(d).value);
  }

  /** Sundays are the days whose ordinal is a multiple of seven. */
  lemma SundayOrdinal(m: int)
    ensures (m + 6) % 7 == 6 <==> m % 7 == 0
  {
  }

  lemma OnlyMultipleInWeek(n: int, m: int)
    requires m % 7 == 0 && 0 <= n - m <= 6
    ensures m == n - n % 7
  {
  }

  /** A phrase the resolver knows. `day` counts from Sunday: 0 = 일요일,
      1 = 월요일, …, 6 = 토요일. */
  datatype Phrase =
    | Tomorrow          // 내일
    | DayAfterTomorrow  // 모레
    | Yesterday         // 어제
    | ThisWeek(day: int)  // 이번주 …요일
    | NextWeek(day: int)  // 다음주 …요일

  predicate ValidPhrase(p: Phrase) {
    (p.ThisWeek? || p.NextWeek?) ==> 0 <= p.day < 7
  }

  /** The date a phrase denotes, computed the way the source computes it:
      week phrases go through `this_week_start` and
      `next_week_start = this_week_start + 7 days`. */
  function Resolve(today: Date, p: Phrase): Option<Date>
    requires Valid(today) && ValidPhrase(p)
  {
    match p
    case Tomorrow => AddDays(today, 1)
    case DayAfterTomorrow => AddDays(today, 2)
    case Yesterday => AddDays(today, -1)
    case ThisWeek(k) =>
      var start :- WeekStart(today);
      AddDays(start, k)
    case NextWeek(k) =>
      var start :- WeekStart(today);
      var next :- AddDays(start, 7);
      AddDays(next, k)
  }

  /** How many days after the anchor a phrase lies: an independent
      statement of the week convention. */
  function Offset(today: Date, p: Phrase): int
    requires Valid(today)
  {
    match p
    case Tomorrow => 1
    case DayAfterTomorrow => 2
    case Yesterday => -1
    case ThisWeek(k) => k - ToOrdinal(today) % 7
    case NextWeek(k) => 7 + k - ToOrdinal(today) % 7
  }

  predicate NeedsWeekStart(p: Phrase) {
    p.ThisWeek? || p.NextWeek?
  }

  /** Every phrase resolves to the anchor shifted by its offset; week
      phrases additionally need the week start to exist. */
  lemma ResolveIsOffset(today: Date, p: Phrase)
    requires Valid(today) && ValidPhrase(p)
    ensures Resolve(today, p)
      == if NeedsWeekStart(p) && ToOrdinal(today) < 7 then None
         else AddDays(today, Offset(today, p))
  {
    WeekStartDefined(today);
    match p
    case Tomorrow =>
    case DayAfterTomorrow =>
    case Yesterday =>
    case ThisWeek(k) =>
      if ToOrdinal(today) >= 7 {
        ThisWeekOffset(today, k);
      }
    case NextWeek(k) =>
      if ToOrdinal(today) >= 7 {
        NextWeekOffset(today, k);
      }
  }

  lemma ThisWeekOffset(today: Date, k: int)
    requires Valid(today) && 0 <= k < 7 && WeekStart(today).Some?
    ensures Resolve(today, ThisWeek(k)) == AddDays(today, Offset(today, ThisWeek(k)))
  {
    var n := ToOrdinal(today);
    var start := WeekStart(today).value;
    assert Resolve(today, ThisWeek(k)) == AddDays(start, k);
    assert Offset(today, ThisWeek(k)) == k - n % 7;
    assert ToOrdinal(start) + k == n + (k - n % 7) by { WeekStartOrdinal(today); }
    AddDaysSameTarget(start, k, today, k - n % 7);
  }

  lemma NextWeekOffset(today: Date, k: int)
    requires Valid(today) && 0 <= k < 7 && WeekStart(today).Some?
    ensures Resolve(today, NextWeek(k)) == AddDays(today, Offset(today, NextWeek(k)))
  {
    var start := WeekStart(today).value;
    if AddDays(start, 7).Some? {
      NextWeekInRange(today, k);
    } else {
      NextWeekOutOfRange(today, k);
    }
  }

  lemma NextWeekInRange(today: Date, k: int)
    requires Valid(today) && 0 <= k < 7 && WeekStart(today).Some?
    requires AddDays(WeekStart(today).value, 7).Some?
    ensures Resolve(today, NextWeek(k)) == AddDays(today, Offset(today, NextWeek(k)))
  {
    var n := ToOrdinal(today);
    var start := WeekStart(today).value;
    var next := AddDays(start, 7).value;
    assert Resolve(today, NextWeek(k)) == AddDays(next, k);
    assert Offset(today, NextWeek(k)) == 7 + k - n % 7;
    assert ToOrdinal(next) + k == n + (7 + k - n % 7) by { WeekStartOrdinal(today); }
    AddDaysSameTarget(next, k, today, 7 + k - n % 7);
  }

  lemma NextWeekOutOfRange(today: Date, k: int)
    requires Valid(today) && 0 <= k < 7 && WeekStart(today).Some?
    requires AddDays(WeekStart(today).value, 7).None?
    ensures Resolve(today, NextWeek(k)) == AddDays(today, Offset(today, NextWeek(k)))
  {
    var n := ToOrdinal(today);
    WeekStartOrdinal(today);
    assert AddDays(today, 7 + k - n % 7).None?;
    assert Resolve(today, NextWeek(k)).None?;
  }

  /** "이번주/다음주 X요일" is the week start plus the day's number, and next
      week's day is this week's day plus seven. */
  lemma WeekPhrases(today: Date, k: int)
    requires Valid(today) && 0 <= k < 7 && WeekStart(today).Some?
    ensures Resolve(today, ThisWeek(k)) == AddDays(WeekStart(today).value, k)
    ensures Resolve(today, NextWeek(k)) == AddDays(WeekStart(today).value, 7 + k)
    ensures Resolve(today, ThisWeek(k)).Some? ==>
      Resolve(today, NextWeek(k)) == AddDays(Resolve(today, ThisWeek(k)).value, 7)
  {
    var start := WeekStart(today).value;
    if AddDays(start, 7).Some? {
      AddDaysCompose(start, 7, k);
    }
    if AddDays(start, k).Some? {
      AddDaysCompose(start, k, 7);
    }
  }

  /** A week phrase names a date of the right weekday: 0 is Sunday. */
  lemma WeekPhraseWeekday(today: Date, p: Phrase)
    requires Valid(today) && ValidPhrase(p) && NeedsWeekStart(p) && Resolve(today, p).Some?
    ensures (Weekday(Resolve(today, p).value) + 1) % 7 == p.day
  {
    ResolveIsOffset(today, p);
    var r := Resolve(today, p).value;
    var n := ToOrdinal(today);
    WeekdayOfWeekDay(n, p.day, if p.NextWeek? then 7 else 0, ToOrdinal(r));
  }

  lemma WeekdayOfWeekDay(n: int, k: int, j: int, m: int)
    requires 0 <= k < 7 && (j == 0 || j == 7) && m == n - n % 7 + j + k
    ensures ((m + 6) % 7 + 1) % 7 == k
  {
  }

  /** A worked case: on Wednesday 2025-12-24 the week began on Sunday
      2025-12-21, so "다음주 월요일" is 2025-12-29 and "이번주 일요일" is
      2025-12-21. */
  lemma ChristmasEve2025Phrases()
    ensures Resolve(Date(2025, 12, 24), NextWeek(1)) == Some(Date(2025, 12, 29))
    ensures Resolve(Date(2025, 12, 24), ThisWeek(0)) == Some(Date(2025, 12, 21))
  {
    var today := Date(2025, 12, 24);
    ChristmasEve2025IsWednesday();
    DaysBeforeYearClosed(2025);
    assert DayOfYear(Date(2025, 12, 29)) == 363;
    assert DayOfYear(Date(2025, 12, 21)) == 355;
    ResolveIsOffset(today, NextWeek(1));
    ResolveIsOffset(today, ThisWeek(0));
    AddDaysIs(today, 5, Date(2025, 12, 29));
    AddDaysIs(today, -3, Date(2025, 12, 21));
  }

  /** `strftime('%Y년 %m월 %d일')`. */
  function LongForm(d: Date): (s: string)
    requires Valid(d)
    ensures |s| == 13
  {
    Fixed(d.year, 4) + "년 " + Fixed(d.month, 2) + "월 " + Fixed(d.day, 2) + "일"
  }

  /** The digits of the long form read back as the date. */
  lemma LongFormReadsBack(d: Date)
    requires Valid(d)
    ensures var s := LongForm(d);
      AllDigits(s[..4]) && AllDigits(s[6..8]) && AllDigits(s[10..12])
      && Date(Value(s[..4]), Value(s[6..8]), Value(s[10..12])) == d
  {
    var s := LongForm(d);
    assert s[..4] == Fixed(d.year, 4);
    assert s[6..8] == Fixed(d.month, 2);
    assert s[10..12] == Fixed(d.day, 2);
  }

  /** Distinct dates have distinct long forms. */
  lemma LongFormInjective(d: Date, e: Date)
    requires Valid(d) && Valid(e) && LongForm(d) == LongForm(e)
    ensures d == e
  {
    LongFormReadsBack(d);
    LongFormReadsBack(e);
  }

  // ---------------------------------------------------------------------
  // The textual side: patterns and `re.sub`.

  /** A pattern `head`, or `head\s*tail` when `spaced`. */
  datatype Pattern = Pattern(head: string, spaced: bool, tail: string)

  /** A head that is not empty, and a tail that cannot be confused with
      the whitespace before it. */
  predicate WellFormed(p: Pattern) {
    |p.head| > 0 && (p.spaced ==> |p.tail| > 0 && !IsSpace(p.tail[0]))
  }

  predicate AllSpaces(s: string) {
    forall i :: 0 <= i < |s| ==> IsSpace(s[i])
  }

  /** The strings the pattern matches in full. */
  predicate Matches(p: Pattern, w: string) {
    && |w| >= |p.head| + |p.tail|
    && w[..|p.head|] == p.head
    && w[|w| - |p.tail|..] == p.tail
    && AllSpaces(w[|p.head|..|w| - |p.tail|])
    && (!p.spaced ==> |w| == |p.head| + |p.tail|)
  }

  /** The length of the match of `p` at the start of `s`. `\s*` takes all
      the whitespace there is: the tail starts with a non-space, so
      backtracking to fewer spaces cannot succeed. */
  function MatchLen(p: Pattern, s: string): (r: Option<nat>)
    requires WellFormed(p)
    ensures r.Some? ==> 0 < r.value <= |s| && Matches(p, s[..r.value])
  {
    var h := |p.head|;
    if |s| < h || s[..h] != p.head then None
    else
      var n := h + (if p.spaced then LeadingSpaces(s[h..]) else 0);
      if |s| - n >= |p.tail| && s[n..n + |p.tail|] == p.tail then
        var w := s[..n + |p.tail|];
        assert w[..h] == p.head by { assert w[..h] == s[..h]; }
        assert w[n..] == p.tail by { assert w[n..] == s[n..n + |p.tail|]; }
        assert AllSpaces(w[h..n]) by {
          var u := s[h..];
          forall i | 0 <= i < n - h
            ensures IsSpace(w[h..n][i])
          {
            assert w[h..n][i] == u[i];
          }
        }
        Some(n + |p.tail|)
      else None
  }

  /** Whatever the pattern matches at the start of `s` is found. */
  lemma MatchLenComplete(p: Pattern, s: string, n: nat)
    requires WellFormed(p) && n <= |s| && Matches(p, s[..n])
    ensures MatchLen(p, s) == Some(n)
  {
    var h, t := |p.head|, |p.tail|;
    var w := s[..n];
    assert s[..h] == p.head by { assert s[..h] == w[..h]; }
    assert s[n - t..n] == p.tail by { assert s[n - t..n] == w[n - t..]; }
    if p.spaced {
      var g := n - t - h;
      var u := s[h..];
      assert LeadingSpaces(u) == g by {
        forall i | 0 <= i < g
          ensures IsSpace(u[i])
        {
          assert u[i] == w[h..n - t][i];
        }
        assert u[g] == p.tail[0] by { assert u[g] == w[n - t]; }
        SpaceRunLength(u, g);
      }
    }
    var m := h + (if p.spaced then LeadingSpaces(s[h..]) else 0);
    assert m == n - t;
    assert s[m..m + t] == p.tail;
  }

  /** `\s*` stops at the first non-space. */
  lemma SpaceRunLength(u: string, g: nat)
    requires g < |u| && !IsSpace(u[g]) && forall i :: 0 <= i < g ==> IsSpace(u[i])
    ensures LeadingSpaces(u) == g
  {
  }

  /** `re.sub(p, rep, s)`: scan left to right, replace each match and
      resume after it. */
  function Sub(p: Pattern, rep: string, s: string): string
    requires WellFormed(p)
    decreases |s|
  {
    if |s| == 0 then []
    else match MatchLen(p, s)
      case Some(n) => rep + Sub(p, rep, s[n..])
      case None => [s[0]] + Sub(p, rep, s[1..])
  }

  /** Text where the pattern's first character never occurs is left as is. */
  lemma {:induction false} SubFree(p: Pattern, rep: string, s: string)
    requires WellFormed(p) && p.head[0] !in s
    ensures Sub(p, rep, s) == s
    decreases |s|
  {
    if |s| > 0 {
      assert s[1..] == s[1..];
      assert forall c :: c in s[1..] ==> c in s;
      SubFree(p, rep, s[1..]);
    }
  }

  /** A prefix without the pattern's first character is copied, and the
      scan goes on after it. */
  lemma {:induction false} SubAfterFree(p: Pattern, rep: string, a: string, b: string)
    requires WellFormed(p) && p.head[0] !in a
    ensures Sub(p, rep, a + b) == a + Sub(p, rep, b)
    decreases |a|
  {
    if |a| > 0 {
      var s := a + b;
      assert s[0] == a[0] && s[1..] == a[1..] + b;
      assert s[0] != p.head[0];
      assert |s| < |p.head| || s[..|p.head|][0] != p.head[0];
      assert Sub(p, rep, s) == [s[0]] + Sub(p, rep, s[1..]);
      assert forall c :: c in a[1..] ==> c in a;
      SubAfterFree(p, rep, a[1..], b);
      assert a == [a[0]] + a[1..];
    } else {
      assert a + b == b;
    }
  }

  /** A match at the start is replaced and the scan resumes after it. */
  lemma SubReplacesMatch(p: Pattern, rep: string, w: string, b: string)
    requires WellFormed(p) && Matches(p, w)
    ensures Sub(p, rep, w + b) == rep + Sub(p, rep, b)
  {
    assert (w + b)[..|w|] == w;
    MatchLenComplete(p, w + b, |w|);
    assert (w + b)[|w|..] == b;
  }

  // ---------------------------------------------------------------------
  // The seventeen phrases.

  function DayName(k: int): string
    requires 0 <= k < 7
  {
    ["일요일", "월요일", "화요일", "수요일", "목요일", "금요일", "토요일"][k]
  }

  function PatternOf(p: Phrase): (r: Pattern)
    requires ValidPhrase(p)
    ensures WellFormed(r)
  {
    match p
    case Tomorrow => Pattern("내일", false, "")
    case DayAfterTomorrow => Pattern("모레", false, "")
    case Yesterday => Pattern("어제", false, "")
    case ThisWeek(k) => Pattern("이번주", true, DayName(k))
    case NextWeek(k) => Pattern("다음주", true, DayName(k))
  }

  /** The order of the source's replacement table. */
  const SourceOrder: seq<Phrase> := [
    Tomorrow, DayAfterTomorrow, Yesterday,
    NextWeek(1), NextWeek(2), NextWeek(3), NextWeek(4), NextWeek(5), NextWeek(6), NextWeek(0),
    ThisWeek(1), ThisWeek(2), ThisWeek(3), ThisWeek(4), ThisWeek(5), ThisWeek(6), ThisWeek(0)
  ]

  lemma SourceOrderPhrases()
    ensures |SourceOrder| == 17
    ensures forall i :: 0 <= i < |SourceOrder| ==> ValidPhrase(SourceOrder[i])
  {
  }

  /** Where a phrase sits in the table. */
  function Position(p: Phrase): nat
    requires ValidPhrase(p)
  {
    match p
    case Tomorrow => 0
    case DayAfterTomorrow => 1
    case Yesterday => 2
    case NextWeek(k) => if k == 0 then 9 else 2 + k
    case ThisWeek(k) => if k == 0 then 16 else 9 + k
  }

  /** Every phrase occurs in the table exactly once. */
  lemma PositionInTable(p: Phrase)
    requires ValidPhrase(p)
    ensures Position(p) < |SourceOrder| && SourceOrder[Position(p)] == p
    ensures forall j :: 0 <= j < |SourceOrder| && SourceOrder[j] == p ==> j == Position(p)
  {
  }

  /** The first characters of the five pattern heads. */
  predicate IsInitial(c: char) {
    c == '내' || c == '모' || c == '어' || c == '다' || c == '이'
  }

  predicate InitialFree(s: string) {
    forall i :: 0 <= i < |s| ==> !IsInitial(s[i])
  }

  lemma InitialFreeNotIn(s: string, c: char)
    requires InitialFree(s) && IsInitial(c)
    ensures c !in s
  {
  }

  lemma InitialFreeAppend(a: string, b: string)
    requires InitialFree(a) && InitialFree(b)
    ensures InitialFree(a + b)
  {
    assert forall i :: 0 <= i < |a| ==> (a + b)[i] == a[i];
    assert forall i :: |a| <= i < |a + b| ==> (a + b)[i] == b[i - |a|];
  }

  /** The long form never contains the start of a phrase, so a replacement
      cannot create a match for a later pattern. */
  lemma LongFormInitialFree(d: Date)
    requires Valid(d)
    ensures InitialFree(LongForm(d))
  {
    var y, m, dd := Fixed(d.year, 4), Fixed(d.month, 2), Fixed(d.day, 2);
    assert InitialFree(y) && InitialFree(m) && InitialFree(dd);
    InitialFreeAppend(y, "년 ");
    InitialFreeAppend(y + "년 ", m);
    InitialFreeAppend(y + "년 " + m, "월 ");
    InitialFreeAppend(y + "년 " + m + "월 ", dd);
    InitialFreeAppend(y + "년 " + m + "월 " + dd, "일");
  }

  /** A phrase occurrence has a phrase initial only in its first character. */
  lemma MatchedInitialOnlyFirst(p: Phrase, w: string)
    requires ValidPhrase(p) && Matches(PatternOf(p), w)
    ensures |w| > 0 && IsInitial(w[0]) && InitialFree(w[1..])
  {
    var pat := PatternOf(p);
    var h, t := |pat.head|, |pat.tail|;
    var mid := w[h..|w| - t];
    assert w == pat.head + mid + pat.tail by { SplitThree(w, h, |w| - t); }
    PatternInitials(p);
    assert InitialFree(mid) by { SpacesInitialFree(mid); }
    InitialFreeAppend(pat.head[1..], mid);
    InitialFreeAppend(pat.head[1..] + mid, pat.tail);
    assert w[1..] == pat.head[1..] + mid + pat.tail;
  }

  /** Only the first character of a pattern is a phrase initial. */
  lemma PatternInitials(p: Phrase)
    requires ValidPhrase(p)
    ensures IsInitial(PatternOf(p).head[0])
    ensures InitialFree(PatternOf(p).head[1..]) && InitialFree(PatternOf(p).tail)
  {
    match p
    case ThisWeek(k) => DayNameInitialFree(k);
    case NextWeek(k) => DayNameInitialFree(k);
    case _ =>
  }

  lemma DayNameInitialFree(k: int)
    requires 0 <= k < 7
    ensures InitialFree(DayName(k))
  {
    var names := ["일요일", "월요일", "화요일", "수요일", "목요일", "금요일", "토요일"];
    forall j, i | 0 <= j < 7 && 0 <= i < |names[j]|
      ensures !IsInitial(names[j][i])
    {
    }
    assert DayName(k) == names[k];
  }

  lemma SplitThree(s: string, i: nat, j: nat)
    requires i <= j <= |s|
    ensures s == s[..i] + s[i..j] + s[j..]
  {
    assert s[..j] == s[..i] + s[i..j];
  }

  lemma SpacesInitialFree(s: string)
    requires AllSpaces(s)
    ensures InitialFree(s)
  {
    forall i | 0 <= i < |s|
      ensures !IsInitial(s[i])
    {
      assert IsSpace(s[i]);
    }
  }

  /** At most one phrase's pattern matches at any position: the heads
      differ in their first character and the weekday names too. */
  lemma PatternsDisjoint(p: Phrase, q: Phrase, s: string)
    requires ValidPhrase(p) && ValidPhrase(q) && p != q
    ensures MatchLen(PatternOf(p), s).None? || MatchLen(PatternOf(q), s).None?
  {
    MatchedAt(p, s);
    MatchedAt(q, s);
    HeadInitials(p, q);
    if p.ThisWeek? == q.ThisWeek? && p.NextWeek? == q.NextWeek? && NeedsWeekStart(p) {
      DayNameInitials(p.day, q.day);
    }
  }

  /** Phrases whose heads begin alike are week phrases of the same week. */
  lemma HeadInitials(p: Phrase, q: Phrase)
    requires ValidPhrase(p) && ValidPhrase(q)
    ensures PatternOf(p).head[0] == PatternOf(q).head[0] ==>
      p == q || (p.ThisWeek? && q.ThisWeek?) || (p.NextWeek? && q.NextWeek?)
  {
  }

  /** The weekday names begin with seven different characters. */
  lemma DayNameInitials(k: int, j: int)
    requires 0 <= k < 7 && 0 <= j < 7
    ensures DayName(k)[0] == DayName(j)[0] ==> k == j
  {
  }

  /** What a phrase match at the start of `s` fixes: the first character,
      and for week phrases the first character of the weekday name. */
  lemma MatchedAt(p: Phrase, s: string)
    requires ValidPhrase(p)
    ensures var pat := PatternOf(p);
      MatchLen(pat, s).Some? ==> (
        && s[0] == pat.head[0]
        && (NeedsWeekStart(p) ==> (
          && 3 <= |s| && 3 + LeadingSpaces(s[3..]) < |s|
          && s[3 + LeadingSpaces(s[3..])] == pat.tail[0])))
  {
    var pat := PatternOf(p);
    if MatchLen(pat, s).Some? {
      assert s[..|pat.head|][0] == pat.head[0];
      if NeedsWeekStart(p) {
        var n := 3 + LeadingSpaces(s[3..]);
        assert s[n..n + |pat.tail|][0] == pat.tail[0];
      }
    }
  }

  /** Rewriting one phrase: a pattern with its replacement. */
  datatype Rule = Rule(pattern: Pattern, replacement: string)

  /** The source's `replacements` table: every phrase with its date in
      long form, or `None` if any of the seventeen dates overflows. */
  function Rules(today: Date, ps: seq<Phrase>): Option<seq<Rule>>
    requires Valid(today) && forall i :: 0 <= i < |ps| ==> ValidPhrase(ps[i])
  {
    if forall i :: 0 <= i < |ps| ==> Resolve(today, ps[i]).Some? then
      Some(seq(|ps|, i requires 0 <= i < |ps| =>
        Rule(PatternOf(ps[i]), LongForm(Resolve(today, ps[i]).value))))
    else None
  }

  predicate RulesWellFormed(rules: seq<Rule>) {
    forall i :: 0 <= i < |rules| ==> WellFormed(rules[i].pattern)
  }

  /** The `for pattern, replacement in replacements.items()` loop. */
  function ApplyAll(rules: seq<Rule>, s: string): string
    requires RulesWellFormed(rules)
  {
    if |rules| == 0 then s
    else ApplyAll(rules[1..], Sub(rules[0].pattern, rules[0].replacement, s))
  }

  /** `convert_relative_date_in_text(text, today)`; `None` where the source
      raises `OverflowError`. */
  function Convert(text: string, today: Date): Option<string>
    requires Valid(today)
  {
    SourceOrderPhrases();
    var rules :- Rules(today, SourceOrder);
    Some(ApplyAll(rules, text))
  }

  /** The conversion succeeds exactly when every phrase date exists: the
      week start (which needs the anchor on or after 0001-01-07) and the
      Saturday of next week. */
  lemma ConvertDefined(text: string, today: Date)
    requires Valid(today)
    ensures var n := ToOrdinal(today);
      Convert(text, today).Some? <==> 7 <= n && n - n % 7 + 13 <= MaxOrdinal
  {
    SourceOrderPhrases();
    var n := ToOrdinal(today);
    if 7 <= n && n - n % 7 + 13 <= MaxOrdinal {
      forall i | 0 <= i < |SourceOrder|
        ensures Resolve(today, SourceOrder[i]).Some?
      {
        ResolveIsOffset(today, SourceOrder[i]);
      }
    } else if n < 7 {
      assert SourceOrder[16] == ThisWeek(0);
      ResolveIsOffset(today, ThisWeek(0));
    } else {
      assert SourceOrder[8] == NextWeek(6);
      ResolveIsOffset(today, NextWeek(6));
    }
  }

  lemma {:induction false} ApplyAllFree(rules: seq<Rule>, s: string)
    requires RulesWellFormed(rules) && InitialFree(s)
    requires forall i :: 0 <= i < |rules| ==> IsInitial(rules[i].pattern.head[0])
    ensures ApplyAll(rules, s) == s
  {
    if |rules| > 0 {
      InitialFreeNotIn(s, rules[0].pattern.head[0]);
      SubFree(rules[0].pattern, rules[0].replacement, s);
      ApplyAllFree(rules[1..], s);
    }
  }

  /** Text without any phrase comes back unchanged. */
  lemma ConvertPhraseFree(text: string, today: Date)
    requires Valid(today) && InitialFree(text) && Convert(text, today).Some?
    ensures Convert(text, today) == Some(text)
  {
    SourceOrderPhrases();
    var rules := Rules(today, SourceOrder).value;
    forall i | 0 <= i < |rules|
      ensures IsInitial(rules[i].pattern.head[0])
    {
      assert rules[i].pattern == PatternOf(SourceOrder[i]);
    }
    ApplyAllFree(rules, text);
  }

  /** One rule applied to phrase-free text around a match of its own pattern. */
  lemma StepHit(pat: Pattern, rep: string, a: string, w: string, b: string)
    requires WellFormed(pat) && IsInitial(pat.head[0]) && Matches(pat, w)
    requires InitialFree(a) && InitialFree(b)
    ensures Sub(pat, rep, a + w + b) == a + rep + b
  {
    calc {
      Sub(pat, rep, a + w + b);
      { assert a + w + b == a + (w + b); }
      Sub(pat, rep, a + (w + b));
      { InitialFreeNotIn(a, pat.head[0]); SubAfterFree(pat, rep, a, w + b); }
      a + Sub(pat, rep, w + b);
      { SubReplacesMatch(pat, rep, w, b); }
      a + (rep + Sub(pat, rep, b));
      { InitialFreeNotIn(b, pat.head[0]); SubFree(pat, rep, b); }
      a + rep + b;
    }
  }

  /** One rule applied to phrase-free text around a string its pattern
      does not match. */
  lemma StepMiss(pat: Pattern, rep: string, a: string, w: string, b: string)
    requires WellFormed(pat) && IsInitial(pat.head[0])
    requires InitialFree(a) && InitialFree(b) && |w| > 0 && InitialFree(w[1..])
    requires MatchLen(pat, w + b).None?
    ensures Sub(pat, rep, a + w + b) == a + w + b
  {
    InitialFreeNotIn(a, pat.head[0]);
    SubAfterFree(pat, rep, a, w + b);
    assert a + w + b == a + (w + b);
    var wb := w + b;
    assert wb[1..] == w[1..] + b;
    assert Sub(pat, rep, wb) == [w[0]] + Sub(pat, rep, w[1..] + b);
    InitialFreeAppend(w[1..], b);
    InitialFreeNotIn(w[1..] + b, pat.head[0]);
    SubFree(pat, rep, w[1..] + b);
    assert [w[0]] + (w[1..] + b) == wb;
  }

  /** Rules for distinct phrases, applied in order to one phrase in
      phrase-free text: the phrase's own rule replaces it, every other
      rule leaves the text alone. */
  lemma {:induction false} ApplyAllOne(ps: seq<Phrase>, rules: seq<Rule>, i: nat, a: string, w: string, b: string)
    requires |ps| == |rules| && i < |ps|
    requires forall j :: 0 <= j < |ps| ==> ValidPhrase(ps[j]) && rules[j].pattern == PatternOf(ps[j])
    requires forall j :: 0 <= j < |ps| ==> InitialFree(rules[j].replacement)
    requires forall j :: 0 <= j < |ps| && ps[j] == ps[i] ==> j == i
    requires InitialFree(a) && InitialFree(b) && Matches(PatternOf(ps[i]), w)
    ensures RulesWellFormed(rules)
    ensures ApplyAll(rules, a + w + b) == a + rules[i].replacement + b
    decreases |ps|
  {
    var r := rules[0];
    if i == 0 {
      StepHit(r.pattern, r.replacement, a, w, b);
      InitialFreeAppend(a, r.replacement);
      InitialFreeAppend(a + r.replacement, b);
      var rest := rules[1..];
      forall j | 0 <= j < |rest|
        ensures IsInitial(rest[j].pattern.head[0])
      {
        assert rest[j].pattern == PatternOf(ps[j + 1]);
      }
      ApplyAllFree(rest, a + r.replacement + b);
    } else {
      MatchedInitialOnlyFirst(ps[i], w);
      PatternsDisjoint(ps[0], ps[i], w + b);
      MatchLenComplete(PatternOf(ps[i]), w + b, |w|) by {
        assert (w + b)[..|w|] == w;
      }
      StepMiss(r.pattern, r.replacement, a, w, b);
      ApplyAllOne(ps[1..], rules[1..], i - 1, a, w, b);
    }
  }

  /** No replacement text contains the start of a phrase. */
  lemma ReplacementsInitialFree(today: Date, ps: seq<Phrase>)
    requires Valid(today) && forall j :: 0 <= j < |ps| ==> ValidPhrase(ps[j])
    requires Rules(today, ps).Some?
    ensures forall j :: 0 <= j < |ps| ==> InitialFree(Rules(today, ps).value[j].replacement)
  {
    var rules := Rules(today, ps).value;
    forall j | 0 <= j < |ps|
      ensures InitialFree(rules[j].replacement)
    {
      LongFormInitialFree(Resolve(today, ps[j]).value);
    }
  }

  /** The table for distinct phrases, applied to one phrase in phrase-free
      text, replaces it with its date in long form. */
  lemma RulesRewriteOne(today: Date, ps: seq<Phrase>, i: nat, a: string, w: string, b: string)
    requires Valid(today) && forall j :: 0 <= j < |ps| ==> ValidPhrase(ps[j])
    requires Rules(today, ps).Some? && i < |ps|
    requires forall j :: 0 <= j < |ps| && ps[j] == ps[i] ==> j == i
    requires InitialFree(a) && InitialFree(b) && Matches(PatternOf(ps[i]), w)
    ensures RulesWellFormed(Rules(today, ps).value)
    ensures ApplyAll(Rules(today, ps).value, a + w + b)
      == a + LongForm(Resolve(today, ps[i]).value) + b
  {
    ReplacementsInitialFree(today, ps);
    ApplyAllOne(ps, Rules(today, ps).value, i, a, w, b);
  }

  /** One phrase in otherwise phrase-free text is replaced by its date in
      long form, and nothing else changes. */
  lemma ConvertOnePhrase(a: string, w: string, b: string, p: Phrase, today: Date)
    requires Valid(today) && ValidPhrase(p) && Matches(PatternOf(p), w)
    requires InitialFree(a) && InitialFree(b) && Convert(a + w + b, today).Some?
    ensures Resolve(today, p).Some?
    ensures Convert(a + w + b, today) == Some(a + LongForm(Resolve(today, p).value) + b)
  {
    SourceOrderPhrases();
    PositionInTable(p);
    RulesRewriteOne(today, SourceOrder, Position(p), a, w, b);
  }
}
