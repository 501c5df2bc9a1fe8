/** `extract_school_api_result`, in both of its versions: reading a NEIS
    envelope `{service: [head, {"row": [row, ...]}]}` defensively and
    turning it into display lines, one per date (or per timetable period).
    A missing or malformed part of the envelope becomes a placeholder; the
    two places the source does not guard raise, and are `Err` here. */
module Extract {
  import opened Wrappers
  import opened Text
  import opened Dicts
  import opened Json
  import opened Query

  const NoMeal := "정보 없음"
  const NoEvent := "일정 없음"
  const NoInfo := "정보 없음"

  /** `f"{date}"` for the date argument. */
  function ShowDates(date: Dates): string {
    match date
    case NoDate => "None"
    case OneDate(t) => t
    case DateList(ds) => Show(JArray(seq(|ds|, i requires 0 <= i < |ds| => JString(ds[i]))))
  }

  /** `v.get(service, [{}])[1].get('row', dflt)`, where `src` is the
      (possibly failed) `result[d]` or `result`. */
  function Rows(src: Result<Json, Fault>, service: string, dflt: Json): Result<Json, Fault> {
    var v :- src;
    var listing :- Get(v, Some(service), JArray([JObject([])]));
    var head :- At(listing, 1);
    Get(head, Some("row"), dflt)
  }

  /** `... .get('row', [{}])[0]`. */
  function FirstRow(src: Result<Json, Fault>, service: string): Result<Json, Fault> {
    var rows :- Rows(src, service, JArray([JObject([])]));
    At(rows, 0)
  }

  /** The whole access path ending in `.get(key, placeholder)`, inside a
      `try` whose `except` yields the placeholder. */
  function FieldOr(src: Result<Json, Fault>, service: string, key: Option<string>, placeholder: string): Json {
    match FirstRow(src, service)
    case Err(_) => JString(placeholder)
    case Ok(row) =>
      match Get(row, key, JString(placeholder))
      case Ok(x) => x
      case Err(_) => JString(placeholder)
  }

  /** The first row of a well-formed envelope, read directly off its
      layout: `v[service]` is a list of at least two items whose second is
      an object; that object's `"row"` is absent (the first row is then
      `{}`) or a non-empty list whose first item is an object. */
  function EnvelopeRow(v: Json, service: string): Option<seq<(string, Json)>> {
    if !v.JObject? then None
    else
      var found: Option<Json> := Lookup(v.fields, service);
      match found
      case Some(JArray(items)) =>
        if |items| >= 2 && items[1].JObject? then
          var rows: Option<Json> := Lookup(items[1].fields, "row");
          match rows
          case None => Some([])
          case Some(JArray(rows)) => if |rows| >= 1 && rows[0].JObject? then Some(rows[0].fields) else None
          case Some(_) => None
        else None
      case _ => None
  }

  /** The value a field has in an object, or the placeholder. */
  function FieldIn(fs: seq<(string, Json)>, key: Option<string>, placeholder: string): Json {
    if key.Some? && Lookup(fs, key.value).Some? then Lookup(fs, key.value).value else JString(placeholder)
  }

  /** The defensive access path yields the field of the envelope's first
      row when the envelope is well formed and has it, and the placeholder
      in every other case. */
  lemma FieldOrSpec(v: Json, service: string, key: Option<string>, placeholder: string)
    ensures FieldOr(Ok(v), service, key, placeholder) ==
      match EnvelopeRow(v, service)
      case None => JString(placeholder)
      case Some(fs) => FieldIn(fs, key, placeholder)
  {
    FirstRowSpec(v, service);
  }

  /** The access path up to `[0]` reaches an object exactly when the
      envelope is well formed, and then reaches its first row. */
  lemma FirstRowSpec(v: Json, service: string)
    ensures var r := FirstRow(Ok(v), service);
      match EnvelopeRow(v, service)
      case Some(fs) => r == Ok(JObject(fs))
      case None => r.Err? || !r.value.JObject?
  {
    if v.JObject? {
      var found := Lookup(v.fields, service);
      var listing := if found.Some? then found.value else JArray([JObject([])]);
      assert Get(v, Some(service), JArray([JObject([])])) == Ok(listing);
      if listing.JArray? && |listing.items| >= 2 {
        var head := listing.items[1];
        assert At(listing, 1) == Ok(head);
        if head.JObject? {
          var r := Lookup(head.fields, "row");
          var rows := if r.Some? then r.value else JArray([JObject([])]);
          assert Rows(Ok(v), service, JArray([JObject([])])) == Ok(rows);
        }
      }
    }
  }

  /** The timetable rows: `v.get(service, [{}])[1].get('row', [])`, and
      `[]` when that raises. */
  function RowsOr(src: Result<Json, Fault>, service: string): Json {
    match Rows(src, service, JArray([]))
    case Ok(r) => r
    case Err(_) => JArray([])
  }

  /** The timetable rows read directly off the envelope's layout. */
  function EnvelopeRows(v: Json, service: string): Json {
    if !v.JObject? then JArray([])
    else
      var found: Option<Json> := Lookup(v.fields, service);
      match found
      case Some(JArray(items)) =>
        if |items| >= 2 && items[1].JObject? then
          var rows: Option<Json> := Lookup(items[1].fields, "row");
          match rows
          case None => JArray([])
          case Some(r) => r
        else JArray([])
      case _ => JArray([])
  }

  lemma RowsOrSpec(v: Json, service: string)
    ensures RowsOr(Ok(v), service) == EnvelopeRows(v, service)
  {
  }

  /** One timetable line, `f"{d} : {i}교시 {subject}"`. */
  function PeriodLine(prefix: string, n: int, subject: Json): string {
    prefix + " : " + IntToString(n) + "교시 " + Show(subject)
  }

  /** The timetable line maker for one date, as a function value. */
  function LineFor(prefix: string): (int, Json) -> string {
    (n, subject) => PeriodLine(prefix, n, subject)
  }

  /** `for i, r in enumerate(xs, n): output.append(line(i, r.get('ITRT_CNTNT', '정보 없음')))`;
      the `get` is outside any `try`. */
  function Periods(xs: seq<Json>, n: int, line: (int, Json) -> string): Result<seq<string>, Fault>
    decreases |xs|
  {
    if |xs| == 0 then Ok([])
    else
      var subject :- Get(xs[0], Some("ITRT_CNTNT"), JString(NoInfo));
      var rest :- Periods(xs[1..], n + 1, line);
      Ok([line(n, subject)] + rest)
  }

  /** `if rows: <number the rows> else: <one "no timetable" line>`.
      Iterating a string or an object yields strings, which have no `get`;
      a number or `True` cannot be iterated. */
  function PeriodLines(prefix: string, rows: Json): Result<seq<string>, Fault> {
    if !Truthy(rows) then Ok([prefix + " : 시간표 정보 없음"])
    else
      match rows
      case JArray(xs) => Periods(xs, 1, LineFor(prefix))
      case JString(_) => Err(NoAttribute("str", "get"))
      case JObject(_) => Err(NoAttribute("str", "get"))
      case _ => Err(NotIterable(TypeName(rows)))
  }

  /** The subject a timetable row names, or the placeholder. */
  function Subject(fs: seq<(string, Json)>): Json {
    FieldIn(fs, Some("ITRT_CNTNT"), NoInfo)
  }

  /** The numbering loop raises exactly when some row is not an object. */
  lemma {:induction false} PeriodsFail(xs: seq<Json>, n: int, line: (int, Json) -> string)
    ensures Periods(xs, n, line).Ok? <==> forall i :: 0 <= i < |xs| ==> xs[i].JObject?
    decreases |xs|
  {
    if |xs| > 0 {
      var tail := xs[1..];
      PeriodsFail(tail, n + 1, line);
      assert forall i :: 1 <= i < |xs| ==> tail[i - 1] == xs[i];
    }
  }

  /** Rows that are all objects, numbered from `n` in row order: the
      reference the numbering loop is compared with. */
  function Numbered(xs: seq<Json>, n: int, line: (int, Json) -> string): (ls: seq<string>)
    requires forall i :: 0 <= i < |xs| ==> xs[i].JObject?
    ensures |ls| == |xs|
    decreases |xs|
  {
    if |xs| == 0 then [] else [line(n, Subject(xs[0].fields))] + Numbered(xs[1..], n + 1, line)
  }

  /** Row `i` gets number `n + i` and its own subject. */
  lemma {:induction false} NumberedIndex(xs: seq<Json>, n: int, line: (int, Json) -> string)
    requires forall i :: 0 <= i < |xs| ==> xs[i].JObject?
    ensures forall i :: 0 <= i < |xs| ==> Numbered(xs, n, line)[i] == line(n + i, Subject(xs[i].fields))
    decreases |xs|
  {
    if |xs| > 0 {
      NumberedIndex(xs[1..], n + 1, line);
      NumberedShift(xs, n, line, Numbered(xs[1..], n + 1, line));
    }
  }

  /** Rows that are all objects are numbered without an exception. */
  lemma {:induction false} PeriodsSpec(xs: seq<Json>, n: int, line: (int, Json) -> string)
    requires forall i :: 0 <= i < |xs| ==> xs[i].JObject?
    ensures Periods(xs, n, line) == Ok(Numbered(xs, n, line))
    decreases |xs|
  {
    if |xs| > 0 {
      var tail := xs[1..];
      PeriodsSpec(tail, n + 1, line);
      PeriodsStep(xs[0], tail, n, line);
      assert [xs[0]] + tail == xs;
    }
  }

  /** Numbering the rest from `n + 1` and putting row 0 first numbers
      every row from `n`. */
  lemma NumberedShift(xs: seq<Json>, n: int, line: (int, Json) -> string, rest: seq<string>)
    requires |xs| > 0 && forall i :: 0 <= i < |xs| ==> xs[i].JObject?
    requires |rest| == |xs| - 1
    requires forall j :: 0 <= j < |rest| ==> rest[j] == line((n + 1) + j, Subject(xs[1..][j].fields))
    ensures var ls := [line(n, Subject(xs[0].fields))] + rest;
      forall i :: 0 <= i < |xs| ==> ls[i] == line(n + i, Subject(xs[i].fields))
  {
    var ls := [line(n, Subject(xs[0].fields))] + rest;
    forall i | 1 <= i < |xs|
      ensures ls[i] == line(n + i, Subject(xs[i].fields))
    {
      var j := i - 1;
      assert xs[1..][j] == xs[i];
      assert ls[i] == rest[j];
      assert n + 1 + j == n + i;
    }
  }

  lemma PeriodsStep(x: Json, xs: seq<Json>, n: int, line: (int, Json) -> string)
    requires x.JObject? && Periods(xs, n + 1, line).Ok?
    ensures Periods([x] + xs, n, line) == Ok([line(n, Subject(x.fields))] + Periods(xs, n + 1, line).value)
  {
    assert ([x] + xs)[1..] == xs;
  }

  /** The timetable lines for one date: one numbered line per row, from 1
      in row order, when the rows are a list of objects; the single "no
      timetable" line when there are no rows; otherwise the loop raises. */
  lemma PeriodLinesSpec(prefix: string, rows: Json)
    ensures !Truthy(rows) ==> PeriodLines(prefix, rows) == Ok([prefix + " : 시간표 정보 없음"])
    ensures Truthy(rows) ==>
      (PeriodLines(prefix, rows).Ok? <==> rows.JArray? && forall i :: 0 <= i < |rows.items| ==> rows.items[i].JObject?)
    ensures PeriodLines(prefix, rows).Ok? && Truthy(rows) ==>
      var ls := PeriodLines(prefix, rows).value;
      && |ls| == |rows.items|
      && forall i :: 0 <= i < |ls| ==> ls[i] == PeriodLine(prefix, i + 1, Subject(rows.items[i].fields))
  {
    if Truthy(rows) && rows.JArray? {
      PeriodsFail(rows.items, 1, LineFor(prefix));
      if forall i :: 0 <= i < |rows.items| ==> rows.items[i].JObject? {
        PeriodsSpec(rows.items, 1, LineFor(prefix));
        NumberedIndex(rows.items, 1, LineFor(prefix));
      }
    }
  }

  /** The school-information lines of the refactored version: with a
      non-empty field name, that one field; otherwise name, address and
      telephone; an exception becomes an error line instead. */
  function InformLines(src: Result<Json, Fault>, infoType: Option<string>): seq<string> {
    match FirstRow(src, "schoolInfo")
    case Err(f) => ["정보 조회 오류: " + Message(f)]
    case Ok(row) =>
      if !row.JObject? then ["정보 조회 오류: " + Message(NoAttribute(TypeName(row), "get"))]
      else if infoType.Some? && |infoType.value| > 0 then
        ["학교 정보 - " + infoType.value + ": " + Show(FieldIn(row.fields, infoType, NoInfo))]
      else
        [ "학교명: " + Show(FieldIn(row.fields, Some("SCHUL_NM"), "학교명 없음")),
          "주소: " + Show(FieldIn(row.fields, Some("ORG_RDNMA"), "주소 없음")),
          "전화번호: " + Show(FieldIn(row.fields, Some("ORG_TELNO"), "전화번호 없음")) ]
  }

  /** On a well-formed envelope the refactored version shows one line for
      a named field and three for the summary; on any other value it shows
      exactly one error line. */
  lemma InformLinesSpec(v: Json, infoType: Option<string>)
    ensures var ls := InformLines(Ok(v), infoType);
      match EnvelopeRow(v, "schoolInfo")
      case None => |ls| == 1 && ls[0][..|"정보 조회 오류: "|] == "정보 조회 오류: "
      case Some(fs) =>
        if infoType.Some? && |infoType.value| > 0 then
          ls == ["학교 정보 - " + infoType.value + ": " + Show(FieldIn(fs, infoType, NoInfo))]
        else
          ls == [ "학교명: " + Show(FieldIn(fs, Some("SCHUL_NM"), "학교명 없음")),
                  "주소: " + Show(FieldIn(fs, Some("ORG_RDNMA"), "주소 없음")),
                  "전화번호: " + Show(FieldIn(fs, Some("ORG_TELNO"), "전화번호 없음")) ]
  {
    FirstRowSpec(v, "schoolInfo");
  }

  /** The lines for one date (or, on the single path, for the one
      result) of a known kind. */
  function KindLines(v: Variant, k: Kind, src: Result<Json, Fault>, prefix: string,
                     infoType: Option<string>): Result<seq<string>, Fault>
  {
    match k
    case Lunch =>
      Ok([prefix + " : 급식 " + Show(FieldOr(src, "mealServiceDietInfo", Some("DDISH_NM"), NoMeal))])
    case Schedule => PeriodLines(prefix, RowsOr(src, "hisTimetable"))
    case YearSch =>
      Ok([prefix + " : 일정 " + Show(FieldOr(src, "SchoolSchedule", Some("EVENT_NM"), NoEvent))])
    case Inform =>
      if v == Refactored then Ok(InformLines(src, infoType))
      else Ok([prefix + " : 정보 " + Show(FieldOr(src, "schoolInfo", infoType, NoInfo))])
  }

  /** The body of the loop over the dates: `result[d]` is read inside
      the `try` for the four kinds and outside it for any other name. */
  function PerDate(v: Variant, name: string, fs: seq<(string, Json)>, d: string,
                   infoType: Option<string>): Result<seq<string>, Fault>
  {
    match KindOf(name)
    case None =>
      var x :- Member(fs, d);
      Ok([d + " : " + Show(x)])
    case Some(k) => KindLines(v, k, Member(fs, d), d, infoType)
  }

  /** The loop over the dates; the first exception ends it. */
  function AllDates(v: Variant, name: string, fs: seq<(string, Json)>, ds: seq<string>,
                    infoType: Option<string>): Result<seq<string>, Fault>
    decreases |ds|
  {
    if |ds| == 0 then Ok([])
    else
      var first :- PerDate(v, name, fs, ds[0], infoType);
      var rest :- AllDates(v, name, fs, ds[1..], infoType);
      Ok(first + rest)
  }

  /** `extract_school_api_result(api_name, result, date, info_type)`. */
  function ExtractLines(v: Variant, name: string, result: Json, date: Dates,
                        infoType: Option<string>): Result<seq<string>, Fault>
  {
    if result.JObject? && date.DateList? then AllDates(v, name, result.fields, date.tokens, infoType)
    else
      match KindOf(name)
      case None => Ok([Show(result)])
      case Some(k) => KindLines(v, k, Ok(result), ShowDates(date), infoType)
  }

  /** The dates are handled in list order: the lines for `a + b` are the
      lines for `a` followed by those for `b`, and the first date whose
      handling raises decides the exception. */
  lemma {:induction false} AllDatesAppend(v: Variant, name: string, fs: seq<(string, Json)>,
                                          a: seq<string>, b: seq<string>, infoType: Option<string>)
    ensures AllDates(v, name, fs, a + b, infoType) ==
      match AllDates(v, name, fs, a, infoType)
      case Err(f) => Err(f)
      case Ok(la) =>
        match AllDates(v, name, fs, b, infoType)
        case Err(f) => Err(f)
        case Ok(lb) => Ok(la + lb)
    decreases |a|
  {
    if |a| > 0 {
      assert (a + b)[0] == a[0];
      assert (a + b)[1..] == a[1..] + b;
      AllDatesAppend(v, name, fs, a[1..], b, infoType);
      var p := PerDate(v, name, fs, a[0], infoType);
      var r1 := AllDates(v, name, fs, a[1..], infoType);
      var r2 := AllDates(v, name, fs, b, infoType);
      if p.Ok? && r1.Ok? && r2.Ok? {
        assert p.value + (r1.value + r2.value) == (p.value + r1.value) + r2.value;
      }
    } else {
      assert a + b == b;
      var r := AllDates(v, name, fs, b, infoType);
      if r.Ok? {
        assert [] + r.value == r.value;
      }
    }
  }

  /** What the one line for date `d` shows: the field of the first row of
      `result[d]` when that is a well-formed envelope, and the kind's
      placeholder when the date is missing or its envelope is broken. */
  lemma DateLine(v: Variant, k: Kind, fs: seq<(string, Json)>, d: string, infoType: Option<string>)
    requires OneLineKind(v, k)
    ensures k == Lunch ==>
      KindLines(v, k, Member(fs, d), d, infoType) ==
        Ok([d + " : 급식 " + Shown(fs, d, "mealServiceDietInfo", Some("DDISH_NM"), NoMeal)])
    ensures k == YearSch ==>
      KindLines(v, k, Member(fs, d), d, infoType) ==
        Ok([d + " : 일정 " + Shown(fs, d, "SchoolSchedule", Some("EVENT_NM"), NoEvent)])
    ensures k == Inform ==>
      KindLines(v, k, Member(fs, d), d, infoType) ==
        Ok([d + " : 정보 " + Shown(fs, d, "schoolInfo", infoType, NoInfo)])
  {
    if d in Keys(fs) {
      var x := Lookup(fs, d).value;
      assert Member(fs, d) == Ok(x);
      FieldOrSpec(x, "mealServiceDietInfo", Some("DDISH_NM"), NoMeal);
      FieldOrSpec(x, "SchoolSchedule", Some("EVENT_NM"), NoEvent);
      FieldOrSpec(x, "schoolInfo", infoType, NoInfo);
    }
  }

  /** The text shown for date `d`, read directly off the envelope. */
  function Shown(fs: seq<(string, Json)>, d: string, service: string, key: Option<string>,
                 placeholder: string): string
  {
    match Lookup(fs, d)
    case None => placeholder
    case Some(x) =>
      match EnvelopeRow(x, service)
      case None => placeholder
      case Some(row) => Show(FieldIn(row, key, placeholder))
  }

  /** The kinds whose handling shows exactly one line for each date. */
  predicate OneLineKind(v: Variant, k: Kind) {
    k == Lunch || k == YearSch || (k == Inform && v == SchoolApi)
  }

  /** `l` is the single line the kind shows for date `d`, and it starts
      with the date and the separator. */
  predicate ShownForDate(v: Variant, k: Kind, fs: seq<(string, Json)>, d: string,
                         infoType: Option<string>, l: string) {
    && KindLines(v, k, Member(fs, d), d, infoType) == Ok([l])
    && d + " : " <= l
  }

  /** For meals, events and (in the schoolapi.py version) school
      information, the multi-date path never raises and shows one line per
      requested date, in list order, each headed by its own date. */
  lemma {:induction false} OneLinePerDate(v: Variant, k: Kind, fs: seq<(string, Json)>,
                                          ds: seq<string>, infoType: Option<string>)
    requires OneLineKind(v, k)
    ensures AllDates(v, KindName(k), fs, ds, infoType).Ok?
    ensures var ls := AllDates(v, KindName(k), fs, ds, infoType).value;
      && |ls| == |ds|
      && forall i :: 0 <= i < |ds| ==> ShownForDate(v, k, fs, ds[i], infoType, ls[i])
    decreases |ds|
  {
    if |ds| > 0 {
      var name := KindName(k);
      var tail := ds[1..];
      OneLinePerDate(v, k, fs, tail, infoType);
      var rest := AllDates(v, name, fs, tail, infoType).value;
      var first := KindLines(v, k, Member(fs, ds[0]), ds[0], infoType).value;
      assert KindOf(name) == Some(k);
      assert PerDate(v, name, fs, ds[0], infoType) == Ok(first);
      assert |first| == 1 && first == [first[0]];
      assert ShownForDate(v, k, fs, ds[0], infoType, first[0]);
      assert AllDates(v, name, fs, ds, infoType) == Ok(first + rest);
      OneLineShift(v, k, fs, ds, infoType, first[0], rest);
    }
  }

  lemma OneLineShift(v: Variant, k: Kind, fs: seq<(string, Json)>, ds: seq<string>,
                     infoType: Option<string>, first: string, rest: seq<string>)
    requires |ds| > 0 && |rest| == |ds| - 1
    requires ShownForDate(v, k, fs, ds[0], infoType, first)
    requires forall j :: 0 <= j < |rest| ==> ShownForDate(v, k, fs, ds[1..][j], infoType, rest[j])
    ensures var ls := [first] + rest;
      forall i :: 0 <= i < |ds| ==> ShownForDate(v, k, fs, ds[i], infoType, ls[i])
  {
    ConsPointwise(ds, first, rest, (d, l) => ShownForDate(v, k, fs, d, infoType, l));
  }

  /** A relation that holds for the heads and pointwise for the tails
      holds pointwise for the whole sequences. */
  lemma ConsPointwise<A, B>(xs: seq<A>, y: B, ys: seq<B>, P: (A, B) -> bool)
    requires |xs| > 0 && |ys| == |xs| - 1 && P(xs[0], y)
    requires forall j :: 0 <= j < |ys| ==> P(xs[1..][j], ys[j])
    ensures forall i :: 0 <= i < |xs| ==> P(xs[i], ([y] + ys)[i])
  {
    forall i | 1 <= i < |xs|
      ensures P(xs[i], ([y] + ys)[i])
    {
      assert xs[1..][i - 1] == xs[i];
      assert ([y] + ys)[i] == ys[i - 1];
    }
  }
}
