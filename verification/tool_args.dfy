/** `validate_and_prepare_args`: the check the chatbot applies to the
    arguments the language model chose for `get_school_info`, and the
    tool call that follows it. Every raised exception becomes `Err` with
    the text `str(e)` that is handed back to the model. */
module ToolArgs {
  import opened Wrappers
  import opened Text
  import opened Dicts
  import opened Json
  import opened Calendar
  import opened Ymd
  import opened DateTokens
  import opened Query
  import opened Extract
  import opened SchoolInfo

  /** The validated arguments: the kind, the dates and the optional
      timetable and information fields. */
  datatype Args = Args(api: Kind, date: Dates, grade: Option<int>, classnum: Option<int>, infoType: Option<string>)

  const BadDate := "잘못된 날짜 형식"

  function Rejected(api: Json): string {
    "허용되지 않는 api_name: " + Show(api)
  }

  /** `args.get(key)`: `None` for an absent key. */
  function GetOrNone(fs: seq<(string, Json)>, key: string): (r: Json)
    ensures key in Keys(fs) ==> Lookup(fs, key) == Some(r)
    ensures key !in Keys(fs) ==> r == JNull
  {
    var found: Option<Json> := Lookup(fs, key);
    if found.Some? then found.value else JNull
  }

  /** `args.get(key)` when the key is present and its value is not `None`. */
  function Present(fs: seq<(string, Json)>, key: string): (r: Option<Json>)
    ensures r.Some? <==> key in Keys(fs) && Lookup(fs, key) != Some(JNull)
    ensures r.Some? ==> Lookup(fs, key) == r && !r.value.JNull?
  {
    var found: Option<Json> := Lookup(fs, key);
    match found
    case Some(x) => if x.JNull? then None else Some(x)
    case None => None
  }

  /** `if not api_name or api_name not in allowed: raise ValueError(...)`;
      a non-empty list or dict cannot be looked up in a set at all. */
  function ApiOf(api: Json): (r: Result<Kind, string>)
    ensures r.Ok? <==> api.JString? && KindOf(api.s).Some?
    ensures r.Ok? ==> api == JString(KindName(r.value))
  {
    if !Truthy(api) then Err(Rejected(api))
    else if api.JString? then
      (if KindOf(api.s).Some? then Ok(KindOf(api.s).value) else Err(Rejected(api)))
    else if api.JArray? || api.JObject? then Err("unhashable type: " + Quote(TypeName(api)))
    else Err(Rejected(api))
  }

  /** Python's `int(s)` on a string: surrounding whitespace, an optional
      sign and at least one ASCII digit. */
  function ParseInt(s: string): Option<int> {
    ParseSigned(Strip(s))
  }

  /** An optional sign and at least one ASCII digit, nothing else. */
  function ParseSigned(t: string): Option<int> {
    var negative := |t| > 0 && t[0] == '-';
    var digits := if |t| > 0 && (t[0] == '-' || t[0] == '+') then t[1..] else t;
    if |digits| > 0 && AllDigits(digits) then
      var n: int := Value(digits);
      Some(if negative then -n else n)
    else None
  }

  /** The `ValueError` text of `int()` on a string it cannot read. */
  function InvalidLiteral(s: string): string {
    "invalid literal for int() with base 10: " + Quote(s)
  }

  /** The `TypeError` text of `int()` on a value of another type. */
  function NotANumber(typeName: string): string {
    "int() argument must be a string, a bytes-like object or a real number, not " + Quote(typeName)
  }

  /** Python's `int(v)` on a decoded JSON value. */
  function IntOf(v: Json): (r: Result<int, string>)
    ensures v.JInt? ==> r == Ok(v.i)
    ensures v.JBool? ==> r == Ok(if v.b then 1 else 0)
    ensures v.JString? ==> (r.Ok? <==> ParseInt(v.s).Some?)
    ensures v.JString? && ParseInt(v.s).Some? ==> r == Ok(ParseInt(v.s).value)
    ensures v.JNull? || v.JArray? || v.JObject? ==> r.Err?
  {
    if v.JInt? then Ok(v.i)
    else if v.JBool? then Ok(if v.b then 1 else 0)
    else if v.JString? then
      (if ParseInt(v.s).Some? then Ok(ParseInt(v.s).value) else Err(InvalidLiteral(v.s)))
    else Err(NotANumber(TypeName(v)))
  }

  /** `str(i)` read back by `int()` gives the integer. */
  lemma {:induction false} IntOfShown(i: int)
    ensures IntOf(JString(IntToString(i))) == Ok(i)
  {
    var s := IntToString(i);
    if i < 0 {
      ParseIntNegative(-i, s);
    } else {
      ParseIntNatural(i, s);
    }
  }

  lemma ParseIntNatural(n: nat, s: string)
    requires s == NatToString(n)
    ensures ParseInt(s) == Some(n)
  {
    assert |s| >= 1 && AllDigits(s) && Value(s) == n;
    ParseIntDigits(s);
  }

  lemma ParseIntNegative(n: nat, s: string)
    requires n > 0 && s == "-" + NatToString(n)
    ensures ParseInt(s) == Some(-(n as int))
  {
    var d := NatToString(n);
    assert |d| >= 1 && AllDigits(d) && Value(d) == n;
    ParseIntMinus(d, s);
  }

  /** A JSON integer coerces exactly as its decimal text does. */
  lemma IntOfNumberText(i: int)
    ensures IntOf(JInt(i)) == IntOf(JString(Show(JInt(i))))
  {
    IntOfShown(i);
  }

  /** Surrounding whitespace does not change what `int()` reads; only the
      text of a refusal quotes the string as given. */
  lemma IntOfIgnoresSpace(s: string)
    ensures IntOf(JString(s)).Ok? <==> IntOf(JString(Strip(s))).Ok?
    ensures IntOf(JString(s)).Ok? ==> IntOf(JString(s)) == IntOf(JString(Strip(s)))
  {
    ParseIntStrip(s);
  }

  lemma ParseIntStrip(s: string)
    ensures ParseInt(Strip(s)) == ParseInt(s)
  {
    StripIdempotent(s);
  }

  /** A digit string reads as its decimal value; a `+` sign changes
      nothing and a `-` sign negates. */
  lemma IntOfSigned(d: string)
    requires |d| > 0 && AllDigits(d)
    ensures IntOf(JString(d)) == Ok(Value(d))
    ensures IntOf(JString("+" + d)) == Ok(Value(d))
    ensures IntOf(JString("-" + d)) == Ok(-(Value(d) as int))
  {
    ParseIntDigits(d);
    ParseIntPlus(d, "+" + d);
    ParseIntMinus(d, "-" + d);
  }

  lemma ParseIntPlus(d: string, x: string)
    requires |d| > 0 && AllDigits(d) && x == "+" + d
    ensures ParseInt(x) == Some(Value(d))
  {
    assert x[|x| - 1] == d[|d| - 1] && IsDigit(d[|d| - 1]);
    StripOfStripped(x);
    assert x[1..] == d;
  }

  lemma ParseIntMinus(d: string, x: string)
    requires |d| > 0 && AllDigits(d) && x == "-" + d
    ensures ParseInt(x) == Some(-(Value(d) as int))
  {
    assert x[|x| - 1] == d[|d| - 1] && IsDigit(d[|d| - 1]);
    StripOfStripped(x);
    assert x[1..] == d;
  }

  lemma ParseIntDigits(d: string)
    requires |d| > 0 && AllDigits(d)
    ensures ParseInt(d) == Some(Value(d))
  {
    assert IsDigit(d[0]) && IsDigit(d[|d| - 1]);
    StripOfStripped(d);
    assert d[0] != '-' && d[0] != '+';
    assert ParseSigned(d) == Some(Value(d));
  }

  /** `int()` accepts a string only if it holds a digit. */
  lemma IntOfNeedsDigit(s: string)
    ensures IntOf(JString(s)).Ok? ==> exists k :: 0 <= k < |s| && IsDigit(s[k])
  {
    var t := Strip(s);
    if ParseInt(s).Some? {
      var j := if t[0] == '-' || t[0] == '+' then 1 else 0;
      assert IsDigit(t[j]);
      var a, b :| 0 <= a <= b <= |s| && t == s[a..b];
      assert s[a + j] == t[j];
    }
  }

  /** An optional integer argument: absent or `None` gives `None`. */
  function OptionalInt(fs: seq<(string, Json)>, key: string): (r: Result<Option<int>, string>)
    ensures Present(fs, key).None? ==> r == Ok(None)
    ensures Present(fs, key).Some? ==> (r.Ok? <==> IntOf(Present(fs, key).value).Ok?)
    ensures r.Ok? && r.value.Some? ==> IntOf(Present(fs, key).value) == Ok(r.value.value)
  {
    match Present(fs, key)
    case None => Ok(None)
    case Some(x) =>
      var n :- IntOf(x);
      Ok(Some(n))
  }

  /** `str(args.get("info_type"))` when present and not `None`. */
  function InfoTypeOf(fs: seq<(string, Json)>): (r: Option<string>)
    ensures r.Some? <==> Present(fs, "info_type").Some?
    ensures r.Some? ==> r.value == Show(Present(fs, "info_type").value)
  {
    match Present(fs, "info_type")
    case None => None
    case Some(x) => Some(Show(x))
  }

  /** `str(d)` of every item of a list. */
  function ShowEach(xs: seq<Json>): (r: seq<string>)
    ensures |r| == |xs| && forall i :: 0 <= i < |xs| ==> r[i] == Show(xs[i])
  {
    if |xs| == 0 then [] else [Show(xs[0])] + ShowEach(xs[1..])
  }

  /** `[normalize_date_token(d) for d in toks]`, kept only when no entry is
      `None`. */
  function NormalizeAll(toks: seq<string>, anchor: Date): (r: Option<seq<string>>)
    requires Valid(anchor)
    ensures r.Some? ==> |r.value| == |toks|
    ensures r.Some? ==> forall i :: 0 <= i < |toks| ==> NormalizeDateToken(toks[i], anchor) == Some(r.value[i])
    ensures r.None? ==> exists i :: 0 <= i < |toks| && NormalizeDateToken(toks[i], anchor).None?
  {
    if |toks| == 0 then Some([])
    else
      match NormalizeDateToken(toks[0], anchor)
      case None => None
      case Some(n) =>
        match NormalizeAll(toks[1..], anchor)
        case None => None
        case Some(ns) => Some([n] + ns)
  }

  /** `[p.strip() for p in parts if p.strip()]`. */
  function Pieces(parts: seq<string>): (r: seq<string>)
    ensures forall x :: x in r ==> x != [] && Strip(x) == x
  {
    if |parts| == 0 then []
    else
      var rest := Pieces(parts[1..]);
      var p := Strip(parts[0]);
      if p == [] then rest
      else
        StripOfStripped(p);
        [p] + rest
  }

  /** The comprehension works part by part: the pieces of `a + b` are the
      pieces of `a` followed by those of `b`. */
  lemma {:induction false} PiecesAppend(a: seq<string>, b: seq<string>)
    ensures Pieces(a + b) == Pieces(a) + Pieces(b)
    decreases |a|
  {
    if |a| > 0 {
      assert (a + b)[1..] == a[1..] + b;
      PiecesAppend(a[1..], b);
    } else {
      assert a + b == b;
    }
  }

  /** One part gives its stripped form, or nothing when that is empty. */
  lemma PiecesOne(p: string)
    ensures Pieces([p]) == if Strip(p) == [] then [] else [Strip(p)]
  {
    assert [p][1..] == [];
  }

  /** A list of date tokens, normalised as a whole or refused as a whole. */
  function DateListOf(toks: seq<string>, anchor: Date): (r: Result<Dates, string>)
    requires Valid(anchor)
    ensures r.Err? ==> r.error == BadDate
    ensures r.Ok? <==> forall i :: 0 <= i < |toks| ==> NormalizeDateToken(toks[i], anchor).Some?
    ensures r.Ok? ==>
      && r.value.DateList? && |r.value.tokens| == |toks|
      && forall i :: 0 <= i < |toks| ==> NormalizeDateToken(toks[i], anchor) == Some(r.value.tokens[i])
    ensures r.Ok? ==> CalendarDates(r.value)
  {
    var ns := NormalizeAll(toks, anchor);
    if ns.None? then Err(BadDate) else Ok(DateList(ns.value))
  }

  /** The `date` argument: a list is normalised item by item; a string
      with a comma is split, stripped and normalised piece by piece; any
      other string must normalise; anything else sends no date. */
  function DatesOf(date: Json, anchor: Date): (r: Result<Dates, string>)
    requires Valid(anchor)
    ensures r.Err? ==> r.error == BadDate
    ensures r.Ok? ==> CalendarDates(r.value)
    ensures !(date.JArray? || date.JString?) ==> r == Ok(NoDate)
  {
    if date.JArray? then DateListOf(ShowEach(date.items), anchor)
    else if date.JString? then
      if ',' in date.s then DateListOf(Pieces(Split(date.s, ',')), anchor)
      else
        var n := NormalizeDateToken(date.s, anchor);
        if n.None? then Err(BadDate) else Ok(OneDate(n.value))
    else Ok(NoDate)
  }

  /** Every date the model sends on is an 8-digit calendar date. */
  predicate CalendarDates(date: Dates) {
    match date
    case NoDate => true
    case OneDate(t) => IsCalendarDate(t)
    case DateList(ts) => forall i :: 0 <= i < |ts| ==> IsCalendarDate(ts[i])
  }

  /** A list is accepted exactly when every item normalises, and then
      keeps one date per item, in order. */
  lemma DatesOfList(date: Json, anchor: Date)
    requires Valid(anchor) && date.JArray?
    ensures var r := DatesOf(date, anchor);
      && (r.Ok? <==> forall i :: 0 <= i < |date.items| ==> NormalizeDateToken(Show(date.items[i]), anchor).Some?)
      && (r.Ok? ==>
            && r.value.DateList? && |r.value.tokens| == |date.items|
            && forall i :: 0 <= i < |date.items| ==> NormalizeDateToken(Show(date.items[i]), anchor) == Some(r.value.tokens[i]))
  {
    var toks := ShowEach(date.items);
    assert forall i :: 0 <= i < |date.items| ==> toks[i] == Show(date.items[i]);
  }

  /** A string with a comma is accepted exactly when every non-empty
      stripped piece normalises, and then keeps one date per piece, in
      order. */
  lemma DatesOfCommaString(date: Json, anchor: Date)
    requires Valid(anchor) && date.JString? && ',' in date.s
    ensures var r := DatesOf(date, anchor);
      var ps := Pieces(Split(date.s, ','));
      && (r.Ok? <==> forall i :: 0 <= i < |ps| ==> NormalizeDateToken(ps[i], anchor).Some?)
      && (r.Ok? ==>
            && r.value.DateList? && |r.value.tokens| == |ps|
            && forall i :: 0 <= i < |ps| ==> NormalizeDateToken(ps[i], anchor) == Some(r.value.tokens[i]))
  {
  }

  /** A string without a comma is judged as a one-item list would be,
      but gives a single date rather than a list; a calendar date is
      accepted as it is. */
  lemma DatesOfOneString(date: Json, anchor: Date)
    requires Valid(anchor) && date.JString? && ',' !in date.s
    ensures DatesOf(date, anchor) ==
      if NormalizeDateToken(date.s, anchor).Some? then Ok(OneDate(NormalizeDateToken(date.s, anchor).value)) else Err(BadDate)
    ensures var one, list := DatesOf(date, anchor), DatesOf(JArray([date]), anchor);
      && (one.Ok? <==> list.Ok?)
      && (one.Ok? ==> one.value.OneDate? && list.value == DateList([one.value.token]))
    ensures IsCalendarDate(date.s) ==> DatesOf(date, anchor) == Ok(OneDate(date.s))
  {
    var list := DatesOf(JArray([date]), anchor);
    DatesOfList(JArray([date]), anchor);
    if list.Ok? {
      assert list.value.tokens == [list.value.tokens[0]];
    }
    if IsCalendarDate(date.s) {
      CalendarDateAccepted(date.s, anchor);
    }
  }

  /** `validate_and_prepare_args(args)`, with `anchor` for today's date in
      Korea. */
  function Validate(args: Json, anchor: Date): (r: Result<Args, string>)
    requires Valid(anchor)
    ensures !args.JObject? ==> r == Err(Message(NoAttribute(TypeName(args), "get")))
    ensures r.Ok? ==> args.JObject? && Lookup(args.fields, "api_name") == Some(JString(KindName(r.value.api)))
    ensures r.Ok? ==> CalendarDates(r.value.date)
    ensures r.Ok? ==> r.value.infoType == InfoTypeOf(args.fields)
    ensures args.JObject? && GetOrNone(args.fields, "api_name") == JString("inform") ==>
      r == Ok(Args(Inform, NoDate, None, None, InfoTypeOf(args.fields)))
    ensures args.JObject? && ApiOf(GetOrNone(args.fields, "api_name")).Err? ==>
      r == Err(ApiOf(GetOrNone(args.fields, "api_name")).error)
    ensures r.Ok? && r.value.api != Inform ==> Ok(r.value.date) == DatesOf(GetOrNone(args.fields, "date"), anchor)
  {
    if !args.JObject? then Err(Message(NoAttribute(TypeName(args), "get")))
    else
      var fs := args.fields;
      var api :- ApiOf(GetOrNone(fs, "api_name"));
      if api == Inform then Ok(Args(Inform, NoDate, None, None, InfoTypeOf(fs)))
      else
        var date :- DatesOf(GetOrNone(fs, "date"), anchor);
        var grade :- OptionalInt(fs, "grade");
        var classnum :- OptionalInt(fs, "classnum");
        Ok(Args(api, date, grade, classnum, InfoTypeOf(fs)))
  }

  /** An integer argument is left out when absent or `None`, and must
      otherwise be read by `int()`. */
  predicate Coercible(fs: seq<(string, Json)>, key: string) {
    Lookup(fs, key).None? || Lookup(fs, key).value.JNull? || IntOf(Lookup(fs, key).value).Ok?
  }

  /** What an accepted call keeps of the optional fields: `info_type`, as
      its `str()`, exactly when it is bound to something other than
      `None`; and for every kind but inform, `grade` and `classnum`
      exactly when they are bound to something other than `None`, as
      `int()` reads them. */
  lemma ValidateOptionalFields(args: Json, anchor: Date)
    requires Valid(anchor)
    ensures var r := Validate(args, anchor);
      r.Ok? ==> args.JObject? && var fs := args.fields;
        && (r.value.infoType.Some? <==> "info_type" in Keys(fs) && Lookup(fs, "info_type") != Some(JNull))
        && (r.value.infoType.Some? ==> r.value.infoType.value == Show(Lookup(fs, "info_type").value))
    ensures var r := Validate(args, anchor);
      r.Ok? && r.value.api != Inform ==> args.JObject? && var fs := args.fields;
        && (r.value.grade.Some? <==> "grade" in Keys(fs) && Lookup(fs, "grade") != Some(JNull))
        && (r.value.grade.Some? ==> IntOf(Lookup(fs, "grade").value) == Ok(r.value.grade.value))
        && (r.value.classnum.Some? <==> "classnum" in Keys(fs) && Lookup(fs, "classnum") != Some(JNull))
        && (r.value.classnum.Some? ==> IntOf(Lookup(fs, "classnum").value) == Ok(r.value.classnum.value))
  {
  }

  /** Once the name and the dates pass, the call is accepted exactly when
      `grade` and `classnum` can be coerced; otherwise `int()`'s own error
      rejects it, the grade's first. */
  lemma ValidateIntErrors(args: Json, anchor: Date)
    requires Valid(anchor) && args.JObject?
    requires ApiOf(GetOrNone(args.fields, "api_name")).Ok?
    requires ApiOf(GetOrNone(args.fields, "api_name")).value != Inform
    requires DatesOf(GetOrNone(args.fields, "date"), anchor).Ok?
    ensures var fs, r := args.fields, Validate(args, anchor);
      && (r.Ok? <==> Coercible(fs, "grade") && Coercible(fs, "classnum"))
      && (!Coercible(fs, "grade") ==> r == Err(IntOf(Lookup(fs, "grade").value).error))
      && (Coercible(fs, "grade") && !Coercible(fs, "classnum") ==>
            r == Err(IntOf(Lookup(fs, "classnum").value).error))
  {
  }

  /** A calendar date is its own stripped form and holds no comma. */
  lemma CalendarDateShape(d: string)
    requires IsCalendarDate(d)
    ensures d != [] && ',' !in d && Strip(d) == d
  {
    assert IsDigit(d[0]) && IsDigit(d[|d| - 1]);
    StripOfStripped(d);
    assert forall j :: 0 <= j < |d| ==> IsDigit(d[j]);
  }

  /** The normaliser accepts a calendar date unchanged. */
  lemma CalendarDateAccepted(d: string, anchor: Date)
    requires Valid(anchor) && IsCalendarDate(d)
    ensures NormalizeDateToken(d, anchor) == Some(d)
  {
    CalendarDateShape(d);
    NormalizeEightDigits(d, anchor);
  }

  /** Dates accepted as they are: eight digits naming a real day. */
  lemma NormalizeAllDates(ds: seq<string>, anchor: Date)
    requires Valid(anchor)
    requires forall i :: 0 <= i < |ds| ==> IsCalendarDate(ds[i])
    ensures NormalizeAll(ds, anchor) == Some(ds)
  {
    forall i | 0 <= i < |ds|
      ensures NormalizeDateToken(ds[i], anchor) == Some(ds[i])
    {
      CalendarDateAccepted(ds[i], anchor);
    }
    var r := NormalizeAll(ds, anchor);
    assert r.Some?;
    assert r.value == ds;
  }

  /** Pieces that are already stripped and non-empty are all kept. */
  lemma {:induction false} PiecesOfStripped(parts: seq<string>)
    requires forall i :: 0 <= i < |parts| ==> parts[i] != [] && Strip(parts[i]) == parts[i]
    ensures Pieces(parts) == parts
    decreases |parts|
  {
    if |parts| > 0 {
      var tail := parts[1..];
      assert forall i :: 0 <= i < |tail| ==> tail[i] == parts[i + 1];
      PiecesOfStripped(tail);
      assert parts == [parts[0]] + tail;
    }
  }

  /** Two or more parts joined by commas contain a comma. */
  lemma CommaInJoin(ds: seq<string>)
    requires |ds| >= 2
    ensures ',' in Join(ds, ',')
  {
    var s := Join(ds, ',');
    assert s == ds[0] + [','] + Join(ds[1..], ',');
    assert s[|ds[0]|] == ',';
  }

  /** Calendar dates joined by commas split back into the same dates. */
  lemma SplitJoinedDates(ds: seq<string>)
    requires |ds| >= 1
    requires forall i :: 0 <= i < |ds| ==> IsCalendarDate(ds[i])
    ensures Split(Join(ds, ','), ',') == ds
  {
    forall i | 0 <= i < |ds|
      ensures ',' !in ds[i]
    {
      CalendarDateShape(ds[i]);
    }
    SplitOfJoin(ds, ',');
  }

  /** Calendar dates are kept whole by the strip-and-filter step. */
  lemma PiecesOfDates(ds: seq<string>)
    requires forall i :: 0 <= i < |ds| ==> IsCalendarDate(ds[i])
    ensures Pieces(ds) == ds
  {
    forall i | 0 <= i < |ds|
      ensures ds[i] != [] && Strip(ds[i]) == ds[i]
    {
      CalendarDateShape(ds[i]);
    }
    PiecesOfStripped(ds);
  }

  /** Several calendar dates written as one comma-separated string are
      read back as the same dates, in the same order. */
  lemma CommaSeparatedDates(ds: seq<string>, anchor: Date)
    requires Valid(anchor)
    requires |ds| >= 2
    requires forall i :: 0 <= i < |ds| ==> IsCalendarDate(ds[i])
    ensures DatesOf(JString(Join(ds, ',')), anchor) == Ok(DateList(ds))
  {
    CommaInJoin(ds);
    SplitJoinedDates(ds);
    PiecesOfDates(ds);
    NormalizeAllDates(ds, anchor);
    assert DateListOf(ds, anchor) == Ok(DateList(ds));
  }

  /** A date list that is not accepted whole is refused whole: one bad
      item rejects the request, whatever the other items are. */
  lemma OneBadDateRejectsAll(args: Json, anchor: Date, i: nat)
    requires Valid(anchor) && args.JObject?
    requires ApiOf(GetOrNone(args.fields, "api_name")).Ok?
    requires ApiOf(GetOrNone(args.fields, "api_name")).value != Inform
    requires GetOrNone(args.fields, "date").JArray?
    requires var xs := GetOrNone(args.fields, "date").items;
      i < |xs| && NormalizeDateToken(Show(xs[i]), anchor).None?
    ensures Validate(args, anchor) == Err(BadDate)
  {
    DatesOfList(GetOrNone(args.fields, "date"), anchor);
  }

  /** What one function call of the language model produces: the lines for
      the model (or the exception text) and the requests sent to NEIS. */
  datatype Turn = Turn(content: Result<seq<string>, string>, requests: seq<Request>)

  /** How many requests a validated date argument leads to: one per
      listed date, and one for a single date or none. */
  function RequestCount(date: Dates): nat {
    if date.DateList? then |date.tokens| else 1
  }

  /** Validate the arguments, then `get_school_info(api_name, **validated)`
      of chatshhs_refactored.py; any exception becomes its text. */
  function ToolCall(args: Json, anchor: Date, key: Option<string>, fetch: Request -> Fetched): (t: Turn)
    requires Valid(anchor)
    ensures Validate(args, anchor).Err? ==> t == Turn(Err(Validate(args, anchor).error), [])
    ensures Validate(args, anchor).Ok? ==> |t.requests| == RequestCount(Validate(args, anchor).value.date)
    ensures |t.requests| > 0 ==>
      && args.JObject? && GetOrNone(args.fields, "api_name").JString?
      && KindOf(GetOrNone(args.fields, "api_name").s).Some?
  {
    match Validate(args, anchor)
    case Err(e) => Turn(Err(e), [])
    case Ok(a) =>
      var name := KindName(a.api);
      assert KindOf(name) == Some(a.api);
      CallRequests(Refactored, key, name, a.date, a.grade, a.classnum, fetch);
      var lines := SchoolInfo.Lines(key, name, a.date, a.grade, a.classnum, a.infoType, fetch);
      var requests := Call(Refactored, key, name, a.date, a.grade, a.classnum, fetch).requests;
      Turn(if lines.Ok? then Ok(lines.value) else Err(Message(lines.error)), requests)
  }

  /** Every date parameter of a request holds a calendar date. */
  ghost predicate SendsCalendarDates(r: Request) {
    forall p, v :: (p, v) in r.query ==> (IsDateParam(p) ==> IsCalendarDate(v))
  }

  /** A request built for a calendar date (or for none) carries only
      calendar dates. */
  lemma RequestDates(key: Option<string>, k: Kind, date: Option<string>, grade: Option<int>, classnum: Option<int>)
    requires date.Some? ==> IsCalendarDate(date.value)
    ensures SendsCalendarDates(RequestFor(key, k, date, grade, classnum))
  {
    DateParamCarriesDate(key, k, date, grade, classnum);
  }

  /** The requests one validated call sends, with the facts the call
      lemmas give about them. */
  lemma ValidatedRequests(a: Args, key: Option<string>, fetch: Request -> Fetched)
    requires CalendarDates(a.date)
    ensures var rs := Call(Refactored, key, KindName(a.api), a.date, a.grade, a.classnum, fetch).requests;
      forall j :: 0 <= j < |rs| ==> SendsCalendarDates(rs[j]) && rs[j].url == BaseUrl(a.api)
  {
    var name := KindName(a.api);
    assert KindOf(name) == Some(a.api);
    CallRequests(Refactored, key, name, a.date, a.grade, a.classnum, fetch);
    match a.date
    case NoDate =>
      RequestDates(key, a.api, None, a.grade, a.classnum);
    case OneDate(d) =>
      RequestDates(key, a.api, Some(d), a.grade, a.classnum);
    case DateList(ds) =>
      forall j | 0 <= j < |ds|
        ensures SendsCalendarDates(RequestFor(key, a.api, Some(ds[j]), a.grade, a.classnum))
      {
        RequestDates(key, a.api, Some(ds[j]), a.grade, a.classnum);
      }
  }

  /** Whatever the language model asks for, every request the chatbot
      sends goes to the endpoint of the validated kind, and every date it
      sends to NEIS is an 8-digit calendar date. */
  lemma ToolCallSendsCalendarDates(args: Json, anchor: Date, key: Option<string>, fetch: Request -> Fetched)
    requires Valid(anchor)
    ensures var t := ToolCall(args, anchor, key, fetch);
      forall j :: 0 <= j < |t.requests| ==>
        SendsCalendarDates(t.requests[j]) && t.requests[j].url == BaseUrl(Validate(args, anchor).value.api)
  {
    if Validate(args, anchor).Ok? {
      ValidatedRequests(Validate(args, anchor).value, key, fetch);
    }
  }
}
