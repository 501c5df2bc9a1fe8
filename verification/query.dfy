/** `call_school_api`, in both of its versions: the fixed NEIS request
    parameters, the per-kind additions, and the fan-out over a list of
    dates. The HTTP round trip is the parameter `fetch`; what it answers
    is taken as a function of the request. */
module Query {
  import opened Wrappers
  import opened Text
  import opened Dicts
  import opened Json

  /** The four NEIS services the program knows. */
  datatype Kind = Lunch | Schedule | Inform | YearSch

  function KindName(k: Kind): string {
    match k
    case Lunch => "lunch"
    case Schedule => "schedule"
    case Inform => "inform"
    case YearSch => "year_sch"
  }

  /** The kind an `api_name` selects, if any. */
  function KindOf(name: string): (r: Option<Kind>)
    ensures r.Some? ==> KindName(r.value) == name
    ensures forall k :: KindName(k) == name ==> r == Some(k)
  {
    if name == "lunch" then Some(Lunch)
    else if name == "schedule" then Some(Schedule)
    else if name == "inform" then Some(Inform)
    else if name == "year_sch" then Some(YearSch)
    else None
  }

  function BaseUrl(k: Kind): string {
    match k
    case Lunch => "https://open.neis.go.kr/hub/mealServiceDietInfo"
    case Schedule => "https://open.neis.go.kr/hub/hisTimetable"
    case Inform => "https://open.neis.go.kr/hub/schoolInfo"
    case YearSch => "https://open.neis.go.kr/hub/SchoolSchedule"
  }

  /** The query parameters the program sends, by their NEIS names. */
  datatype Param =
    | ApiKey | ResponseType | OfficeCode | SchoolCode | PageSize
    | MealDate | Grade | ClassName | TimetableDate | ScheduleDate

  function ParamName(p: Param): string {
    match p
    case ApiKey => "KEY"
    case ResponseType => "Type"
    case OfficeCode => "ATPT_OFCDC_SC_CODE"
    case SchoolCode => "SD_SCHUL_CODE"
    case PageSize => "pSize"
    case MealDate => "MLSV_YMD"
    case Grade => "GRADE"
    case ClassName => "CLASS_NM"
    case TimetableDate => "ALL_TI_YMD"
    case ScheduleDate => "AA_YMD"
  }

  /** The query parameter that carries the date, for the kinds that take one. */
  function DateParam(k: Kind): Option<Param> {
    match k
    case Lunch => Some(MealDate)
    case Schedule => Some(TimetableDate)
    case Inform => None
    case YearSch => Some(ScheduleDate)
  }

  /** The rows per page each kind asks for. */
  function PageLength(k: Kind): string {
    match k
    case Lunch => "1"
    case Schedule => "20"
    case Inform => "10"
    case YearSch => "1"
  }

  /** The `date` argument: absent (`None`), one token, or a list of tokens. */
  datatype Dates = NoDate | OneDate(token: string) | DateList(tokens: seq<string>)

  /** One HTTP GET: the endpoint and the query string pairs in order. */
  datatype Request = Request(url: string, query: seq<(Param, string)>)

  /** What the HTTP layer gives back: a decoded JSON body, or the text of
      the exception `requests` or `raise_for_status` raised. */
  datatype Fetched = Body(json: Json) | Failure(reason: string)

  /** Which file's version of the function: the two differ only in what
      they do without a service key. */
  datatype Variant = Refactored | SchoolApi

  function Rendered(n: Option<int>): Option<string> {
    match n
    case None => None
    case Some(i) => Some(IntToString(i))
  }

  /** One `params` entry as `requests` encodes it: left out when its
      value is `None`. */
  function Entry(p: Param, v: Option<string>): (e: seq<(Param, string)>)
    ensures forall q, x :: (q, x) in e <==> q == p && v == Some(x)
  {
    if v.Some? then [(p, v.value)] else []
  }

  /** The entries common to every request. */
  const CommonEntries: seq<(Param, string)> := [(ResponseType, "json"), (OfficeCode, "J10"), (SchoolCode, "7530081")]

  /** The entries the `if` chain of `single_query` adds for kind `k`. */
  function KindEntries(k: Kind, date: Option<string>, grade: Option<int>, classnum: Option<int>): seq<(Param, string)> {
    match k
    case Lunch => Entry(MealDate, date) + [(PageSize, "1")]
    case Schedule =>
      Entry(Grade, Rendered(grade)) + Entry(ClassName, Rendered(classnum))
      + Entry(TimetableDate, date) + [(PageSize, "20")]
    case Inform => [(PageSize, "10")]
    case YearSch => Entry(ScheduleDate, date) + [(PageSize, "1")]
  }

  /** The query string of `single_query`'s `params` dict: the key, the
      fixed entries, then what the kind adds, in `update` order. */
  function ParamTable(key: Option<string>, k: Kind, date: Option<string>,
                      grade: Option<int>, classnum: Option<int>): seq<(Param, string)>
  {
    Entry(ApiKey, key) + CommonEntries + KindEntries(k, date, grade, classnum)
  }

  /** The `requests.get` that `single_query` issues for a known kind. */
  function RequestFor(key: Option<string>, k: Kind, date: Option<string>,
                      grade: Option<int>, classnum: Option<int>): Request
  {
    Request(BaseUrl(k), ParamTable(key, k, date, grade, classnum))
  }

  const Unsupported := "지원하지 않는 API"
  const NoKey := "NEIS API 키가 설정되지 않았습니다. .streamlit/secrets.toml 파일에 추가하거나 NEIS_API_KEY 환경 변수를 설정해주세요."

  /** The value `single_query` returns for a fetched reply. */
  function Reply(f: Fetched): Json {
    match f
    case Body(j) => j
    case Failure(e) => JString("API 호출 오류: " + e)
  }

  /** A returned value with the requests issued to compute it. */
  datatype Answer = Answer(value: Json, requests: seq<Request>)

  /** `single_query(single_date)`: a known name issues exactly one
      request, to that kind's endpoint, and answers with the reply to it;
      an unknown name issues none and answers "not supported". */
  function Single(key: Option<string>, name: string, date: Option<string>,
                  grade: Option<int>, classnum: Option<int>, fetch: Request -> Fetched): (a: Answer)
    ensures |a.requests| <= 1
    ensures a.requests == [] <==> KindOf(name).None?
    ensures a.requests == [] ==> a.value == JString(Unsupported)
    ensures a.requests != [] ==>
      && a.requests[0].url == BaseUrl(KindOf(name).value)
      && a.value == Reply(fetch(a.requests[0]))
  {
    match KindOf(name)
    case None => Answer(JString(Unsupported), [])
    case Some(k) =>
      var req := RequestFor(key, k, date, grade, classnum);
      Answer(Reply(fetch(req)), [req])
  }

  /** The dict the loop `for d in date: results[d] = one(d)` builds,
      where `one` is `single_query`. */
  function Results(ds: seq<string>, one: string -> Answer): (r: seq<(string, Json)>)
    ensures UniqueKeys(r)
    ensures forall d :: d in Keys(r) <==> d in ds
    decreases |ds|
  {
    if |ds| == 0 then []
    else
      var d := ds[|ds| - 1];
      assert forall e :: e in ds <==> e in ds[..|ds| - 1] || e == d;
      Assign(Results(ds[..|ds| - 1], one), d, one(d).value)
  }

  /** The requests that loop issues, in order. */
  function Issued(ds: seq<string>, one: string -> Answer): seq<Request>
    decreases |ds|
  {
    if |ds| == 0 then [] else Issued(ds[..|ds| - 1], one) + one(ds[|ds| - 1]).requests
  }

  function FanOut(ds: seq<string>, one: string -> Answer): Answer {
    Answer(JObject(Results(ds, one)), Issued(ds, one))
  }

  /** Each requested date is bound to the answer of its own query. */
  lemma {:induction false} FanOutValues(ds: seq<string>, one: string -> Answer)
    ensures forall i :: 0 <= i < |ds| ==> Lookup(Results(ds, one), ds[i]) == Some(one(ds[i]).value)
    decreases |ds|
  {
    if |ds| > 0 {
      var n := |ds| - 1;
      FanOutValues(ds[..n], one);
      assert forall i :: 0 <= i < n ==> ds[..n][i] == ds[i];
    }
  }

  /** When every single query issues one request, the loop issues one per
      date, in list order. */
  lemma {:induction false} FanOutRequests(ds: seq<string>, one: string -> Answer)
    requires forall d :: |one(d).requests| == 1
    ensures |Issued(ds, one)| == |ds|
    ensures forall i :: 0 <= i < |ds| ==> Issued(ds, one)[i] == one(ds[i]).requests[0]
    decreases |ds|
  {
    if |ds| > 0 {
      var n := |ds| - 1;
      FanOutRequests(ds[..n], one);
      assert forall i :: 0 <= i < n ==> ds[..n][i] == ds[i];
    }
  }

  /** When no single query issues a request, neither does the loop. */
  lemma {:induction false} FanOutSilent(ds: seq<string>, one: string -> Answer)
    requires forall d :: one(d).requests == []
    ensures Issued(ds, one) == []
    decreases |ds|
  {
    if |ds| > 0 {
      FanOutSilent(ds[..|ds| - 1], one);
    }
  }

  /** `call_school_api(api_name, date, grade, classnum, info_type)` with
      `key` the service key found (or not) in the configuration. The
      `info_type` argument is accepted and ignored by both versions. */
  function Call(v: Variant, key: Option<string>, name: string, date: Dates,
                grade: Option<int>, classnum: Option<int>, fetch: Request -> Fetched): (a: Answer)
    ensures v == SchoolApi && (key.None? || key.value == "") ==> a == Answer(JString(NoKey), [])
    ensures date.DateList? && !(v == SchoolApi && (key.None? || key.value == "")) ==>
      a.value.JObject? && forall d :: d in Keys(a.value.fields) <==> d in date.tokens
  {
    if v == SchoolApi && (key.None? || key.value == "") then Answer(JString(NoKey), [])
    else
      match date
      case DateList(ds) => FanOut(ds, d => Single(key, name, Some(d), grade, classnum, fetch))
      case NoDate => Single(key, name, None, grade, classnum, fetch)
      case OneDate(t) => Single(key, name, Some(t), grade, classnum, fetch)
  }

  /** The parameter table read by column: the value each parameter
      carries in a request of kind `k`, or `None` where it is not sent. */
  function Expected(p: Param, k: Kind, key: Option<string>, date: Option<string>,
                    grade: Option<int>, classnum: Option<int>): Option<string>
  {
    match p
    case ApiKey => key
    case ResponseType => Some("json")
    case OfficeCode => Some("J10")
    case SchoolCode => Some("7530081")
    case PageSize => Some(if k == Schedule then "20" else if k == Inform then "10" else "1")
    case Grade => if k == Schedule then Rendered(grade) else None
    case ClassName => if k == Schedule then Rendered(classnum) else None
    case MealDate => if k == Lunch then date else None
    case TimetableDate => if k == Schedule then date else None
    case ScheduleDate => if k == YearSch then date else None
  }

  /** A request carries exactly the parameters of the table: every
      request names the school and the education office and asks for
      JSON, each kind adds its page size and its date parameter (with
      exactly the date given), only the timetable sends grade and class,
      and an absent value is left out. */
  lemma ParamTableFacts(key: Option<string>, k: Kind, date: Option<string>,
                        grade: Option<int>, classnum: Option<int>)
    ensures forall p, v :: ((p, v) in RequestFor(key, k, date, grade, classnum).query
      <==> Expected(p, k, key, date, grade, classnum) == Some(v))
  {
    var q := ParamTable(key, k, date, grade, classnum);
    var tail := KindEntries(k, date, grade, classnum);
    forall p, v
      ensures (p, v) in Entry(ApiKey, key) + CommonEntries <==>
        (p in {ApiKey, ResponseType, OfficeCode, SchoolCode} && Expected(p, k, key, date, grade, classnum) == Some(v))
    {
      assert (p, v) in CommonEntries <==> (p, v) == CommonEntries[0] || (p, v) == CommonEntries[1] || (p, v) == CommonEntries[2];
    }
    KindEntriesFacts(key, k, date, grade, classnum);
    assert q == (Entry(ApiKey, key) + CommonEntries) + tail;
  }

  lemma KindEntriesFacts(key: Option<string>, k: Kind, date: Option<string>,
                         grade: Option<int>, classnum: Option<int>)
    ensures forall p, v :: ((p, v) in KindEntries(k, date, grade, classnum) <==>
      p !in {ApiKey, ResponseType, OfficeCode, SchoolCode} && Expected(p, k, key, date, grade, classnum) == Some(v))
  {
    match k
    case Lunch => LunchEntries(key, date, grade, classnum);
    case Schedule => ScheduleEntries(key, date, grade, classnum);
    case Inform => InformEntries(key, date, grade, classnum);
    case YearSch => YearSchEntries(key, date, grade, classnum);
  }

  lemma LunchEntries(key: Option<string>, date: Option<string>, grade: Option<int>, classnum: Option<int>)
    ensures forall p, v :: ((p, v) in KindEntries(Lunch, date, grade, classnum) <==>
      p !in {ApiKey, ResponseType, OfficeCode, SchoolCode} && Expected(p, Lunch, key, date, grade, classnum) == Some(v))
  {
  }

  lemma ScheduleEntries(key: Option<string>, date: Option<string>, grade: Option<int>, classnum: Option<int>)
    ensures forall p, v :: ((p, v) in KindEntries(Schedule, date, grade, classnum) <==>
      p !in {ApiKey, ResponseType, OfficeCode, SchoolCode} && Expected(p, Schedule, key, date, grade, classnum) == Some(v))
  {
  }

  lemma InformEntries(key: Option<string>, date: Option<string>, grade: Option<int>, classnum: Option<int>)
    ensures forall p, v :: ((p, v) in KindEntries(Inform, date, grade, classnum) <==>
      p !in {ApiKey, ResponseType, OfficeCode, SchoolCode} && Expected(p, Inform, key, date, grade, classnum) == Some(v))
  {
  }

  lemma YearSchEntries(key: Option<string>, date: Option<string>, grade: Option<int>, classnum: Option<int>)
    ensures forall p, v :: ((p, v) in KindEntries(YearSch, date, grade, classnum) <==>
      p !in {ApiKey, ResponseType, OfficeCode, SchoolCode} && Expected(p, YearSch, key, date, grade, classnum) == Some(v))
  {
  }

  /** The parameters that carry a date. */
  predicate IsDateParam(p: Param) {
    p == MealDate || p == TimetableDate || p == ScheduleDate
  }

  /** A date parameter, wherever a request has one, holds exactly the
      date the request was built for. */
  lemma DateParamCarriesDate(key: Option<string>, k: Kind, date: Option<string>,
                             grade: Option<int>, classnum: Option<int>)
    ensures forall p, v :: (p, v) in RequestFor(key, k, date, grade, classnum).query && IsDateParam(p) ==> date == Some(v)
  {
    ParamTableFacts(key, k, date, grade, classnum);
  }

  /** `inform` never sends a date, a grade or a class, whatever it is given. */
  lemma InformSendsNoDate(key: Option<string>, date: Option<string>,
                          grade: Option<int>, classnum: Option<int>)
    ensures forall p, v :: (p, v) in RequestFor(key, Inform, date, grade, classnum).query ==>
      p !in {MealDate, TimetableDate, ScheduleDate, Grade, ClassName}
  {
  }

  /** With a key (or in the version that does not check for one) and a
      known kind: a list of dates gives one request per date, in order,
      and a dict that binds each date to the reply to its own request; any
      other date gives exactly one request. */
  lemma CallRequests(v: Variant, key: Option<string>, name: string, date: Dates,
                     grade: Option<int>, classnum: Option<int>, fetch: Request -> Fetched)
    requires KindOf(name).Some?
    requires v == SchoolApi ==> key.Some? && key.value != ""
    ensures var a := Call(v, key, name, date, grade, classnum, fetch);
      var k := KindOf(name).value;
      match date
      case DateList(ds) =>
        && |a.requests| == |ds|
        && (forall i :: 0 <= i < |ds| ==> a.requests[i] == RequestFor(key, k, Some(ds[i]), grade, classnum))
        && (forall i :: 0 <= i < |ds| ==>
              Lookup(a.value.fields, ds[i]) == Some(Reply(fetch(RequestFor(key, k, Some(ds[i]), grade, classnum)))))
      case NoDate =>
        var req := RequestFor(key, k, None, grade, classnum);
        a == Answer(Reply(fetch(req)), [req])
      case OneDate(t) =>
        var req := RequestFor(key, k, Some(t), grade, classnum);
        a == Answer(Reply(fetch(req)), [req])
  {
    if date.DateList? {
      var one := d => Single(key, name, Some(d), grade, classnum, fetch);
      FanOutRequests(date.tokens, one);
      FanOutValues(date.tokens, one);
    }
  }

  /** An unknown kind issues no request and answers every date with the
      "not supported" message. */
  lemma CallUnsupported(v: Variant, key: Option<string>, name: string, date: Dates,
                        grade: Option<int>, classnum: Option<int>, fetch: Request -> Fetched)
    requires KindOf(name).None?
    requires v == SchoolApi ==> key.Some? && key.value != ""
    ensures var a := Call(v, key, name, date, grade, classnum, fetch);
      && a.requests == []
      && (date.DateList? ==> forall d :: d in date.tokens ==> Lookup(a.value.fields, d) == Some(JString(Unsupported)))
      && (!date.DateList? ==> a.value == JString(Unsupported))
  {
    if date.DateList? {
      var one := d => Single(key, name, Some(d), grade, classnum, fetch);
      FanOutSilent(date.tokens, one);
      FanOutValues(date.tokens, one);
    }
  }
}
