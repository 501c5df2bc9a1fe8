/** `get_school_info`: the query followed by the extraction. The
    refactored version returns the lines; the schoolapi.py version folds
    them into a dict, splitting each line at its first colon. */
module SchoolInfo {
  import opened Wrappers
  import opened Text
  import opened Dicts
  import opened Json
  import opened Query
  import opened Extract

  /** The key of a line that contains a colon: what precedes the first
      colon, stripped. */
  function KeyOf(line: string): string
    requires ':' in line
  {
    var k := IndexOf(line, ':').value;
    Strip(line[..k])
  }

  /** The value of such a line: what follows the first colon, stripped. */
  function ValueOf(line: string): string
    requires ':' in line
  {
    var k := IndexOf(line, ':').value;
    Strip(line[k + 1..])
  }

  /** `for line in lines: if ':' in line: key, value = line.split(':', 1);
      out[key.strip()] = value.strip()`. */
  function Fold(lines: seq<string>): (out: seq<(string, string)>)
    ensures UniqueKeys(out)
    decreases |lines|
  {
    if |lines| == 0 then []
    else
      var last := lines[|lines| - 1];
      var p := Fold(lines[..|lines| - 1]);
      if ':' in last then Assign(p, KeyOf(last), ValueOf(last)) else p
  }

  /** The value the last line with a given key carries, found by scanning
      the lines from the end. */
  function LastValue(lines: seq<string>, key: string): Option<string>
    decreases |lines|
  {
    if |lines| == 0 then None
    else
      var last := lines[|lines| - 1];
      if ':' in last && KeyOf(last) == key then Some(ValueOf(last))
      else LastValue(lines[..|lines| - 1], key)
  }

  /** In the folded dict each key holds the value of the LAST line with
      that key (later lines overwrite earlier ones), and the keys are
      exactly those of the lines that hold a colon. */
  lemma {:induction false} FoldLookup(lines: seq<string>, key: string)
    ensures Lookup(Fold(lines), key) == LastValue(lines, key)
    ensures key in Keys(Fold(lines)) <==> LastValue(lines, key).Some?
    decreases |lines|
  {
    if |lines| > 0 {
      FoldLookup(lines[..|lines| - 1], key);
    }
  }

  /** A line without a colon leaves the dict as it was. */
  lemma ColonlessLineDropped(lines: seq<string>, line: string)
    requires ':' !in line
    ensures Fold(lines + [line]) == Fold(lines)
  {
    assert (lines + [line])[..|lines|] == lines;
  }

  /** `strip` of a string with no whitespace at its ends, followed by a
      space, gives the string back. */
  lemma StripTrailingSpace(d: string)
    requires d == [] || (!IsSpace(d[0]) && !IsSpace(d[|d| - 1]))
    ensures Strip(d + " ") == d
  {
    var s := d + " ";
    if d == [] {
      assert LeadingSpaces(s) == 1;
      assert s[1..] == [];
    } else {
      assert s[0] == d[0];
      assert LeadingSpaces(s) == 0;
      assert s[0..] == s;
      assert s[..|s| - 1] == d;
      assert TrailingSpaces(d) == 0;
      assert TrailingSpaces(s) == 1;
    }
  }

  /** The line `d + " : " + x` splits into `d` and `x` stripped, when the
      date has no colon and no surrounding space. */
  lemma DateLineSplits(d: string, x: string)
    requires ':' !in d
    requires d == [] || (!IsSpace(d[0]) && !IsSpace(d[|d| - 1]))
    ensures var line := d + " : " + x;
      ':' in line && KeyOf(line) == d && ValueOf(line) == Strip(" " + x)
  {
    var line := d + " : " + x;
    assert line[|d| + 1] == ':';
    assert line[..|d| + 1] == d + " ";
    assert ':' !in d + " ";
    assert IndexOf(line, ':') == Some(|d| + 1);
    StripTrailingSpace(d);
    assert line[|d| + 2..] == " " + x;
  }

  /** Lines that all carry the same key (the periods of one timetable day)
      collapse to one entry, holding what the last of them says. */
  lemma {:induction false} SameKeyCollapses(lines: seq<string>, key: string)
    requires |lines| > 0
    requires forall i :: 0 <= i < |lines| ==> ':' in lines[i] && KeyOf(lines[i]) == key
    ensures Fold(lines) == [(key, ValueOf(lines[|lines| - 1]))]
    decreases |lines|
  {
    var p := lines[..|lines| - 1];
    if |p| > 0 {
      assert forall i :: 0 <= i < |p| ==> p[i] == lines[i];
      SameKeyCollapses(p, key);
    }
  }

  /** `get_school_info` of chatshhs_refactored.py. */
  function Lines(key: Option<string>, name: string, date: Dates, grade: Option<int>, classnum: Option<int>,
                 infoType: Option<string>, fetch: Request -> Fetched): Result<seq<string>, Fault>
  {
    var result := Call(Refactored, key, name, date, grade, classnum, fetch).value;
    ExtractLines(Refactored, name, result, date, infoType)
  }

  /** `get_school_info` of schoolapi.py. */
  function Info(key: Option<string>, name: string, date: Dates, grade: Option<int>, classnum: Option<int>,
                infoType: Option<string>, fetch: Request -> Fetched): Result<seq<(string, string)>, Fault>
  {
    var result := Call(SchoolApi, key, name, date, grade, classnum, fetch).value;
    var lines :- ExtractLines(SchoolApi, name, result, date, infoType);
    Ok(Fold(lines))
  }

  /** An unknown kind asked for a list of dates shows, for each date in
      order, that the API is not supported. */
  lemma UnsupportedLines(v: Variant, key: Option<string>, name: string, ds: seq<string>,
                         grade: Option<int>, classnum: Option<int>, infoType: Option<string>,
                         fetch: Request -> Fetched)
    requires KindOf(name).None?
    requires v == SchoolApi ==> key.Some? && key.value != ""
    ensures var result := Call(v, key, name, DateList(ds), grade, classnum, fetch).value;
      var r := ExtractLines(v, name, result, DateList(ds), infoType);
      && r.Ok? && |r.value| == |ds|
      && forall i :: 0 <= i < |ds| ==> r.value[i] == ds[i] + " : " + Unsupported
  {
    var result := Call(v, key, name, DateList(ds), grade, classnum, fetch).value;
    CallUnsupported(v, key, name, DateList(ds), grade, classnum, fetch);
    UnsupportedDates(v, name, result.fields, ds, infoType);
  }

  lemma {:induction false} UnsupportedDates(v: Variant, name: string, fs: seq<(string, Json)>,
                                            ds: seq<string>, infoType: Option<string>)
    requires KindOf(name).None?
    requires forall d :: d in ds ==> Lookup(fs, d) == Some(JString(Unsupported))
    ensures var r := AllDates(v, name, fs, ds, infoType);
      && r.Ok? && |r.value| == |ds|
      && forall i :: 0 <= i < |ds| ==> r.value[i] == ds[i] + " : " + Unsupported
    decreases |ds|
  {
    if |ds| > 0 {
      var tail := ds[1..];
      assert forall d :: d in tail ==> d in ds;
      UnsupportedDates(v, name, fs, tail, infoType);
      var rest := AllDates(v, name, fs, tail, infoType).value;
      assert ds[0] in ds;
      assert PerDate(v, name, fs, ds[0], infoType) == Ok([ds[0] + " : " + Unsupported]);
      var ls := [ds[0] + " : " + Unsupported] + rest;
      assert AllDates(v, name, fs, ds, infoType) == Ok(ls);
      forall i | 1 <= i < |ds|
        ensures ls[i] == ds[i] + " : " + Unsupported
      {
        assert tail[i - 1] == ds[i];
      }
    }
  }

  /** A meal, event or (in the schoolapi.py version) information query
      over a list of dates shows one line per requested date, in list
      order, each headed by its date. */
  lemma ListQueryOneLineEach(v: Variant, key: Option<string>, k: Kind, ds: seq<string>,
                             grade: Option<int>, classnum: Option<int>, infoType: Option<string>,
                             fetch: Request -> Fetched)
    requires OneLineKind(v, k)
    requires v == SchoolApi ==> key.Some? && key.value != ""
    ensures var result := Call(v, key, KindName(k), DateList(ds), grade, classnum, fetch).value;
      var r := ExtractLines(v, KindName(k), result, DateList(ds), infoType);
      && r.Ok? && |r.value| == |ds|
      && forall i :: 0 <= i < |ds| ==> ds[i] + " : " <= r.value[i]
  {
    var result := Call(v, key, KindName(k), DateList(ds), grade, classnum, fetch).value;
    assert result.JObject?;
    var r := ExtractLines(v, KindName(k), result, DateList(ds), infoType);
    assert r == AllDates(v, KindName(k), result.fields, ds, infoType);
    OneLinePerDate(v, k, result.fields, ds, infoType);
  }
}
