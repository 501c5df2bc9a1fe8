/** Character classes and the handful of Python string operations the
    source relies on: `str.strip`, `str.split`, `str.zfill`, `str(int)`
    and the decimal value of a digit string. */
module Text {
  import opened Wrappers

  /** Python's `str.isspace`, which is also what `\s` matches in a `str`
      regular expression. */
  predicate IsSpace(c: char) {
    || c == ' '
    || ('\t' <= c <= '\r')
    || ('\U{1c}' <= c <= '\U{1f}')
    || c == '\U{85}' || c == '\U{a0}' || c == '\U{1680}'
    || ('\U{2000}' <= c <= '\U{200a}')
    || c == '\U{2028}' || c == '\U{2029}' || c == '\U{202f}'
    || c == '\U{205f}' || c == '\U{3000}'
  }

  /** An ASCII decimal digit (the model reads `\d` as ASCII only). */
  predicate IsDigit(c: char) { '0' <= c <= '9' }

  predicate AllDigits(s: string) {
    forall i :: 0 <= i < |s| ==> IsDigit(s[i])
  }

  function DigitValue(c: char): (r: nat)
    requires IsDigit(c)
    ensures r < 10
  {
    (c as int) - ('0' as int)
  }

  function DigitChar(n: nat): (c: char)
    requires n < 10
    ensures IsDigit(c) && DigitValue(c) == n
  {
    (('0' as int) + n) as char
  }

  /** The number a digit string denotes (leading zeros allowed). */
  function Value(s: string): nat
    requires AllDigits(s)
  {
    if |s| == 0 then 0 else Value(s[..|s| - 1]) * 10 + DigitValue(s[|s| - 1])
  }

  function Pow10(n: nat): (r: nat)
    ensures r >= 1
  {
    if n == 0 then 1 else 10 * Pow10(n - 1)
  }

  lemma {:induction false} ValueBound(s: string)
    requires AllDigits(s)
    ensures Value(s) < Pow10(|s|)
  {
    if |s| > 0 {
      ValueBound(s[..|s| - 1]);
    }
  }

  lemma ValueAppend(s: string, c: char)
    requires AllDigits(s) && IsDigit(c)
    ensures AllDigits(s + [c]) && Value(s + [c]) == Value(s) * 10 + DigitValue(c)
  {
    assert (s + [c])[..|s|] == s;
  }

  /** Python's `str(n)` for a natural number: shortest decimal form. */
  function NatToString(n: nat): (r: string)
    ensures |r| >= 1 && AllDigits(r) && Value(r) == n
    ensures r[0] == '0' ==> n == 0
    ensures n < 10 ==> |r| == 1
    ensures n >= 10 ==> |r| >= 2
  {
    if n < 10 then [DigitChar(n)]
    else
      var p := NatToString(n / 10);
      ValueAppend(p, DigitChar(n % 10));
      p + [DigitChar(n % 10)]
  }

  /** Python's `str(i)` for any integer. */
  function IntToString(i: int): (r: string)
    ensures |r| >= 1
    ensures i >= 0 ==> r == NatToString(i)
    ensures i < 0 ==> r == "-" + NatToString(-i)
  {
    if i < 0 then "-" + NatToString(-i) else NatToString(i)
  }

  /** The last `w` decimal digits of `n`, zero-padded: strftime's `%0wd`. */
  function Fixed(n: nat, w: nat): (r: string)
    ensures |r| == w && AllDigits(r)
    ensures n < Pow10(w) ==> Value(r) == n
  {
    if w == 0 then ""
    else
      var p := Fixed(n / 10, w - 1);
      ValueAppend(p, DigitChar(n % 10));
      p + [DigitChar(n % 10)]
  }

  function Zeros(k: nat): (r: string)
    ensures |r| == k && AllDigits(r)
    ensures forall i :: 0 <= i < k ==> r[i] == '0'
  {
    if k == 0 then "" else "0" + Zeros(k - 1)
  }

  /** Python's `s.zfill(w)` for a string without a sign. */
  function ZFill(s: string, w: nat): (r: string)
    ensures |s| >= w ==> r == s
    ensures |s| < w ==> r == Zeros(w - |s|) + s
  {
    if |s| >= w then s else Zeros(w - |s|) + s
  }

  lemma {:induction false} ValueZerosPrefix(k: nat, s: string)
    requires AllDigits(s)
    ensures AllDigits(Zeros(k) + s) && Value(Zeros(k) + s) == Value(s)
    decreases |s|
  {
    var z := Zeros(k);
    if |s| == 0 {
      assert z + s == z;
      ValueOfZeros(k);
    } else {
      var t := s[..|s| - 1];
      ValueZerosPrefix(k, t);
      assert z + s == (z + t) + [s[|s| - 1]];
      ValueAppend(z + t, s[|s| - 1]);
    }
  }

  lemma {:induction false} ValueOfZeros(k: nat)
    ensures Value(Zeros(k)) == 0
  {
    if k > 0 {
      var z := Zeros(k);
      var p := z[..k - 1];
      assert p == Zeros(k - 1) by {
        assert forall i :: 0 <= i < k - 1 ==> p[i] == '0';
      }
      ValueOfZeros(k - 1);
    }
  }

  lemma ZFillValue(s: string, w: nat)
    requires AllDigits(s)
    ensures AllDigits(ZFill(s, w)) && Value(ZFill(s, w)) == Value(s)
    ensures |ZFill(s, w)| == if |s| >= w then |s| else w
  {
    if |s| < w {
      ValueZerosPrefix(w - |s|, s);
    }
  }

  /** Number of leading characters that are whitespace. */
  function LeadingSpaces(s: string): (k: nat)
    ensures k <= |s|
    ensures forall i :: 0 <= i < k ==> IsSpace(s[i])
    ensures k < |s| ==> !IsSpace(s[k])
  {
    if |s| == 0 || !IsSpace(s[0]) then 0 else 1 + LeadingSpaces(s[1..])
  }

  /** Number of trailing characters that are whitespace. */
  function TrailingSpaces(s: string): (k: nat)
    ensures k <= |s|
    ensures forall i :: |s| - k <= i < |s| ==> IsSpace(s[i])
    ensures k < |s| ==> !IsSpace(s[|s| - k - 1])
  {
    if |s| == 0 || !IsSpace(s[|s| - 1]) then 0 else 1 + TrailingSpaces(s[..|s| - 1])
  }

  /** Python's `s.strip()`. */
  function Strip(s: string): (r: string)
    ensures |r| <= |s|
    ensures r == [] || (!IsSpace(r[0]) && !IsSpace(r[|r| - 1]))
    ensures exists a, b :: (0 <= a <= b <= |s| && r == s[a..b]
      && (forall i :: 0 <= i < a ==> IsSpace(s[i]))
      && (forall i :: b <= i < |s| ==> IsSpace(s[i])))
  {
    var a := LeadingSpaces(s);
    var t := s[a..];
    var k := TrailingSpaces(t);
    var r := s[a..a + |t| - k];
    assert forall i :: a + |t| - k <= i < |s| ==> s[i] == t[i - a];
    assert |r| > 0 ==> r[0] == s[a] && !IsSpace(s[a]);
    assert |r| > 0 ==> r[|r| - 1] == t[|t| - k - 1];
    r
  }

  lemma StripOfStripped(s: string)
    requires s == [] || (!IsSpace(s[0]) && !IsSpace(s[|s| - 1]))
    ensures Strip(s) == s
  {
  }

  /** Stripping twice is stripping once. */
  lemma StripIdempotent(s: string)
    ensures Strip(Strip(s)) == Strip(s)
  {
    StripOfStripped(Strip(s));
  }

  /** Index of the first occurrence of `c` in `s`. */
  function IndexOf(s: string, c: char): (r: Option<nat>)
    ensures r.None? <==> c !in s
    ensures r.Some? ==> r.value < |s| && s[r.value] == c && c !in s[..r.value]
  {
    if |s| == 0 then None
    else if s[0] == c then Some(0)
    else match IndexOf(s[1..], c)
      case None => None
      case Some(k) =>
        assert s[..k + 1] == [s[0]] + s[1..][..k];
        Some(k + 1)
  }

  /** Python's `s.split(sep)` with a one-character separator. */
  function Split(s: string, sep: char): (parts: seq<string>)
    ensures |parts| >= 1
    ensures forall i :: 0 <= i < |parts| ==> sep !in parts[i]
    decreases |s|
  {
    match IndexOf(s, sep)
    case None => [s]
    case Some(k) => [s[..k]] + Split(s[k + 1..], sep)
  }

  function Join(parts: seq<string>, sep: char): string
    requires |parts| >= 1
  {
    if |parts| == 1 then parts[0] else parts[0] + [sep] + Join(parts[1..], sep)
  }

  /** Splitting and re-joining gives back the string: no character is lost. */
  lemma {:induction false} SplitJoin(s: string, sep: char)
    ensures Join(Split(s, sep), sep) == s
    decreases |s|
  {
    match IndexOf(s, sep)
    case None =>
    case Some(k) =>
      var rest := Split(s[k + 1..], sep);
      assert Split(s, sep) == [s[..k]] + rest;
      JoinCons(s[..k], rest, sep);
      SplitJoin(s[k + 1..], sep);
      assert s == s[..k] + [sep] + s[k + 1..];
  }

  lemma JoinCons(a: string, rest: seq<string>, sep: char)
    requires |rest| >= 1
    ensures Join([a] + rest, sep) == a + [sep] + Join(rest, sep)
  {
    assert ([a] + rest)[1..] == rest;
  }

  /** The first separator is the one right after a separator-free prefix. */
  lemma IndexOfAfter(a: string, c: char, b: string)
    requires c !in a
    ensures IndexOf(a + [c] + b, c) == Some(|a|)
  {
    var s := a + [c] + b;
    assert s[..|a|] == a && s[|a|] == c;
  }

  /** Splitting at the first separator after a separator-free prefix. */
  lemma SplitAfter(a: string, c: char, b: string)
    requires c !in a
    ensures Split(a + [c] + b, c) == [a] + Split(b, c)
  {
    var s := a + [c] + b;
    IndexOfAfter(a, c, b);
    assert s[..|a|] == a && s[|a| + 1..] == b;
  }

  /** Joining parts that do not contain the separator and splitting again
      gives the parts back. */
  lemma {:induction false} SplitOfJoin(parts: seq<string>, sep: char)
    requires |parts| >= 1
    requires forall i :: 0 <= i < |parts| ==> sep !in parts[i]
    ensures Split(Join(parts, sep), sep) == parts
    decreases |parts|
  {
    if |parts| > 1 {
      var rest := parts[1..];
      var tail := Join(rest, sep);
      assert Join(parts, sep) == parts[0] + [sep] + tail;
      assert Split(parts[0] + [sep] + tail, sep) == [parts[0]] + Split(tail, sep) by {
        SplitAfter(parts[0], sep, tail);
      }
      assert Split(tail, sep) == rest by {
        forall i | 0 <= i < |rest|
          ensures sep !in rest[i]
        {
          assert rest[i] == parts[i + 1];
        }
        SplitOfJoin(rest, sep);
      }
      assert parts == [parts[0]] + rest;
    } else {
      assert IndexOf(parts[0], sep).None?;
    }
  }
}
