/**
 Strings as the browser code uses them: trimming, the order that sorts option values and
 keys, and decimal numerals.
 */
module Text {

  datatype Option<+T> = None | Some(value: T) {
    function GetOr(default: T): T {
      match this
      case None => default
      case Some(v) => v
    }
  }

  /** ECMAScript WhiteSpace and LineTerminator, the characters `String.prototype.trim` removes. */
  predicate IsSpace(c: char) {
    || '\t' <= c <= '\r'
    || c == ' '
    || c == '\U{00A0}' || c == '\U{1680}' || '\U{2000}' <= c <= '\U{200A}'
    || c == '\U{2028}' || c == '\U{2029}' || c == '\U{202F}' || c == '\U{205F}'
    || c == '\U{3000}' || c == '\U{FEFF}'
  }

  predicate Trimmed(s: string) {
    s == "" || (!IsSpace(s[0]) && !IsSpace(s[|s| - 1]))
  }

  function TrimStart(s: string): (r: string)
    ensures r == "" || !IsSpace(r[0])
    ensures Trimmed(s) ==> r == s
  {
    if s != "" && IsSpace(s[0]) then TrimStart(s[1..]) else s
  }

  function TrimEnd(s: string): (r: string)
    ensures r <= s
    ensures r == "" || !IsSpace(r[|r| - 1])
    ensures Trimmed(s) ==> r == s
  {
    if s != "" && IsSpace(s[|s| - 1]) then TrimEnd(s[..|s| - 1]) else s
  }

  function Trim(s: string): (r: string)
    ensures Trimmed(r)
    ensures Trimmed(s) ==> r == s
  {
    TrimEnd(TrimStart(s))
  }

  predicate Blank(s: string) { forall i :: 0 <= i < |s| ==> IsSpace(s[i]) }

  /** `s` is `r` between two blank strings. */
  ghost predicate Around(s: string, before: string, r: string, after: string) {
    s == before + r + after && Blank(before) && Blank(after)
  }

  lemma {:induction false} TrimStartCuts(s: string) returns (n: nat)
    ensures n <= |s| && Blank(s[..n]) && TrimStart(s) == s[n..]
  {
    hide IsSpace, Trimmed;
    n := 0;
    if s != "" && IsSpace(s[0]) {
      var rest := TrimStartCuts(s[1..]);
      n := rest + 1;
      assert forall i :: 0 < i < n ==> s[i] == s[1..][..rest][i - 1];
    }
  }

  lemma {:induction false} TrimEndCuts(s: string) returns (n: nat)
    ensures n <= |s| && Blank(s[n..]) && TrimEnd(s) == s[..n]
  {
    hide IsSpace, Trimmed;
    n := |s|;
    if s != "" && IsSpace(s[|s| - 1]) {
      n := TrimEndCuts(s[..|s| - 1]);
      assert forall i :: n <= i < |s| - 1 ==> s[i] == s[..|s| - 1][n..][i - n];
    }
  }

  lemma {:induction false} TrimStartSkips(before: string, s: string)
    requires Blank(before) && (s == "" || !IsSpace(s[0]))
    ensures TrimStart(before + s) == s
  {
    hide IsSpace, Trimmed;
    if before == "" {
      assert before + s == s;
    } else {
      assert (before + s)[1..] == before[1..] + s;
      TrimStartSkips(before[1..], s);
    }
  }

  lemma {:induction false} TrimEndSkips(s: string, after: string)
    requires Blank(after) && (s == "" || !IsSpace(s[|s| - 1]))
    ensures TrimEnd(s + after) == s
  {
    hide IsSpace, Trimmed;
    if after == "" {
      assert s + after == s;
    } else {
      assert (s + after)[..|s + after| - 1] == s + after[..|after| - 1];
      TrimEndSkips(s, after[..|after| - 1]);
    }
  }

  /** Trimming leaves what stands between the outer blanks, and there is only one such string. */
  lemma TrimIff(s: string, r: string)
    ensures Trim(s) == r <==> Trimmed(r) && exists before, after :: Around(s, before, r, after)
  {
    hide IsSpace, TrimStart, TrimEnd;
    if Trim(s) == r {
      var first := TrimStartCuts(s);
      var last := TrimEndCuts(s[first..]);
      assert Around(s, s[..first], r, s[first..][last..]);
    }
    if Trimmed(r) && exists before, after :: Around(s, before, r, after) {
      var before, after :| Around(s, before, r, after);
      if r == "" {
        assert s == (before + after) + "";
        TrimStartSkips(before + after, "");
        TrimEndSkips("", "");
        assert "" + "" == "";
      } else {
        assert s == before + (r + after);
        TrimStartSkips(before, r + after);
        TrimEndSkips(r, after);
      }
    }
  }

  function ToLower(s: string): (r: string)
    ensures |r| == |s|
  {
    seq(|s|, i requires 0 <= i < |s| => if 'A' <= s[i] <= 'Z' then s[i] - 'A' + 'a' else s[i])
  }

  function ToUpper(s: string): (r: string)
    ensures |r| == |s|
  {
    seq(|s|, i requires 0 <= i < |s| => if 'a' <= s[i] <= 'z' then s[i] - 'a' + 'A' else s[i])
  }

  predicate Includes(s: string, part: string) {
    exists i :: 0 <= i <= |s| && part <= s[i..]
  }

  /** `String(array)`: the elements joined by commas. */
  function Join(parts: seq<string>): string {
    if |parts| == 0 then ""
    else if |parts| == 1 then parts[0]
    else parts[0] + "," + Join(parts[1..])
  }

  /** Joining one more element adds it after a comma. */
  lemma {:induction false} JoinAppend(parts: seq<string>, last: string)
    ensures Join([]) == ""
    ensures Join(parts + [last]) == if parts == [] then last else Join(parts) + "," + last
  {
    if parts == [] {
      assert parts + [last] == [last];
    } else {
      var first, rest := parts[0], parts[1..];
      JoinAppend(rest, last);
      assert (parts + [last])[1..] == rest + [last];
      assert Join(parts + [last]) == first + "," + Join(rest + [last]);
      if rest != [] {
        assert first + "," + (Join(rest) + "," + last) == (first + "," + Join(rest)) + "," + last;
      }
    }
  }

  /** Equal but for the case of ASCII letters in `a`, where `b` is lower or upper case throughout. */
  ghost predicate MatchesIgnoringCase(a: string, b: string) {
    |a| == |b| && forall i :: 0 <= i < |a| ==>
      a[i] == b[i]
      || ('A' <= a[i] <= 'Z' && a[i] as int + 32 == b[i] as int)
      || ('a' <= a[i] <= 'z' && a[i] as int - 32 == b[i] as int)
  }

  lemma ToUpperIff(a: string, b: string)
    requires forall i :: 0 <= i < |b| ==> !('a' <= b[i] <= 'z')
    ensures ToUpper(a) == b <==> MatchesIgnoringCase(a, b)
  {
  }

  lemma ToLowerIff(a: string, b: string)
    requires forall i :: 0 <= i < |b| ==> !('A' <= b[i] <= 'Z')
    ensures ToLower(a) == b <==> MatchesIgnoringCase(a, b)
  {
  }

  // ----- a strict total order on strings, standing for localeCompare -----

  predicate Less(a: string, b: string) {
    if b == "" then false
    else if a == "" then true
    else if a[0] != b[0] then a[0] < b[0]
    else Less(a[1..], b[1..])
  }

  lemma LessIrreflexive(a: string)
    ensures !Less(a, a)
  {
  }

  lemma LessTransitive(a: string, b: string, c: string)
    requires Less(a, b) && Less(b, c)
    ensures Less(a, c)
  {
  }

  lemma LessTotal(a: string, b: string)
    ensures Less(a, b) || a == b || Less(b, a)
  {
    if a != "" && b != "" && a[0] == b[0] {
      LessTotal(a[1..], b[1..]);
      assert a == [a[0]] + a[1..] && b == [b[0]] + b[1..];
    }
  }

  // ----- the sorted list of a set of strings -----

  predicate StrictlySorted(s: seq<string>) {
    forall i, j :: 0 <= i < j < |s| ==> Less(s[i], s[j])
  }

  function Insert(x: string, s: seq<string>): (r: seq<string>)
    requires StrictlySorted(s)
    ensures StrictlySorted(r)
    ensures forall y :: y in r <==> y == x || y in s
  {
    if s == [] then [x]
    else if x == s[0] then s
    else if Less(x, s[0]) then
      assert forall j :: 0 < j < |s| ==> Less(x, s[j]) by {
        forall j | 0 < j < |s| ensures Less(x, s[j]) { LessTransitive(x, s[0], s[j]); }
      }
      [x] + s
    else
      var rest := Insert(x, s[1..]);
      assert forall j :: 0 <= j < |rest| ==> Less(s[0], rest[j]) by {
        LessTotal(x, s[0]);
        forall j | 0 <= j < |rest| ensures Less(s[0], rest[j]) {
          assert rest[j] in rest;
        }
      }
      assert s == [s[0]] + s[1..];
      [s[0]] + rest
  }

  /** `Array.from(new Set(xs)).sort(localeCompare)`. */
  function SortedSet(xs: seq<string>): (r: seq<string>)
    ensures StrictlySorted(r)
    ensures forall y :: y in r <==> y in xs
  {
    if xs == [] then [] else Insert(xs[0], SortedSet(xs[1..]))
  }

  lemma FirstMember(s: seq<string>)
    ensures s != [] ==> s[0] in s
  {
  }

  /** A strictly sorted list is determined by its elements, so sorting forgets order and repeats. */
  lemma {:induction false} SortedListUnique(a: seq<string>, b: seq<string>)
    requires StrictlySorted(a) && StrictlySorted(b)
    requires forall y :: y in a <==> y in b
    ensures a == b
  {
    FirstMember(a);
    FirstMember(b);
    if a != [] && b != [] {
      assert a[0] == b[0] by {
        var i :| 0 <= i < |b| && b[i] == a[0];
        var j :| 0 <= j < |a| && a[j] == b[0];
        if i > 0 && j > 0 {
          LessTransitive(a[0], b[0], a[0]);
          LessIrreflexive(a[0]);
        }
      }
      forall y ensures y in a[1..] <==> y in b[1..] {
        assert y in a <==> y == a[0] || y in a[1..];
        assert y in b <==> y == b[0] || y in b[1..];
        LessIrreflexive(a[0]);
      }
      SortedListUnique(a[1..], b[1..]);
      assert a == [a[0]] + a[1..] && b == [b[0]] + b[1..];
    }
  }

  // ----- decimal numerals -----

  const DIGITS: string := "0123456789"

  predicate IsDigit(c: char) { '0' <= c <= '9' }

  predicate AllDigits(s: string) { forall i :: 0 <= i < |s| ==> IsDigit(s[i]) }

  function DigitChar(d: nat): (c: char)
    requires d < 10
    ensures IsDigit(c) && DigitValue(c) == d
  {
    DIGITS[d]
  }

  function DigitValue(c: char): (d: nat)
    requires IsDigit(c)
    ensures d < 10
  {
    c as int - '0' as int
  }

  /** `String(n)` for a natural number. */
  function ToDecimal(n: nat): (s: string)
    ensures s != "" && AllDigits(s)
    ensures FromDecimal(s) == n
    ensures n > 0 ==> s[0] != '0'
    ensures n == 0 ==> s == "0"
  {
    if n < 10 then [DigitChar(n)]
    else
      var s := ToDecimal(n / 10) + [DigitChar(n % 10)];
      assert s[..|s| - 1] == ToDecimal(n / 10);
      s
  }

  function FromDecimal(s: string): nat
    requires AllDigits(s)
  {
    if s == "" then 0 else 10 * FromDecimal(s[..|s| - 1]) + DigitValue(s[|s| - 1])
  }
}
