/**
 * The string primitives of the JavaScript runtime that the service relies on:
 * `String.prototype.split` with a one-character separator, `replace` with a
 * string pattern (first occurrence only), `parseInt(s, 10)`, decimal rendering
 * of integers, and the code-point order Redis and PostgreSQL's "C" collation
 * use to compare strings.
 */
module Text {
  import opened Wrappers

  // ---------------------------------------------------------------------------
  // split / join
  // ---------------------------------------------------------------------------

  /** `s.split(sep)`: the pieces between separators, always at least one. */
  function Split(s: string, sep: char): (parts: seq<string>)
    ensures |parts| >= 1
    decreases |s|
  {
    if |s| == 0 then [""]
    else
      var rest := Split(s[1..], sep);
      if s[0] == sep then [""] + rest
      else [[s[0]] + rest[0]] + rest[1..]
  }

  /** `parts.join(sep)`. */
  function Join(parts: seq<string>, sep: char): string
    requires |parts| >= 1
    decreases |parts|
  {
    if |parts| == 1 then parts[0] else parts[0] + [sep] + Join(parts[1..], sep)
  }

  lemma {:induction false} SplitPieces(s: string, sep: char)
    ensures forall i :: 0 <= i < |Split(s, sep)| ==> sep !in Split(s, sep)[i]
    decreases |s|
  {
    if |s| > 0 {
      SplitPieces(s[1..], sep);
    }
  }

  /** Joining the pieces of a split gives back the original string. */
  lemma {:induction false} JoinSplit(s: string, sep: char)
    ensures Join(Split(s, sep), sep) == s
    decreases |s|
  {
    if |s| > 0 {
      var rest := Split(s[1..], sep);
      JoinSplit(s[1..], sep);
      if s[0] == sep {
        assert Join([""] + rest, sep) == "" + [sep] + Join(rest, sep);
      } else {
        var p := [[s[0]] + rest[0]] + rest[1..];
        if |rest| == 1 {
          assert Join(p, sep) == [s[0]] + rest[0];
        } else {
          assert p[1..] == rest[1..];
          assert Join(p, sep) == [s[0]] + rest[0] + [sep] + Join(rest[1..], sep);
        }
      }
    }
  }

  lemma {:induction false} SplitAfterPlainPrefix(p: string, r: string, sep: char)
    requires sep !in p
    ensures Split(p + r, sep) == [p + Split(r, sep)[0]] + Split(r, sep)[1..]
    decreases |p|
  {
    if |p| > 0 {
      var rs := Split(r, sep);
      assert (p + r)[1..] == p[1..] + r;
      assert (p + r)[0] == p[0] != sep;
      SplitAfterPlainPrefix(p[1..], r, sep);
      var inner := Split(p[1..] + r, sep);
      assert inner == [p[1..] + rs[0]] + rs[1..];
      assert Split(p + r, sep) == [[p[0]] + inner[0]] + inner[1..];
      assert [p[0]] + (p[1..] + rs[0]) == p + rs[0];
      assert inner[1..] == rs[1..];
    } else {
      var rs := Split(r, sep);
      assert p + r == r && p + rs[0] == rs[0];
      assert [rs[0]] + rs[1..] == rs;
    }
  }

  /** Splitting a join of separator-free pieces gives back the pieces. */
  lemma {:induction false} SplitJoin(parts: seq<string>, sep: char)
    requires |parts| >= 1
    requires forall i :: 0 <= i < |parts| ==> sep !in parts[i]
    ensures Split(Join(parts, sep), sep) == parts
    decreases |parts|
  {
    if |parts| == 1 {
      SplitAfterPlainPrefix(parts[0], "", sep);
      assert parts[0] + "" == parts[0];
    } else {
      var tail := Join(parts[1..], sep);
      SplitJoin(parts[1..], sep);
      assert Join(parts, sep) == parts[0] + ([sep] + tail);
      SplitAfterPlainPrefix(parts[0], [sep] + tail, sep);
      assert ([sep] + tail)[1..] == tail;
      assert Split([sep] + tail, sep) == [""] + parts[1..];
      assert parts[0] + "" == parts[0];
      assert [parts[0]] + parts[1..] == parts;
    }
  }

  // ---------------------------------------------------------------------------
  // replace (first occurrence of a string pattern)
  // ---------------------------------------------------------------------------

  /** The index of the first occurrence of `pat` in `s`, if any. */
  function IndexOf(s: string, pat: string): (r: Option<nat>)
    ensures r.Some? ==> r.value + |pat| <= |s| && s[r.value..r.value + |pat|] == pat
    decreases |s|
  {
    if |s| < |pat| then None
    else if s[..|pat|] == pat then Some(0)
    else
      match IndexOf(s[1..], pat)
      case None => None
      case Some(i) =>
        assert s[1..][i..i + |pat|] == s[i + 1..i + 1 + |pat|];
        Some(i + 1)
  }

  /** `s.replace(pat, rep)` with a string pattern: only the first occurrence is replaced. */
  function ReplaceFirst(s: string, pat: string, rep: string): string {
    match IndexOf(s, pat)
    case None => s
    case Some(i) => s[..i] + rep + s[i + |pat|..]
  }

  /** Replacing a leading pattern by nothing strips exactly that prefix. */
  lemma StripLeading(pat: string, rest: string)
    ensures ReplaceFirst(pat + rest, pat, "") == rest
  {
    assert (pat + rest)[..|pat|] == pat;
    assert (pat + rest)[|pat|..] == rest;
  }

  // ---------------------------------------------------------------------------
  // decimal integers
  // ---------------------------------------------------------------------------

  predicate IsDigit(c: char) { '0' <= c <= '9' }

  predicate AllDigits(s: string) { forall i :: 0 <= i < |s| ==> IsDigit(s[i]) }

  function DigitChar(d: nat): (c: char)
    requires d < 10
    ensures IsDigit(c)
  {
    ('0' as int + d) as char
  }

  /** The value of a string of decimal digits. */
  function DigitsValue(ds: string): nat
    requires AllDigits(ds)
    decreases |ds|
  {
    if |ds| == 0 then 0
    else DigitsValue(ds[..|ds| - 1]) * 10 + (ds[|ds| - 1] as int - '0' as int)
  }

  /** The decimal rendering of a natural number, without leading zeros. */
  function NatToString(n: nat): (s: string)
    ensures |s| >= 1 && AllDigits(s)
    decreases n
  {
    if n < 10 then [DigitChar(n)] else NatToString(n / 10) + [DigitChar(n % 10)]
  }

  /** `String(n)` for an integer number. */
  function IntToString(n: int): string {
    if n < 0 then "-" + NatToString(-n) else NatToString(n)
  }

  lemma {:induction false} DigitsValueOfNatToString(n: nat)
    ensures DigitsValue(NatToString(n)) == n
    decreases n
  {
    var s := NatToString(n);
    if n >= 10 {
      DigitsValueOfNatToString(n / 10);
      assert s[..|s| - 1] == NatToString(n / 10);
    }
  }

  /** The characters `parseInt` skips before the number (ECMAScript's StrWhiteSpaceChar). */
  predicate IsJsSpace(c: char) {
    c == ' ' || c == '\t' || c == '\n' || c == '\r' || c == '\U{000B}' || c == '\U{000C}'
    || c == '\U{00A0}' || c == '\U{1680}' || ('\U{2000}' <= c <= '\U{200A}')
    || c == '\U{2028}' || c == '\U{2029}' || c == '\U{202F}' || c == '\U{205F}'
    || c == '\U{3000}' || c == '\U{FEFF}'
  }

  function TrimStart(s: string): (t: string)
    ensures |t| > 0 ==> !IsJsSpace(t[0])
    decreases |s|
  {
    if |s| > 0 && IsJsSpace(s[0]) then TrimStart(s[1..]) else s
  }

  /** The longest prefix of `s` made of decimal digits. */
  function DigitPrefix(s: string): (ds: string)
    ensures AllDigits(ds) && |ds| <= |s| && ds == s[..|ds|]
    ensures |ds| < |s| ==> !IsDigit(s[|ds|])
    decreases |s|
  {
    if |s| > 0 && IsDigit(s[0]) then [s[0]] + DigitPrefix(s[1..]) else ""
  }

  /**
   * `parseInt(s, 10)`: leading white space is skipped, an optional sign is read,
   * then the longest run of digits; without any digit the result is NaN (`None`).
   * Characters after the digits are ignored.
   */
  function ParseInt(s: string): (r: Option<int>)
    ensures r.None? <==> |DigitPrefix(UnsignedPart(TrimStart(s)))| == 0
  {
    var t := TrimStart(s);
    var ds := DigitPrefix(UnsignedPart(t));
    if |ds| == 0 then None
    else if |t| > 0 && t[0] == '-' then Some(0 - DigitsValue(ds) as int)
    else Some(DigitsValue(ds))
  }

  function UnsignedPart(t: string): string {
    if |t| > 0 && (t[0] == '-' || t[0] == '+') then t[1..] else t
  }

  lemma AllDigitsPrefix(s: string)
    requires AllDigits(s)
    ensures DigitPrefix(s) == s
  {
  }

  /** `parseInt` reads back what `String(n)` renders. */
  lemma ParseIntOfIntToString(n: int)
    ensures ParseInt(IntToString(n)) == Some(n)
  {
    var m: nat := if n < 0 then -n else n;
    var digits := NatToString(m);
    var s := IntToString(n);
    assert !IsJsSpace(s[0]);
    assert TrimStart(s) == s;
    if n < 0 {
      assert UnsignedPart(s) == digits;
    } else {
      assert !IsDigit(s[0]) ==> false;
      assert UnsignedPart(s) == digits;
    }
    AllDigitsPrefix(digits);
    DigitsValueOfNatToString(m);
  }

  // ---------------------------------------------------------------------------
  // code-point order
  // ---------------------------------------------------------------------------

  /** Lexicographic order of code points (byte order of the UTF-8 encodings). */
  predicate StrLess(a: string, b: string)
    decreases |a|
  {
    if |a| == 0 then |b| > 0
    else if |b| == 0 then false
    else if a[0] != b[0] then a[0] < b[0]
    else StrLess(a[1..], b[1..])
  }

  lemma {:induction false} StrLessIrreflexive(a: string)
    ensures !StrLess(a, a)
    decreases |a|
  {
    if |a| > 0 {
      StrLessIrreflexive(a[1..]);
    }
  }

  lemma {:induction false} StrLessTransitive(a: string, b: string, c: string)
    requires StrLess(a, b) && StrLess(b, c)
    ensures StrLess(a, c)
    decreases |a|
  {
    if |a| > 0 && a[0] == b[0] && b[0] == c[0] {
      StrLessTransitive(a[1..], b[1..], c[1..]);
    }
  }

  lemma {:induction false} StrLessTotal(a: string, b: string)
    requires a != b
    ensures StrLess(a, b) || StrLess(b, a)
    decreases |a|
  {
    if |a| > 0 && |b| > 0 && a[0] == b[0] {
      assert a == [a[0]] + a[1..] && b == [b[0]] + b[1..];
      StrLessTotal(a[1..], b[1..]);
    }
  }

  lemma StrLessAsymmetric(a: string, b: string)
    requires StrLess(a, b)
    ensures !StrLess(b, a)
  {
    if StrLess(b, a) {
      StrLessTransitive(a, b, a);
      StrLessIrreflexive(a);
    }
  }

  // ---------------------------------------------------------------------------
  // sorting a set of strings (ORDER BY under code-point order)
  // ---------------------------------------------------------------------------

  /** `m` precedes every other member of `s`. */
  predicate IsLeast(s: set<string>, m: string) {
    m in s && forall x :: x in s && x != m ==> StrLess(m, x)
  }

  lemma {:induction false} LeastExists(s: set<string>)
    requires |s| > 0
    ensures exists m :: IsLeast(s, m)
    decreases |s|
  {
    if forall y :: y !in s {
      assert false;
    }
    var x :| x in s;
    var rest := s - {x};
    if |rest| == 0 {
      assert s == {x};
      assert IsLeast(s, x);
    } else {
      LeastExists(rest);
      var m :| IsLeast(rest, m);
      StrLessTotal(m, x);
      if StrLess(m, x) {
        forall y | y in s && y != m ensures StrLess(m, y) {
          if y != x {
            assert y in rest;
          }
        }
        assert IsLeast(s, m);
      } else {
        forall y | y in s && y != x ensures StrLess(x, y) {
          if y != m {
            assert y in rest;
            StrLessTransitive(x, m, y);
          }
        }
        assert IsLeast(s, x);
      }
    }
  }

  lemma LeastUnique(s: set<string>, m: string, n: string)
    requires IsLeast(s, m) && IsLeast(s, n)
    ensures m == n
  {
    if m != n {
      StrLessAsymmetric(m, n);
    }
  }

  function LeastOf(s: set<string>): (m: string)
    requires |s| > 0
    ensures IsLeast(s, m)
  {
    LeastExists(s);
    assert forall m, n :: IsLeast(s, m) && IsLeast(s, n) ==> m == n by {
      forall m, n | IsLeast(s, m) && IsLeast(s, n) ensures m == n {
        LeastUnique(s, m, n);
      }
    }
    var m :| IsLeast(s, m);
    m
  }

  /** The strings listed in a sequence. */
  function Elements(r: seq<string>): set<string>
    decreases |r|
  {
    if |r| == 0 then {} else {r[0]} + Elements(r[1..])
  }

  lemma {:induction false} ElementsAt(r: seq<string>, x: string)
    ensures x in Elements(r) <==> exists i :: 0 <= i < |r| && r[i] == x
    decreases |r|
  {
    if |r| > 0 {
      ElementsAt(r[1..], x);
      if x in Elements(r[1..]) {
        var i :| 0 <= i < |r[1..]| && r[1..][i] == x;
        assert r[i + 1] == x;
      }
      if exists i :: 0 <= i < |r| && r[i] == x {
        var i :| 0 <= i < |r| && r[i] == x;
        if i > 0 {
          assert r[1..][i - 1] == x;
        }
      }
    }
  }

  /** The members of `s` in ascending code-point order, each once. */
  predicate IsSortedListing(r: seq<string>, s: set<string>) {
    && |r| == |s|
    && Elements(r) == s
    && (forall i :: 0 <= i < |r| ==> r[i] in s)
    && (forall i, j :: 0 <= i < j < |r| ==> StrLess(r[i], r[j]))
  }

  lemma SortedCons(s: set<string>, m: string, tail: seq<string>)
    requires IsLeast(s, m)
    requires IsSortedListing(tail, s - {m})
    ensures IsSortedListing([m] + tail, s)
  {
    var r := [m] + tail;
    assert r[1..] == tail;
    assert Elements(r) == {m} + Elements(tail);
    assert (s - {m}) + {m} == s;
    assert forall i :: 1 <= i < |r| ==> r[i] == tail[i - 1];
    forall i, j | 0 <= i < j < |r| ensures StrLess(r[i], r[j]) {
      if i == 0 {
        assert r[j] == tail[j - 1];
        ElementsAt(tail, r[j]);
      } else {
        assert r[i] == tail[i - 1] && r[j] == tail[j - 1];
      }
    }
  }

  /** A set of strings listed in ascending order, as `ORDER BY` returns it. */
  function Sorted(s: set<string>): (r: seq<string>)
    ensures IsSortedListing(r, s)
    decreases |s|
  {
    if |s| == 0 then []
    else
      var m := LeastOf(s);
      var rest := s - {m};
      var tail := Sorted(rest);
      SortedCons(s, m, tail);
      [m] + tail
  }

  /** A sorted listing has no repeated string. */
  lemma SortedDistinct(r: seq<string>, s: set<string>, i: nat, j: nat)
    requires IsSortedListing(r, s)
    requires i < j < |r|
    ensures r[i] != r[j]
  {
    assert StrLess(r[i], r[j]);
    StrLessIrreflexive(r[i]);
  }
}
