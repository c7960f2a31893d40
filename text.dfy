/** The few JavaScript string operations the modelled code relies on:
    white space as `\s` and `trim` see it, `trim`, `split` on one character,
    `Array.prototype.join`, `startsWith`, ASCII lower-casing, and decimal
    rendering of a non-negative integer (template literals over numbers). */
module Text {

  /** ECMAScript WhiteSpace and LineTerminator code points: what the
      regular-expression class `\s` matches and what `trim` removes. */
  predicate IsSpace(c: char) {
    || c == '\t' || c == '\n' || c == '\U{B}' || c == '\U{C}' || c == '\r' || c == ' '
    || c == '\U{A0}' || c == '\U{1680}' || ('\U{2000}' <= c <= '\U{200A}')
    || c == '\U{2028}' || c == '\U{2029}' || c == '\U{202F}' || c == '\U{205F}'
    || c == '\U{3000}' || c == '\U{FEFF}'
  }

  predicate AllSpace(s: string) {
    forall i :: 0 <= i < |s| ==> IsSpace(s[i])
  }

  /** No white space at either end. */
  predicate Trimmed(s: string) {
    s == [] || (!IsSpace(s[0]) && !IsSpace(s[|s| - 1]))
  }

  /** The index of the first non-space character at or after `from`, or `|s|`. */
  function LeadEnd(s: string, from: nat): (k: nat)
    requires from <= |s|
    ensures from <= k <= |s|
    ensures k < |s| ==> !IsSpace(s[k])
    decreases |s| - from
  {
    if from == |s| || !IsSpace(s[from]) then from else LeadEnd(s, from + 1)
  }

  lemma {:induction false} LeadEndSkipsSpace(s: string, from: nat, j: nat)
    requires from <= |s| && from <= j < LeadEnd(s, from)
    ensures IsSpace(s[j])
    decreases j - from
  {
    if j > from {
      LeadEndSkipsSpace(s, from + 1, j);
    }
  }

  /** The index just past the last non-space character in `[lo, hi)`, or `lo`. */
  function TrailStart(s: string, lo: nat, hi: nat): (e: nat)
    requires lo <= hi <= |s|
    ensures lo <= e <= hi
    ensures e > lo ==> !IsSpace(s[e - 1])
    decreases hi - lo
  {
    if hi == lo || !IsSpace(s[hi - 1]) then hi else TrailStart(s, lo, hi - 1)
  }

  lemma {:induction false} TrailStartSkipsSpace(s: string, lo: nat, hi: nat, j: nat)
    requires lo <= hi <= |s| && TrailStart(s, lo, hi) <= j < hi
    ensures IsSpace(s[j])
    decreases hi - lo
  {
    if j < hi - 1 {
      TrailStartSkipsSpace(s, lo, hi - 1, j);
    }
  }

  /** `s` with its leading white space removed. */
  function TrimStart(s: string): (r: string)
    ensures |r| <= |s|
    ensures r == [] || !IsSpace(r[0])
    ensures s != [] && IsSpace(s[0]) ==> |r| < |s|
    ensures s == [] || !IsSpace(s[0]) ==> r == s
  {
    s[LeadEnd(s, 0)..]
  }

  /** JavaScript's `String.prototype.trim`: `s` without its leading and
      trailing white space. */
  function Trim(s: string): (r: string)
    ensures Trimmed(r)
    ensures |r| <= |s|
    ensures Trimmed(s) ==> r == s
  {
    var k := LeadEnd(s, 0);
    s[k..TrailStart(s, k, |s|)]
  }

  /** `trim` keeps a middle slice of `s`, from its first non-space
      character on, and what it drops on either side is white space. */
  lemma TrimDropsSpace(s: string)
    ensures var k := |s| - |TrimStart(s)|; var r := Trim(s);
      && k + |r| <= |s| && r == s[k..k + |r|]
      && AllSpace(s[..k]) && AllSpace(s[k + |r|..])
  {
    var k := LeadEnd(s, 0);
    var e := TrailStart(s, k, |s|);
    forall j | 0 <= j < k ensures IsSpace(s[..k][j]) {
      LeadEndSkipsSpace(s, 0, j);
    }
    forall j | 0 <= j < |s| - e ensures IsSpace(s[e..][j]) {
      TrailStartSkipsSpace(s, k, |s|, e + j);
    }
  }

  /** Trimming a trimmed text followed by one space gives the text back. */
  lemma TrimDropsOneTrailingSpace(s: string)
    requires Trimmed(s) && s != []
    ensures Trim(s + " ") == s
  {
    var t := s + " ";
    assert t[0] == s[0] && t[|s| - 1] == s[|s| - 1] && t[|s|] == ' ';
    assert LeadEnd(t, 0) == 0;
    assert TrailStart(t, 0, |t|) == |s|;
    assert t[0..|s|] == s;
  }

  /** The first non-space character at or after `from` is the one at `k`
      when everything in between is white space. */
  lemma {:induction false} LeadEndAt(s: string, from: nat, k: nat)
    requires from <= k <= |s| && (k == |s| || !IsSpace(s[k]))
    requires forall j :: from <= j < k ==> IsSpace(s[j])
    ensures LeadEnd(s, from) == k
    decreases k - from
  {
    if from < k {
      LeadEndAt(s, from + 1, k);
    }
  }

  /** The last non-space character before `hi` ends at `e` when everything
      from `e` to `hi` is white space. */
  lemma {:induction false} TrailStartAt(s: string, lo: nat, hi: nat, e: nat)
    requires lo <= e <= hi <= |s| && (e == lo || !IsSpace(s[e - 1]))
    requires forall j :: e <= j < hi ==> IsSpace(s[j])
    ensures TrailStart(s, lo, hi) == e
    decreases hi - e
  {
    if e < hi {
      TrailStartAt(s, lo, hi - 1, e);
    }
  }

  /** Trimming removes the white space around a trimmed middle part, and
      nothing else. */
  lemma TrimAround(a: string, m: string, b: string)
    requires AllSpace(a) && AllSpace(b) && Trimmed(m)
    ensures Trim(a + m + b) == m
  {
    var x := a + m + b;
    if m == [] {
      forall j | 0 <= j < |x| ensures IsSpace(x[j]) {
        if j < |a| { assert x[j] == a[j]; } else { assert x[j] == b[j - |a|]; }
      }
      LeadEndAt(x, 0, |x|);
    } else {
      var p, q := |a|, |a| + |m|;
      forall j | 0 <= j < p ensures IsSpace(x[j]) { assert x[j] == a[j]; }
      assert x[p] == m[0];
      LeadEndAt(x, 0, p);
      forall j | q <= j < |x| ensures IsSpace(x[j]) { assert x[j] == b[j - q]; }
      assert x[q - 1] == m[|m| - 1];
      TrailStartAt(x, p, |x|, q);
      assert x[p..q] == m;
    }
  }

  /** JavaScript's `Array.prototype.join(sep)`. */
  function Join(parts: seq<string>, sep: string): string {
    if |parts| == 0 then ""
    else if |parts| == 1 then parts[0]
    else parts[0] + sep + Join(parts[1..], sep)
  }

  /** A character put in front of the first part comes first in the join. */
  lemma JoinPrepend(c: char, parts: seq<string>, sep: string)
    requires parts != []
    ensures Join([[c] + parts[0]] + parts[1..], sep) == [c] + Join(parts, sep)
  {
    var q := [[c] + parts[0]] + parts[1..];
    if |parts| > 1 {
      assert q[1..] == parts[1..];
    }
  }

  /** Joining two non-empty lists puts exactly one separator between them. */
  lemma {:induction false} JoinAppend(a: seq<string>, b: seq<string>, sep: string)
    requires a != [] && b != []
    ensures Join(a + b, sep) == Join(a, sep) + sep + Join(b, sep)
  {
    if |a| == 1 {
      assert (a + b)[1..] == b;
    } else {
      assert (a + b)[1..] == a[1..] + b;
      JoinAppend(a[1..], b, sep);
    }
  }

  /** Index of the first occurrence of `c` in `s` at or after `from`, or
      `|s|` when there is none. */
  function FirstFrom(s: string, c: char, from: nat): (i: nat)
    requires from <= |s|
    ensures from <= i <= |s|
    ensures i < |s| ==> s[i] == c
    decreases |s| - from
  {
    if from == |s| || s[from] == c then from
    else FirstFrom(s, c, from + 1)
  }

  /** No occurrence comes between `from` and the first one. */
  lemma {:induction false} FirstFromIsFirst(s: string, c: char, from: nat, j: nat)
    requires from <= j < |s| && s[j] == c
    ensures FirstFrom(s, c, from) <= j
    decreases j - from
  {
    if s[from] != c {
      FirstFromIsFirst(s, c, from + 1, j);
    }
  }

  /** The fields of `s[from..]` separated by `sep`. */
  function Fields(s: string, sep: char, from: nat): (r: seq<string>)
    requires from <= |s|
    ensures |r| >= 1
    decreases |s| - from
  {
    var i := FirstFrom(s, sep, from);
    if i == |s| then [s[from..]]
    else [s[from..i]] + Fields(s, sep, i + 1)
  }

  /** JavaScript's `s.split(sep)` for a one-character separator: the
      (possibly empty) fields between the occurrences of `sep`. */
  function Split(s: string, sep: char): (r: seq<string>)
    ensures |r| >= 1
    ensures forall f :: 0 <= f < |r| ==> sep !in r[f]
  {
    FieldsLackSep(s, sep, 0);
    Fields(s, sep, 0)
  }

  /** A field runs from `from` to the next separator, or to the end. */
  lemma FieldAt(s: string, sep: char, from: nat, i: nat)
    requires from <= i <= |s| && (i == |s| || s[i] == sep)
    requires forall j :: from <= j < i ==> s[j] != sep
    ensures Fields(s, sep, from) ==
      if i == |s| then [s[from..]] else [s[from..i]] + Fields(s, sep, i + 1)
  {
    var m := FirstFrom(s, sep, from);
    if i < |s| {
      FirstFromIsFirst(s, sep, from, i);
    }
  }

  /** The second field lies between the first separator, at `k`, and the
      next one, or the end. */
  lemma SecondField(s: string, sep: char, k: nat, i: nat)
    requires k < i <= |s| && s[k] == sep && (i == |s| || s[i] == sep)
    requires forall j :: 0 <= j < k ==> s[j] != sep
    requires forall j :: k < j < i ==> s[j] != sep
    ensures |Split(s, sep)| >= 2 && Split(s, sep)[1] == s[k + 1..i]
  {
    FieldAt(s, sep, 0, k);
    FieldAt(s, sep, k + 1, i);
  }

  /** No field holds the separator. */
  lemma {:induction false} FieldsLackSep(s: string, sep: char, from: nat)
    requires from <= |s|
    ensures forall f :: 0 <= f < |Fields(s, sep, from)| ==> sep !in Fields(s, sep, from)[f]
    decreases |s| - from
  {
    var i := FirstFrom(s, sep, from);
    var r := Fields(s, sep, from);
    assert sep !in s[from..i] by {
      forall j | from <= j < i ensures s[j] != sep {
        if s[j] == sep {
          FirstFromIsFirst(s, sep, from, j);
        }
      }
      forall j | 0 <= j < i - from ensures s[from..i][j] != sep {
        assert s[from..i][j] == s[from + j];
      }
    }
    if i < |s| {
      FieldsLackSep(s, sep, i + 1);
      var rest := Fields(s, sep, i + 1);
      forall f | 1 <= f < |r| ensures sep !in r[f] { assert r[f] == rest[f - 1]; }
    }
  }

  lemma SliceAround(s: string, from: nat, i: nat)
    requires from <= i < |s|
    ensures s[from..] == s[from..i] + [s[i]] + s[i + 1..]
  {
  }

  /** `split` loses nothing: joining the fields with the separator gives the text back. */
  lemma {:induction false} FieldsJoin(s: string, sep: char, from: nat)
    requires from <= |s|
    ensures Join(Fields(s, sep, from), [sep]) == s[from..]
    decreases |s| - from
  {
    var i := FirstFrom(s, sep, from);
    if i < |s| {
      FieldsJoin(s, sep, i + 1);
      SliceAround(s, from, i);
    }
  }

  lemma SplitJoin(s: string, sep: char)
    ensures Join(Split(s, sep), [sep]) == s
  {
    FieldsJoin(s, sep, 0);
  }

  /** A text without the separator, followed by the separator, is the
      first field, and more fields follow. */
  lemma SplitFirstField(a: string, sep: char, b: string)
    requires sep !in a
    ensures var r := Split(a + [sep] + b, sep); |r| >= 2 && r[0] == a
  {
    var s := a + [sep] + b;
    forall j | 0 <= j < |a| ensures s[j] != sep { assert s[j] == a[j]; }
    FieldAt(s, sep, 0, |a|);
    assert s[..|a|] == a;
  }

  /** Past the first separator, the last field is that of the rest. */
  lemma LastOfRest(s: string, sep: char, from: nat)
    requires from <= |s| && FirstFrom(s, sep, from) < |s|
    ensures var r := Fields(s, sep, from); var rest := Fields(s, sep, FirstFrom(s, sep, from) + 1);
      r[|r| - 1] == rest[|rest| - 1]
  {
  }

  /** After the last separator at index `k`, the rest is the last field. */
  lemma {:induction false} LastFieldAt(s: string, sep: char, from: nat, k: nat)
    requires from <= k < |s| && s[k] == sep
    requires forall j :: k < j < |s| ==> s[j] != sep
    ensures var r := Fields(s, sep, from); r[|r| - 1] == s[k + 1..]
    decreases k - from
  {
    var i := FirstFrom(s, sep, from);
    FirstFromIsFirst(s, sep, from, k);
    LastOfRest(s, sep, from);
    if i == k {
      assert FirstFrom(s, sep, k + 1) == |s|;
    } else {
      LastFieldAt(s, sep, i + 1, k);
    }
  }

  /** The last field is what follows the last separator. */
  lemma SplitLastField(a: string, sep: char, b: string)
    requires sep !in b
    ensures var r := Split(a + [sep] + b, sep); r[|r| - 1] == b
  {
    var s := a + [sep] + b;
    assert s[|a|] == sep;
    forall j | |a| < j < |s| ensures s[j] != sep { assert s[j] == b[j - |a| - 1]; }
    assert s[|a| + 1..] == b;
    LastFieldAt(s, sep, 0, |a|);
  }

  /** `s.startsWith(p)`. */
  predicate StartsWith(s: string, p: string) {
    |p| <= |s| && s[..|p|] == p
  }

  /** JavaScript's `<` on strings: lexicographic by character, a proper
      prefix coming first. */
  predicate StrLess(a: string, b: string)
    decreases |a|
  {
    if b == [] then false
    else if a == [] then true
    else if a[0] != b[0] then a[0] < b[0]
    else StrLess(a[1..], b[1..])
  }

  /** Of two different strings exactly one is less than the other. */
  lemma {:induction false} StrLessTrichotomy(a: string, b: string)
    ensures StrLess(a, b) || StrLess(b, a) || a == b
    ensures !(StrLess(a, b) && StrLess(b, a))
    decreases |a|
  {
    if a != [] && b != [] && a[0] == b[0] {
      StrLessTrichotomy(a[1..], b[1..]);
      if a[1..] == b[1..] {
        assert a == [a[0]] + a[1..] && b == [b[0]] + b[1..];
      }
    }
  }

  lemma {:induction false} StrLessTrans(a: string, b: string, c: string)
    requires StrLess(a, b) && StrLess(b, c)
    ensures StrLess(a, c)
    decreases |a|
  {
    if a != [] && a[0] == b[0] && b[0] == c[0] {
      StrLessTrans(a[1..], b[1..], c[1..]);
    }
  }

  /** `t` occurs in `s` as a contiguous substring (`s.includes(t)`). */
  ghost predicate Contains(s: string, t: string) {
    exists i :: OccursAt(s, t, i)
  }

  /** `t` occurs in `s` starting at index `i`. */
  predicate OccursAt(s: string, t: string, i: int) {
    0 <= i <= |s| - |t| && s[i..i + |t|] == t
  }

  function LowerChar(c: char): char {
    if 'A' <= c <= 'Z' then (c as int + 32) as char else c
  }

  /** `toLowerCase` restricted to ASCII letters. */
  function ToLower(s: string): (r: string)
    ensures |r| == |s|
    ensures forall i :: 0 <= i < |s| ==> r[i] == LowerChar(s[i])
  {
    seq(|s|, i requires 0 <= i < |s| => LowerChar(s[i]))
  }

  /** Lower-casing leaves no capital, changes only the capitals, and maps
      each capital to its own small letter. */
  lemma ToLowerLowers(s: string)
    ensures forall i :: 0 <= i < |s| ==> !('A' <= ToLower(s)[i] <= 'Z')
    ensures forall i :: 0 <= i < |s| && !('A' <= s[i] <= 'Z') ==> ToLower(s)[i] == s[i]
    ensures forall i :: 0 <= i < |s| && 'A' <= s[i] <= 'Z' ==>
      'a' <= ToLower(s)[i] <= 'z' && ToLower(s)[i] as int - s[i] as int == 32
  {
  }

  /** Lower-casing twice is lower-casing once. */
  lemma ToLowerIdempotent(s: string)
    ensures ToLower(ToLower(s)) == ToLower(s)
  {
    ToLowerLowers(s);
  }

  predicate IsDigit(c: char) {
    '0' <= c <= '9'
  }

  function DigitChar(d: nat): (c: char)
    requires d < 10
    ensures IsDigit(c)
  {
    ('0' as int + d) as char
  }

  /** Decimal rendering of `n`, as a template literal renders a non-negative integer. */
  function NatToString(n: nat): (r: string)
    ensures r != [] && forall i :: 0 <= i < |r| ==> IsDigit(r[i])
  {
    if n < 10 then [DigitChar(n)] else NatToString(n / 10) + [DigitChar(n % 10)]
  }

  /** The value of a string of decimal digits. */
  function ParseNat(s: string): nat
    requires forall i :: 0 <= i < |s| ==> IsDigit(s[i])
  {
    if s == [] then 0
    else
      assert IsDigit(s[|s| - 1]);
      10 * ParseNat(s[..|s| - 1]) + (s[|s| - 1] as int - '0' as int)
  }

  /** Rendering is invertible, so distinct numbers give distinct texts. */
  lemma {:induction false} ParseNatToString(n: nat)
    ensures ParseNat(NatToString(n)) == n
  {
    var r := NatToString(n);
    if n >= 10 {
      ParseNatToString(n / 10);
      assert r[..|r| - 1] == NatToString(n / 10);
    }
  }

  lemma NatToStringInjective(a: nat, b: nat)
    requires NatToString(a) == NatToString(b)
    ensures a == b
  {
    ParseNatToString(a);
    ParseNatToString(b);
  }
}
