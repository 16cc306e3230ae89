/**
 * The few Python string and POSIX path operations the pipeline relies on,
 * each stated for the argument shapes the pipeline passes them.
 */
module Text {
  import opened Wrappers

  /** `s.rfind(c)`: index of the last occurrence of `c`, or -1. */
  function LastIndexOf(s: string, c: char): (i: int)
    ensures -1 <= i < |s|
    ensures i >= 0 ==> s[i] == c
    ensures forall j :: i < j < |s| ==> s[j] != c
  {
    if s == [] then -1
    else if s[|s| - 1] == c then |s| - 1
    else LastIndexOf(s[..|s| - 1], c)
  }

  /** Appending text free of `c` does not move the last occurrence of `c`. */
  lemma {:induction false} LastIndexOfAppend(x: string, y: string, c: char)
    requires c !in y
    ensures LastIndexOf(x + y, c) == LastIndexOf(x, c)
  {
    if y != [] {
      var y' := y[..|y| - 1];
      assert (x + y)[..|x + y| - 1] == x + y';
      LastIndexOfAppend(x, y', c);
    } else {
      assert x + y == x;
    }
  }

  /** `posixpath.basename(p)`: the text after the last '/'. */
  function Basename(p: string): (b: string)
    ensures '/' !in b
    ensures |b| <= |p| && p[|p| - |b|..] == b
    ensures |b| == |p| - LastIndexOf(p, '/') - 1
  {
    p[LastIndexOf(p, '/') + 1..]
  }

  /** `posixpath.join(dir, name)` for two components. */
  function Join(dir: string, name: string): string
  {
    if |name| > 0 && name[0] == '/' then name
    else if dir == [] || dir[|dir| - 1] == '/' then dir + name
    else dir + "/" + name
  }

  /** Joining a directory with a plain file name and taking the basename gives the name back. */
  lemma BasenameOfJoin(dir: string, name: string)
    requires '/' !in name
    ensures Basename(Join(dir, name)) == name
  {
    var prefix := if dir == [] || dir[|dir| - 1] == '/' then dir else dir + "/";
    assert Join(dir, name) == prefix + name;
    LastIndexOfAppend(prefix, name, '/');
    assert LastIndexOf(prefix, '/') == |prefix| - 1;
  }

  /**
   * `posixpath.splitext(p)`: the extension starts at the last '.' of the final
   * component, unless everything before that dot in the component is dots.
   */
  function SplitExt(p: string): (r: (string, string))
    ensures r.0 + r.1 == p
    ensures r.1 == [] || (r.1[0] == '.' && '.' !in r.1[1..] && '/' !in r.1)
    ensures r.1 != [] ==> |r.0| == LastIndexOf(p, '.')
    ensures r.1 != [] <==>
              LastIndexOf(p, '/') < LastIndexOf(p, '.') &&
              exists j :: LastIndexOf(p, '/') < j < LastIndexOf(p, '.') && p[j] != '.'
  {
    var sep := LastIndexOf(p, '/');
    var dot := LastIndexOf(p, '.');
    if dot > sep && exists j | sep < j < dot :: p[j] != '.' then
      assert p[dot..][1..] == p[dot + 1..];
      (p[..dot], p[dot..])
    else
      (p, [])
  }

  /** `pat` occurs in `s` starting at index `j`. */
  predicate OccursAt(s: string, pat: string, j: nat)
  {
    j + |pat| <= |s| && s[j..j + |pat|] == pat
  }

  /** Lowest index at or after `from` where `pat` occurs in `s`, or -1 (`s.find(pat, from)`). */
  function Find(s: string, pat: string, from: nat): (i: int)
    requires |pat| > 0
    ensures i == -1 || (from <= i && OccursAt(s, pat, i))
    ensures forall j: nat :: from <= j && (i == -1 || j < i) ==> !OccursAt(s, pat, j)
    decreases |s| - from
  {
    if from + |pat| > |s| then -1
    else if s[from..from + |pat|] == pat then from
    else Find(s, pat, from + 1)
  }

  /** `s.split(sep)[0]`: the text before the first occurrence of `sep`, or all of `s`. */
  function BeforeFirst(s: string, sep: string): (r: string)
    requires |sep| > 0
    ensures |r| <= |s| && s[..|r|] == r
    ensures |r| < |s| ==> OccursAt(s, sep, |r|)
    ensures forall j: nat :: !OccursAt(r, sep, j)
    ensures forall j: nat :: j < |r| ==> !OccursAt(s, sep, j)
  {
    var i := Find(s, sep, 0);
    if i < 0 then s
    else
      assert forall j: nat :: OccursAt(s[..i], sep, j) ==> OccursAt(s, sep, j) by {
        forall j: nat | OccursAt(s[..i], sep, j) ensures OccursAt(s, sep, j) {
          assert s[..i][j..j + |sep|] == s[j..j + |sep|];
        }
      }
      s[..i]
  }

  /** `s.split(c)` for a one-character separator. */
  function Split(s: string, c: char): (parts: seq<string>)
    ensures |parts| >= 1
    ensures forall k :: 0 <= k < |parts| ==> c !in parts[k]
    ensures parts[|parts| - 1] == s[LastIndexOf(s, c) + 1..]
    ensures |parts| > 1 <==> c in s
  {
    var i := LastIndexOf(s, c);
    if i < 0 then [s] else Split(s[..i], c) + [s[i + 1..]]
  }

  /** `c.join(parts)`: the inverse of `Split`. */
  function JoinOn(parts: seq<string>, c: char): string
    requires |parts| >= 1
  {
    if |parts| == 1 then parts[0] else JoinOn(parts[..|parts| - 1], c) + [c] + parts[|parts| - 1]
  }

  /** Splitting and joining back on the same separator gives the original text. */
  lemma {:induction false} SplitJoin(s: string, c: char)
    ensures JoinOn(Split(s, c), c) == s
  {
    var i := LastIndexOf(s, c);
    if i >= 0 {
      var prefix := Split(s[..i], c);
      var parts := prefix + [s[i + 1..]];
      assert Split(s, c) == parts;
      assert parts[..|parts| - 1] == prefix && parts[|parts| - 1] == s[i + 1..];
      SplitJoin(s[..i], c);
      assert JoinOn(parts, c) == s[..i] + [c] + s[i + 1..];
      SplitAround(s, i);
    }
  }

  /** A text is what comes before position `i`, the character there, and what comes after. */
  lemma SplitAround(s: string, i: nat)
    requires i < |s|
    ensures s[..i] + [s[i]] + s[i + 1..] == s
  {
    assert s[i..] == [s[i]] + s[i + 1..];
    assert s[..i] + s[i..] == s;
  }

  /** `str.upper()` restricted to ASCII letters. */
  function UpperChar(ch: char): char
  {
    if 'a' <= ch <= 'z' then (ch as int - 32) as char else ch
  }

  function Upper(s: string): (r: string)
    ensures |r| == |s|
    ensures forall i :: 0 <= i < |s| ==> r[i] == UpperChar(s[i])
  {
    if s == [] then [] else Upper(s[..|s| - 1]) + [UpperChar(s[|s| - 1])]
  }

  lemma UpperIs(s: string, t: string)
    requires |s| == |t| && forall i :: 0 <= i < |s| ==> UpperChar(s[i]) == t[i]
    ensures Upper(s) == t
  {
  }

  /** `s.endswith(suffix)`. */
  predicate EndsWith(s: string, suffix: string)
  {
    |suffix| <= |s| && s[|s| - |suffix|..] == suffix
  }

  // ---------------------------------------------------------------------------
  // Decimal text: `str(n)`, `f"{n}"`, `strftime("%m")` and `int(s)`.

  predicate IsDigit(ch: char)
  {
    '0' <= ch <= '9'
  }

  predicate AllDigits(s: string)
  {
    forall i :: 0 <= i < |s| ==> IsDigit(s[i])
  }

  function DigitChar(d: nat): (ch: char)
    requires d < 10
    ensures IsDigit(ch)
  {
    ('0' as int + d) as char
  }

  /** The value of a string of decimal digits, most significant first. */
  function DigitsValue(s: string): nat
    requires AllDigits(s)
  {
    if s == [] then 0 else 10 * DigitsValue(s[..|s| - 1]) + (s[|s| - 1] as int - '0' as int)
  }

  /** `str(n)` for a non-negative integer: digits without leading zeros. */
  function NatToDecimal(n: nat): (s: string)
    ensures |s| >= 1 && AllDigits(s)
    ensures s[0] == '0' ==> n == 0
    decreases n
  {
    if n < 10 then [DigitChar(n)] else NatToDecimal(n / 10) + [DigitChar(n % 10)]
  }

  /** `strftime("%m")`: the month as two digits, zero-padded. */
  function TwoDigits(m: nat): (s: string)
    requires m < 100
    ensures |s| == 2 && AllDigits(s) && DigitsValue(s) == m
  {
    var s := [DigitChar(m / 10), DigitChar(m % 10)];
    assert s[..1][..0] == [] && s[..2][..1] == s[..1] && s[..2] == s;
    assert DigitsValue(s[..1]) == m / 10;
    s
  }

  /** `int(s)` on an optional sign followed by decimal digits; anything else raises `ValueError`. */
  function ParseInt(s: string): (r: Option<int>)
    ensures r.Some? ==> |s| >= 1
  {
    if |s| >= 2 && s[0] == '-' && AllDigits(s[1..]) then Some(0 - DigitsValue(s[1..]))
    else if |s| >= 2 && s[0] == '+' && AllDigits(s[1..]) then Some(DigitsValue(s[1..]))
    else if |s| >= 1 && AllDigits(s) then Some(DigitsValue(s))
    else None
  }

  lemma {:induction false} DigitsOfDecimal(n: nat)
    ensures DigitsValue(NatToDecimal(n)) == n
    decreases n
  {
    if n >= 10 {
      var s := NatToDecimal(n);
      assert s[..|s| - 1] == NatToDecimal(n / 10);
      DigitsOfDecimal(n / 10);
    }
  }

  /** Reading back the decimal text of a count with `int` gives the count. */
  lemma DecimalRoundTrip(n: nat)
    ensures ParseInt(NatToDecimal(n)) == Some(n)
  {
    DigitsOfDecimal(n);
  }

  /** Distinct counts have distinct decimal texts. */
  lemma DecimalInjective(a: nat, b: nat)
    requires NatToDecimal(a) == NatToDecimal(b)
    ensures a == b
  {
    DecimalRoundTrip(a);
    DecimalRoundTrip(b);
  }
}
