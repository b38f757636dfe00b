/** String helpers shared by the model: decimal rendering and parsing (Python's
    `str(int)`, `int(str)` and `%02d`-style padding), `str.strip`, prefixes and
    joins. */
module Strings {
  import opened Chars

  datatype CharClass = Digits | WordChars | UrlChars | Spaces

  predicate InClass(k: CharClass, c: char) {
    match k
    case Digits => IsDigit(c)
    case WordChars => IsWordChar(c)
    case UrlChars => IsUrlChar(c)
    case Spaces => IsSpace(c)
  }

  /** Length of the longest prefix of `s` drawn from class `k` (a greedy `k+`,
      or 0 when even one character is missing). */
  function Run(k: CharClass, s: string): (n: nat)
    ensures n <= |s|
    ensures forall i :: 0 <= i < n ==> InClass(k, s[i])
    ensures n == |s| || !InClass(k, s[n])
  {
    if |s| > 0 && InClass(k, s[0]) then 1 + Run(k, s[1..]) else 0
  }

  /** A run is pinned down by where the class stops. */
  lemma RunStopsAt(k: CharClass, s: string, n: nat)
    requires n <= |s|
    requires forall i :: 0 <= i < n ==> InClass(k, s[i])
    requires n == |s| || !InClass(k, s[n])
    ensures Run(k, s) == n
  {
  }

  predicate AllDigits(s: string) {
    forall i :: 0 <= i < |s| ==> IsDigit(s[i])
  }

  /** The digits a greedy `\d+` consumed. */
  lemma DigitRunIsDigits(s: string)
    ensures AllDigits(s[..Run(Digits, s)])
  {
    var n := Run(Digits, s);
    assert forall i :: 0 <= i < n ==> s[..n][i] == s[i];
  }

  predicate HasPrefix(s: string, p: string) {
    |p| <= |s| && s[..|p|] == p
  }

  predicate HasSuffix(s: string, p: string) {
    |p| <= |s| && s[|s| - |p|..] == p
  }

  function DigitChar(d: nat): (c: char)
    requires d < 10
    ensures IsDigit(c)
  {
    "0123456789"[d]
  }

  function DigitValue(c: char): nat
    requires IsDigit(c)
  {
    (c as int - '0' as int) as nat
  }

  lemma DigitValueOfDigitChar(d: nat)
    requires d < 10
    ensures DigitValue(DigitChar(d)) == d
  {
  }

  /** Python's `str(n)` for a non-negative integer. */
  function NatToString(n: nat): (r: string)
    ensures |r| > 0 && AllDigits(r)
    ensures |r| > 1 ==> r[0] != '0'
    decreases n
  {
    if n < 10 then [DigitChar(n)] else NatToString(n / 10) + [DigitChar(n % 10)]
  }

  /** Python's `str(i)`: a minus sign for negative values. */
  function IntToString(i: int): (r: string)
    ensures |r| > 0
    ensures i < 0 <==> r[0] == '-'
  {
    if i < 0 then "-" + NatToString(-i) else NatToString(i)
  }

  /** Python's `int(s)` on a string of decimal digits (leading zeros allowed). */
  function DecimalValue(s: string): nat
    requires AllDigits(s)
  {
    if |s| == 0 then 0 else 10 * DecimalValue(s[..|s| - 1]) + DigitValue(s[|s| - 1])
  }

  lemma {:induction false} DecimalValueOfNatToString(n: nat)
    ensures DecimalValue(NatToString(n)) == n
    decreases n
  {
    if n >= 10 {
      var r := NatToString(n);
      assert r[..|r| - 1] == NatToString(n / 10);
      DecimalValueOfNatToString(n / 10);
    }
  }

  lemma NatToStringInjective(a: nat, b: nat)
    requires NatToString(a) == NatToString(b)
    ensures a == b
  {
    DecimalValueOfNatToString(a);
    DecimalValueOfNatToString(b);
  }

  /** Python's `str(i)` names a single integer. */
  lemma IntToStringInjective(a: int, b: int)
    requires IntToString(a) == IntToString(b)
    ensures a == b
  {
    if a < 0 && b < 0 {
      assert NatToString(-a) == IntToString(a)[1..] == IntToString(b)[1..] == NatToString(-b);
      NatToStringInjective(-a, -b);
    } else if a >= 0 && b >= 0 {
      NatToStringInjective(a, b);
    }
  }

  function Zeros(n: nat): (r: string)
    ensures |r| == n && AllDigits(r)
    ensures forall i :: 0 <= i < n ==> r[i] == '0'
  {
    seq(n, _ => '0')
  }

  lemma {:induction false} DecimalValueIgnoresLeadingZeros(z: nat, s: string)
    requires AllDigits(s)
    ensures DecimalValue(Zeros(z) + s) == DecimalValue(s)
    decreases |s|
  {
    if |s| == 0 {
      DecimalValueOfZeros(z);
      assert Zeros(z) + s == Zeros(z);
    } else {
      var t := Zeros(z) + s;
      assert t[..|t| - 1] == Zeros(z) + s[..|s| - 1];
      DecimalValueIgnoresLeadingZeros(z, s[..|s| - 1]);
    }
  }

  lemma {:induction false} DecimalValueOfZeros(z: nat)
    ensures DecimalValue(Zeros(z)) == 0
  {
    if z > 0 {
      assert Zeros(z)[..z - 1] == Zeros(z - 1);
      DecimalValueOfZeros(z - 1);
    }
  }

  /** `n` rendered in decimal and left-padded with zeros to at least `width`
      characters, as `%02d`, `%04d` and strftime's `%m`/`%d`/`%H` do. */
  function ZeroPad(n: nat, width: nat): (r: string)
    ensures AllDigits(r)
    ensures |r| == if |NatToString(n)| >= width then |NatToString(n)| else width
  {
    var s := NatToString(n);
    if |s| >= width then s else Zeros(width - |s|) + s
  }

  lemma DecimalValueOfZeroPad(n: nat, width: nat)
    ensures DecimalValue(ZeroPad(n, width)) == n
  {
    var s := NatToString(n);
    var z := if |s| >= width then 0 else width - |s|;
    assert ZeroPad(n, width) == Zeros(z) + s by {
      assert Zeros(0) + s == s;
    }
    DecimalValueOfNatToString(n);
    DecimalValueIgnoresLeadingZeros(z, s);
  }

  /** `NatToString(n)` has at most `k` digits exactly when `n < 10^k`. */
  lemma {:induction false} NatToStringLength(n: nat, k: nat)
    requires n < Pow10(k)
    ensures |NatToString(n)| <= k || (n == 0 && k == 0)
    decreases n
  {
    if n >= 10 {
      assert k > 0;
      NatToStringLength(n / 10, k - 1);
    }
  }

  /** `NatToString(n)` has more than `k` digits when `n >= 10^k`. */
  lemma {:induction false} NatToStringAtLeast(n: nat, k: nat)
    requires Pow10(k) <= n
    ensures |NatToString(n)| > k
    decreases k
  {
    if k > 0 {
      NatToStringAtLeast(n / 10, k - 1);
    }
  }

  function Pow10(k: nat): (r: nat)
    ensures r > 0
  {
    if k == 0 then 1 else 10 * Pow10(k - 1)
  }

  lemma ZeroPadWidth(n: nat, width: nat)
    requires 0 < width && n < Pow10(width)
    ensures |ZeroPad(n, width)| == width
  {
    NatToStringLength(n, width);
  }

  /** Drops the leading characters that belong to `drop`. */
  function TrimStart(s: string, drop: set<char>): (r: string)
    ensures |r| <= |s| && r == s[|s| - |r|..]
    ensures |r| > 0 ==> r[0] !in drop
    ensures forall i :: 0 <= i < |s| - |r| ==> s[i] in drop
  {
    if |s| > 0 && s[0] in drop then TrimStart(s[1..], drop) else s
  }

  /** Drops the trailing characters that belong to `drop`. */
  function TrimEnd(s: string, drop: set<char>): (r: string)
    ensures |r| <= |s| && r == s[..|r|]
    ensures |r| > 0 ==> r[|r| - 1] !in drop
    ensures forall i :: |r| <= i < |s| ==> s[i] in drop
  {
    if |s| > 0 && s[|s| - 1] in drop then TrimEnd(s[..|s| - 1], drop) else s
  }

  /** Python's `s.strip(chars)`: both ends trimmed of the characters in `drop`. */
  function StripChars(s: string, drop: set<char>): (r: string)
    ensures |r| <= |s|
    ensures |r| > 0 ==> r[0] !in drop && r[|r| - 1] !in drop
  {
    TrimEnd(TrimStart(s, drop), drop)
  }

  /** Where the stripped text starts in its input. */
  function StripOffset(s: string, drop: set<char>): nat {
    |s| - |TrimStart(s, drop)|
  }

  /** Stripping keeps one contiguous piece of its input. */
  lemma StripCharsSlice(s: string, drop: set<char>)
    ensures StripOffset(s, drop) + |StripChars(s, drop)| <= |s|
    ensures StripChars(s, drop) == s[StripOffset(s, drop)..StripOffset(s, drop) + |StripChars(s, drop)|]
  {
    var t := TrimStart(s, drop);
    var a := |s| - |t|;
    assert StripChars(s, drop) == t[..|StripChars(s, drop)|];
  }

  /** Python's `s.strip()`: both ends trimmed of whitespace. */
  function Strip(s: string): (r: string)
    ensures |r| <= |s|
    ensures |r| > 0 ==> !IsSpace(r[0]) && !IsSpace(r[|r| - 1])
  {
    StripChars(s, Whitespace)
  }

  lemma TrimStartNoop(s: string, drop: set<char>)
    requires |s| == 0 || s[0] !in drop
    ensures TrimStart(s, drop) == s
  {
  }

  lemma TrimEndNoop(s: string, drop: set<char>)
    requires |s| == 0 || s[|s| - 1] !in drop
    ensures TrimEnd(s, drop) == s
  {
  }

  lemma StripCharsNoop(s: string, drop: set<char>)
    requires |s| == 0 || (s[0] !in drop && s[|s| - 1] !in drop)
    ensures StripChars(s, drop) == s
  {
  }

  /** `", ".join(parts)` */
  function Join(sep: string, parts: seq<string>): string {
    if |parts| == 0 then ""
    else if |parts| == 1 then parts[0]
    else parts[0] + sep + Join(sep, parts[1..])
  }

  /** A string is the text before position `k`, the character there, and
      the text after it. */
  lemma SplitAround(s: string, k: nat)
    requires k < |s|
    ensures s == s[..k] + [s[k]] + s[k + 1..]
  {
  }

  /** The three pieces of `a + [sep] + b` sit where they were put. */
  lemma JoinPieces(a: string, sep: char, b: string)
    ensures (a + [sep] + b)[..|a|] == a
    ensures (a + [sep] + b)[|a|] == sep
    ensures (a + [sep] + b)[|a| + 1..] == b
  {
    var s := a + [sep] + b;
    assert s[..|a|] == a;
    assert s[|a| + 1..] == b;
  }

  /** In `a + [sep] + b` with `sep` absent from `a`, the first `sep` is at `|a|`. */
  lemma FirstSeparator(a: string, b: string, sep: char)
    requires sep !in a
    ensures (a + [sep] + b)[|a|] == sep
    ensures forall i :: 0 <= i < |a| ==> (a + [sep] + b)[i] != sep
  {
    forall i | 0 <= i < |a|
      ensures (a + [sep] + b)[i] != sep
    {
      assert (a + [sep] + b)[i] == a[i];
    }
  }

  /** Splitting at the first occurrence of a separator character: when neither
      left-hand side contains it, the two halves are determined. */
  lemma SplitAtFirst(a: string, b: string, c: string, d: string, sep: char)
    requires sep !in a && sep !in c
    requires a + [sep] + b == c + [sep] + d
    ensures a == c && b == d
  {
    var x := a + [sep] + b;
    FirstSeparator(a, b, sep);
    FirstSeparator(c, d, sep);
    assert |a| == |c|;
    assert a == x[..|a|] == c;
    assert b == x[|a| + 1..] == d;
  }

  /** `s.split(sep)[-1]`: the text after the last `sep`, or all of `s` when it
      has none. */
  function LastSegment(s: string, sep: char): (r: string)
    ensures sep !in r
    ensures HasSuffix(s, r)
    ensures |r| < |s| ==> s[|s| - |r| - 1] == sep
  {
    if |s| == 0 then s
    else if s[|s| - 1] == sep then []
    else LastSegment(s[..|s| - 1], sep) + [s[|s| - 1]]
  }

  /** The last segment is what follows the final separator. */
  lemma LastSegmentAfter(a: string, b: string, sep: char)
    requires sep !in b
    ensures LastSegment(a + [sep] + b, sep) == b
  {
    var s := a + [sep] + b;
    var r := LastSegment(s, sep);
    assert s[|a|] == sep;
    assert |r| == |b|;
    assert r == s[|s| - |b|..] == b;
  }
}
