/** Character-sequence helpers standing for the C and C++ string routines the
    client relies on: the NUL-terminated view of a buffer (`c_str()`, `%s`,
    `strstr`), `std::string::find`/`rfind`, `substr` with its clamped count,
    and `snprintf("%d")`. */
module Strings {
  import opened Wrappers

  const NUL: char := '\0'

  /** Width of `size_t`: `std::string::size_type` arithmetic wraps modulo this. */
  const SizeModulus: int := 0x1_0000_0000_0000_0000

  /** What a C routine sees of a buffer: everything before its first NUL. */
  function CString(s: string): (r: string)
    ensures r <= s
    ensures NUL !in r
    ensures |r| == |s| || s[|r|] == NUL
  {
    if |s| == 0 || s[0] == NUL then [] else [s[0]] + CString(s[1..])
  }

  /** `s.find(c)`: the position of the first occurrence of `c`. */
  function IndexOf(s: string, c: char): (r: Option<nat>)
    ensures r.Some? ==> r.value < |s| && s[r.value] == c && c !in s[..r.value]
    ensures r.None? <==> c !in s
  {
    if |s| == 0 then None
    else if s[0] == c then Some(0)
    else match IndexOf(s[1..], c)
      case None => None
      case Some(i) =>
        assert s[..i + 1] == [s[0]] + s[1..][..i];
        Some(i + 1)
  }

  /** `s.erase(s.find(c))` when `c` occurs: everything before the first `c`. */
  function CutAtFirst(s: string, c: char): (r: string)
    ensures r <= s
    ensures c !in r
    ensures |r| == |s| || s[|r|] == c
  {
    match IndexOf(s, c)
    case None => s
    case Some(n) => s[..n]
  }

  /** A position holding `c` with no `c` before it is the first occurrence. */
  lemma IndexOfIs(s: string, c: char, k: nat)
    requires k < |s| && s[k] == c && c !in s[..k]
    ensures IndexOf(s, c) == Some(k)
  {
    assert IndexOf(s, c).Some?;
  }

  /** A character missing from a suffix is missing from every shorter suffix. */
  lemma AbsentFromLaterSlice(s: string, c: char, i: nat, j: nat)
    requires i <= j <= |s|
    requires c !in s[i..]
    ensures c !in s[j..]
  {
    assert s[j..] == s[i..][j - i..];
  }

  /** A character missing from a sequence is missing from its prefixes. */
  lemma AbsentFromPrefix(a: string, b: string, c: char)
    requires a <= b
    requires c !in b
    ensures c !in a
  {
    assert forall k :: 0 <= k < |a| ==> a[k] == b[k];
  }

  /** Cutting at the first `c` stops where a `c`-free prefix ends in one. */
  lemma CutBeforeMark(a: string, b: string, c: char)
    requires c !in a
    requires |b| > 0 && b[0] == c
    ensures CutAtFirst(a + b, c) == a
  {
    assert (a + b)[..|a|] == a;
    IndexOfIs(a + b, c, |a|);
  }

  /** The three parts of a concatenation are read back by position. */
  lemma Framed(head: string, middle: string, tail: string)
    ensures var s := head + middle + tail;
      && |s| >= |head| + |tail|
      && head <= s
      && s[|s| - |tail|..] == tail
      && s[|head|..|s| - |tail|] == middle
  {
  }

  /** `s.rfind(c)`: the position of the last occurrence of `c`. */
  function LastIndexOf(s: string, c: char): (r: Option<nat>)
    ensures r.Some? ==> r.value < |s| && s[r.value] == c && c !in s[r.value + 1..]
    ensures r.None? <==> c !in s
  {
    if |s| == 0 then None
    else if s[|s| - 1] == c then Some(|s| - 1)
    else
      var r := LastIndexOf(s[..|s| - 1], c);
      assert s == s[..|s| - 1] + [s[|s| - 1]];
      r
  }

  /** An occurrence with none after it is the one `rfind` reports. */
  lemma LastIndexOfIs(s: string, c: char, k: nat)
    requires k < |s| && s[k] == c && c !in s[k + 1..]
    ensures LastIndexOf(s, c) == Some(k)
  {
    assert LastIndexOf(s, c).Some?;
  }

  /** `pat` appears in `s` starting at position `i`. */
  predicate OccursAt(s: string, pat: string, i: nat) {
    i + |pat| <= |s| && s[i..i + |pat|] == pat
  }

  /** `s.find(pat, from)`: the first position at or after `from` where `pat` occurs. */
  function FindFrom(s: string, pat: string, from: nat): (r: Option<nat>)
    ensures r.Some? ==> from <= r.value && OccursAt(s, pat, r.value)
    ensures r.Some? ==> forall j :: from <= j < r.value ==> !OccursAt(s, pat, j)
    ensures r.None? ==> forall j :: from <= j ==> !OccursAt(s, pat, j)
    decreases |s| - from
  {
    if from + |pat| > |s| then None
    else if s[from..from + |pat|] == pat then Some(from)
    else FindFrom(s, pat, from + 1)
  }

  /** `s.find(pat)`: the first position where `pat` occurs. */
  function Find(s: string, pat: string): (r: Option<nat>)
    ensures r.Some? ==> OccursAt(s, pat, r.value)
    ensures r.Some? ==> forall j :: 0 <= j < r.value ==> !OccursAt(s, pat, j)
    ensures r.None? <==> forall j :: 0 <= j ==> !OccursAt(s, pat, j)
  {
    FindFrom(s, pat, 0)
  }

  /** `s.find(pat) != npos` (also `strstr(s, pat) != NULL` on a NUL-free `s`). */
  predicate Contains(s: string, pat: string) {
    Find(s, pat).Some?
  }

  /** A text placed between two others is found in the whole. */
  lemma ContainsMiddle(a: string, x: string, b: string)
    ensures Contains(a + x + b, x)
  {
    var s := a + x + b;
    assert s[|a|..|a| + |x|] == x;
    assert OccursAt(s, x, |a|);
  }

  /** A text ending in `x` contains it. */
  lemma ContainsSuffix(a: string, x: string)
    ensures Contains(a + x, x)
  {
    assert (a + x)[|a|..|a| + |x|] == x;
    assert OccursAt(a + x, x, |a|);
  }

  /** Whatever follows a text does not hide what it contains. */
  lemma ContainsExtend(s: string, t: string, x: string)
    requires Contains(s, x)
    ensures Contains(s + t, x)
  {
    var k := Find(s, x).value;
    assert (s + t)[k..k + |x|] == s[k..k + |x|];
    assert OccursAt(s + t, x, k);
  }

  /** An occurrence with none before it is the one `find` reports. */
  lemma FindIsFirst(s: string, pat: string, k: nat)
    requires OccursAt(s, pat, k)
    requires forall j :: 0 <= j < k ==> !OccursAt(s, pat, j)
    ensures Find(s, pat) == Some(k)
  {
    assert Find(s, pat).Some?;
  }

  /** `s.substr(pos, count)`: at most `count` characters starting at `pos`. */
  function Substr(s: string, pos: nat, count: nat): (r: string)
    requires pos <= |s|
    ensures r <= s[pos..]
    ensures |r| == if count < |s| - pos then count else |s| - pos
  {
    if count < |s| - pos then s[pos..pos + count] else s[pos..]
  }

  /** Conversion of a (possibly negative) difference to `size_t`. */
  function ToSize(x: int): (r: nat)
    ensures r < SizeModulus
    ensures 0 <= x < SizeModulus ==> r == x
    ensures -SizeModulus <= x < 0 ==> r == x + SizeModulus
  {
    x % SizeModulus
  }

  /** A count computed as `end - pos` in `size_t` takes exactly the
      characters before `end` when `end` is at or after `pos`. */
  lemma SubstrUpTo(s: string, pos: nat, end: nat)
    requires |s| < SizeModulus
    requires pos <= end < |s|
    ensures Substr(s, pos, ToSize(end - pos)) == s[pos..end]
  {
    assert ToSize(end - pos) == end - pos;
  }

  /** When `end` is before `pos` the count wraps around and the substring
      runs to the end of `s`. */
  lemma SubstrWrapped(s: string, pos: nat, end: nat)
    requires |s| < SizeModulus
    requires end < pos <= |s|
    ensures Substr(s, pos, ToSize(end - pos)) == s[pos..]
  {
    assert ToSize(end - pos) == end - pos + SizeModulus;
  }

  // ---------------------------------------------------------------------
  // Decimal rendering, as `snprintf(buf, n, "%d", v)` produces it.

  predicate IsDigit(c: char) {
    '0' <= c <= '9'
  }

  predicate AllDigits(s: string) {
    forall i :: 0 <= i < |s| ==> IsDigit(s[i])
  }

  function DigitValue(c: char): (d: nat)
    requires IsDigit(c)
    ensures d < 10
  {
    (c as int - '0' as int) as nat
  }

  /** The character of a decimal digit; its value reads back. */
  function DigitChar(d: nat): (c: char)
    requires d < 10
    ensures IsDigit(c) && DigitValue(c) == d
  {
    ('0' as int + d) as char
  }

  /** The decimal digits of `n`, most significant first, with no leading zero. */
  function NatToDecimal(n: nat): (r: string)
    ensures |r| > 0 && AllDigits(r)
    ensures |r| > 1 ==> r[0] != '0'
  {
    if n < 10 then [DigitChar(n)]
    else NatToDecimal(n / 10) + [DigitChar(n % 10)]
  }

  /** The number a run of decimal digits denotes. */
  function DecimalValue(s: string): nat
    requires AllDigits(s)
  {
    if |s| == 0 then 0
    else DecimalValue(s[..|s| - 1]) * 10 + DigitValue(s[|s| - 1])
  }

  /** `%d`: an optional minus sign followed by the digits of the magnitude. */
  function IntToDecimal(n: int): (r: string)
    ensures |r| > 0
    ensures n < 0 <==> r[0] == '-'
    ensures n >= 0 ==> AllDigits(r)
    ensures n < 0 ==> AllDigits(r[1..])
  {
    if n < 0 then "-" + NatToDecimal(-n) else NatToDecimal(n)
  }

  /** Reads back what `%d` printed; None for anything `%d` never prints. */
  function ParseDecimal(s: string): Option<int> {
    if |s| > 1 && s[0] == '-' && AllDigits(s[1..]) then Some(-(DecimalValue(s[1..]) as int))
    else if |s| > 0 && AllDigits(s) then Some(DecimalValue(s))
    else None
  }

  lemma {:induction false} NatToDecimalValue(n: nat)
    ensures DecimalValue(NatToDecimal(n)) == n
    decreases n
  {
    if n >= 10 {
      var r := NatToDecimal(n);
      var p := NatToDecimal(n / 10);
      assert r == p + [DigitChar(n % 10)];
      assert r[..|r| - 1] == p;
      NatToDecimalValue(n / 10);
    }
  }

  /** A minus sign followed by the digits of `m` reads as `-m`. */
  lemma ParseSigned(d: string, m: nat)
    requires |d| > 0 && AllDigits(d) && DecimalValue(d) == m
    ensures ParseDecimal("-" + d) == Some(-(m as int))
  {
    assert ("-" + d)[1..] == d;
  }

  /** `%d` of a negative number is the sign followed by the magnitude's digits. */
  lemma NegativeDecimal(n: int)
    requires n < 0
    ensures IntToDecimal(n) == "-" + NatToDecimal(-n)
  {
  }

  /** A negative number is read back from the digits after its sign. */
  lemma NegativeDecimalRoundTrip(n: int)
    requires n < 0
    ensures ParseDecimal(IntToDecimal(n)) == Some(n)
  {
    var d := NatToDecimal(-n);
    NatToDecimalValue(-n);
    NegativeDecimal(n);
    ParseSigned(d, -n);
  }

  /** `%d` loses nothing: the printed text determines the number. */
  lemma IntToDecimalRoundTrip(n: int)
    ensures ParseDecimal(IntToDecimal(n)) == Some(n)
  {
    if n < 0 {
      NegativeDecimalRoundTrip(n);
    } else {
      NatToDecimalValue(n);
      assert IntToDecimal(n)[0] != '-';
    }
  }
}
